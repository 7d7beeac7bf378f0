/** The keyset order of cached rows, and what a page of them is. */
module MediaPaging {
  import opened Strings
  import opened Wrappers
  import opened MediaProtocol
  import opened MediaRecovery
  import opened MediaPurge

  // ----- the order of `ORDER BY m.timestamp, m.chat_jid, m.id` -----

  /** A position in the walk: the row value that the next page starts after. */
  datatype Cursor = Cursor(stamp: string, chat: string, id: string)

  /** `(m.timestamp, m.chat_jid, m.id) > (?, ?, ?)`, row values compared column by column. */
  predicate Before(a: Cursor, b: Cursor) {
    || Less(a.stamp, b.stamp)
    || (a.stamp == b.stamp && Less(a.chat, b.chat))
    || (a.stamp == b.stamp && a.chat == b.chat && Less(a.id, b.id))
  }

  lemma BeforeTotal(a: Cursor, b: Cursor)
    ensures Before(a, b) || Before(b, a) || a == b
    ensures !(Before(a, b) && Before(b, a)) && !Before(a, a)
  {
    LessTotal(a.stamp, b.stamp);
    LessTotal(a.chat, b.chat);
    LessTotal(a.id, b.id);
    LessTotal(a.stamp, a.stamp);
    LessTotal(a.chat, a.chat);
    LessTotal(a.id, a.id);
  }

  lemma BeforeTransitive(a: Cursor, b: Cursor, c: Cursor)
    requires Before(a, b) && Before(b, c)
    ensures Before(a, c)
  {
    if Less(a.stamp, b.stamp) && Less(b.stamp, c.stamp) { LessTransitive(a.stamp, b.stamp, c.stamp); }
    if Less(a.chat, b.chat) && Less(b.chat, c.chat) { LessTransitive(a.chat, b.chat, c.chat); }
    if Less(a.id, b.id) && Less(b.id, c.id) { LessTransitive(a.id, b.id, c.id); }
  }

  function Position(messages: map<Key, Message>, k: Key): Cursor
    requires k in messages
  {
    Cursor(messages[k].stamp, k.chat, k.id)
  }

  // ----- selections -----

  /** The WHERE clause over the joined message row. */
  type Filter = (Key, Message) -> bool

  function Matching(s: State, filter: Filter): set<Key> {
    set k | k in s.refs && Cached(s, k) && k in s.messages && filter(k, s.messages[k])
  }

  /** The matching rows after a cursor. */
  function After(s: State, keys: set<Key>, cursor: Cursor): set<Key>
    requires keys <= s.messages.Keys
  {
    set k | k in keys && Before(cursor, Position(s.messages, k))
  }

  /** Each row once, in the order of their positions. */
  ghost predicate InOrder(messages: map<Key, Message>, page: seq<Key>)
    requires forall k :: k in page ==> k in messages
  {
    forall i, j :: 0 <= i < j < |page| ==> Before(Position(messages, page[i]), Position(messages, page[j]))
  }

  /** `page` holds the first rows of `keys`, up to the position `next`. */
  ghost predicate HoldsFirst(s: State, keys: set<Key>, page: seq<Key>, next: Cursor)
    requires keys <= s.messages.Keys
  {
    && |page| <= PAGE_LIMIT
    && (forall k :: k in page ==> k in keys)
    && (|page| < PAGE_LIMIT ==> forall k :: k in keys ==> k in page)
    && (page != [] ==> forall k :: k in keys ==> (k in page <==> !Before(next, Position(s.messages, k))))
  }

  /** It holds them in order, and `next` is the position of its last one. */
  ghost predicate IsKeysetPage(s: State, keys: set<Key>, page: seq<Key>, next: Cursor)
    requires keys <= s.messages.Keys
  {
    && HoldsFirst(s, keys, page, next) && InOrder(s.messages, page)
    && (page != [] ==> next == Position(s.messages, page[|page| - 1]))
  }

  // ----- the dry run -----

  /** The objects `drySelection` sums: some ref is selected and no ref is not. */
  ghost predicate DryObject(s: State, filter: Filter, h: Hash) {
    && h in s.slots && s.slots[h].row != None
    && (exists k :: k in s.refs && s.refs[k] == h && k in s.messages && filter(k, s.messages[k]))
    && !(exists k :: k in s.refs && s.refs[k] == h && k in s.messages && !filter(k, s.messages[k]))
  }

  ghost function DrySelection(s: State, filter: Filter): (nat, nat) {
    (|Matching(s, filter)|, RowBytes(s, set h | h in s.slots && DryObject(s, filter, h)))
  }

  /** The set formula of the dry run counts exactly what removing all selected refs would free. */
  lemma DryObjectsAreRemovable(s: State, filter: Filter)
    requires s.refs.Keys <= s.messages.Keys
    ensures (set h | h in s.slots && DryObject(s, filter, h)) == Removable(s, Matching(s, filter))
  {
    var sel := Matching(s, filter);
    forall h | h in s.slots && DryObject(s, filter, h) ensures h in Removable(s, sel) {
      var k :| k in s.refs && s.refs[k] == h && k in s.messages && filter(k, s.messages[k]);
      assert k in RefsTo(s.refs, h);
    }
    forall h | h in Removable(s, sel) ensures DryObject(s, filter, h) {
      var k :| k in RefsTo(s.refs, h);
      assert k in sel;
      forall j | j in s.refs && s.refs[j] == h && j in s.messages ensures filter(j, s.messages[j]) {
        assert j in RefsTo(s.refs, h);
      }
    }
  }

  // ----- a walk of pages -----

  lemma {:induction false} RowBytesUnion(s: State, a: set<Hash>, b: set<Hash>)
    requires a !! b && forall h :: h in b ==> At(s, h).row != None
    ensures RowBytes(s, a + b) == RowBytes(s, a) + RowBytes(s, b)
    decreases |b|
  {
    if b == {} {
      assert a + b == a;
      assert RowBytes(s, {}) == 0;
    } else {
      var h :| h in b;
      RowBytesUnion(s, a, b - {h});
      RowBytesGrows(s, a + (b - {h}), h);
      RowBytesGrows(s, b - {h}, h);
      assert a + (b - {h}) + {h} == a + b;
      assert b - {h} + {h} == b;
    }
  }

  lemma MatchingAfterPurge(s: State, filter: Filter, done: set<Key>)
    requires done <= Matching(s, filter)
    ensures Matching(Purge(s, done), filter) == Matching(s, filter) - done
  {
    var t := Purge(s, done);
    forall k | k in s.refs && k !in done ensures At(t, s.refs[k]) == At(s, s.refs[k]) {
      assert k in RefsTo(s.refs, s.refs[k]);
    }
  }

  /** How far a walk has come: the rows up to the cursor are purged, and counted. */
  ghost predicate WalkedTo(s: State, filter: Filter, done: set<Key>, cursor: Cursor, v: State, files: nat, freed: nat) {
    && done <= Matching(s, filter)
    && done == Matching(s, filter) - After(s, Matching(s, filter), cursor)
    && v == Purge(s, done)
    && files == |done|
    && freed == RowBytes(s, Removable(s, done))
  }

  /** Where a walk begins; a row at this very position would never come after it. */
  const WALK_START := Cursor("", "", "")

  ghost predicate Reachable(s: State, filter: Filter) {
    forall k :: k in Matching(s, filter) ==> Position(s.messages, k) != WALK_START
  }

  lemma StartIsFirst(c: Cursor)
    requires c != WALK_START
    ensures Before(WALK_START, c)
  {
  }

  lemma WalkStart(s: State, filter: Filter)
    requires Reachable(s, filter)
    ensures WalkedTo(s, filter, {}, WALK_START, s, 0, 0)
  {
    forall k | k in Matching(s, filter) ensures Before(WALK_START, Position(s.messages, k)) {
      StartIsFirst(Position(s.messages, k));
    }
    assert After(s, Matching(s, filter), WALK_START) == Matching(s, filter);
    assert Removable(s, {}) == {};
    assert Purge(s, {}).slots == s.slots;
    assert Purge(s, {}).refs == s.refs;
  }

  /** The page after the cursor is what the purged store still matches beyond it. */
  lemma WalkPage(s: State, filter: Filter, done: set<Key>, cursor: Cursor, v: State, files: nat, freed: nat)
    requires WalkedTo(s, filter, done, cursor, v, files, freed)
    ensures Matching(v, filter) == Matching(s, filter) - done && v.messages == s.messages
    ensures After(v, Matching(v, filter), cursor) == Matching(s, filter) - done
  {
    MatchingAfterPurge(s, filter, done);
  }

  function Keys(page: seq<Key>): set<Key> {
    set k | k in page
  }

  lemma ChosenPage(v: State, filter: Filter, page: seq<Key>)
    requires forall k :: k in page ==> k in Matching(v, filter)
    ensures Chosen(v, page) == Keys(page)
  {
  }

  lemma PurgeTotals(s: State, done: set<Key>, keys: set<Key>)
    ensures RowBytes(s, Removable(s, done + keys)) == RowBytes(s, Removable(s, done)) +
            RowBytes(Purge(s, done), Removable(Purge(s, done), keys))
  {
    hide Purge, RowBytes;
    var t := Purge(s, done);
    PurgeRemovable(s, done, keys);
    RowBytesUnion(s, Removable(s, done), Removable(t, keys));
    RemovableRows(s, done, keys);
    SameRowBytes(s, t, Removable(t, keys));
  }

  lemma RemovableRows(s: State, done: set<Key>, keys: set<Key>)
    ensures var t := Purge(s, done); forall h :: h in Removable(t, keys) ==> At(t, h).row == At(s, h).row
  {
  }

  lemma SameRowBytes(s: State, t: State, hashes: set<Hash>)
    requires forall h :: h in hashes ==> At(t, h).row == At(s, h).row
    ensures RowBytes(t, hashes) == RowBytes(s, hashes)
  {
    hide At;
    assert (map h | h in hashes && At(s, h).row != None :: At(s, h).row.value) ==
           (map h | h in hashes && At(t, h).row != None :: At(t, h).row.value);
  }

  lemma WalkNext(s: State, filter: Filter, done: set<Key>, cursor: Cursor, v: State, files: nat, freed: nat,
                 page: seq<Key>, next: Cursor)
    requires WalkedTo(s, filter, done, cursor, v, files, freed) && page != []
    requires HoldsFirst(v, After(v, Matching(v, filter), cursor), page, next)
    requires Before(cursor, next)
    ensures var keys := Keys(page);
            && WalkedTo(s, filter, done + keys, next, Purge(v, Chosen(v, page)),
                 files + Files(Report(v, page)), freed + Bytes(Report(v, page)))
            && keys !! done && keys != {}
  {
    var sel, keys := Matching(s, filter), Keys(page);
    WalkPage(s, filter, done, cursor, v, files, freed);
    assert forall k :: k in page ==> k in After(v, Matching(v, filter), cursor);
    ChosenPage(v, filter, page);
    ReportTotals(v, page);
    PurgeTwice(s, done, keys);
    PurgeTotals(s, done, keys);
    assert page[0] in keys;
    WalkedKeys(s, sel, done, cursor, keys, next);
  }

  /** Moving the cursor past a page leaves exactly the later rows. */
  lemma WalkedKeys(s: State, sel: set<Key>, done: set<Key>, cursor: Cursor, keys: set<Key>, next: Cursor)
    requires sel <= s.messages.Keys && done == sel - After(s, sel, cursor) && Before(cursor, next)
    requires keys <= sel - done
    requires forall k :: k in sel - done ==> (k in keys <==> !Before(next, Position(s.messages, k)))
    ensures done + keys == sel - After(s, sel, next)
  {
    forall k | k in done ensures !Before(next, Position(s.messages, k)) {
      if Before(next, Position(s.messages, k)) {
        BeforeTransitive(cursor, next, Position(s.messages, k));
      }
    }
  }

  /** Where deleting a page leads, and when it was the last one. */
  lemma PageLeads(s: State, filter: Filter, done: set<Key>, cursor: Cursor, v: State, files: nat, freed: nat,
                  page: seq<Key>, next: Cursor)
    requires WalkedTo(s, filter, done, cursor, v, files, freed)
    requires HoldsFirst(v, After(v, Matching(v, filter), cursor), page, next)
    requires page != [] ==> Before(cursor, next)
    ensures page != [] ==> WalkedTo(s, filter, done + Keys(page), next, Purge(v, Chosen(v, page)),
                             files + Files(Report(v, page)), freed + Bytes(Report(v, page)))
    ensures page != [] ==> done < done + Keys(page)
    ensures |page| <= PAGE_LIMIT && (|page| < PAGE_LIMIT ==> done + Keys(page) == Matching(s, filter))
  {
    WalkPage(s, filter, done, cursor, v, files, freed);
    if page != [] {
      WalkNext(s, filter, done, cursor, v, files, freed, page, next);
    }
    if |page| < PAGE_LIMIT {
      LastPage(Matching(s, filter), done, page);
    }
  }

  lemma LastPage(all: set<Key>, done: set<Key>, page: seq<Key>)
    requires done <= all && (forall k :: k in page ==> k in all - done) && (forall k :: k in all - done ==> k in page)
    ensures done + Keys(page) == all
  {
  }
}
