/**
 The recovery and orphan passes of a sweep, run with no other operation in progress, as functions of
 the pages of rows they select and of where their requests fail. No pass loses a ref whose object is
 stored, and what is left when nothing is left to do is a store whose bucket, catalog and refs agree.
 */
module MediaRecovery {
  import opened Wrappers
  import opened MediaProtocol
  import opened MediaSafety
  import opened MediaSteps
  import opened Sums

  const PAGE_LIMIT := 256

  predicate Idle(s: State) {
    forall h :: h in s.slots ==> s.slots[h].stage == None
  }

  // ----- what each pass does, as functions of the rows it selected -----

  function Marked(s: State): set<Hash> {
    set h | h in s.slots && s.slots[h].marked && s.slots[h].row != None
  }

  function Pending(s: State): set<Hash> {
    set h | h in s.slots && s.slots[h].intent != None
  }

  function Orphans(s: State): set<Hash> {
    set h | h in s.slots && s.slots[h].row != None && RefsTo(s.refs, h) == {}
  }

  /** How the requests for each hash end. */
  type Troubles = Hash -> Trouble

  /** Deletions settled for the hashes in `page`: the row of a missing object goes, with its refs. */
  function Settle(s: State, page: set<Hash>, ts: Troubles): State {
    State(map h | h in s.slots :: if h in page then SettleSlot(s.slots[h], ts(h)) else s.slots[h],
          map k | k in s.refs && !(s.refs[k] in page && SettleDrops(At(s, s.refs[k]), ts(s.refs[k]))) :: s.refs[k],
          s.messages)
  }

  /** Upload intents resolved for the hashes in `page`: an unpublished object goes. */
  function Forget(s: State, page: set<Hash>, ts: Troubles): State {
    s.(slots := map h | h in s.slots :: if h in page then ForgetSlot(s.slots[h], ts(h)) else s.slots[h])
  }

  /** Unreferenced objects in `page` removed. */
  function Collect(s: State, page: set<Hash>, ts: Troubles): State {
    s.(slots := map h | h in s.slots :: if h in page then SweepSlot(s.slots[h], ts(h)) else s.slots[h])
  }

  /** A page holds as many of the available rows as fit. */
  predicate IsPage(page: set<Hash>, available: set<Hash>) {
    page <= available && |page| == if |available| < PAGE_LIMIT then |available| else PAGE_LIMIT
  }

  /** The bytes of the catalog rows, or of the intents, of some hashes. */
  ghost function RowBytes(s: State, page: set<Hash>): nat {
    Total(map h | h in page && At(s, h).row != None :: At(s, h).row.value)
  }

  lemma RowBytesGrows(s: State, page: set<Hash>, h: Hash)
    requires h !in page && At(s, h).row != None
    ensures RowBytes(s, page + {h}) == RowBytes(s, page) + At(s, h).row.value
  {
    var m := map g | g in page && At(s, g).row != None :: At(s, g).row.value;
    TotalInsert(m, h, At(s, h).row.value);
    assert m[h := At(s, h).row.value] == map g | g in page + {h} && At(s, g).row != None :: At(s, g).row.value;
  }

  ghost function IntentBytes(s: State, page: set<Hash>): nat {
    Total(map h | h in page && At(s, h).intent != None :: At(s, h).intent.value)
  }

  lemma IntentBytesGrows(s: State, page: set<Hash>, h: Hash)
    requires h !in page && At(s, h).intent != None
    ensures IntentBytes(s, page + {h}) == IntentBytes(s, page) + At(s, h).intent.value
  {
    var m := map g | g in page && At(s, g).intent != None :: At(s, g).intent.value;
    TotalInsert(m, h, At(s, h).intent.value);
    assert m[h := At(s, h).intent.value] == map g | g in page + {h} && At(s, g).intent != None :: At(s, g).intent.value;
  }

  // ----- what a pass reports -----

  /** The hashes of a page whose removal counts as freed bytes. */
  function Missing(s: State, page: set<Hash>, ts: Troubles): set<Hash> {
    set h | h in page && SettleDrops(At(s, h), ts(h))
  }

  function Unpublished(s: State, page: set<Hash>, ts: Troubles): set<Hash> {
    set h | h in page && At(s, h).row == None && !ForgetFails(At(s, h), ts(h))
  }

  function Collected(page: set<Hash>, ts: Troubles): set<Hash> {
    set h | h in page && ts(h) == Calm
  }

  /** The hashes of a page that each pass counts as failed. */
  function Unsettled(s: State, page: set<Hash>, ts: Troubles): set<Hash> {
    set h | h in page && SettleFails(At(s, h), ts(h))
  }

  function Unforgotten(s: State, page: set<Hash>, ts: Troubles): set<Hash> {
    set h | h in page && ForgetFails(At(s, h), ts(h))
  }

  function Uncollected(page: set<Hash>, ts: Troubles): set<Hash> {
    set h | h in page && ts(h) != Calm
  }

  // ----- one row at a time is the same as the whole page -----

  lemma SettleGrows(s: State, page: set<Hash>, h: Hash, ts: Troubles)
    requires h in s.slots && h !in page && s.slots[h].stage == None
    ensures SettleOne(Settle(s, page, ts), h, ts(h)) == Settle(s, page + {h}, ts)
  {
    var t, u := Settle(s, page, ts), Settle(s, page + {h}, ts);
    assert SettleOne(t, h, ts(h)).slots == u.slots;
    assert SettleOne(t, h, ts(h)).refs == u.refs;
  }

  lemma ForgetGrows(s: State, page: set<Hash>, h: Hash, ts: Troubles)
    requires h in s.slots && h !in page && s.slots[h].stage == None
    ensures ForgetOne(Forget(s, page, ts), h, ts(h)) == Forget(s, page + {h}, ts)
  {
    assert ForgetOne(Forget(s, page, ts), h, ts(h)).slots == Forget(s, page + {h}, ts).slots;
  }

  lemma CollectGrows(s: State, page: set<Hash>, h: Hash, ts: Troubles)
    requires h in s.slots && h !in page && s.slots[h].stage == None && RefsTo(s.refs, h) == {}
    ensures SweepOne(Collect(s, page, ts), h, ts(h)) == Collect(s, page + {h}, ts)
  {
    assert SweepOne(Collect(s, page, ts), h, ts(h)).slots == Collect(s, page + {h}, ts).slots;
  }

  // ----- the invariant and the backlog -----

  /** The work left for recovery. */
  function Backlog(s: State): nat {
    |Marked(s)| + |Pending(s)| + |Orphans(s)|
  }

  lemma SettleKeepsInv(size: Lengths, s: State, page: set<Hash>, ts: Troubles)
    requires Inv(size, s) && Idle(s)
    ensures Inv(size, Settle(s, page, ts)) && Idle(Settle(s, page, ts))
  {
    var t := Settle(s, page, ts);
    forall g ensures Good(size, t, g) {
      assert Good(size, s, g);
      if Referenced(t.refs, g) {
        var k :| k in t.refs && t.refs[k] == g;
        assert s.refs[k] == g;
      }
    }
  }

  lemma ForgetKeepsInv(size: Lengths, s: State, page: set<Hash>, ts: Troubles)
    requires Inv(size, s) && Idle(s)
    ensures Inv(size, Forget(s, page, ts)) && Idle(Forget(s, page, ts))
  {
    forall g ensures Good(size, Forget(s, page, ts), g) {
      assert Good(size, s, g);
    }
  }

  lemma CollectKeepsInv(size: Lengths, s: State, page: set<Hash>, ts: Troubles)
    requires Inv(size, s) && Idle(s) && page <= Orphans(s)
    ensures Inv(size, Collect(s, page, ts)) && Idle(Collect(s, page, ts))
  {
    forall g ensures Good(size, Collect(s, page, ts), g) {
      assert Good(size, s, g);
      if Referenced(s.refs, g) {
        var k :| k in s.refs && s.refs[k] == g;
        assert k in RefsTo(s.refs, g);
      }
    }
  }

  lemma SettleBacklog(size: Lengths, s: State, page: set<Hash>, ts: Troubles)
    requires Inv(size, s) && page <= Marked(s)
    ensures var t := Settle(s, page, ts);
            && Marked(t) <= Marked(s) - (page - Unsettled(s, page, ts))
            && Pending(t) <= Pending(s) && Orphans(t) <= Orphans(s)
  {
    var t := Settle(s, page, ts);
    forall h | h in Orphans(t) ensures h in Orphans(s) {
      assert RefsTo(s.refs, h) <= RefsTo(t.refs, h);
    }
  }

  lemma ForgetBacklog(s: State, page: set<Hash>, ts: Troubles)
    ensures var t := Forget(s, page, ts);
            && Marked(t) <= Marked(s) && Pending(t) <= Pending(s) - (page - Unforgotten(s, page, ts))
            && Orphans(t) <= Orphans(s)
  {
  }

  lemma CollectBacklog(s: State, page: set<Hash>, ts: Troubles)
    ensures var t := Collect(s, page, ts);
            Marked(t) <= Marked(s) && Pending(t) <= Pending(s) && Orphans(t) <= Orphans(s) - Collected(page, ts)
  {
  }

  // ----- what recovery keeps -----

  /** The refs whose object is stored. */
  function Survivors(s: State): map<Key, Hash> {
    map k | k in s.refs && At(s, s.refs[k]).stored != None :: s.refs[k]
  }

  lemma SettleKeepsSurvivors(size: Lengths, s: State, page: set<Hash>, ts: Troubles)
    requires Inv(size, s)
    ensures Survivors(Settle(s, page, ts)) == Survivors(s)
  {
  }

  lemma ForgetKeepsSurvivors(size: Lengths, s: State, page: set<Hash>, ts: Troubles)
    requires Inv(size, s)
    ensures Survivors(Forget(s, page, ts)) == Survivors(s)
  {
    forall k | k in s.refs ensures At(Forget(s, page, ts), s.refs[k]).stored == At(s, s.refs[k]).stored {
      assert Good(size, s, s.refs[k]);
    }
  }

  lemma CollectKeepsSurvivors(s: State, page: set<Hash>, ts: Troubles)
    requires page <= Orphans(s)
    ensures Survivors(Collect(s, page, ts)) == Survivors(s)
  {
    forall k | k in s.refs ensures s.refs[k] !in page {
      assert k in RefsTo(s.refs, s.refs[k]);
    }
  }

  /** Nothing is left to recover, and the bucket, the catalog and the refs name the same hashes. */
  ghost predicate Recovered(s: State) {
    && (forall h :: At(s, h).intent == None && !At(s, h).marked)
    && (forall h :: At(s, h).stored == At(s, h).row)
    && (forall h :: At(s, h).stored != None <==> Referenced(s.refs, h))
  }

  lemma NoBacklogIsRecovered(size: Lengths, s: State)
    requires Inv(size, s) && Backlog(s) == 0
    ensures Recovered(s) && Survivors(s) == s.refs
  {
    assert Marked(s) == {} && Pending(s) == {} && Orphans(s) == {};
    forall h ensures Facts(size(h), h, At(s, h), Referenced(s.refs, h)) && At(s, h).intent == None && !At(s, h).marked
      && (At(s, h).row != None ==> Referenced(s.refs, h))
    {
      assert Good(size, s, h);
      assert h !in Marked(s) && h !in Pending(s) && h !in Orphans(s);
      if At(s, h).row != None {
        var k :| k in RefsTo(s.refs, h);
        assert s.refs[k] == h;
      }
    }
    forall k | k in s.refs ensures At(s, s.refs[k]).stored != None {
      assert Referenced(s.refs, s.refs[k]);
    }
  }
}
