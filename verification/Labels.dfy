/** Labels as the account's devices report them, in any order and more than once. */
module Labels {
  import opened Strings
  import opened Wrappers

  // ----- a chat's label -----

  /** A row of `chat_labels`, or the event that would write it. */
  datatype Mark = Mark(labeled: bool, ms: int)

  /** `storeChatLabel`'s upsert on one row: newer wins, and at the same moment an unlabel does. */
  function Upsert(row: Option<Mark>, e: Mark): Option<Mark> {
    match row
    case None => Some(e)
    case Some(r) => if e.ms > r.ms || (e.ms == r.ms && (!e.labeled || r.labeled)) then Some(e) else row
  }

  function Applied(events: seq<Mark>): Option<Mark> {
    if events == [] then None else Upsert(Applied(events[..|events| - 1]), events[|events| - 1])
  }

  /** The mark a set of events calls for, said without an order: the latest moment, labeled unless unlabeled then. */
  ghost predicate Decides(events: set<Mark>, m: Mark) {
    && m in events && (forall e :: e in events ==> e.ms <= m.ms)
    && (forall e :: e in events && e.ms == m.ms && !e.labeled ==> !m.labeled)
  }

  lemma DecisionUnique(events: set<Mark>, m: Mark, n: Mark)
    requires Decides(events, m) && Decides(events, n)
    ensures m == n
  {
  }

  function Events(events: seq<Mark>): set<Mark> {
    set e | e in events
  }

  lemma {:induction false} AppliedDecides(events: seq<Mark>)
    requires events != []
    ensures Applied(events).Some? && Decides(Events(events), Applied(events).value)
    decreases |events|
  {
    var n := |events| - 1;
    assert events == events[..n] + [events[n]];
    assert Events(events) == Events(events[..n]) + {events[n]};
    if n == 0 {
      assert Events(events) == {events[0]};
    } else {
      AppliedDecides(events[..n]);
    }
  }

  lemma EventsEmpty(events: seq<Mark>)
    ensures Events(events) == {} <==> events == []
  {
    if events != [] {
      assert events[0] in Events(events);
    }
  }

  /** Order and duplicates do not matter. */
  lemma SameEventsSameRow(a: seq<Mark>, b: seq<Mark>)
    requires Events(a) == Events(b)
    ensures Applied(a) == Applied(b)
  {
    EventsEmpty(a);
    EventsEmpty(b);
    if a != [] {
      AppliedDecides(a);
      AppliedDecides(b);
      DecisionUnique(Events(a), Applied(a).value, Applied(b).value);
    }
  }

  /** `ORDER BY action_ms DESC, labeled ASC LIMIT 1` over a chat's row and its twin's. */
  function Merge(a: Option<Mark>, b: Option<Mark>): Option<Mark> {
    if a.None? then b
    else if b.None? then a
    else if a.value.ms > b.value.ms || (a.value.ms == b.value.ms && !a.value.labeled) then a
    else b
  }

  /** Merging two twin rows when reading is the same as having sent both chats' events to one row. */
  lemma TwinMergeIsUnion(a: seq<Mark>, b: seq<Mark>)
    ensures Merge(Applied(a), Applied(b)) == Applied(a + b)
  {
    assert Events(a + b) == Events(a) + Events(b);
    if a == [] {
      assert a + b == b;
    } else if b == [] {
      assert a + b == a;
    } else {
      AppliedDecides(a);
      AppliedDecides(b);
      AppliedDecides(a + b);
      DecisionUnique(Events(a + b), Merge(Applied(a), Applied(b)).value, Applied(a + b).value);
    }
  }

  // ----- the catalog -----

  datatype Label = Label(name: string, color: int, deleted: bool, ms: int)

  /** `storeLabel`'s upsert; a deletion without a name keeps the name on record. */
  function UpsertLabel(row: Option<Label>, e: Label): Option<Label> {
    match row
    case None => Some(e)
    case Some(r) =>
      if e.ms > r.ms || (e.ms == r.ms && (e.deleted || !r.deleted))
      then Some(e.(name := if e.deleted && e.name == "" then r.name else e.name))
      else row
  }

  function AppliedLabels(events: seq<Label>): Option<Label> {
    if events == [] then None else UpsertLabel(AppliedLabels(events[..|events| - 1]), events[|events| - 1])
  }

  /** What the catalog knows about deletion is a mark too, with the opposite sense. */
  function DeletionMark(e: Label): Mark {
    Mark(!e.deleted, e.ms)
  }

  function DeletionMarks(events: seq<Label>): seq<Mark> {
    seq(|events|, i requires 0 <= i < |events| => DeletionMark(events[i]))
  }

  lemma {:induction false} DeletionFollowsMarks(events: seq<Label>)
    ensures var row, mark := AppliedLabels(events), Applied(DeletionMarks(events));
            (row.None? <==> mark.None?) && (row.Some? ==> DeletionMark(row.value) == mark.value)
    decreases |events|
  {
    if events != [] {
      var n := |events| - 1;
      DeletionFollowsMarks(events[..n]);
      assert DeletionMarks(events)[..n] == DeletionMarks(events[..n]);
    }
  }

  /** Whether a label is deleted depends only on which events arrived. */
  lemma DeletionIgnoresOrder(a: seq<Label>, b: seq<Label>)
    requires Events(DeletionMarks(a)) == Events(DeletionMarks(b)) && a != [] && b != []
    ensures AppliedLabels(a).Some? && AppliedLabels(b).Some?
    ensures AppliedLabels(a).value.deleted == AppliedLabels(b).value.deleted
    ensures AppliedLabels(a).value.ms == AppliedLabels(b).value.ms
  {
    DeletionFollowsMarks(a);
    DeletionFollowsMarks(b);
    SameEventsSameRow(DeletionMarks(a), DeletionMarks(b));
    AppliedDecides(DeletionMarks(a));
  }

  /** Its name and colour do not enjoy that: two edits of the same millisecond keep the one that came last. */
  lemma NamesDependOnOrder(x: Label, y: Label)
    requires x.ms == y.ms && !x.deleted && !y.deleted && x.name != y.name
    ensures AppliedLabels([x, y]) != AppliedLabels([y, x])
  {
    assert [x, y][..1] == [x] && [y, x][..1] == [y] && [x][..0] == [] && [y][..0] == [];
    assert AppliedLabels([x]) == Some(x) && AppliedLabels([y]) == Some(y);
  }

  // ----- the tables -----

  datatype Key = Key(chat: string, id: string)

  datatype Listed = Listed(id: string, row: Label)

  predicate Ascending(labels: seq<Listed>) {
    forall i, j :: 0 <= i < j < |labels| ==> Less(labels[i].id, labels[j].id)
  }

  lemma AppliedNothing()
    ensures Applied([]) == None && AppliedLabels([]) == None
  {
  }

  lemma AppliedNext(before: seq<Mark>, e: Mark)
    ensures Applied(before + [e]) == Upsert(Applied(before), e)
  {
    assert (before + [e])[..|before|] == before;
  }

  lemma AppliedLabelsNext(before: seq<Label>, e: Label)
    ensures AppliedLabels(before + [e]) == UpsertLabel(AppliedLabels(before), e)
  {
    assert (before + [e])[..|before|] == before;
  }

  /** The least of some identifiers. */
  method Least(ids: set<string>) returns (m: string)
    requires ids != {}
    ensures m in ids && forall x :: x in ids && x != m ==> Less(m, x)
  {
    m :| m in ids;
    var todo := ids - {m};
    while todo != {}
      invariant todo <= ids && m in ids
      invariant forall x :: x in ids && x !in todo && x != m ==> Less(m, x)
    {
      var x :| x in todo;
      LessTotal(m, x);
      if Less(x, m) {
        forall y | y in ids && y !in todo && y != m ensures Less(x, y) {
          LessTransitive(x, m, y);
        }
        m := x;
      }
      todo := todo - {x};
    }
  }

  class LabelStore {
    var marks: map<Key, Mark>
    var catalog: map<string, Label>
    /** Every event each row has seen. */
    ghost var seen: map<Key, seq<Mark>>
    ghost var edits: map<string, seq<Label>>

    ghost predicate Valid()
      reads this
    {
      && marks.Keys == seen.Keys && (forall k :: k in marks ==> Applied(seen[k]) == Some(marks[k]))
      && catalog.Keys == edits.Keys && (forall l :: l in catalog ==> AppliedLabels(edits[l]) == Some(catalog[l]))
    }

    constructor ()
      ensures Valid() && marks == map[] && catalog == map[]
    {
      marks, catalog, seen, edits := map[], map[], map[], map[];
    }

    method StoreChatLabel(k: Key, e: Mark)
      requires Valid()
      modifies this
      ensures Valid() && catalog == old(catalog) && edits == old(edits)
      ensures seen == old(seen)[k := old(SeenBy(k)) + [e]]
    {
      hide Applied, AppliedLabels;
      ghost var before := SeenBy(k);
      AppliedNothing();
      AppliedNext(before, e);
      if k !in marks || e.ms > marks[k].ms || (e.ms == marks[k].ms && (!e.labeled || marks[k].labeled)) {
        marks := marks[k := e];
      }
      seen := seen[k := before + [e]];
    }

    method StoreLabel(id: string, e: Label)
      requires Valid()
      modifies this
      ensures Valid() && marks == old(marks) && seen == old(seen)
      ensures edits == old(edits)[id := old(EditsOf(id)) + [e]]
    {
      hide Applied, AppliedLabels;
      ghost var before := EditsOf(id);
      AppliedNothing();
      AppliedLabelsNext(before, e);
      if id !in catalog {
        catalog := catalog[id := e];
      } else if e.ms > catalog[id].ms || (e.ms == catalog[id].ms && (e.deleted || !catalog[id].deleted)) {
        catalog := catalog[id := e.(name := if e.deleted && e.name == "" then catalog[id].name else e.name)];
      }
      edits := edits[id := before + [e]];
    }

    function RowOf(k: Key): Option<Mark>
      reads this
    {
      if k in marks then Some(marks[k]) else None
    }

    ghost function SeenBy(k: Key): seq<Mark>
      reads this
    {
      if k in seen then seen[k] else []
    }

    ghost function EditsOf(id: string): seq<Label>
      reads this
    {
      if id in edits then edits[id] else []
    }

    /** Whether the events of a chat and its verified twin, taken together, leave a label on it. */
    ghost predicate OnChat(id: string, chat: string, twin: string)
      reads this
    {
      var m := Applied(SeenBy(Key(chat, id)) + SeenBy(Key(twin, id))); m.Some? && m.value.labeled
    }

    /** Whether a listing shows a label. */
    ghost predicate Shown(id: string, chats: seq<string>, includeDeleted: bool)
      reads this
    {
      var edited := AppliedLabels(EditsOf(id));
      && edited.Some? && (!edited.value.deleted || includeDeleted)
      && (chats == [] || OnChat(id, chats[0], if |chats| > 1 then chats[1] else ""))
    }

    lemma ShownByRows(id: string, chats: seq<string>, includeDeleted: bool)
      requires Valid()
      ensures var second := if |chats| > 1 then chats[1] else "";
              Shown(id, chats, includeDeleted) <==>
              && id in catalog && (!catalog[id].deleted || includeDeleted)
              && (chats == [] ||
                  var m := Merge(RowOf(Key(chats[0], id)), RowOf(Key(second, id))); m.Some? && m.value.labeled)
    {
      hide Applied, AppliedLabels, Merge;
      AppliedNothing();
      if chats != [] {
        var second := if |chats| > 1 then chats[1] else "";
        TwinMergeIsUnion(SeenBy(Key(chats[0], id)), SeenBy(Key(second, id)));
      }
    }

    /** `listLabels`: the labels to show, with what the catalog says of each, in the order of their identifiers. */
    method ListLabels(chats: seq<string>, includeDeleted: bool) returns (labels: seq<Listed>)
      requires Valid()
      ensures Ascending(labels)
      ensures forall x :: x in labels <==>
              Shown(x.id, chats, includeDeleted) && AppliedLabels(EditsOf(x.id)) == Some(x.row)
    {
      hide Applied, AppliedLabels, Shown, Less;
      labels := [];
      var second := if |chats| > 1 then chats[1] else "";
      var todo := catalog.Keys;
      while todo != {}
        invariant todo <= catalog.Keys
        invariant Ascending(labels) && forall i, x :: 0 <= i < |labels| && x in todo ==> Less(labels[i].id, x)
        invariant forall x :: x in labels <==>
                    x.id in catalog && x.id !in todo && x.row == catalog[x.id] && Shown(x.id, chats, includeDeleted)
      {
        var id := Least(todo);
        ShownByRows(id, chats, includeDeleted);
        var shown := chats == [];
        if !shown {
          var m := Merge(RowOf(Key(chats[0], id)), RowOf(Key(second, id)));
          shown := m.Some? && m.value.labeled;
        }
        if (!catalog[id].deleted || includeDeleted) && shown {
          labels := labels + [Listed(id, catalog[id])];
        }
        todo := todo - {id};
      }
      forall x: Listed ensures Shown(x.id, chats, includeDeleted) ==> x.id in catalog {
        ShownByRows(x.id, chats, includeDeleted);
      }
    }
  }
}
