/**
 `Delete` reads the selected refs and then counts all refs of the object in two statements. A ref
 can leave the hash between the two reads without taking the hash's lock, so equal counts do not
 always mean that every remaining ref was selected. This module follows a delete from its lock to
 the cascade that drops the refs, gives the exact condition under which only selected rows lose
 theirs, and a run in which purging one message takes away the object another message still used.
 */
module MediaDeleteRace {
  import opened Wrappers
  import opened MediaProtocol
  import opened Sums

  lemma EqualCountSubset<T>(a: set<T>, b: set<T>)
    requires |a| == |b| && a <= b
    ensures a == b
  {
    if x :| x in b && x !in a {
      SubsetSize(a, b - {x});
    }
  }

  lemma SameSize<T>(a: set<T>, b: set<T>)
    requires |a| == |b|
    ensures a <= b <==> a == b
    ensures b <= a <==> a == b
  {
    if a <= b { EqualCountSubset(a, b); }
    if b <= a { EqualCountSubset(b, a); }
  }

  // ----- a delete from its lock to its cascade -----

  /** A stretch of a run: the states it passes through and the events between them. */
  datatype Trace = Trace(states: seq<State>, events: seq<Event>)

  ghost predicate IsTrace(size: Lengths, tr: Trace) {
    && |tr.states| == |tr.events| + 1
    && forall i :: 0 <= i < |tr.events| ==>
         Enabled(tr.states[i], tr.events[i]) && tr.states[i + 1] == Next(size, tr.states[i], tr.events[i])
  }

  function StageAt(tr: Trace, i: nat, h: Hash): Option<Stage>
    requires i < |tr.states|
  {
    At(tr.states[i], h).stage
  }

  function RefsAt(tr: Trace, i: nat, h: Hash): set<Key>
    requires i < |tr.states|
  {
    RefsTo(tr.states[i].refs, h)
  }

  /**
   The trace begins when a delete of `rows` locks `h` and ends with the statement that drops the
   catalog row and, by cascade, the refs; in between the lock is never given up.
   */
  ghost predicate IsDeletion(size: Lengths, tr: Trace, h: Hash, rows: set<Key>) {
    && IsTrace(size, tr) && |tr.events| > 1 && tr.events[0] == Lock(h, DeleteCheck(rows))
    && (forall i :: 0 < i < |tr.events| ==> StageAt(tr, i, h) != None)
    && StageAt(tr, |tr.events| - 1, h) == Some(DeleteRow) && tr.events[|tr.events| - 1] == Request(h, Done)
  }

  /** Only a request under the hash's own lock, or losing it, changes its stage. */
  lemma StageMoves(size: Lengths, s: State, e: Event, h: Hash)
    requires Enabled(s, e) && At(s, h).stage != None && At(Next(size, s, e), h).stage != None
    ensures (e.Request? && e.hash == h) || At(Next(size, s, e), h) == At(s, h)
  {
  }

  /** The stage before each of a delete's later stages. */
  predicate Follows(st: Stage, next: Stage) {
    || (st.DeleteCheck? && next.DeleteCount?)
    || (st.DeleteCount? && next.DeleteMark?)
    || (st.DeleteMark? && next.DeleteRemote?)
    || (st.DeleteRemote? && next.DeleteRow?)
  }

  predicate Later(st: Stage) {
    st.DeleteCount? || st.DeleteMark? || st.DeleteRemote? || st.DeleteRow?
  }

  lemma CameFrom(size: Lengths, s: State, e: Event, h: Hash, st: Stage)
    requires Enabled(s, e) && At(s, h).stage != None && At(Next(size, s, e), h).stage == Some(st) && Later(st)
    ensures At(s, h).stage == Some(st) || (e == Request(h, Done) && Follows(At(s, h).stage.value, st))
  {
    hide StepOf;
    StageMoves(size, s, e, h);
    if e.Request? && e.hash == h {
      var x := At(s, h);
      var eff := StepOf(size(h), h, x, s.refs, s.messages, x.stage.value, e.reply);
      assert At(Apply(s, h, eff), h) == eff.slot;
      StageFrom(size(h), h, x, s.refs, s.messages, x.stage.value, e.reply, st);
    }
  }

  lemma StageFrom(n: nat, h: Hash, x: Slot, refs: map<Key, Hash>, messages: map<Key, Message>,
                  from: Stage, reply: Reply, st: Stage)
    requires StepOf(n, h, x, refs, messages, from, reply).slot.stage == Some(st) && Later(st)
    ensures reply == Done && Follows(from, st)
  {
  }

  /** Where a delete entered the stage it is in. */
  lemma {:induction false} Entered(size: Lengths, tr: Trace, h: Hash, rows: set<Key>, i: nat, st: Stage)
    returns (j: nat)
    requires IsDeletion(size, tr, h, rows) && 0 < i < |tr.events| && StageAt(tr, i, h) == Some(st) && Later(st)
    ensures 0 < j < i && tr.events[j] == Request(h, Done) && StageAt(tr, j, h) != None
    ensures Follows(StageAt(tr, j, h).value, st) && StageAt(tr, j + 1, h) == Some(st)
    ensures forall k :: j < k <= i ==> StageAt(tr, k, h) == Some(st)
    decreases i
  {
    hide StepOf;
    assert tr.states[1] == Next(size, tr.states[0], tr.events[0]);
    assert StageAt(tr, 1, h) == Some(DeleteCheck(rows));
    assert Enabled(tr.states[i - 1], tr.events[i - 1]) && StageAt(tr, i - 1, h) != None;
    CameFrom(size, tr.states[i - 1], tr.events[i - 1], h, st);
    if StageAt(tr, i - 1, h) == Some(st) {
      j := Entered(size, tr, h, rows, i - 1, st);
    } else {
      j := i - 1;
    }
  }

  /** Until its check a delete is where its lock put it. */
  lemma {:induction false} Checking(size: Lengths, tr: Trace, h: Hash, rows: set<Key>, i: nat, asked: set<Key>)
    requires IsDeletion(size, tr, h, rows) && 0 < i < |tr.events| && StageAt(tr, i, h) == Some(DeleteCheck(asked))
    ensures asked == rows
    decreases i
  {
    if i == 1 {
      assert tr.states[1] == Next(size, tr.states[0], tr.events[0]);
    } else {
      assert Enabled(tr.states[i - 1], tr.events[i - 1]) && StageAt(tr, i - 1, h) != None;
      CheckCameFrom(size, tr.states[i - 1], tr.events[i - 1], h, asked);
      Checking(size, tr, h, rows, i - 1, asked);
    }
  }

  lemma CheckCameFrom(size: Lengths, s: State, e: Event, h: Hash, asked: set<Key>)
    requires Enabled(s, e) && At(s, h).stage != None && At(Next(size, s, e), h).stage == Some(DeleteCheck(asked))
    ensures At(s, h).stage == Some(DeleteCheck(asked))
  {
    hide StepOf;
    StageMoves(size, s, e, h);
    if e.Request? && e.hash == h {
      var x := At(s, h);
      NeverChecksAgain(size(h), h, x, s.refs, s.messages, x.stage.value, e.reply);
    }
  }

  lemma NeverChecksAgain(n: nat, h: Hash, x: Slot, refs: map<Key, Hash>, messages: map<Key, Message>,
                         from: Stage, reply: Reply)
    ensures var next := StepOf(n, h, x, refs, messages, from, reply).slot.stage;
            next == None || !next.value.DeleteCheck?
  {
  }

  // ----- what happens to the refs meanwhile -----

  predicate Deleting(s: State, h: Hash) {
    At(s, h).stage != None && IsDelete(At(s, h).stage.value)
  }

  /** While a delete holds the lock the object gains no ref. */
  lemma RefsShrink(size: Lengths, s: State, e: Event, h: Hash)
    requires Enabled(s, e) && Deleting(s, h)
    ensures RefsTo(Next(size, s, e).refs, h) <= RefsTo(s.refs, h)
  {
  }

  /** The request commits content for the row `k`. */
  predicate Publishes(size: Lengths, s: State, e: Event, k: Key)
    requires Enabled(s, e) && e.Request?
  {
    var x := At(s, e.hash);
    StepOf(size(e.hash), e.hash, x, s.refs, s.messages, x.stage.value, e.reply).change == Attach(k)
  }

  /** The events that take a ref away: its row is deleted, or other content is published for that row. */
  predicate Takes(size: Lengths, s: State, e: Event, k: Key)
    requires Enabled(s, e)
  {
    e == DropMessage(k) || (e.Request? && Publishes(size, s, e, k))
  }

  /** While the delete goes on these, and no others, take a ref off its object. */
  lemma TakenBy(size: Lengths, s: State, e: Event, h: Hash, k: Key)
    requires Enabled(s, e) && Deleting(s, h) && Deleting(Next(size, s, e), h) && k in RefsTo(s.refs, h)
    ensures k !in RefsTo(Next(size, s, e).refs, h) <==> Takes(size, s, e, k)
  {
  }

  /** From the `i`-th state to the `j`-th the object gains no ref. */
  ghost predicate Shrinking(tr: Trace, h: Hash, i: nat, j: nat) {
    i <= j < |tr.states| && forall n :: i <= n < j ==> RefsAt(tr, n + 1, h) <= RefsAt(tr, n, h)
  }

  lemma ShrinksWhileDeleting(size: Lengths, tr: Trace, h: Hash, i: nat, j: nat)
    requires IsTrace(size, tr) && i <= j < |tr.states|
    requires forall n :: i <= n < j ==> Deleting(tr.states[n], h)
    ensures Shrinking(tr, h, i, j)
  {
    hide RefsTo, Next, Enabled, Deleting;
    forall n | i <= n < j ensures RefsAt(tr, n + 1, h) <= RefsAt(tr, n, h) {
      assert Deleting(tr.states[n], h);
      RefsShrink(size, tr.states[n], tr.events[n], h);
    }
  }

  lemma {:induction false} ShrinkingAlong(tr: Trace, h: Hash, i: nat, j: nat)
    requires Shrinking(tr, h, i, j)
    ensures RefsAt(tr, j, h) <= RefsAt(tr, i, h)
    decreases j - i
  {
    hide RefsAt;
    if i < j {
      ShrinkingAlong(tr, h, i, j - 1);
      assert RefsAt(tr, j - 1 + 1, h) <= RefsAt(tr, j - 1, h);
    }
  }

  /** No event from the `i`-th state to the `j`-th takes one of these refs. */
  ghost predicate Untaken(size: Lengths, tr: Trace, keys: set<Key>, i: nat, j: nat)
    requires IsTrace(size, tr) && j < |tr.states|
  {
    forall n, k :: i <= n < j && k in keys ==> !Takes(size, tr.states[n], tr.events[n], k)
  }

  lemma {:induction false} UntakenIff(size: Lengths, tr: Trace, h: Hash, keys: set<Key>, i: nat, j: nat)
    requires IsTrace(size, tr) && Shrinking(tr, h, i, j) && keys <= RefsAt(tr, i, h)
    requires forall n :: i <= n <= j ==> Deleting(tr.states[n], h)
    ensures Untaken(size, tr, keys, i, j) <==> keys <= RefsAt(tr, j, h)
    decreases j - i
  {
    hide RefsTo, Takes, Deleting, Next, Enabled;
    if i < j {
      var n := j - 1;
      UntakenIff(size, tr, h, keys, i, n);
      assert RefsAt(tr, n + 1, h) <= RefsAt(tr, n, h);
      assert Untaken(size, tr, keys, i, j) <==>
             Untaken(size, tr, keys, i, n) && forall k :: k in keys ==> !Takes(size, tr.states[n], tr.events[n], k);
      assert Deleting(tr.states[n], h) && Deleting(tr.states[n + 1], h);
      forall k | k in keys && k in RefsAt(tr, n, h)
        ensures k in RefsAt(tr, n + 1, h) <==> !Takes(size, tr.states[n], tr.events[n], k)
      {
        TakenBy(size, tr.states[n], tr.events[n], h, k);
      }
    }
  }

  // ----- the theorem -----

  /** Where the delete made its two reads, and what the first selected. */
  lemma Reads(size: Lengths, tr: Trace, h: Hash, rows: set<Key>) returns (check: nat, count: nat)
    requires IsDeletion(size, tr, h, rows)
    ensures 0 < check < count < |tr.events| - 1
    ensures tr.events[check] == Request(h, Done) && StageAt(tr, check, h) == Some(DeleteCheck(rows))
    ensures tr.events[count] == Request(h, Done)
    ensures StageAt(tr, count, h) == Some(DeleteCount(rows * RefsAt(tr, check, h)))
    ensures |RefsAt(tr, count, h)| == |rows * RefsAt(tr, check, h)|
    ensures RefsAt(tr, check + 1, h) == RefsAt(tr, check, h)
    ensures forall n :: check < n < |tr.events| ==> Deleting(tr.states[n], h)
  {
    hide StepOf, Next, Enabled, RefsTo;
    var last := |tr.events| - 1;
    var removed := Entered(size, tr, h, rows, last, DeleteRow);
    var marked := Entered(size, tr, h, rows, removed, DeleteRemote);
    count := Entered(size, tr, h, rows, marked, DeleteMark);
    var selected := StageAt(tr, count, h).value.selected;
    check := Entered(size, tr, h, rows, count, DeleteCount(selected));
    Checking(size, tr, h, rows, check, StageAt(tr, check, h).value.rows);
    CheckReads(size, tr.states[check], h, rows, selected);
    CountReads(size, tr.states[count], h, selected);
    forall n | check < n < |tr.events| ensures Deleting(tr.states[n], h) {
      assert StageAt(tr, n, h) != None && IsDelete(StageAt(tr, n, h).value);
    }
  }

  lemma CheckReads(size: Lengths, s: State, h: Hash, rows: set<Key>, selected: set<Key>)
    requires At(s, h).stage == Some(DeleteCheck(rows))
    requires At(Next(size, s, Request(h, Done)), h).stage == Some(DeleteCount(selected))
    ensures selected == rows * RefsTo(s.refs, h) && Next(size, s, Request(h, Done)).refs == s.refs
  {
  }

  lemma CountReads(size: Lengths, s: State, h: Hash, selected: set<Key>)
    requires At(s, h).stage == Some(DeleteCount(selected))
    requires At(Next(size, s, Request(h, Done)), h).stage == Some(DeleteMark)
    ensures |RefsTo(s.refs, h)| == |selected|
  {
  }

  lemma CascadeDrops(size: Lengths, tr: Trace, h: Hash, rows: set<Key>)
    requires IsDeletion(size, tr, h, rows)
    ensures RefsAt(tr, |tr.events|, h) == {}
  {
    assert tr.states[|tr.events|] == Next(size, tr.states[|tr.events| - 1], Request(h, Done));
  }

  /** The refs the cascade drops were selected exactly if each other ref that was counted is taken before it. */
  lemma DroppedWereSelectedIff(size: Lengths, tr: Trace, h: Hash, selected: set<Key>, count: nat, last: nat)
    requires IsTrace(size, tr) && Shrinking(tr, h, count, last)
    requires forall n :: count <= n <= last ==> Deleting(tr.states[n], h)
    ensures RefsAt(tr, last, h) <= selected <==>
            forall k :: k in RefsAt(tr, count, h) - selected ==> !Untaken(size, tr, {k}, count, last)
  {
    hide Deleting, RefsAt, Untaken, Next, Enabled;
    ShrinkingAlong(tr, h, count, last);
    forall k | k in RefsAt(tr, count, h) ensures k in RefsAt(tr, last, h) <==> Untaken(size, tr, {k}, count, last) {
      UntakenIff(size, tr, h, {k}, count, last);
    }
  }

  /**
   A delete counts the refs of its object after it has selected some. The refs it counts were all
   selected if and only if no event between the two reads took a selected one. The refs the cascade
   drops were all selected if and only if every other counted ref is taken before the cascade, and
   they are exactly the selected ones if and only if no selected ref was taken before the cascade.
   */
  lemma RemovalIsExactIff(size: Lengths, tr: Trace, h: Hash, rows: set<Key>) returns (check: nat, count: nat)
    requires IsDeletion(size, tr, h, rows)
    ensures 0 < check < count < |tr.events| - 1
    ensures tr.events[check] == Request(h, Done) && StageAt(tr, check, h) == Some(DeleteCheck(rows))
    ensures var selected, last := rows * RefsAt(tr, check, h), |tr.events| - 1;
            && tr.events[count] == Request(h, Done) && StageAt(tr, count, h) == Some(DeleteCount(selected))
            && (RefsAt(tr, count, h) <= selected <==> Untaken(size, tr, selected, check + 1, count))
            && (RefsAt(tr, last, h) <= selected <==>
                forall k :: k in RefsAt(tr, count, h) - selected ==> !Untaken(size, tr, {k}, count, last))
            && (RefsAt(tr, last, h) == selected <==> Untaken(size, tr, selected, check + 1, last))
    ensures RefsAt(tr, |tr.events|, h) == {}
  {
    hide StepOf, Next, Enabled, RefsTo, Deleting, RefsAt, Untaken;
    check, count := Reads(size, tr, h, rows);
    var last := |tr.events| - 1;
    var selected := rows * RefsAt(tr, check, h);
    ShrinksWhileDeleting(size, tr, h, check + 1, last);
    ShrinkingAlong(tr, h, count, last);
    UntakenIff(size, tr, h, selected, check + 1, count);
    UntakenIff(size, tr, h, selected, check + 1, last);
    DroppedWereSelectedIff(size, tr, h, selected, count, last);
    SameSize(RefsAt(tr, count, h), selected);
    CascadeDrops(size, tr, h, rows);
  }

  // ----- a run in which the condition fails -----

  lemma Extend(size: Lengths, events: seq<Event>, e: Event)
    requires Runnable(size, events) && Enabled(Execute(size, events), e)
    ensures Runnable(size, events + [e])
    ensures Execute(size, events + [e]) == Next(size, Execute(size, events), e)
  {
    assert (events + [e])[..|events|] == events;
  }

  ghost predicate Runs(size: Lengths, events: seq<Event>, s: State) {
    Runnable(size, events) && Execute(size, events) == s
  }

  function Published(n: nat): Slot {
    Slot(Some(n), Some(n), false, None, None)
  }

  function AfterPut(size: Lengths, s: State, h: Hash, row: Key): State
    requires row in s.messages
  {
    State(s.slots[h := Published(size(h))], s.refs[row := h], s.messages[row := s.messages[row].(sha := Some(h))])
  }

  lemma OneReply(size: Lengths, events: seq<Event>, s: State, t: State, h: Hash)
    requires Runs(size, events, s) && At(s, h).stage != None && t == Next(size, s, Request(h, Done))
    ensures Runs(size, events + [Request(h, Done)], t)
  {
    Extend(size, events, Request(h, Done));
  }

  /** An uninterrupted put of new content publishes it. */
  lemma FreshPutPublishes(size: Lengths, events: seq<Event>, s: State, h: Hash, row: Key)
    returns (more: seq<Event>)
    requires Runs(size, events, s) && At(s, h) == EMPTY && row in s.messages && s.messages[row].sha == None
    ensures Runs(size, more, AfterPut(size, s, h, row))
  {
    var n := size(h);
    Extend(size, events, Lock(h, PutStat(row, None)));
    more := events + [Lock(h, PutStat(row, None))];
    more := Along(size, more, s, h, EMPTY.(stage := Some(PutStat(row, None))),
                  EMPTY.(stage := Some(PutJournal(row, None))));
    more := Along(size, more, s, h, EMPTY.(stage := Some(PutJournal(row, None))),
                  Slot(None, None, false, Some(n), Some(PutUpload(row, None))));
    more := Along(size, more, s, h, Slot(None, None, false, Some(n), Some(PutUpload(row, None))),
                  Slot(Some(n), None, false, Some(n), Some(PutVerify(row, None, true))));
    more := Along(size, more, s, h, Slot(Some(n), None, false, Some(n), Some(PutVerify(row, None, true))),
                  Slot(Some(n), None, false, Some(n), Some(PutCommit(row, None, true))));
    more := CommitAlong(size, more, s, h, Slot(Some(n), None, false, Some(n), Some(PutCommit(row, None, true))), row);
  }

  /** A put of content that is already stored adds a ref to it. */
  lemma DedupedPutPublishes(size: Lengths, events: seq<Event>, s: State, h: Hash, row: Key)
    returns (more: seq<Event>)
    requires Runs(size, events, s) && At(s, h) == Published(size(h)) && row in s.messages && s.messages[row].sha == None
    ensures Runs(size, more, AfterPut(size, s, h, row))
  {
    var p := Published(size(h));
    Extend(size, events, Lock(h, PutStat(row, None)));
    more := events + [Lock(h, PutStat(row, None))];
    more := Along(size, more, s, h, p.(stage := Some(PutStat(row, None))),
                  p.(stage := Some(PutVerify(row, None, false))));
    more := Along(size, more, s, h, p.(stage := Some(PutVerify(row, None, false))),
                  p.(stage := Some(PutCommit(row, None, false))));
    more := CommitAlong(size, more, s, h, p.(stage := Some(PutCommit(row, None, false))), row);
  }

  /** One successful step that touches only the slot of `h`. */
  lemma Along(size: Lengths, events: seq<Event>, s: State, h: Hash, x: Slot, y: Slot) returns (more: seq<Event>)
    requires Runs(size, events, s.(slots := s.slots[h := x])) && x.stage != None
    requires StepOf(size(h), h, x, s.refs, s.messages, x.stage.value, Done) == Effect(y, Keep)
    ensures more == events + [Request(h, Done)]
    ensures Runs(size, more, s.(slots := s.slots[h := y]))
  {
    more := events + [Request(h, Done)];
    OneReply(size, events, s.(slots := s.slots[h := x]), s.(slots := s.slots[h := x][h := y]), h);
    assert s.slots[h := x][h := y] == s.slots[h := y];
  }

  lemma CommitAlong(size: Lengths, events: seq<Event>, s: State, h: Hash, x: Slot, row: Key) returns (more: seq<Event>)
    requires Runs(size, events, s.(slots := s.slots[h := x])) && row in s.messages && s.messages[row].sha == None
    requires x.stored == Some(size(h))
    requires (x.stage == Some(PutCommit(row, None, true)) || x.stage == Some(PutCommit(row, None, false)))
    ensures Runs(size, more, AfterPut(size, s, h, row))
  {
    more := events + [Request(h, Done)];
    var t := s.(slots := s.slots[h := x]);
    assert s.slots[h := x][h := Published(size(h))] == s.slots[h := Published(size(h))];
    OneReply(size, events, t, AfterPut(size, s, h, row), h);
  }

  /** The first read selects `a`'s ref; then `a` is dropped without taking the hash's lock. */
  lemma SelectThenDrop(size: Lengths, events: seq<Event>, s: State, h: Hash, a: Key, b: Key) returns (more: seq<Event>)
    requires Runs(size, events, s) && At(s, h) == Published(size(h)) && a != b && s.refs == map[a := h, b := h]
    ensures more == events + [Lock(h, DeleteCheck({a})), Request(h, Done), DropMessage(a)]
    ensures Runs(size, more,
                 State(s.slots[h := Published(size(h)).(stage := Some(DeleteCount({a})))], map[b := h],
                       s.messages - {a}))
  {
    hide Execute, Runnable;
    var p := Published(size(h));
    more := events + [Lock(h, DeleteCheck({a}))];
    Extend(size, events, Lock(h, DeleteCheck({a})));
    assert {a} * RefsTo(s.refs, h) == {a};
    more := Along(size, more, s, h, p.(stage := Some(DeleteCheck({a}))), p.(stage := Some(DeleteCount({a}))));
    Extend(size, more, DropMessage(a));
    more := more + [DropMessage(a)];
  }

  /** The count still matches, so the object goes, together with `b`'s ref. */
  lemma RemoveOnEqualCount(size: Lengths, events: seq<Event>, s: State, h: Hash, a: Key, b: Key)
    returns (more: seq<Event>)
    requires Runs(size, events, s.(slots := s.slots[h := Published(size(h)).(stage := Some(DeleteCount({a})))]))
    requires s.refs == map[b := h]
    ensures more == events + [Request(h, Done), Request(h, Done), Request(h, Done), Request(h, Done)]
    ensures Runnable(size, more)
    ensures var t := Execute(size, more); b !in t.refs && At(t, h).stored == None && t.messages == s.messages
  {
    hide Execute, Runnable;
    var p := Published(size(h));
    assert RefsTo(s.refs, h) == {b};
    more := Along(size, events, s, h, p.(stage := Some(DeleteCount({a}))), p.(stage := Some(DeleteMark)));
    more := Along(size, more, s, h, p.(stage := Some(DeleteMark)), p.(marked := true, stage := Some(DeleteRemote)));
    more := Along(size, more, s, h, p.(marked := true, stage := Some(DeleteRemote)),
                  p.(stored := None, marked := true, stage := Some(DeleteRow)));
    more := DropAlong(size, more, s, h, p.(stored := None, marked := true, stage := Some(DeleteRow)));
  }

  lemma DropAlong(size: Lengths, events: seq<Event>, s: State, h: Hash, x: Slot) returns (more: seq<Event>)
    requires Runs(size, events, s.(slots := s.slots[h := x])) && x.stage == Some(DeleteRow)
    ensures more == events + [Request(h, Done)] && Runnable(size, more)
    ensures var t := Execute(size, more);
            t.refs == s.refs - RefsTo(s.refs, h) && At(t, h).stored == x.stored && t.messages == s.messages
  {
    more := events + [Request(h, Done)];
    Extend(size, events, Request(h, Done));
  }

  lemma TwoMessages(size: Lengths, a: Key, b: Key, m: Message) returns (events: seq<Event>)
    requires a != b
    ensures Runs(size, events, State(map[], map[], map[a := m, b := m]))
  {
    Extend(size, [], StoreMessage(a, m));
    events := [] + [StoreMessage(a, m)];
    Extend(size, events, StoreMessage(b, m));
    events := events + [StoreMessage(b, m)];
  }

  /** Purging `a` can remove the object that only `b` still uses. */
  lemma PurgeCanTakeAnothersObject(size: Lengths, h: Hash, a: Key, b: Key)
    returns (before: seq<Event>, purge: seq<Event>)
    requires a != b
    ensures Runnable(size, before) && b in Execute(size, before).refs
    ensures purge == [Lock(h, DeleteCheck({a})), Request(h, Done), DropMessage(a)] +
            [Request(h, Done), Request(h, Done), Request(h, Done), Request(h, Done)]
    ensures Runnable(size, before + purge)
    ensures var t := Execute(size, before + purge); b in t.messages && b !in t.refs && At(t, h).stored == None
  {
    hide Execute, Runnable;
    var m := Message("2024-01-01", "image", None);
    before := TwoMessages(size, a, b, m);
    var s := State(map[], map[], map[a := m, b := m]);
    before := FreshPutPublishes(size, before, s, h, a);
    s := AfterPut(size, s, h, a);
    before := DedupedPutPublishes(size, before, s, h, b);
    s := AfterPut(size, s, h, b);
    var mid := SelectThenDrop(size, before, s, h, a, b);
    var all := RemoveOnEqualCount(size, mid, State(s.slots, map[b := h], s.messages - {a}), h, a, b);
    purge := [Lock(h, DeleteCheck({a})), Request(h, Done), DropMessage(a)] +
      [Request(h, Done), Request(h, Done), Request(h, Done), Request(h, Done)];
    assert all == before + purge;
  }
}
