/**
 `Delete` over all its objects, whichever of them fail: what it has done and reported after any of them,
 and that the final report never claims more than what happened.
 */
module MediaDeletion {
  import opened Wrappers
  import opened MediaProtocol
  import opened MediaSteps
  import opened MediaRecovery
  import opened MediaPurge
  import opened MediaDeleteRace

  type Faults = Hash -> Fault

  // ----- the plan -----

  function HitsOn(s: State, rows: seq<Key>, h: Hash): set<nat> {
    set i: nat | i < |rows| && Hit(s, rows, i) && s.refs[rows[i]] == h
  }

  function ChosenOn(s: State, rows: seq<Key>, hashes: set<Hash>): set<Key> {
    set k | k in Chosen(s, rows) && s.refs[k] in hashes
  }

  /** The rows of `Delete`'s plan for an object: its hits, and the last of them. */
  datatype Object = Object(indices: set<nat>, last: nat)

  predicate Planned(s: State, rows: seq<Key>, objects: map<Hash, Object>) {
    && (forall h :: h in objects ==> objects[h].indices == HitsOn(s, rows, h))
    && (forall h :: h in objects ==> objects[h].last in objects[h].indices && LastHit(s, rows, objects[h].last))
    && (forall i: nat :: i < |rows| && Hit(s, rows, i) ==> s.refs[rows[i]] in objects)
  }

  /** The plan for the first `n` rows. */
  predicate PlannedTo(s: State, rows: seq<Key>, n: nat, objects: map<Hash, Object>)
    requires n <= |rows|
  {
    && (forall h :: h in objects ==>
        objects[h].indices == HitsUpTo(s, rows, n, h) && objects[h].last in objects[h].indices)
    && (forall h, j :: h in objects && j in objects[h].indices ==> j <= objects[h].last)
    && (forall i: nat :: i < n && Hit(s, rows, i) ==> s.refs[rows[i]] in objects)
  }

  function HitsUpTo(s: State, rows: seq<Key>, n: nat, h: Hash): set<nat>
    requires n <= |rows|
  {
    set i: nat | i < n && Hit(s, rows, i) && s.refs[rows[i]] == h
  }

  lemma PlanNext(s: State, rows: seq<Key>, i: nat, objects: map<Hash, Object>)
    requires i < |rows| && PlannedTo(s, rows, i, objects)
    ensures var h := if Cached(s, rows[i]) then s.refs[rows[i]] else Hash("");
            var indices := if h in objects then objects[h].indices + {i} else {i};
            PlannedTo(s, rows, i + 1, if Hit(s, rows, i) then objects[h := Object(indices, i)] else objects)
  {
    hide HitsUpTo, Hit, Cached;
    forall h { HitsStep(s, rows, i, h); }
    forall h | h !in objects ensures HitsUpTo(s, rows, i, h) == {} {
      NoHits(s, rows, i, objects, h);
    }
    HitIsCached(s, rows, i);
  }

  lemma NoHits(s: State, rows: seq<Key>, i: nat, objects: map<Hash, Object>, h: Hash)
    requires i <= |rows| && PlannedTo(s, rows, i, objects) && h !in objects
    ensures HitsUpTo(s, rows, i, h) == {}
  {
  }

  lemma HitIsCached(s: State, rows: seq<Key>, i: nat)
    requires i < |rows|
    ensures Hit(s, rows, i) ==> Cached(s, rows[i]) && rows[i] in s.refs
  {
  }

  lemma HitsStep(s: State, rows: seq<Key>, i: nat, h: Hash)
    requires i < |rows|
    ensures HitsUpTo(s, rows, i + 1, h) ==
            if Hit(s, rows, i) && s.refs[rows[i]] == h then HitsUpTo(s, rows, i, h) + {i} else HitsUpTo(s, rows, i, h)
    ensures forall j :: j in HitsUpTo(s, rows, i, h) ==> j < i
  {
  }

  lemma PlannedAll(s: State, rows: seq<Key>, objects: map<Hash, Object>)
    requires PlannedTo(s, rows, |rows|, objects)
    ensures Planned(s, rows, objects)
  {
    forall h | h in objects ensures objects[h].indices == HitsOn(s, rows, h) && LastHit(s, rows, objects[h].last) {
      forall j | objects[h].last < j < |rows| && Hit(s, rows, j)
        ensures s.refs[rows[j]] != s.refs[rows[objects[h].last]]
      {
        assert j !in objects[h].indices;
      }
    }
  }

  lemma HitsAreChosen(s: State, rows: seq<Key>, h: Hash)
    ensures (set i | i in HitsOn(s, rows, h) :: rows[i]) == ChosenOn(s, rows, {h})
  {
    forall k | k in ChosenOn(s, rows, {h}) ensures exists i :: i in HitsOn(s, rows, h) && rows[i] == k {
      var i :| 0 <= i < |rows| && rows[i] == k;
      var j := FirstOccurrence(s, rows, i);
      assert j in HitsOn(s, rows, h);
    }
  }

  lemma AllChosen(s: State, rows: seq<Key>, objects: map<Hash, Object>)
    requires Planned(s, rows, objects)
    ensures ChosenOn(s, rows, objects.Keys) == Chosen(s, rows)
  {
    forall k | k in Chosen(s, rows) ensures s.refs[k] in objects {
      var i :| 0 <= i < |rows| && rows[i] == k;
      var j := FirstOccurrence(s, rows, i);
    }
  }

  // ----- the store -----

  /** Every ref of the object was chosen, so the object itself goes. */
  predicate Whole(s: State, rows: seq<Key>, h: Hash) {
    RefsTo(s.refs, h) <= Chosen(s, rows)
  }

  /** The chosen rows that lose their refs once the objects in `done` were dealt with. */
  function Lost(s: State, rows: seq<Key>, done: set<Hash>, fs: Faults): set<Key> {
    set k | k in ChosenOn(s, rows, done) && DeleteDrops(At(s, s.refs[k]), Whole(s, rows, s.refs[k]), fs(s.refs[k]))
  }

  function Deleted(s: State, rows: seq<Key>, done: set<Hash>, fs: Faults): State {
    State(map h | h in s.slots :: if h in done then DeleteSlot(s.slots[h], Whole(s, rows, h), fs(h)) else s.slots[h],
          s.refs - Lost(s, rows, done, fs),
          s.messages)
  }

  lemma DeletedNone(s: State, rows: seq<Key>, fs: Faults)
    ensures Deleted(s, rows, {}, fs) == s
  {
    assert Lost(s, rows, {}, fs) == {};
    assert Deleted(s, rows, {}, fs).slots == s.slots;
  }

  /** What the plan says of the next object, which nothing has touched so far. */
  ghost predicate Ready(s: State, rows: seq<Key>, h: Hash, keys: set<Key>, v: State) {
    && keys == ChosenOn(s, rows, {h}) && keys != {} && keys <= RefsTo(v.refs, h)
    && RefsTo(v.refs, h) == RefsTo(s.refs, h)
    && h in s.slots && At(v, h) == At(s, h) && At(s, h).row != None && At(s, h).stage == None
    && (RefsTo(s.refs, h) <= keys <==> Whole(s, rows, h))
  }

  lemma NextIsReady(s: State, rows: seq<Key>, objects: map<Hash, Object>, done: set<Hash>, h: Hash, fs: Faults,
                    v: State)
    requires Planned(s, rows, objects) && Idle(s) && h in objects && h !in done
    requires v == s || v == Deleted(s, rows, done, fs)
    ensures Ready(s, rows, h, set i | i in objects[h].indices :: rows[i], v)
  {
    hide DeleteDrops, DeleteSlot, Whole;
    HitsAreChosen(s, rows, h);
    assert rows[objects[h].last] in ChosenOn(s, rows, {h});
    assert RefsTo(v.refs, h) == RefsTo(s.refs, h);
    WholeFromOwn(s, rows, h);
  }

  lemma WholeFromOwn(s: State, rows: seq<Key>, h: Hash)
    ensures Whole(s, rows, h) <==> RefsTo(s.refs, h) <= ChosenOn(s, rows, {h})
  {
  }

  lemma DeletedNext(s: State, rows: seq<Key>, done: set<Hash>, h: Hash, keys: set<Key>, fs: Faults)
    requires h !in done && Ready(s, rows, h, keys, Deleted(s, rows, done, fs))
    ensures DeleteOne(Deleted(s, rows, done, fs), h, keys, fs(h)) == Deleted(s, rows, done + {h}, fs)
  {
    hide DeleteDrops, DeleteSlot, Whole, Chosen;
    var v, w := Deleted(s, rows, done, fs), Deleted(s, rows, done + {h}, fs);
    var x, whole := At(s, h), Whole(s, rows, h);
    SlotStaysIdle(x, whole, fs(h));
    assert Lost(s, rows, done + {h}, fs) == Lost(s, rows, done, fs) + if DeleteDrops(x, whole, fs(h)) then keys else {};
    assert DeleteOne(v, h, keys, fs(h)).slots == w.slots;
    assert DeleteOne(v, h, keys, fs(h)).refs == w.refs;
  }

  lemma SlotStaysIdle(x: Slot, whole: bool, f: Fault)
    requires x.stage == None
    ensures DeleteSlot(x, whole, f).stage == None
  {
  }

  /** When every object was dealt with in full, the chosen rows are purged. */
  lemma DeletedIsPurge(s: State, rows: seq<Key>, done: set<Hash>, fs: Faults)
    requires forall h :: h in done ==> fs(h) == Sound && h in s.slots
    requires forall h :: h in done ==> s.slots[h].row != None && RefsTo(s.refs, h) != {}
    ensures Deleted(s, rows, done, fs) == Purge(s, ChosenOn(s, rows, done))
  {
    hide CollectSlot, Chosen;
    var v, w := Deleted(s, rows, done, fs), Purge(s, ChosenOn(s, rows, done));
    assert Lost(s, rows, done, fs) == ChosenOn(s, rows, done);
    forall h | h in s.slots ensures v.slots[h] == w.slots[h] {
      RemovableWhenWhole(s, rows, done, h);
    }
    assert v.slots == w.slots;
  }

  lemma RemovableWhenWhole(s: State, rows: seq<Key>, done: set<Hash>, h: Hash)
    requires h in s.slots && (h in done ==> s.slots[h].row != None && RefsTo(s.refs, h) != {})
    ensures h in Removable(s, ChosenOn(s, rows, done)) <==> h in done && Whole(s, rows, h)
  {
    hide Chosen;
    if h !in done && RefsTo(s.refs, h) != {} {
      var k :| k in RefsTo(s.refs, h);
      assert k !in ChosenOn(s, rows, done);
    }
  }

  // ----- the report -----

  /** Results while the objects in `done` have been decided, those in `finished` in full. */
  predicate Reported(s: State, rows: seq<Key>, done: set<Hash>, finished: set<Hash>, results: seq<PurgeResult>) {
    && |results| == |rows|
    && forall i: nat :: i < |rows| ==> results[i] == ResultSoFar(s, rows, done, finished, i)
  }

  function ResultSoFar(s: State, rows: seq<Key>, done: set<Hash>, finished: set<Hash>, i: nat): PurgeResult
    requires i < |rows|
  {
    if !Hit(s, rows, i) then PurgeResult(rows[i], NotCached, 0)
    else if s.refs[rows[i]] in finished then ResultAt(s, rows, i)
    else PurgeResult(rows[i], if s.refs[rows[i]] in done then RemovalFailed else Purged, 0)
  }

  /** A row is reported purged exactly if it is a hit on an object dealt with in full. */
  function FinalAt(s: State, rows: seq<Key>, finished: set<Hash>, failed: bool, i: nat): PurgeResult
    requires i < |rows|
  {
    if Hit(s, rows, i) && s.refs[rows[i]] in finished then ResultAt(s, rows, i)
    else PurgeResult(rows[i], if failed then Incomplete else if Hit(s, rows, i) then RemovalFailed else NotCached, 0)
  }

  function FinalReport(s: State, rows: seq<Key>, finished: set<Hash>, failed: bool): seq<PurgeResult> {
    seq(|rows|, i requires 0 <= i < |rows| => FinalAt(s, rows, finished, failed, i))
  }

  /** With every object finished it is the report of an undisturbed purge. */
  lemma FinalIsReport(s: State, rows: seq<Key>, objects: map<Hash, Object>)
    requires Planned(s, rows, objects)
    ensures FinalReport(s, rows, objects.Keys, false) == Report(s, rows)
  {
    hide Hit, RefsTo, Chosen;
  }

  /** Whatever failed, a row reported as purged has lost its ref, and no row outside the choice has lost one. */
  lemma ReportIsTruthful(s: State, rows: seq<Key>, done: set<Hash>, finished: set<Hash>, fs: Faults, failed: bool)
    requires finished <= done && forall h :: h in finished ==> EndOf(Whole(s, rows, h), fs(h)).Finished?
    ensures var after := Deleted(s, rows, done, fs).refs;
            && (forall i :: 0 <= i < |rows| && FinalAt(s, rows, finished, failed, i).outcome == Purged ==>
                  rows[i] in s.refs && rows[i] !in after)
            && after.Keys <= s.refs.Keys && s.refs.Keys - after.Keys <= Chosen(s, rows)
  {
    hide Hit, LastHit, Chosen, Whole, EndOf;
    forall i | 0 <= i < |rows| && FinalAt(s, rows, finished, failed, i).outcome == Purged
      ensures rows[i] in s.refs && rows[i] in Lost(s, rows, done, fs)
    {
      HitIsChosen(s, rows, i);
      assert s.refs[rows[i]] in finished;
    }
  }

  lemma HitIsChosen(s: State, rows: seq<Key>, i: nat)
    requires i < |rows| && Hit(s, rows, i)
    ensures rows[i] in Chosen(s, rows) && rows[i] in s.refs
  {
  }

  // ----- one object after the other -----

  /** How a dry run ends on an object: it stops after the count. */
  function DryEnd(f: Fault): DeleteEnd {
    if f.Unread? || f.Uncounted? then Stopped else Finished
  }

  /** The object makes the whole call fail. */
  predicate Stops(s: State, rows: seq<Key>, dry: bool, h: Hash, f: Fault) {
    if dry then DryEnd(f).Stopped? else EndOf(Whole(s, rows, h), f).Stopped?
  }

  /** Exactly the objects in `finished` were dealt with in full. */
  ghost predicate Ends(s: State, rows: seq<Key>, done: set<Hash>, finished: set<Hash>, fs: Faults) {
    forall h :: h in done ==> (h in finished <==> EndOf(Whole(s, rows, h), fs(h)).Finished?)
  }

  /** The objects that the chosen rows refer to. */
  function Targets(s: State, rows: seq<Key>): set<Hash> {
    set k | k in Chosen(s, rows) :: s.refs[k]
  }

  lemma PlannedTargets(s: State, rows: seq<Key>, objects: map<Hash, Object>)
    requires Planned(s, rows, objects)
    ensures objects.Keys == Targets(s, rows)
  {
    hide LastHit;
    forall k | k in Chosen(s, rows) ensures s.refs[k] in objects {
      var i :| 0 <= i < |rows| && rows[i] == k;
      var j := FirstOccurrence(s, rows, i);
    }
    forall h | h in objects ensures h in Targets(s, rows) {
      var i := objects[h].last;
      assert Hit(s, rows, i) && rows[i] in Chosen(s, rows);
    }
  }

  /** The call after the objects in `done`, none of which stopped it. */
  ghost predicate Progress(s: State, rows: seq<Key>, done: set<Hash>, finished: set<Hash>, fs: Faults, dry: bool,
                           v: State, results: seq<PurgeResult>)
  {
    && finished <= done && (if dry then finished == done else Ends(s, rows, done, finished, fs))
    && (forall h :: h in done ==> !Stops(s, rows, dry, h, fs(h)))
    && (v == if dry then s else Deleted(s, rows, done, fs)) && Reported(s, rows, done, finished, results)
  }

  lemma NoProgress(s: State, rows: seq<Key>, fs: Faults, dry: bool, results: seq<PurgeResult>)
    requires Reported(s, rows, {}, {}, results)
    ensures Progress(s, rows, {}, {}, fs, dry, s, results)
  {
    DeletedNone(s, rows, fs);
  }

  /** A removed object's bytes are reported on its last row. */
  function Counted(results: seq<PurgeResult>, i: nat, bytes: nat): seq<PurgeResult>
    requires i < |results|
  {
    results[i := results[i].(bytes := bytes)]
  }

  /** The rows of an object that could not be removed. */
  function GivenUp(results: seq<PurgeResult>, indices: set<nat>): seq<PurgeResult> {
    seq(|results|, i requires 0 <= i < |results| =>
      if i in indices then PurgeResult(results[i].row, RemovalFailed, 0) else results[i])
  }

  lemma ReportFinished(s: State, rows: seq<Key>, done: set<Hash>, finished: set<Hash>, results: seq<PurgeResult>,
                       h: Hash, last: nat)
    requires Reported(s, rows, done, finished, results) && h !in done && finished <= done
    requires last in HitsOn(s, rows, h) && LastHit(s, rows, last) && At(s, h).row != None
    ensures last < |results|
    ensures Reported(s, rows, done + {h}, finished + {h},
                     if Whole(s, rows, h) then Counted(results, last, At(s, h).row.value) else results)
  {
    hide Chosen, RefsTo;
  }

  lemma ReportGivenUp(s: State, rows: seq<Key>, done: set<Hash>, finished: set<Hash>, results: seq<PurgeResult>,
                      h: Hash)
    requires Reported(s, rows, done, finished, results) && h !in done && finished <= done
    ensures Reported(s, rows, done + {h}, finished, GivenUp(results, HitsOn(s, rows, h)))
  {
    hide ResultAt;
  }

  /** The rows that were done when the call failed keep their results. */
  ghost predicate Kept(s: State, rows: seq<Key>, finished: set<Hash>, dry: bool, kept: set<nat>) {
    forall i: nat :: i in kept <==> !dry && i < |rows| && Hit(s, rows, i) && s.refs[rows[i]] in finished
  }

  function Rewritten(results: seq<PurgeResult>, kept: set<nat>): seq<PurgeResult> {
    seq(|results|, i requires 0 <= i < |results| =>
      if i in kept then results[i] else PurgeResult(results[i].row, Incomplete, 0))
  }

  lemma RewrittenIsFinal(s: State, rows: seq<Key>, done: set<Hash>, finished: set<Hash>, dry: bool,
                         results: seq<PurgeResult>, kept: set<nat>)
    requires Reported(s, rows, done, finished, results) && Kept(s, rows, finished, dry, kept)
    ensures Rewritten(results, kept) == FinalReport(s, rows, if dry then {} else finished, true)
  {
    hide ResultAt, Hit;
    ReportedRows(s, rows, done, finished, results);
  }

  lemma ReportedRows(s: State, rows: seq<Key>, done: set<Hash>, finished: set<Hash>, results: seq<PurgeResult>)
    requires Reported(s, rows, done, finished, results)
    ensures forall i: nat :: i < |rows| ==> results[i].row == rows[i]
  {
  }

  lemma CompleteIsFinal(s: State, rows: seq<Key>, objects: map<Hash, Object>, finished: set<Hash>,
                        results: seq<PurgeResult>)
    requires Planned(s, rows, objects) && Reported(s, rows, objects.Keys, finished, results)
    ensures results == FinalReport(s, rows, finished, false)
  {
    hide ResultAt, Hit;
  }

  lemma CountDecides(keys: set<Key>, all: set<Key>)
    requires keys <= all
    ensures |all| == |keys| <==> all <= keys
    ensures |all| == |keys| <==> keys == all
  {
    if |all| == |keys| {
      EqualCountSubset(keys, all);
    }
    assert all <= keys ==> all == keys;
  }

  lemma KeptNext(s: State, rows: seq<Key>, objects: map<Hash, Object>, finished: set<Hash>, dry: bool, kept: set<nat>,
                 h: Hash)
    requires Planned(s, rows, objects) && h in objects && Kept(s, rows, finished, dry, kept)
    ensures Kept(s, rows, finished + {h}, dry, if dry then kept else kept + objects[h].indices)
  {
    hide Hit, LastHit;
  }

  /** The planning queries failed: no row was looked at. */
  function Unreadable(rows: seq<Key>): seq<PurgeResult> {
    seq(|rows|, i requires 0 <= i < |rows| => PurgeResult(rows[i], Incomplete, 0))
  }

  lemma UnreadableIsFinal(s: State, rows: seq<Key>)
    ensures Unreadable(rows) == FinalReport(s, rows, {}, true)
  {
  }

  /** With no fault at all the call is an undisturbed purge. */
  lemma SoundDelete(s: State, rows: seq<Key>, objects: map<Hash, Object>, fs: Faults)
    requires Planned(s, rows, objects) && forall h :: fs(h) == Sound
    ensures FinalReport(s, rows, objects.Keys, false) == Report(s, rows)
    ensures Deleted(s, rows, objects.Keys, fs) == Purge(s, Chosen(s, rows))
  {
    FinalIsReport(s, rows, objects);
    AllChosen(s, rows, objects);
    forall h | h in objects ensures h in s.slots && s.slots[h].row != None && RefsTo(s.refs, h) != {} {
      assert rows[objects[h].last] in RefsTo(s.refs, h);
    }
    DeletedIsPurge(s, rows, objects.Keys, fs);
  }
}
