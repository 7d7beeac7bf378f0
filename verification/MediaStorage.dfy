/**
 The S3 media store as an object. Its methods change it only through protocol steps, so everything
 that holds of a run holds of the store between any two of them.
 */
module MediaStorage {
  import opened Wrappers
  import opened MediaProtocol
  import opened MediaSafety
  import opened MediaDeleteRace
  import opened MediaSteps
  import opened MediaRecovery
  import opened MediaPurge
  import opened MediaDeletion
  import opened MediaPaging
  import opened MediaSweep

  class MediaStore {
    const size: Lengths
    var slots: map<Hash, Slot>
    var refs: map<Key, Hash>
    var messages: map<Key, Message>
    ghost var run: seq<Event>

    function View(): State
      reads this
    {
      State(slots, refs, messages)
    }

    /** The store is what some run of the protocol has made of it. */
    ghost predicate Valid()
      reads this
    {
      Runs(size, run, View())
    }

    /** A store reopened after any run that ended in a crash. */
    constructor (size: Lengths, ghost before: seq<Event>, found: State)
      requires Runs(size, before + [Crash], found)
      ensures Valid() && View() == found && this.size == size && Idle(View())
    {
      this.size := size;
      slots, refs, messages := found.slots, found.refs, found.messages;
      run := before + [Crash];
      new;
      assert (before + [Crash])[..|before|] == before;
    }

    method Step(e: Event)
      requires Valid() && Enabled(View(), e)
      modifies this
      ensures Valid() && View() == Next(size, old(View()), e)
    {
      Extend(size, run, e);
      var t := Next(size, View(), e);
      slots, refs, messages := t.slots, t.refs, t.messages;
      run := run + [e];
    }

    /** `reconcileDeletionLocked`: the caller has just locked `h`. */
    method ReconcileDeletionLocked(h: Hash, trouble: Trouble) returns (missing: bool, failed: bool)
      requires Valid() && At(View(), h).stage == Some(SettleCheck(None))
      modifies this
      ensures Valid() && View() == SettleOne(old(View()), h, trouble)
      ensures missing <==> SettleDrops(old(At(View(), h)), trouble)
      ensures failed <==> SettleFails(old(At(View(), h)), trouble)
    {
      hide Runs, Next;
      ghost var s := View();
      var pending := At(View(), h).marked;
      CheckStep(size, s, h, trouble);
      Step(Request(h, CheckReply(trouble)));
      if trouble.AtCheck? || !pending {
        return false, trouble.AtCheck?;
      }
      HeadStep(size, s, h, trouble);
      missing := At(View(), h).stored == None;
      Step(Request(h, HeadReply(trouble)));
      if trouble.AtRemote? {
        return false, true;
      }
      RowStep(size, s, h, trouble);
      Step(Request(h, RowReply(trouble)));
      if trouble.AtRow? {
        return false, true;
      }
      failed := false;
    }

    method ReconcileDeletion(h: Hash, trouble: Trouble) returns (missing: bool, failed: bool)
      requires Valid() && At(View(), h).stage == None
      modifies this
      ensures Valid() && View() == SettleOne(old(View()), h, trouble)
      ensures missing <==> SettleDrops(old(At(View(), h)), trouble)
      ensures failed <==> SettleFails(old(At(View(), h)), trouble)
    {
      LockedSettle(size, View(), h, trouble);
      Step(Lock(h, SettleCheck(None)));
      missing, failed := ReconcileDeletionLocked(h, trouble);
    }

    /** `removeOrphan`. */
    method RemoveOrphan(h: Hash, trouble: Trouble) returns (removed: bool, failed: bool)
      requires Valid() && At(View(), h).stage == None
      modifies this
      ensures Valid() && View() == SweepOne(old(View()), h, trouble)
      ensures removed <==> RefsTo(old(refs), h) == {} && trouble == Calm
      ensures failed <==> trouble.AtCheck? || (RefsTo(old(refs), h) == {} && trouble != Calm)
    {
      hide Runs, Next;
      ghost var s := View();
      OrphanSteps(size, s, h, trouble);
      Step(Lock(h, OrphanCheck));
      var unused := RefsTo(refs, h) == {};
      Step(Request(h, CheckReply(trouble)));
      if trouble.AtCheck? || !unused {
        return false, trouble.AtCheck?;
      }
      OrphanRemoteStep(size, s, h, trouble);
      Step(Request(h, RemovalReply(trouble)));
      if trouble.AtRemote? {
        return false, true;
      }
      OrphanRowStep(size, s, h, trouble);
      Step(Request(h, RowReply(trouble)));
      return trouble == Calm, trouble.AtRow?;
    }

    /** One intent of `reconcilePendingUploads`. */
    method ReconcileUpload(h: Hash, trouble: Trouble) returns (removed: bool, failed: bool)
      requires Valid() && At(View(), h).stage == None && At(View(), h).intent != None
      modifies this
      ensures Valid() && View() == ForgetOne(old(View()), h, trouble)
      ensures removed <==> old(At(View(), h)).row == None && !failed
      ensures failed <==> ForgetFails(old(At(View(), h)), trouble)
    {
      hide Runs, Next;
      ghost var s := View();
      UploadCheckStep(size, s, h, trouble);
      Step(Lock(h, UploadCheck));
      var published := At(View(), h).row != None;
      Step(Request(h, CheckReply(trouble)));
      if trouble.AtCheck? {
        return false, true;
      }
      if !published {
        UploadRemoteStep(size, s, h, trouble);
        Step(Request(h, RemovalReply(trouble)));
        if trouble.AtRemote? {
          return false, true;
        }
      }
      UploadForgetStep(size, s, h, trouble);
      Step(Request(h, RowReply(trouble)));
      return !published && !trouble.AtRow?, trouble.AtRow?;
    }

    /** `reconcilePendingDeletions`. */
    method ReconcilePendingDeletions(ts: Troubles) returns (freed: nat, failed: nat, ghost page: set<Hash>)
      requires Valid() && Idle(View())
      modifies this
      ensures Valid() && IsPage(page, Marked(old(View()))) && View() == Settle(old(View()), page, ts)
      ensures freed == RowBytes(old(View()), Missing(old(View()), page, ts))
      ensures failed == |Unsettled(old(View()), page, ts)|
    {
      hide Runs, SettledTo, Settle, SettleOne, Missing, Unsettled, Distinct;
      var objects := SelectPage(Marked(View()));
      page := Elements(objects);
      var found := slots;
      ghost var s := View();
      freed, failed := 0, 0;
      var i := 0;
      SettledToStart(s, objects, ts);
      while i < |objects|
        invariant 0 <= i <= |objects|
        invariant Valid() && SettledTo(s, objects, i, ts, View(), freed, failed)
      {
        var h := objects[i];
        SettledToNext(s, objects, i, ts, View(), freed, failed);
        var missing, bad := ReconcileDeletion(h, ts(h));
        if bad {
          failed := failed + 1;
        }
        if missing {
          freed := freed + found[h].row.value;
        }
        i := i + 1;
      }
      SettledToEnd(s, objects, ts, View(), freed, failed);
    }

    /** `reconcilePendingUploads`. */
    method ReconcilePendingUploads(ts: Troubles) returns (freed: nat, failed: nat, ghost page: set<Hash>)
      requires Valid() && Idle(View())
      modifies this
      ensures Valid() && IsPage(page, Pending(old(View()))) && View() == Forget(old(View()), page, ts)
      ensures freed == IntentBytes(old(View()), Unpublished(old(View()), page, ts))
      ensures failed == |Unforgotten(old(View()), page, ts)|
    {
      hide Runs, ForgottenTo, Forget, ForgetOne, Unpublished, Unforgotten, Distinct;
      var intents := SelectPage(Pending(View()));
      page := Elements(intents);
      var found := slots;
      ghost var s := View();
      freed, failed := 0, 0;
      var i := 0;
      ForgottenToStart(s, intents, ts);
      while i < |intents|
        invariant 0 <= i <= |intents|
        invariant Valid() && ForgottenTo(s, intents, i, ts, View(), freed, failed)
      {
        var h := intents[i];
        ForgottenToNext(s, intents, i, ts, View(), freed, failed);
        var removed, bad := ReconcileUpload(h, ts(h));
        if bad {
          failed := failed + 1;
        } else if removed {
          freed := freed + found[h].intent.value;
        }
        i := i + 1;
      }
      ForgottenToEnd(s, intents, ts, View(), freed, failed);
    }

    /** `sweepUnreferenced`. */
    method SweepUnreferenced(ts: Troubles) returns (freed: nat, failed: nat, ghost page: set<Hash>)
      requires Valid() && Idle(View())
      modifies this
      ensures Valid() && IsPage(page, Orphans(old(View()))) && View() == Collect(old(View()), page, ts)
      ensures freed == RowBytes(old(View()), Collected(page, ts)) && failed == |Uncollected(page, ts)|
    {
      hide Runs, CollectedTo, Collect, SweepOne, Collected, Uncollected, Distinct;
      var objects := SelectPage(Orphans(View()));
      page := Elements(objects);
      var found := slots;
      ghost var s := View();
      freed, failed := 0, 0;
      var i := 0;
      CollectedToStart(s, objects, ts);
      while i < |objects|
        invariant 0 <= i <= |objects|
        invariant Valid() && CollectedTo(s, objects, i, ts, View(), freed, failed)
      {
        var h := objects[i];
        CollectedToNext(s, objects, i, ts, View(), freed, failed);
        var removed, bad := RemoveOrphan(h, ts(h));
        if bad {
          failed := failed + 1;
        } else if removed {
          freed := freed + found[h].row.value;
        }
        i := i + 1;
      }
      CollectedToEnd(s, objects, ts, View(), freed, failed);
    }

    // ----- purging -----

    /** `Delete`'s work on one object, once its selected rows are known. */
    method DeleteObject(h: Hash, keys: set<Key>, f: Fault) returns (end: DeleteEnd)
      requires Valid() && At(View(), h).stage == None && At(View(), h).row != None
      requires keys != {} && keys <= RefsTo(refs, h)
      modifies this
      ensures Valid() && View() == DeleteOne(old(View()), h, keys, f)
      ensures end == EndOf(RefsTo(old(refs), h) <= keys, f)
    {
      hide Runs, Next, RefsTo, DeleteOne;
      ghost var s := View();
      DeleteCheckStep(size, s, h, keys, f);
      Step(Lock(h, DeleteCheck(keys)));
      Step(Request(h, Answer(f.Unread?)));
      if f.Unread? {
        return Stopped;
      }
      DeleteCountStep(size, s, h, keys, f);
      var remove := |RefsTo(refs, h)| == |keys|;
      Step(Request(h, Answer(f.Uncounted?)));
      if f.Uncounted? {
        return Stopped;
      }
      CountDecides(keys, RefsTo(s.refs, h));
      if !remove {
        DeleteDetachStep(size, s, h, keys, f);
        Step(Request(h, Answer(f.Unwritten?)));
        return if f.Unwritten? then Stopped else Finished;
      }
      end := RemoveObject(h, keys, f, s);
    }

    /** The object goes with its refs: the marker, the remote removal and the row. */
    method RemoveObject(h: Hash, keys: set<Key>, f: Fault, ghost s: State) returns (end: DeleteEnd)
      requires Valid() && View() == Staged(s, h, DeleteMark) && keys == RefsTo(s.refs, h)
      requires At(s, h).row != None && At(s, h).stage == None && !f.Unread? && !f.Uncounted?
      modifies this
      ensures Valid() && View() == DeleteOne(s, h, keys, f) && end == EndOf(true, f)
    {
      hide Runs, Next, RefsTo, DeleteOne;
      DeleteMarkStep(size, s, h, keys, f);
      Step(Request(h, Answer(f.Unmarked?)));
      if f.Unmarked? {
        return Stopped;
      }
      DeleteRemoteStep(size, s, h, f);
      Step(Request(h, RemoteAnswer(f)));
      if f.Unremoved? {
        // Even a failed request can have deleted the object.
        DeleteSettles(s, h, keys, f);
        var missing, failed := ReconcileDeletionLocked(h, f.settling);
        return GaveUp;
      }
      DeleteRowStep(size, s, h, keys, f);
      Step(Request(h, Answer(f.Unwritten?)));
      return if f.Unwritten? then Stopped else Finished;
    }

    /** The first loop of `Delete`: group the selected rows by object, once each. */
    method Plan(rows: seq<Key>) returns (results: seq<PurgeResult>, objects: map<Hash, Object>)
      ensures Planned(View(), rows, objects) && Reported(View(), rows, {}, {}, results)
    {
      results := [];
      objects := map[];
      var seen: set<Key> := {};
      var i := 0;
      while i < |rows|
        invariant 0 <= i <= |rows|
        invariant seen == set k | k in rows[..i]
        invariant PlannedTo(View(), rows, i, objects)
        invariant |results| == i
        invariant forall j: nat :: j < i ==> results[j] == ResultSoFar(View(), rows, {}, {}, j)
      {
        var row := rows[i];
        PlanNext(View(), rows, i, objects);
        if row !in seen && Cached(View(), row) {
          var h := refs[row];
          var indices := if h in objects then objects[h].indices + {i} else {i};
          objects := objects[h := Object(indices, i)];
          results := results + [PurgeResult(row, Purged, 0)];
        } else {
          results := results + [PurgeResult(row, NotCached, 0)];
        }
        seen := seen + {row};
        i := i + 1;
      }
      PlannedAll(View(), rows, objects);
    }

    /** One round of `Delete`'s second loop. */
    method DeleteSelected(rows: seq<Key>, objects: map<Hash, Object>, h: Hash, dry: bool, fs: Faults,
                          results: seq<PurgeResult>, ghost s: State, ghost done: set<Hash>, ghost finished: set<Hash>)
      returns (updated: seq<PurgeResult>, end: DeleteEnd)
      requires Valid() && Planned(s, rows, objects) && Idle(s) && h in objects && h !in done
      requires Progress(s, rows, done, finished, fs, dry, View(), results)
      modifies this
      ensures Valid() && (end == if dry then DryEnd(fs(h)) else EndOf(Whole(s, rows, h), fs(h)))
      ensures View() == if dry then s else Deleted(s, rows, done + {h}, fs)
      ensures end.Stopped? ==> updated == results
      ensures var more := if end.Finished? then finished + {h} else finished;
              !end.Stopped? ==> Progress(s, rows, done + {h}, more, fs, dry, View(), updated)
    {
      hide Runs, Deleted, Whole, Hit, LastHit, ChosenOn, Reported, EndOf, DeleteOne;
      var keys := set i | i in objects[h].indices :: rows[i];
      NextIsReady(s, rows, objects, done, h, fs, View());
      CountDecides(keys, RefsTo(refs, h));
      var remove, bytes := |RefsTo(refs, h)| == |keys|, At(View(), h).row.value;
      if dry {
        end := DryEnd(fs(h));
      } else {
        DeletedNext(s, rows, done, h, keys, fs);
        end := DeleteObject(h, keys, fs(h));
      }
      ReportFinished(s, rows, done, finished, results, h, objects[h].last);
      ReportGivenUp(s, rows, done, finished, results, h);
      match end
      case Stopped => updated := results;
      case Finished => updated := if remove then Counted(results, objects[h].last, bytes) else results;
      case GaveUp => updated := GivenUp(results, objects[h].indices);
    }

    /** `Delete`'s second loop: the planned objects, in any order, until one stops it. */
    method DeletePlanned(rows: seq<Key>, objects: map<Hash, Object>, dry: bool, fs: Faults, planned: seq<PurgeResult>)
      returns (results: seq<PurgeResult>, failed: bool, ghost done: set<Hash>, ghost finished: set<Hash>)
      requires Valid() && Idle(View()) && Planned(View(), rows, objects) && Reported(View(), rows, {}, {}, planned)
      modifies this
      ensures Valid() && finished <= done
      ensures results == FinalReport(old(View()), rows, finished, failed)
      ensures View() == if dry then old(View()) else Deleted(old(View()), rows, done, fs)
      ensures !dry ==> Ends(old(View()), rows, done, finished, fs)
      ensures done <= objects.Keys && (!failed ==> done == objects.Keys && (dry ==> finished == done))
      ensures failed <==> exists h :: h in objects && Stops(old(View()), rows, dry, h, fs(h))
      ensures failed ==> exists h :: h in done && Stops(old(View()), rows, dry, h, fs(h))
      ensures (forall h :: fs(h) == Sound) ==> !failed && done == finished == objects.Keys
    {
      hide Runs, Deleted, Whole, Hit, Reported, FinalReport, Planned, Idle;
      ghost var s := View();
      results, failed, done, finished := planned, false, {}, {};
      var todo, kept: set<nat> := objects.Keys, {};
      NoProgress(s, rows, fs, dry, planned);
      while todo != {}
        invariant Valid() && todo !! done && todo + done == objects.Keys && Kept(s, rows, finished, dry, kept)
        invariant Progress(s, rows, done, finished, fs, dry, View(), results)
        invariant (forall h :: fs(h) == Sound) ==> finished == done
        decreases todo
      {
        var h :| h in todo;
        var end;
        results, end := DeleteSelected(rows, objects, h, dry, fs, results, s, done, finished);
        if end.Stopped? {
          RewrittenIsFinal(s, rows, done, finished, dry, results, kept);
          failed, results := true, Rewritten(results, kept);
          done, finished := done + {h}, if dry then {} else finished;
          return;
        }
        KeptNext(s, rows, objects, finished, dry, kept, h);
        if end.Finished? {
          kept, finished := if dry then kept else kept + objects[h].indices, finished + {h};
        }
        todo, done := todo - {h}, done + {h};
      }
      assert done == objects.Keys;
      CompleteIsFinal(s, rows, objects, finished, results);
    }

    /**
     `Delete`, real or dry, wherever its requests fail. A row it reports as purged has lost its ref, no
     row that was not chosen has, and when nothing fails exactly the chosen rows have.
     */
    method Delete(rows: seq<Key>, dry: bool, readable: bool, fs: Faults)
      returns (results: seq<PurgeResult>, failed: bool, ghost done: set<Hash>, ghost finished: set<Hash>)
      requires Valid() && Idle(View())
      modifies this
      ensures Valid() && finished <= done && results == FinalReport(old(View()), rows, finished, failed)
      ensures View() == if dry then old(View()) else Deleted(old(View()), rows, done, fs)
      ensures done <= Targets(old(View()), rows) && (!failed ==> done == Targets(old(View()), rows))
      ensures !dry ==> Ends(old(View()), rows, done, finished, fs)
      ensures failed <==>
                !readable || exists h :: h in Targets(old(View()), rows) && Stops(old(View()), rows, dry, h, fs(h))
      ensures readable && failed ==> exists h :: h in done && Stops(old(View()), rows, dry, h, fs(h))
      ensures !dry ==> forall i :: 0 <= i < |rows| && results[i].outcome == Purged ==>
                         rows[i] in old(refs) && rows[i] !in refs
      ensures refs.Keys <= old(refs).Keys && old(refs).Keys - refs.Keys <= Chosen(old(View()), rows)
      ensures readable && (forall h :: fs(h) == Sound) ==>
                && !failed && results == Report(old(View()), rows)
                && View() == if dry then old(View()) else Purge(old(View()), Chosen(old(View()), rows))
    {
      hide Runs, Deleted, Whole, Hit, Chosen, FinalAt, Purge, Planned;
      ghost var s := View();
      if !readable {
        results := Unreadable(rows);
        failed, done, finished := true, {}, {};
        UnreadableIsFinal(s, rows);
        DeletedNone(s, rows, fs);
        return;
      }
      var planned, objects := Plan(rows);
      PlannedTargets(s, rows, objects);
      results, failed, done, finished := DeletePlanned(rows, objects, dry, fs, planned);
      if !dry {
        ReportIsTruthful(s, rows, done, finished, fs, failed);
      }
      if forall h :: fs(h) == Sound {
        SoundDelete(s, rows, objects, fs);
      }
    }

    /** One query of `walkCachedRows`: the next rows after the cursor, oldest first. */
    method NextPage(filter: Filter, cursor: Cursor) returns (page: seq<Key>, next: Cursor)
      ensures IsKeysetPage(View(), After(View(), Matching(View(), filter), cursor), page, next)
      ensures page != [] ==> Before(cursor, next)
    {
      var all := After(View(), Matching(View(), filter), cursor);
      var rest := all;
      page, next := [], cursor;
      while |page| < PAGE_LIMIT && rest != {}
        invariant |page| <= PAGE_LIMIT && rest <= all
        invariant forall k :: k in all ==> (k in page <==> k !in rest)
        invariant forall k :: k in page ==> k in all && !Before(next, Position(messages, k))
        invariant forall k :: k in rest ==> Before(next, Position(messages, k))
        invariant page != [] ==> Before(cursor, next)
        invariant page != [] ==> page[|page| - 1] in all && next == Position(messages, page[|page| - 1])
        invariant InOrder(messages, page)
        decreases PAGE_LIMIT - |page|
      {
        var k := Earliest(messages, rest);
        var at := Position(messages, k);
        if page != [] { BeforeTransitive(cursor, next, at); }
        forall j | j in page ensures !Before(at, Position(messages, j)) {
          if Before(at, Position(messages, j)) { BeforeTransitive(next, at, Position(messages, j)); }
        }
        BeforeTotal(at, at);
        InOrderNext(messages, page, k);
        page, rest, next := page + [k], rest - {k}, at;
      }
    }

    /** One round of a purge: fetch a page, delete it, add up its results. */
    method PurgePage(filter: Filter, cursor: Cursor, files: nat, freed: nat, ghost s: State, ghost done: set<Key>)
      returns (next: Cursor, files': nat, freed': nat, more: bool, ghost done': set<Key>)
      requires Valid() && Idle(s) && WalkedTo(s, filter, done, cursor, View(), files, freed)
      modifies this
      ensures Valid() && WalkedTo(s, filter, done', next, View(), files', freed')
      ensures if more then done < done' else done' == Matching(s, filter)
    {
      hide Runs, WalkedTo, Idle, Purge, Chosen, Report, FinalReport, Files, Bytes, Deleted, Matching;
      var page;
      page, next := FetchPage(filter, cursor, s, done, files, freed);
      files', freed', done' := files, freed, done + Keys(page);
      more := |page| == PAGE_LIMIT;
      if page == [] {
        next := cursor;
        assert done' == done;
      } else {
        var results, failed, deleted, finished := Delete(page, false, true, AllSound());
        files', freed' := files + Files(results), freed + Bytes(results);
      }
    }

    /** The next page, with what deleting it will lead to. */
    method FetchPage(filter: Filter, cursor: Cursor, ghost s: State, ghost done: set<Key>, ghost files: nat,
                     ghost freed: nat)
      returns (page: seq<Key>, next: Cursor)
      requires Idle(s) && WalkedTo(s, filter, done, cursor, View(), files, freed)
      ensures Idle(View())
      ensures page != [] ==> WalkedTo(s, filter, done + Keys(page), next, Purge(View(), Chosen(View(), page)),
                               files + Files(Report(View(), page)), freed + Bytes(Report(View(), page)))
      ensures page != [] ==> done < done + Keys(page)
      ensures |page| <= PAGE_LIMIT && (|page| < PAGE_LIMIT ==> done + Keys(page) == Matching(s, filter))
    {
      page, next := NextPage(filter, cursor);
      PageLeads(s, filter, done, cursor, View(), files, freed, page, next);
      IdleAfterPurge(s, done);
    }

    /** A real purge: every page goes through `Delete`. It frees what the dry run promises. */
    method PurgeMatching(filter: Filter) returns (files: nat, freed: nat)
      requires Valid() && Idle(View())
      requires Reachable(View(), filter)
      modifies this
      ensures Valid() && View() == Purge(old(View()), Matching(old(View()), filter))
      ensures (files, freed) == DrySelection(old(View()), filter)
    {
      ghost var s := View();
      RunSafe(size, run);
      files, freed := 0, 0;
      var cursor, more := WALK_START, true;
      ghost var done: set<Key> := {};
      WalkStart(s, filter);
      while more
        invariant Valid() && WalkedTo(s, filter, done, cursor, View(), files, freed)
        invariant !more ==> done == Matching(s, filter)
        decreases Matching(s, filter) - done, more
      {
        cursor, files, freed, more, done := PurgePage(filter, cursor, files, freed, s, done);
      }
      DryObjectsAreRemovable(s, filter);
    }

    // ----- sweeping -----

    /** `Sweep`: both journals, the rows that `expired` selects, and the unreferenced objects. */
    method Sweep(expired: Filter, settling: Troubles, forgetting: Troubles, collecting: Troubles)
      returns (files: nat, freed: nat, failed: nat, ghost pass: Pass)
      requires Valid() && Idle(View()) && Reachable(View(), expired)
      modifies this
      ensures Valid() && Idle(View()) && IsPass(old(View()), pass) && View() == AfterPass(old(View()), pass)
      ensures pass.settling == settling && pass.forgetting == forgetting && pass.collecting == collecting
      ensures pass.expired == Matching(AfterUploads(old(View()), pass), expired) && files == |pass.expired|
      ensures freed == PassBytes(old(View()), pass) && failed == PassFailures(old(View()), pass)
    {
      hide Inv, Idle, Settle, Forget, Purge, Collect, Matching, IsPage, Reachable;
      ghost var s := View();
      RunSafe(size, run);
      var recovered, recoveryFailed, settled := ReconcilePendingDeletions(settling);
      SettleKeepsInv(size, s, settled, settling);
      ghost var a := View();
      var uploads, uploadFailed, forgotten := ReconcilePendingUploads(forgetting);
      ForgetKeepsInv(size, a, forgotten, forgetting);
      ghost var b := View();
      StillReachable(s, settled, settling, forgotten, forgetting, expired);
      var deleted;
      files, deleted := PurgeMatching(expired);
      PurgeKeepsInv(size, b, Matching(b, expired));
      var orphans, orphanFailed, collected := SweepUnreferenced(collecting);
      pass := Pass(settled, settling, forgotten, forgetting, Matching(b, expired), collected, collecting);
      PassKeepsInv(size, s, pass);
      DryTotals(b, expired);
      freed := deleted + orphans + recovered + uploads;
      failed := orphanFailed + recoveryFailed + uploadFailed;
    }

    /** Sweeps without expiry, against a bucket that answers, until nothing is left to recover. */
    method Recover()
      requires Valid() && Idle(View())
      modifies this
      ensures Valid() && Idle(View()) && Recovered(View()) && refs == Survivors(old(View()))
    {
      hide Inv, Idle, Recovered, AfterPass, IsPass, Survivors, PassBytes, PassFailures, Matching;
      ghost var s := View();
      RunSafe(size, run);
      while Backlog(State(slots, refs, messages)) > 0
        invariant Valid() && Idle(View()) && Inv(size, View()) && Survivors(View()) == Survivors(s)
        decreases Backlog(View())
      {
        ghost var before := View();
        NothingExpires(before);
        var files, freed, failed, pass := Sweep(Never(), AllCalm(), AllCalm(), AllCalm());
        PassKeepsInv(size, before, pass);
        PassShrinksBacklog(size, before, pass);
        PassKeepsSurvivors(size, before, pass);
        NoneExpired(AfterUploads(before, pass));
        assert Survivors(before) - {} == Survivors(before);
      }
      NoBacklogIsRecovered(size, View());
    }
  }

  // ----- what a sweep reports -----

  /** The bytes a sweep counts as freed, over its four parts. */
  ghost function PassBytes(s: State, p: Pass): nat {
    var a, b, c := AfterDeletions(s, p), AfterUploads(s, p), AfterExpiry(s, p);
    RowBytes(s, Missing(s, p.settled, p.settling)) + IntentBytes(a, Unpublished(a, p.forgotten, p.forgetting))
    + RowBytes(b, Removable(b, p.expired)) + RowBytes(c, Collected(p.collected, p.collecting))
  }

  ghost function PassFailures(s: State, p: Pass): nat {
    var a := AfterDeletions(s, p);
    |Unsettled(s, p.settled, p.settling)| + |Unforgotten(a, p.forgotten, p.forgetting)|
    + |Uncollected(p.collected, p.collecting)|
  }

  function Never(): Filter {
    (k: Key, m: Message) => false
  }

  function AllSound(): Faults {
    (h: Hash) => Sound
  }

  function AllCalm(): Troubles {
    (h: Hash) => Calm
  }

  lemma NothingExpires(s: State)
    ensures Reachable(s, Never())
  {
  }

  lemma NoneExpired(s: State)
    ensures Matching(s, Never()) == {}
  {
  }

  /** Recovery leaves every remaining row where the walk can find it. */
  lemma StillReachable(s: State, settled: set<Hash>, settling: Troubles, forgotten: set<Hash>, forgetting: Troubles,
                       filter: Filter)
    requires Reachable(s, filter)
    ensures Reachable(Forget(Settle(s, settled, settling), forgotten, forgetting), filter)
  {
    var b := Forget(Settle(s, settled, settling), forgotten, forgetting);
    forall k | k in Matching(b, filter) ensures k in Matching(s, filter) {
    }
  }

  lemma DryTotals(s: State, filter: Filter)
    requires s.refs.Keys <= s.messages.Keys
    ensures DrySelection(s, filter) == (|Matching(s, filter)|, RowBytes(s, Removable(s, Matching(s, filter))))
  {
    DryObjectsAreRemovable(s, filter);
  }

  lemma InOrderNext(messages: map<Key, Message>, page: seq<Key>, k: Key)
    requires (forall j :: j in page ==> j in messages) && k in messages && InOrder(messages, page)
    requires page != [] ==> Before(Position(messages, page[|page| - 1]), Position(messages, k))
    ensures InOrder(messages, page + [k])
  {
    forall i | 0 <= i < |page| - 1 ensures Before(Position(messages, page[i]), Position(messages, k)) {
      BeforeTransitive(Position(messages, page[i]), Position(messages, page[|page| - 1]), Position(messages, k));
    }
  }

  method Earliest(messages: map<Key, Message>, keys: set<Key>) returns (first: Key)
    requires keys != {} && keys <= messages.Keys
    ensures first in keys
    ensures forall k :: k in keys && k != first ==> Before(Position(messages, first), Position(messages, k))
  {
    first :| first in keys;
    var rest := keys - {first};
    while rest != {}
      invariant first in keys && rest <= keys && first !in rest
      invariant forall k :: k in keys && k !in rest && k != first ==>
                Before(Position(messages, first), Position(messages, k))
      decreases rest
    {
      var k :| k in rest;
      rest := rest - {k};
      var a, b := Position(messages, first), Position(messages, k);
      BeforeTotal(a, b);
      if Before(b, a) {
        forall j | j in keys && j !in rest && j != k && j != first ensures Before(b, Position(messages, j)) {
          BeforeTransitive(b, a, Position(messages, j));
        }
        first := k;
      }
    }
  }

  lemma IdleAfterPurge(s: State, keys: set<Key>)
    requires Idle(s)
    ensures Idle(Purge(s, keys))
  {
  }

  function Elements(page: seq<Hash>): set<Hash> {
    set h | h in page
  }

  predicate Distinct(page: seq<Hash>) {
    forall i, j :: 0 <= i < j < |page| ==> page[i] != page[j]
  }

  lemma NextElement(page: seq<Hash>, i: nat)
    requires i < |page| && Distinct(page)
    ensures Elements(page[..i + 1]) == Elements(page[..i]) + {page[i]} && page[i] !in Elements(page[..i])
  {
    assert page[..i + 1] == page[..i] + [page[i]];
  }

  lemma NoElements()
    ensures Distinct([]) && Elements([]) == {}
  {
  }

  lemma OneMore(page: seq<Hash>, h: Hash)
    requires Distinct(page) && h !in Elements(page)
    ensures Distinct(page + [h]) && Elements(page + [h]) == Elements(page) + {h}
  {
  }

  /** A bounded page of rows, in whatever order the database returns them. */
  method SelectPage(available: set<Hash>) returns (page: seq<Hash>)
    ensures Distinct(page) && IsPage(Elements(page), available)
  {
    hide Distinct, Elements;
    page := [];
    NoElements();
    var rest := available;
    while |page| < PAGE_LIMIT && rest != {}
      invariant Distinct(page) && rest + Elements(page) == available && rest !! Elements(page)
      invariant |Elements(page)| == |page| <= PAGE_LIMIT
      decreases PAGE_LIMIT - |page|
    {
      var h :| h in rest;
      OneMore(page, h);
      page := page + [h];
      rest := rest - {h};
    }
  }

  lemma LockedSettle(size: Lengths, s: State, h: Hash, t: Trouble)
    requires At(s, h).stage == None
    ensures SettleOne(Next(size, s, Lock(h, SettleCheck(None))), h, t) == SettleOne(s, h, t)
  {
    var x := At(s, h);
    WithTwice(s, h, x.(stage := Some(SettleCheck(None))), SettleSlot(x, t));
  }

  // ----- how far a pass has come -----

  ghost predicate SettledTo(s: State, page: seq<Hash>, i: nat, ts: Troubles, v: State, freed: nat, failed: nat)
    requires i <= |page|
  {
    var done := Elements(page[..i]);
    v == Settle(s, done, ts) && freed == RowBytes(s, Missing(s, done, ts)) && failed == |Unsettled(s, done, ts)|
  }

  lemma SettledToStart(s: State, page: seq<Hash>, ts: Troubles)
    ensures SettledTo(s, page, 0, ts, s, 0, 0)
  {
    assert Elements(page[..0]) == {} && Missing(s, {}, ts) == {} && Unsettled(s, {}, ts) == {};
    assert Settle(s, {}, ts).slots == s.slots;
    assert Settle(s, {}, ts).refs == s.refs;
  }

  lemma SettledToEnd(s: State, page: seq<Hash>, ts: Troubles, v: State, freed: nat, failed: nat)
    requires SettledTo(s, page, |page|, ts, v, freed, failed)
    ensures v == Settle(s, Elements(page), ts) && freed == RowBytes(s, Missing(s, Elements(page), ts))
    ensures failed == |Unsettled(s, Elements(page), ts)|
  {
    hide Settle, Missing, Unsettled;
    assert page[..|page|] == page;
  }

  /** The next marked object is as it was found. */
  lemma SettledUntouched(s: State, page: seq<Hash>, i: nat, ts: Troubles, v: State)
    requires i < |page| && Distinct(page) && Idle(s) && Elements(page) <= Marked(s)
    requires v == Settle(s, Elements(page[..i]), ts)
    ensures var h := page[i];
            h in s.slots && s.slots[h].row != None && At(v, h) == s.slots[h] && s.slots[h].stage == None
  {
    hide SettleSlot, SettleDrops, SettleFails, RefsTo;
    NextElement(page, i);
    assert page[i] in Elements(page) && page[i] in Marked(s);
  }

  lemma SettledToNext(s: State, page: seq<Hash>, i: nat, ts: Troubles, v: State, freed: nat, failed: nat)
    requires i < |page| && Distinct(page) && Idle(s) && Elements(page) <= Marked(s)
    requires SettledTo(s, page, i, ts, v, freed, failed)
    ensures var h, t := page[i], ts(page[i]);
            && h in s.slots && s.slots[h].row != None && At(v, h) == s.slots[h] && s.slots[h].stage == None
            && SettledTo(s, page, i + 1, ts, SettleOne(v, h, t),
                         if SettleDrops(At(v, h), t) then freed + s.slots[h].row.value else freed,
                         if SettleFails(At(v, h), t) then failed + 1 else failed)
  {
    hide Settle, SettleDrops, SettleFails, SettleOne, Missing, Unsettled, Idle, Marked, Distinct, Elements;
    var h, done := page[i], Elements(page[..i]);
    NextElement(page, i);
    SettledUntouched(s, page, i, ts, v);
    SettleGrows(s, done, h, ts);
    SettledSets(s, done, h, ts);
    if SettleDrops(At(s, h), ts(h)) {
      RowBytesGrows(s, Missing(s, done, ts), h);
    }
  }

  lemma SettledSets(s: State, done: set<Hash>, h: Hash, ts: Troubles)
    requires h !in done
    ensures h !in Missing(s, done, ts) && h !in Unsettled(s, done, ts)
    ensures Missing(s, done + {h}, ts) == Missing(s, done, ts) + if SettleDrops(At(s, h), ts(h)) then {h} else {}
    ensures Unsettled(s, done + {h}, ts) == Unsettled(s, done, ts) + if SettleFails(At(s, h), ts(h)) then {h} else {}
  {
    hide SettleDrops, SettleFails;
  }

  ghost predicate ForgottenTo(s: State, page: seq<Hash>, i: nat, ts: Troubles, v: State, freed: nat, failed: nat)
    requires i <= |page|
  {
    var done := Elements(page[..i]);
    v == Forget(s, done, ts) && freed == IntentBytes(s, Unpublished(s, done, ts))
      && failed == |Unforgotten(s, done, ts)|
  }

  lemma ForgottenToStart(s: State, page: seq<Hash>, ts: Troubles)
    ensures ForgottenTo(s, page, 0, ts, s, 0, 0)
  {
    assert Elements(page[..0]) == {} && Unpublished(s, {}, ts) == {} && Unforgotten(s, {}, ts) == {};
    assert Forget(s, {}, ts).slots == s.slots;
  }

  lemma ForgottenToEnd(s: State, page: seq<Hash>, ts: Troubles, v: State, freed: nat, failed: nat)
    requires ForgottenTo(s, page, |page|, ts, v, freed, failed)
    ensures v == Forget(s, Elements(page), ts) && freed == IntentBytes(s, Unpublished(s, Elements(page), ts))
    ensures failed == |Unforgotten(s, Elements(page), ts)|
  {
    hide Forget, Unpublished, Unforgotten;
    assert page[..|page|] == page;
  }

  /** The next intent is as it was found. */
  lemma ForgottenUntouched(s: State, page: seq<Hash>, i: nat, ts: Troubles, v: State)
    requires i < |page| && Distinct(page) && Idle(s) && Elements(page) <= Pending(s)
    requires v == Forget(s, Elements(page[..i]), ts)
    ensures var h := page[i];
            h in s.slots && s.slots[h].intent != None && At(v, h) == s.slots[h] && s.slots[h].stage == None
  {
    hide ForgetSlot, ForgetFails, RefsTo;
    NextElement(page, i);
    assert page[i] in Elements(page) && page[i] in Pending(s);
  }

  lemma ForgottenToNext(s: State, page: seq<Hash>, i: nat, ts: Troubles, v: State, freed: nat, failed: nat)
    requires i < |page| && Distinct(page) && Idle(s) && Elements(page) <= Pending(s)
    requires ForgottenTo(s, page, i, ts, v, freed, failed)
    ensures var h, t := page[i], ts(page[i]);
            && h in s.slots && s.slots[h].intent != None && At(v, h) == s.slots[h] && s.slots[h].stage == None
            && ForgottenTo(s, page, i + 1, ts, ForgetOne(v, h, t),
                           if At(v, h).row == None && !ForgetFails(At(v, h), t) then freed + s.slots[h].intent.value
                             else freed,
                           if ForgetFails(At(v, h), t) then failed + 1 else failed)
  {
    hide Forget, ForgetFails, ForgetOne, Unpublished, Unforgotten, Idle, Pending, Distinct, Elements;
    var h, done := page[i], Elements(page[..i]);
    NextElement(page, i);
    ForgottenUntouched(s, page, i, ts, v);
    ForgetGrows(s, done, h, ts);
    ForgottenSets(s, done, h, ts);
    if At(s, h).row == None && !ForgetFails(At(s, h), ts(h)) {
      IntentBytesGrows(s, Unpublished(s, done, ts), h);
    }
  }

  lemma ForgottenSets(s: State, done: set<Hash>, h: Hash, ts: Troubles)
    requires h !in done
    ensures h !in Unpublished(s, done, ts) && h !in Unforgotten(s, done, ts)
    ensures Unpublished(s, done + {h}, ts) == Unpublished(s, done, ts) +
            if At(s, h).row == None && !ForgetFails(At(s, h), ts(h)) then {h} else {}
    ensures Unforgotten(s, done + {h}, ts) == Unforgotten(s, done, ts) +
            if ForgetFails(At(s, h), ts(h)) then {h} else {}
  {
    hide ForgetFails;
  }

  ghost predicate CollectedTo(s: State, page: seq<Hash>, i: nat, ts: Troubles, v: State, freed: nat, failed: nat)
    requires i <= |page|
  {
    var done := Elements(page[..i]);
    v == Collect(s, done, ts) && freed == RowBytes(s, Collected(done, ts)) && failed == |Uncollected(done, ts)|
  }

  lemma CollectedToStart(s: State, page: seq<Hash>, ts: Troubles)
    ensures CollectedTo(s, page, 0, ts, s, 0, 0)
  {
    assert Elements(page[..0]) == {} && Collected({}, ts) == {} && Uncollected({}, ts) == {};
    assert Collect(s, {}, ts).slots == s.slots;
  }

  lemma CollectedToEnd(s: State, page: seq<Hash>, ts: Troubles, v: State, freed: nat, failed: nat)
    requires CollectedTo(s, page, |page|, ts, v, freed, failed)
    ensures v == Collect(s, Elements(page), ts) && freed == RowBytes(s, Collected(Elements(page), ts))
    ensures failed == |Uncollected(Elements(page), ts)|
  {
    hide Collect, Collected, Uncollected;
    assert page[..|page|] == page;
  }

  /** The next unreferenced object is as it was found. */
  lemma CollectedUntouched(s: State, page: seq<Hash>, i: nat, ts: Troubles, v: State)
    requires i < |page| && Distinct(page) && Idle(s) && Elements(page) <= Orphans(s)
    requires v == Collect(s, Elements(page[..i]), ts)
    ensures var h := page[i];
            && h in s.slots && s.slots[h].row != None && At(v, h) == s.slots[h] && s.slots[h].stage == None
            && RefsTo(v.refs, h) == {} && v.refs == s.refs
  {
    hide SweepSlot, RefsTo;
    NextElement(page, i);
    assert page[i] in Elements(page) && page[i] in Orphans(s);
  }

  lemma CollectedToNext(s: State, page: seq<Hash>, i: nat, ts: Troubles, v: State, freed: nat, failed: nat)
    requires i < |page| && Distinct(page) && Idle(s) && Elements(page) <= Orphans(s)
    requires CollectedTo(s, page, i, ts, v, freed, failed)
    ensures var h, t := page[i], ts(page[i]);
            && h in s.slots && s.slots[h].row != None && At(v, h) == s.slots[h] && s.slots[h].stage == None
            && RefsTo(v.refs, h) == {}
            && CollectedTo(s, page, i + 1, ts, SweepOne(v, h, t),
                           if t == Calm then freed + s.slots[h].row.value else freed,
                           if t == Calm then failed else failed + 1)
  {
    hide Collect, SweepOne, Collected, Uncollected, Idle, Orphans, Distinct, Elements, RefsTo;
    var h, done := page[i], Elements(page[..i]);
    NextElement(page, i);
    CollectedUntouched(s, page, i, ts, v);
    CollectGrows(s, done, h, ts);
    CollectedSets(done, h, ts);
    if ts(h) == Calm {
      RowBytesGrows(s, Collected(done, ts), h);
    }
  }

  lemma CollectedSets(done: set<Hash>, h: Hash, ts: Troubles)
    requires h !in done
    ensures h !in Collected(done, ts) && h !in Uncollected(done, ts)
    ensures Collected(done + {h}, ts) == Collected(done, ts) + if ts(h) == Calm then {h} else {}
    ensures Uncollected(done + {h}, ts) == Uncollected(done, ts) + if ts(h) == Calm then {} else {h}
  {
  }
}
