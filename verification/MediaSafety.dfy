/**
 Safety of the media protocol over every run: published refs stay readable and no stored byte
 escapes accounting, whatever interleaves, fails or crashes.
 */
module MediaSafety {
  import opened Wrappers
  import opened MediaProtocol
  import opened Sums

  // ----- the inductive invariant, hash by hash -----

  ghost predicate Referenced(refs: map<Key, Hash>, h: Hash) {
    exists k :: k in refs && refs[k] == h
  }

  predicate Expects(h: Hash, expected: Option<Hash>) {
    expected == None || expected == Some(h)
  }

  /** What the holder of `h`'s lock knows between its steps; `used` says whether `h` has refs. */
  predicate StageFacts(h: Hash, x: Slot, used: bool, st: Stage) {
    match st
    case PutStat(_, expected) => Expects(h, expected)
    case PutJournal(_, expected) => Expects(h, expected) && x.stored == None
    case PutUpload(_, expected) => Expects(h, expected) && x.intent != None && (used ==> x.marked)
    case PutVerify(_, expected, uploaded) =>
      Expects(h, expected) && (uploaded ==> x.intent != None && (used ==> x.marked))
    case PutCommit(_, expected, uploaded) =>
      Expects(h, expected) && x.stored != None && (uploaded ==> x.intent != None && (used ==> x.marked))
    case PutCleanup => used ==> x.marked
    case PutForget => x.stored == None
    case DeleteRemote => x.marked
    case DeleteRow => x.stored == None
    case SettleGone(_) => x.stored == None
    case SettleKeep(_) => x.stored != None
    case OpenCheck(_) => !x.marked
    case OpenFetch(_) => x.stored != None && x.row != None
    case OrphanRemote => !used
    case OrphanRow => x.stored == None && !used
    case UploadRemote => x.row == None
    case UploadForget => x.stored != None ==> x.row != None
    case _ => true
  }

  predicate Facts(n: nat, h: Hash, x: Slot, used: bool) {
    && (x.stored != None ==> x.stored == Some(n) && (x.row != None || x.intent != None))
    && (x.row != None ==> x.row == Some(n))
    && (x.intent != None ==> x.intent == Some(n))
    && (x.marked ==> x.row != None)
    && (used ==> x.row != None && (x.marked || x.stored != None))
    && (x.stage != None ==> StageFacts(h, x, used, x.stage.value))
  }

  ghost predicate Good(size: Lengths, s: State, h: Hash) {
    Facts(size(h), h, At(s, h), Referenced(s.refs, h))
  }

  ghost predicate Inv(size: Lengths, s: State) {
    && (forall h :: Good(size, s, h))
    && s.refs.Keys <= s.messages.Keys
  }

  /** Losing refs never breaks a fact. */
  lemma FactsWithFewerRefs(n: nat, h: Hash, x: Slot, used: bool)
    requires Facts(n, h, x, used)
    ensures Facts(n, h, x, false)
  {
  }

  // ----- one holder's step, on its own slot -----

  /** Whether the hash still has refs after the step. */
  predicate UsedAfter(used: bool, change: RefChange, after: bool) {
    match change
    case Keep => after == used
    case Cascade => !after
    case Detach(_) => after ==> used
    case Attach(_) => after
  }

  lemma PutStepKeepsFacts(n: nat, h: Hash, x: Slot, messages: map<Key, Message>, st: Stage, reply: Reply, used: bool,
                          after: bool)
    requires Facts(n, h, x, used) && x.stage == Some(st) && IsPut(st)
    requires UsedAfter(used, PutStep(n, x, messages, st, reply).change, after)
    ensures Facts(n, h, PutStep(n, x, messages, st, reply).slot, after)
  {
  }

  lemma DeleteStepKeepsFacts(n: nat, h: Hash, x: Slot, keys: set<Key>, st: Stage, reply: Reply, used: bool, after: bool)
    requires Facts(n, h, x, used) && x.stage == Some(st) && IsDelete(st)
    requires UsedAfter(used, DeleteStep(x, keys, st, reply).change, after)
    ensures Facts(n, h, DeleteStep(x, keys, st, reply).slot, after)
  {
  }

  lemma SettleStepKeepsFacts(n: nat, h: Hash, x: Slot, refs: map<Key, Hash>, messages: map<Key, Message>, st: Stage,
                             reply: Reply, after: bool)
    requires Facts(n, h, x, Referenced(refs, h)) && x.stage == Some(st) && IsSettle(st)
    requires UsedAfter(Referenced(refs, h), SettleStep(h, x, refs, messages, st, reply).change, after)
    ensures Facts(n, h, SettleStep(h, x, refs, messages, st, reply).slot, after)
  {
  }

  lemma SweepStepKeepsFacts(n: nat, h: Hash, x: Slot, keys: set<Key>, st: Stage, reply: Reply, used: bool, after: bool)
    requires Facts(n, h, x, used) && x.stage == Some(st) && !IsPut(st) && !IsDelete(st) && !IsSettle(st)
    requires keys == {} ==> !used
    requires UsedAfter(used, SweepStep(x, keys, st, reply).change, after)
    ensures Facts(n, h, SweepStep(x, keys, st, reply).slot, after)
  {
  }

  lemma StepKeepsFacts(n: nat, h: Hash, x: Slot, refs: map<Key, Hash>, messages: map<Key, Message>, st: Stage,
                       reply: Reply, after: bool)
    requires Facts(n, h, x, Referenced(refs, h)) && x.stage == Some(st)
    requires UsedAfter(Referenced(refs, h), StepOf(n, h, x, refs, messages, st, reply).change, after)
    ensures Facts(n, h, StepOf(n, h, x, refs, messages, st, reply).slot, after)
  {
    var used, keys := Referenced(refs, h), RefsTo(refs, h);
    if used {
      var k :| k in refs && refs[k] == h;
      assert k in keys;
    }
    if IsPut(st) { PutStepKeepsFacts(n, h, x, messages, st, reply, used, after); }
    else if IsDelete(st) { DeleteStepKeepsFacts(n, h, x, keys, st, reply, used, after); }
    else if IsSettle(st) { SettleStepKeepsFacts(n, h, x, refs, messages, st, reply, after); }
    else { SweepStepKeepsFacts(n, h, x, keys, st, reply, used, after); }
  }

  // ----- every step of the whole system -----

  lemma ChangeKeepsOtherRefs(refs: map<Key, Hash>, h: Hash, change: RefChange, g: Hash)
    requires g != h
    ensures Referenced(ChangeRefs(refs, h, change), g) ==> Referenced(refs, g)
  {
  }

  lemma ChangeOwnRefs(refs: map<Key, Hash>, h: Hash, change: RefChange)
    ensures UsedAfter(Referenced(refs, h), change, Referenced(ChangeRefs(refs, h, change), h))
  {
    var after := ChangeRefs(refs, h, change);
    if change.Attach? {
      assert after[change.row] == h;
    } else if Referenced(after, h) {
      var k :| k in after && after[k] == h;
      assert refs[k] == h;
    }
  }

  lemma RequestSafe(size: Lengths, s: State, h: Hash, reply: Reply)
    requires Inv(size, s) && Enabled(s, Request(h, reply))
    ensures Inv(size, Next(size, s, Request(h, reply)))
  {
    var t := Next(size, s, Request(h, reply));
    var x := At(s, h);
    var eff := StepOf(size(h), h, x, s.refs, s.messages, x.stage.value, reply);
    forall g ensures Good(size, t, g) {
      assert Good(size, s, g);
      if g == h {
        ChangeOwnRefs(s.refs, h, eff.change);
        StepKeepsFacts(size(h), h, x, s.refs, s.messages, x.stage.value, reply, Referenced(t.refs, h));
      } else {
        ChangeKeepsOtherRefs(s.refs, h, eff.change, g);
        FactsWithFewerRefs(size(g), g, At(s, g), Referenced(s.refs, g));
      }
    }
    AttachNeedsMessage(size(h), h, x, s, x.stage.value, reply);
  }

  /** Only a commit adds a ref, and only for a row it has just revalidated. */
  lemma AttachNeedsMessage(n: nat, h: Hash, x: Slot, s: State, st: Stage, reply: Reply)
    ensures var c := StepOf(n, h, x, s.refs, s.messages, st, reply).change;
            c.Attach? ==> c.row in s.messages && st.PutCommit? && s.messages[c.row].sha == st.expected
  {
  }

  lemma EnvironmentSafe(size: Lengths, s: State, e: Event)
    requires Inv(size, s) && Enabled(s, e) && !e.Request?
    ensures Inv(size, Next(size, s, e))
  {
    var t := Next(size, s, e);
    forall g ensures Good(size, t, g) {
      assert Good(size, s, g);
      if Referenced(t.refs, g) {
        var k :| k in t.refs && t.refs[k] == g;
        assert s.refs[if e.MoveRef? && k !in s.refs then e.from else k] == g;
      }
      FactsWithFewerRefs(size(g), g, At(s, g), Referenced(s.refs, g));
    }
  }

  /** Every step of the protocol, crashes included, keeps the invariant. */
  lemma StepSafe(size: Lengths, s: State, e: Event)
    requires Inv(size, s) && Enabled(s, e)
    ensures Inv(size, Next(size, s, e))
  {
    if e.Request? {
      RequestSafe(size, s, e.hash, e.reply);
    } else {
      EnvironmentSafe(size, s, e);
    }
  }

  lemma {:induction false} RunSafe(size: Lengths, events: seq<Event>)
    requires Runnable(size, events)
    ensures Inv(size, Execute(size, events))
  {
    if events != [] {
      var n := |events| - 1;
      RunSafe(size, events[..n]);
      StepSafe(size, Execute(size, events[..n]), events[n]);
    }
  }

  // ----- what the protocol promises -----

  /** In every reachable state a ref that no deletion marker excuses names a stored object of the catalogued size. */
  lemma PublishedRefsAreReadable(size: Lengths, events: seq<Event>, k: Key)
    requires Runnable(size, events) && k in Execute(size, events).refs
    ensures var s := Execute(size, events);
            var x := At(s, s.refs[k]);
            x.row != None && (!x.marked ==> x.stored == x.row)
  {
    RunSafe(size, events);
    var s := Execute(size, events);
    assert Good(size, s, s.refs[k]);
  }

  /** The bytes `chargedObjectsSQL` counts for a hash: its catalog row, else its upload intent. */
  function Charge(x: Slot): Option<nat> {
    if x.row != None then x.row else x.intent
  }

  /** Every stored object is charged exactly its own length, after any crash or ambiguous failure. */
  lemma StoredObjectsAreCharged(size: Lengths, events: seq<Event>, h: Hash)
    requires Runnable(size, events)
    ensures var x := At(Execute(size, events), h); x.stored != None ==> Charge(x) == x.stored
  {
    RunSafe(size, events);
    assert Good(size, Execute(size, events), h);
  }

  ghost function Bucket(s: State): map<Hash, nat> {
    map h | h in s.slots && s.slots[h].stored != None :: s.slots[h].stored.value
  }

  ghost function Charges(s: State): map<Hash, nat> {
    map h | h in s.slots && Charge(s.slots[h]) != None :: Charge(s.slots[h]).value
  }

  /** The usage the bridge accounts for is never below what the bucket holds. */
  lemma UsageCoversBucket(size: Lengths, events: seq<Event>)
    requires Runnable(size, events)
    ensures var s := Execute(size, events); Total(Bucket(s)) <= Total(Charges(s))
  {
    var s := Execute(size, events);
    forall h | h in Bucket(s) ensures h in Charges(s) && Bucket(s)[h] <= Charges(s)[h] {
      StoredObjectsAreCharged(size, events, h);
    }
    TotalMonotone(Bucket(s), Charges(s));
  }

  /** A reader that reached its GET always finds the object, at the size it was promised. */
  lemma OpenFindsObject(size: Lengths, events: seq<Event>, h: Hash, row: Key)
    requires Runnable(size, events) && At(Execute(size, events), h).stage == Some(OpenFetch(row))
    ensures var x := At(Execute(size, events), h); x.stored != None && x.stored == x.row
  {
    RunSafe(size, events);
    assert Good(size, Execute(size, events), h);
  }

  /** A commit publishes: the row is served from the new object and no marker or intent is left. */
  lemma CommitPublishes(size: Lengths, events: seq<Event>, h: Hash, row: Key, expected: Option<Hash>, uploaded: bool)
    requires Runnable(size, events)
    requires var s := Execute(size, events);
             At(s, h).stage == Some(PutCommit(row, expected, uploaded)) && row in s.messages
               && s.messages[row].sha == expected
    ensures var t := Next(size, Execute(size, events), Request(h, Done));
            Serves(h, At(t, h), t.refs, t.messages, row)
              && At(t, h) == Slot(Some(size(h)), Some(size(h)), false, None, None)
  {
    RunSafe(size, events);
    assert Good(size, Execute(size, events), h);
  }
}
