/**
 Whole sweeps: the journal passes, the deletion of expired rows and the orphan pass, in that order.
 Repeated sweeps converge however many of their requests fail on the way, provided that enough of them
 meet a bucket that answers.
 */
module MediaSweep {
  import opened MediaProtocol
  import opened MediaSafety
  import opened MediaSteps
  import opened MediaRecovery
  import opened MediaPurge
  import opened Sums

  /** The rows one sweep selected for each of its passes, and how their requests ended. */
  datatype Pass = Pass(settled: set<Hash>, settling: Troubles, forgotten: set<Hash>, forgetting: Troubles,
                       expired: set<Key>, collected: set<Hash>, collecting: Troubles)

  function AfterDeletions(s: State, p: Pass): State {
    Settle(s, p.settled, p.settling)
  }

  function AfterUploads(s: State, p: Pass): State {
    Forget(AfterDeletions(s, p), p.forgotten, p.forgetting)
  }

  function AfterExpiry(s: State, p: Pass): State {
    Purge(AfterUploads(s, p), p.expired)
  }

  function AfterPass(s: State, p: Pass): State {
    Collect(AfterExpiry(s, p), p.collected, p.collecting)
  }

  predicate IsPass(s: State, p: Pass) {
    && IsPage(p.settled, Marked(s))
    && IsPage(p.forgotten, Pending(AfterDeletions(s, p)))
    && IsPage(p.collected, Orphans(AfterExpiry(s, p)))
  }

  /** Every request of the sweep's own passes was answered. */
  predicate IsCalm(p: Pass) {
    && (forall h :: h in p.settled ==> p.settling(h) == Calm)
    && (forall h :: h in p.forgotten ==> p.forgetting(h) == Calm)
    && (forall h :: h in p.collected ==> p.collecting(h) == Calm)
  }

  /** `t` is reached from `s` by exactly these passes. */
  predicate Passes(s: State, passes: seq<Pass>, t: State)
    decreases |passes|
  {
    if passes == [] then s == t
    else IsPass(s, passes[0]) && Passes(AfterPass(s, passes[0]), passes[1..], t)
  }

  function CalmPasses(passes: seq<Pass>): nat {
    if passes == [] then 0 else (if IsCalm(passes[0]) then 1 else 0) + CalmPasses(passes[1..])
  }

  function Expired(passes: seq<Pass>): set<Key> {
    if passes == [] then {} else passes[0].expired + Expired(passes[1..])
  }

  // ----- the deletion of expired rows -----

  lemma PurgeKeepsInv(size: Lengths, s: State, keys: set<Key>)
    requires Inv(size, s) && Idle(s)
    ensures Inv(size, Purge(s, keys)) && Idle(Purge(s, keys))
  {
    var t := Purge(s, keys);
    forall g ensures Good(size, t, g) {
      assert Good(size, s, g);
      if Referenced(t.refs, g) {
        var k :| k in t.refs && t.refs[k] == g;
        assert k in RefsTo(s.refs, g) && k !in keys;
      }
    }
  }

  lemma EmptyDifference<T>(a: set<T>, b: set<T>)
    requires a - b == {}
    ensures a <= b
  {
    forall x | x in a ensures x in b {
      assert x !in a - b;
    }
  }

  lemma PurgeBacklog(s: State, keys: set<Key>)
    ensures var t := Purge(s, keys); Marked(t) <= Marked(s) && Pending(t) <= Pending(s) && Orphans(t) <= Orphans(s)
  {
    var t := Purge(s, keys);
    forall h | h in Orphans(t) ensures h in Orphans(s) {
      var before := RefsTo(s.refs, h);
      assert RefsTo(t.refs, h) == before - keys;
      EmptyDifference(before, keys);
      assert h !in Removable(s, keys);
    }
  }

  lemma PurgeSurvivors(s: State, keys: set<Key>)
    ensures Survivors(Purge(s, keys)) == Survivors(s) - keys
  {
    forall k | k in s.refs && k !in keys ensures At(Purge(s, keys), s.refs[k]) == At(s, s.refs[k]) {
      assert k in RefsTo(s.refs, s.refs[k]);
    }
  }

  // ----- one sweep -----

  lemma PassKeepsInv(size: Lengths, s: State, p: Pass)
    requires Inv(size, s) && Idle(s) && IsPass(s, p)
    ensures Inv(size, AfterDeletions(s, p)) && Idle(AfterDeletions(s, p))
    ensures Inv(size, AfterUploads(s, p)) && Idle(AfterUploads(s, p))
    ensures Inv(size, AfterExpiry(s, p)) && Idle(AfterExpiry(s, p))
    ensures Inv(size, AfterPass(s, p)) && Idle(AfterPass(s, p))
  {
    hide Inv, Idle, Settle, Forget, Purge, Collect;
    SettleKeepsInv(size, s, p.settled, p.settling);
    ForgetKeepsInv(size, AfterDeletions(s, p), p.forgotten, p.forgetting);
    PurgeKeepsInv(size, AfterUploads(s, p), p.expired);
    CollectKeepsInv(size, AfterExpiry(s, p), p.collected, p.collecting);
  }

  lemma PageShrinks(page: set<Hash>, available: set<Hash>, left: set<Hash>)
    requires IsPage(page, available) && left <= available - page
    ensures |left| <= |available| - |page| && |page| <= |available|
  {
    SubsetSize(left, available - page);
    assert available == (available - page) + page;
  }

  /** A sweep never adds to the backlog, whatever fails; one whose requests are answered clears a page of it, or all. */
  lemma PassShrinksBacklog(size: Lengths, s: State, p: Pass)
    requires Inv(size, s) && Idle(s) && IsPass(s, p)
    ensures Backlog(AfterPass(s, p)) <= Backlog(s)
    ensures IsCalm(p) ==> Backlog(AfterPass(s, p)) == 0 || Backlog(AfterPass(s, p)) + PAGE_LIMIT <= Backlog(s)
  {
    hide Inv, Idle, Settle, Forget, Purge, Collect, Marked, Pending, Orphans;
    var a, b, c, d := AfterDeletions(s, p), AfterUploads(s, p), AfterExpiry(s, p), AfterPass(s, p);
    PassKeepsInv(size, s, p);
    SettleBacklog(size, s, p.settled, p.settling);
    ForgetBacklog(a, p.forgotten, p.forgetting);
    PurgeBacklog(b, p.expired);
    CollectBacklog(c, p.collected, p.collecting);
    SubsetSize(Marked(d), Marked(s));
    SubsetSize(Pending(a), Pending(s));
    SubsetSize(Pending(d), Pending(a));
    SubsetSize(Orphans(c), Orphans(s));
    SubsetSize(Orphans(d), Orphans(c));
    if IsCalm(p) {
      CalmPages(s, p);
      PageShrinks(p.settled, Marked(s), Marked(d));
      PageShrinks(p.forgotten, Pending(a), Pending(d));
      PageShrinks(p.collected, Orphans(c), Orphans(d));
    }
  }

  lemma CalmPages(s: State, p: Pass)
    requires IsCalm(p)
    ensures Unsettled(s, p.settled, p.settling) == {} && Collected(p.collected, p.collecting) == p.collected
    ensures Unforgotten(AfterDeletions(s, p), p.forgotten, p.forgetting) == {}
  {
  }

  /** Beyond the expired rows no sweep loses a ref whose object is stored. */
  lemma PassKeepsSurvivors(size: Lengths, s: State, p: Pass)
    requires Inv(size, s) && Idle(s) && IsPass(s, p)
    ensures Survivors(AfterPass(s, p)) == Survivors(s) - p.expired
  {
    hide Inv, Idle, Settle, Forget, Purge, Collect, Survivors;
    PassKeepsInv(size, s, p);
    SettleKeepsSurvivors(size, s, p.settled, p.settling);
    ForgetKeepsSurvivors(size, AfterDeletions(s, p), p.forgotten, p.forgetting);
    PurgeSurvivors(AfterUploads(s, p), p.expired);
    CollectKeepsSurvivors(AfterExpiry(s, p), p.collected, p.collecting);
  }

  // ----- convergence -----

  /**
   From any state a run can leave behind a crash, sweeps recover the store once as many of them were
   answered as there are pages of backlog, and lose exactly the refs that expired or whose object is gone.
   */
  lemma {:induction false} RecoveryConverges(size: Lengths, s: State, passes: seq<Pass>, t: State)
    requires Inv(size, s) && Idle(s) && Passes(s, passes, t)
    requires Backlog(s) <= PAGE_LIMIT * CalmPasses(passes)
    ensures Inv(size, t) && Recovered(t) && t.refs == Survivors(s) - Expired(passes)
    decreases |passes|
  {
    hide Inv, Idle, Recovered, AfterPass, IsPass, Backlog, Survivors;
    if passes == [] {
      NoBacklogIsRecovered(size, s);
      assert Survivors(s) - {} == Survivors(s);
    } else {
      var p := passes[0];
      PassKeepsInv(size, s, p);
      PassShrinksBacklog(size, s, p);
      PassKeepsSurvivors(size, s, p);
      RecoveryConverges(size, AfterPass(s, p), passes[1..], t);
      assert Survivors(s) - p.expired - Expired(passes[1..]) == Survivors(s) - Expired(passes);
    }
  }
}
