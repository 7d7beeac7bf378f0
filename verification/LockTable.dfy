/** `lockHash`: one gate per content hash, created on demand and dropped with its last user. */
module LockTable {
  /** A gate object; it outlives its table entry while a goroutine still refers to it. */
  datatype Gate = Gate(key: string, users: int, held: bool)

  /** Where a goroutine stands; `Leaving` gave the gate up, or gave up waiting, and is still counted. */
  datatype Place = Waiting(gate: nat) | Holding(gate: nat) | Leaving(gate: nat) | Gone

  datatype State = State(locks: map<string, nat>, gates: seq<Gate>, threads: map<nat, Place>)

  const START := State(map[], [], map[])

  predicate On(s: State, t: nat, g: nat) {
    t in s.threads && !s.threads[t].Gone? && s.threads[t].gate == g
  }

  function UsersOf(s: State, g: nat): set<nat> {
    set t | t in s.threads && !s.threads[t].Gone? && s.threads[t].gate == g
  }

  datatype Event = Enter(t: nat, key: string) | Take(t: nat) | Cancel(t: nat) | Unlock(t: nat) | Leave(t: nat)

  predicate Enabled(s: State, e: Event) {
    match e
    case Enter(t, _) => t !in s.threads
    case Take(t) =>
      t in s.threads && s.threads[t].Waiting? && s.threads[t].gate < |s.gates| && !s.gates[s.threads[t].gate].held
    case Cancel(t) => t in s.threads && s.threads[t].Waiting?
    case Unlock(t) => t in s.threads && s.threads[t].Holding? && s.threads[t].gate < |s.gates|
    case Leave(t) => t in s.threads && s.threads[t].Leaving? && s.threads[t].gate < |s.gates|
  }

  function Join(s: State, t: nat, g: nat): State
    requires g < |s.gates|
  {
    s.(gates := s.gates[g := s.gates[g].(users := s.gates[g].users + 1)], threads := s.threads[t := Waiting(g)])
  }

  function Drop(s: State, t: nat, g: nat): State
    requires g < |s.gates|
  {
    var gate := s.gates[g].(users := s.gates[g].users - 1);
    State(if gate.users == 0 then s.locks - {gate.key} else s.locks, s.gates[g := gate], s.threads[t := Gone])
  }

  function Next(s: State, e: Event): State
    requires Enabled(s, e) && Table(s)
  {
    match e
    case Enter(t, key) =>
      if key in s.locks then Join(s, t, s.locks[key])
      else Join(State(s.locks[key := |s.gates|], s.gates + [Gate(key, 0, false)], s.threads), t, |s.gates|)
    case Take(t) =>
      var g := s.threads[t].gate;
      s.(gates := s.gates[g := s.gates[g].(held := true)], threads := s.threads[t := Holding(g)])
    case Cancel(t) => s.(threads := s.threads[t := Leaving(s.threads[t].gate)])
    case Unlock(t) =>
      var g := s.threads[t].gate;
      s.(gates := s.gates[g := s.gates[g].(held := false)], threads := s.threads[t := Leaving(g)])
    case Leave(t) => Drop(s, t, s.threads[t].gate)
  }

  // ----- what every run keeps -----

  /** Every entry names its own gate. */
  predicate Table(s: State) {
    forall k :: k in s.locks ==> s.locks[k] < |s.gates| && s.gates[s.locks[k]].key == k
  }

  /** Whoever uses a gate finds it in the table, and a gate counts its users. */
  ghost predicate Counted(s: State) {
    && (forall t :: t in s.threads && !s.threads[t].Gone? ==> s.threads[t].gate < |s.gates|)
    && (forall g :: 0 <= g < |s.gates| ==> s.gates[g].users == |UsersOf(s, g)|)
    && (forall g :: 0 <= g < |s.gates| ==>
        (s.gates[g].users > 0 <==> s.gates[g].key in s.locks && s.locks[s.gates[g].key] == g))
  }

  /** A held gate has exactly one holder. */
  ghost predicate Exclusive(s: State) {
    && (forall t :: t in s.threads && s.threads[t].Holding? ==>
        s.threads[t].gate < |s.gates| && s.gates[s.threads[t].gate].held)
    && (forall t, u :: t in s.threads && u in s.threads && s.threads[t].Holding? && s.threads[u] == s.threads[t] ==>
        t == u)
  }

  ghost predicate Inv(s: State) {
    Table(s) && Counted(s) && Exclusive(s)
  }

  lemma JoinKeepsInv(s: State, t: nat, g: nat)
    requires Table(s) && Exclusive(s) && t !in s.threads && g < |s.gates|
    requires forall u :: u in s.threads && !s.threads[u].Gone? ==> s.threads[u].gate < |s.gates|
    requires forall h :: 0 <= h < |s.gates| ==> s.gates[h].users == |UsersOf(s, h)|
    requires forall h :: 0 <= h < |s.gates| && h != g ==>
             (s.gates[h].users > 0 <==> s.gates[h].key in s.locks && s.locks[s.gates[h].key] == h)
    requires s.gates[g].key in s.locks && s.locks[s.gates[g].key] == g
    ensures Inv(Join(s, t, g))
  {
    hide UsersOf;
    var q := Join(s, t, g);
    forall h | 0 <= h < |q.gates| ensures |UsersOf(q, h)| == |UsersOf(s, h)| + if h == g then 1 else 0 {
      JoinUsers(s, t, g, h);
    }
  }

  lemma JoinUsers(s: State, t: nat, g: nat, h: nat)
    requires t !in s.threads && g < |s.gates|
    ensures |UsersOf(Join(s, t, g), h)| == |UsersOf(s, h)| + if h == g then 1 else 0
  {
    var q := Join(s, t, g);
    assert t !in UsersOf(s, h);
    assert forall u :: u in UsersOf(q, h) <==> u in UsersOf(s, h) || (h == g && u == t);
    if h == g {
      assert UsersOf(q, h) == UsersOf(s, h) + {t};
    } else {
      assert UsersOf(q, h) == UsersOf(s, h);
    }
  }

  lemma EnterKeepsInv(s: State, t: nat, key: string)
    requires Inv(s) && Enabled(s, Enter(t, key))
    ensures Inv(Next(s, Enter(t, key)))
  {
    if key in s.locks {
      JoinKeepsInv(s, t, s.locks[key]);
    } else {
      var g := |s.gates|;
      var made := State(s.locks[key := g], s.gates + [Gate(key, 0, false)], s.threads);
      assert UsersOf(made, g) == {};
      assert forall h :: UsersOf(made, h) == UsersOf(s, h);
      JoinKeepsInv(made, t, g);
    }
  }

  function Stay(s: State, t: nat, p: Place, held: bool): State
    requires !p.Gone? && p.gate < |s.gates|
  {
    s.(gates := s.gates[p.gate := s.gates[p.gate].(held := held)], threads := s.threads[t := p])
  }

  /** Taking, cancelling and unlocking move a goroutine without leaving its gate. */
  lemma StayKeepsInv(s: State, t: nat, p: Place, held: bool)
    requires Inv(s) && t in s.threads && !s.threads[t].Gone? && !p.Gone? && p.gate == s.threads[t].gate
    requires p.Holding? ==> !s.gates[p.gate].held
    requires held == (p.Holding? || (s.gates[p.gate].held && !s.threads[t].Holding?))
    ensures Inv(Stay(s, t, p, held))
  {
    var q := Stay(s, t, p, held);
    forall h ensures UsersOf(q, h) == UsersOf(s, h) {
      assert UsersOf(q, h) == UsersOf(s, h);
    }
    assert Counted(q);
    StayExclusive(s, t, p, held);
  }

  lemma StayExclusive(s: State, t: nat, p: Place, held: bool)
    requires Inv(s) && t in s.threads && !s.threads[t].Gone? && !p.Gone? && p.gate == s.threads[t].gate
    requires p.Holding? ==> !s.gates[p.gate].held
    requires held == (p.Holding? || (s.gates[p.gate].held && !s.threads[t].Holding?))
    ensures Exclusive(Stay(s, t, p, held))
  {
  }

  lemma LeaveKeepsInv(s: State, t: nat)
    requires Inv(s) && Enabled(s, Leave(t))
    ensures Inv(Next(s, Leave(t)))
  {
    hide UsersOf;
    var g := s.threads[t].gate;
    var q := Drop(s, t, g);
    forall h ensures |UsersOf(q, h)| == |UsersOf(s, h)| - if h == g then 1 else 0 {
      DropUsers(s, t, g, h);
    }
    assert Table(q);
    assert Counted(q);
  }

  lemma DropUsers(s: State, t: nat, g: nat, h: nat)
    requires g < |s.gates| && On(s, t, g)
    ensures |UsersOf(Drop(s, t, g), h)| == |UsersOf(s, h)| - if h == g then 1 else 0
  {
    assert UsersOf(Drop(s, t, g), h) == if h == g then UsersOf(s, h) - {t} else UsersOf(s, h);
    assert h == g ==> t in UsersOf(s, h);
  }

  lemma StepKeepsInv(s: State, e: Event)
    requires Inv(s) && Enabled(s, e)
    ensures Inv(Next(s, e))
  {
    match e
    case Enter(t, key) => EnterKeepsInv(s, t, key);
    case Take(t) => StayKeepsInv(s, t, Holding(s.threads[t].gate), true);
    case Cancel(t) =>
      var g := s.threads[t].gate;
      StayKeepsInv(s, t, Leaving(g), s.gates[g].held);
      assert s.gates[g := s.gates[g].(held := s.gates[g].held)] == s.gates;
    case Unlock(t) => StayKeepsInv(s, t, Leaving(s.threads[t].gate), false);
    case Leave(t) => LeaveKeepsInv(s, t);
  }

  ghost predicate Run(events: seq<Event>, end: State)
    decreases |events|
  {
    if events == [] then end == START
    else
      var n := |events| - 1;
      exists before :: Run(events[..n], before) && Table(before) && Enabled(before, events[n])
        && end == Next(before, events[n])
  }

  lemma {:induction false} RunKeepsInv(events: seq<Event>, end: State)
    requires Run(events, end)
    ensures Inv(end)
    decreases |events|
  {
    hide Next, Enabled;
    if events != [] {
      var n := |events| - 1;
      var before :| Run(events[..n], before) && Table(before) && Enabled(before, events[n])
                    && end == Next(before, events[n]);
      RunKeepsInv(events[..n], before);
      StepKeepsInv(before, events[n]);
    }
  }

  function KeyOf(s: State, t: nat): string
    requires t in s.threads && !s.threads[t].Gone? && s.threads[t].gate < |s.gates|
  {
    s.gates[s.threads[t].gate].key
  }

  /** At most one goroutine is inside a hash's critical section, however many entered, waited or cancelled. */
  lemma MutualExclusion(events: seq<Event>, s: State, t: nat, u: nat)
    requires Run(events, s) && t in s.threads && u in s.threads && s.threads[t].Holding? && s.threads[u].Holding?
    ensures s.threads[t].gate < |s.gates| && s.threads[u].gate < |s.gates|
    ensures KeyOf(s, t) == KeyOf(s, u) ==> t == u
  {
    RunKeepsInv(events, s);
    UsersShareGate(s, t, u);
  }

  /** Two goroutines on one hash use one gate. */
  lemma UsersShareGate(s: State, t: nat, u: nat)
    requires Inv(s) && t in s.threads && u in s.threads && !s.threads[t].Gone? && !s.threads[u].Gone?
    ensures s.threads[t].gate < |s.gates| && s.threads[u].gate < |s.gates|
    ensures KeyOf(s, t) == KeyOf(s, u) ==> s.threads[t].gate == s.threads[u].gate
  {
    assert t in UsersOf(s, s.threads[t].gate) && u in UsersOf(s, s.threads[u].gate);
  }

  /** A hash has a table entry exactly while some goroutine uses its gate. */
  lemma EntryWhileUsed(events: seq<Event>, s: State, key: string)
    requires Run(events, s)
    ensures key in s.locks <==>
            exists t :: t in s.threads && !s.threads[t].Gone? && s.threads[t].gate < |s.gates| && KeyOf(s, t) == key
  {
    RunKeepsInv(events, s);
    if key in s.locks {
      var g := s.locks[key];
      assert |UsersOf(s, g)| > 0;
      var t :| t in UsersOf(s, g);
      assert KeyOf(s, t) == key;
    }
    if t :| t in s.threads && !s.threads[t].Gone? && s.threads[t].gate < |s.gates| && KeyOf(s, t) == key {
      assert t in UsersOf(s, s.threads[t].gate);
    }
  }

  // ----- the table itself -----

  class HashLocks {
    var locks: map<string, nat>
    var gates: seq<Gate>
    /** Who stands where; the program keeps this in its goroutines. */
    ghost var threads: map<nat, Place>
    ghost var history: seq<Event>

    ghost function View(): State
      reads this
    {
      State(locks, gates, threads)
    }

    ghost predicate Valid()
      reads this
    {
      Run(history, View())
    }

    constructor ()
      ensures Valid() && View() == START
    {
      locks, gates, threads, history := map[], [], map[], [];
    }

    /** The first critical section of `lockHash`. */
    method EnterHash(key: string, ghost t: nat) returns (gate: nat)
      requires Valid() && t !in threads
      modifies this
      ensures Valid() && Table(old(View())) && View() == Next(old(View()), Enter(t, key)) && threads[t] == Waiting(gate)
    {
      hide Counted, Exclusive, Run;
      RunKeepsInv(history, View());
      Extended(history, View(), Enter(t, key));
      history := history + [Enter(t, key)];
      if key !in locks {
        locks := locks[key := |gates|];
        gates := gates + [Gate(key, 0, false)];
      }
      gate := locks[key];
      gates := gates[gate := gates[gate].(users := gates[gate].users + 1)];
      threads := threads[t := Waiting(gate)];
    }

    /** `release`: the last user takes the entry away. */
    method Release(gate: nat, ghost t: nat)
      requires Valid() && t in threads && threads[t] == Leaving(gate) && gate < |gates|
      modifies this
      ensures Valid() && Table(old(View())) && View() == Next(old(View()), Leave(t))
    {
      hide Counted, Exclusive, Run, Table;
      RunKeepsInv(history, View());
      Extended(history, View(), Leave(t));
      history := history + [Leave(t)];
      gates := gates[gate := gates[gate].(users := gates[gate].users - 1)];
      if gates[gate].users == 0 {
        locks := locks - {gates[gate].key};
      }
      threads := threads[t := Gone];
    }
  }

  lemma Extended(history: seq<Event>, s: State, e: Event)
    requires Run(history, s) && Table(s) && Enabled(s, e)
    ensures Run(history + [e], Next(s, e))
  {
    assert (history + [e])[..|history|] == history;
  }
}
