/** `mediaTransferGroup`: one transfer per destination, its result shared by every caller parked on it. */
module Inflight {
  datatype Error = NoError | LimitExceeded | Abandoned | OtherError

  datatype Result = Result(written: int, error: Error)

  /** `Unregistered` has left the table but not yet woken its callers. */
  datatype Stage = Running | Returned | Unregistered | Closed

  /** One run of a transfer; `limit` is its starter's, `began` and `left` are moments of the run. */
  datatype Call = Call(key: string, limit: nat, stage: Stage, result: Result, began: nat, left: nat)

  /** What a caller gets: the shared result, or a refusal that names whose limit refused. */
  datatype Answer = Shared(result: Result) | OverOwnLimit(written: int) | OverStartersLimit(written: int, limit: nat)

  datatype Caller =
    | Parked(call: nat, limit: nat, joined: nat)
    | Answered(call: nat, limit: nat, joined: nat, answer: Answer)
    | GaveUp
    | TurnedAway

  datatype State = State(stopped: bool, inflight: map<string, nat>, calls: seq<Call>, callers: map<nat, Caller>,
                         active: int, now: nat)

  const START := State(false, map[], [], map[], 0, 0)

  /** `result`: a waiter judges a success by its own limit, and learns whose limit a refusal was. */
  function AnswerFor(c: Call, limit: nat): Answer {
    if c.result.error == NoError && c.result.written > 0 && limit > 0 && c.result.written > limit
      then OverOwnLimit(c.result.written)
    else if c.limit > 0 && c.result.error == LimitExceeded then OverStartersLimit(c.result.written, c.limit)
    else Shared(c.result)
  }

  datatype Event =
    | Do(caller: nat, key: string, limit: nat)
    | Returns(call: nat, result: Result)
    | Unregisters(call: nat)
    | Closes(call: nat)
    | Receives(caller: nat)
    | ContextDone(caller: nat)
    | Stop

  predicate Enabled(s: State, e: Event) {
    match e
    case Do(c, _, _) => c !in s.callers
    case Returns(k, _) => k < |s.calls| && s.calls[k].stage == Running
    case Unregisters(k) => k < |s.calls| && s.calls[k].stage == Returned
    case Closes(k) => k < |s.calls| && s.calls[k].stage == Unregistered
    case Receives(c) =>
      c in s.callers && s.callers[c].Parked? && s.callers[c].call < |s.calls|
        && s.calls[s.callers[c].call].stage == Closed
    case ContextDone(c) => c in s.callers && s.callers[c].Parked?
    case Stop => true
  }

  function Step(s: State, e: Event): State
    requires Enabled(s, e)
  {
    match e
    case Do(c, key, limit) =>
      if s.stopped then s.(callers := s.callers[c := TurnedAway])
      else if key in s.inflight then s.(callers := s.callers[c := Parked(s.inflight[key], limit, s.now)])
      else
        var k := |s.calls|;
        s.(inflight := s.inflight[key := k],
           calls := s.calls + [Call(key, limit, Running, Result(0, Abandoned), s.now, 0)],
           active := s.active + 1, callers := s.callers[c := Parked(k, limit, s.now)])
    case Returns(k, result) => s.(calls := s.calls[k := s.calls[k].(stage := Returned, result := result)])
    case Unregisters(k) =>
      s.(inflight := s.inflight - {s.calls[k].key},
         calls := s.calls[k := s.calls[k].(stage := Unregistered, left := s.now)])
    case Closes(k) => s.(calls := s.calls[k := s.calls[k].(stage := Closed)], active := s.active - 1)
    case Receives(c) =>
      var p := s.callers[c];
      s.(callers := s.callers[c := Answered(p.call, p.limit, p.joined, AnswerFor(s.calls[p.call], p.limit))])
    case ContextDone(c) => s.(callers := s.callers[c := GaveUp])
    case Stop => s.(stopped := true)
  }

  function Next(s: State, e: Event): State
    requires Enabled(s, e)
  {
    Step(s, e).(now := s.now + 1)
  }

  // ----- what every run keeps -----

  predicate Live(c: Call) {
    c.stage == Running || c.stage == Returned
  }

  /** The table holds exactly the live runs. */
  ghost predicate Registered(s: State) {
    && (forall key :: key in s.inflight ==>
        s.inflight[key] < |s.calls| && s.calls[s.inflight[key]].key == key && Live(s.calls[s.inflight[key]]))
    && (forall k :: 0 <= k < |s.calls| && Live(s.calls[k]) ==>
        s.calls[k].key in s.inflight && s.inflight[s.calls[k].key] == k)
  }

  function Unfinished(calls: seq<Call>): set<nat> {
    set k | 0 <= k < |calls| && calls[k].stage != Closed
  }

  /** Callers hold on to a run that was in the table when they came. */
  ghost predicate Overlapping(s: State, caller: Caller) {
    caller.Parked? || caller.Answered? ==>
      && caller.call < |s.calls| && s.calls[caller.call].began <= caller.joined <= s.now
      && (!Live(s.calls[caller.call]) ==> caller.joined <= s.calls[caller.call].left)
      && (caller.Answered? ==>
          s.calls[caller.call].stage == Closed && caller.answer == AnswerFor(s.calls[caller.call], caller.limit))
  }

  ghost predicate Inv(s: State) {
    && Registered(s) && s.active == |Unfinished(s.calls)|
    && (forall k :: 0 <= k < |s.calls| ==> s.calls[k].began <= s.now)
    && (forall c :: c in s.callers ==> Overlapping(s, s.callers[c]))
  }

  lemma StartsCount(calls: seq<Call>, c: Call)
    requires c.stage != Closed
    ensures |Unfinished(calls + [c])| == |Unfinished(calls)| + 1
  {
    var more := calls + [c];
    assert forall k :: 0 <= k < |calls| ==> more[k] == calls[k];
    assert |calls| !in Unfinished(calls);
    assert forall k :: k in Unfinished(more) <==> k in Unfinished(calls) || k == |calls|;
    assert Unfinished(more) == Unfinished(calls) + {|calls|};
  }

  lemma MovesCount(calls: seq<Call>, k: nat, c: Call)
    requires k < |calls| && calls[k].stage != Closed
    ensures |Unfinished(calls[k := c])| == |Unfinished(calls)| - if c.stage == Closed then 1 else 0
  {
    if c.stage == Closed {
      assert Unfinished(calls[k := c]) == Unfinished(calls) - {k} && k in Unfinished(calls);
    } else {
      assert Unfinished(calls[k := c]) == Unfinished(calls);
    }
  }

  lemma DoKeepsInv(s: State, c: nat, key: string, limit: nat)
    requires Inv(s) && Enabled(s, Do(c, key, limit))
    ensures Inv(Next(s, Do(c, key, limit)))
  {
    hide Unfinished;
    StartsCount(s.calls, Call(key, limit, Running, Result(0, Abandoned), s.now, 0));
  }

  lemma MoveKeepsInv(s: State, e: Event)
    requires Inv(s) && Enabled(s, e) && (e.Returns? || e.Unregisters? || e.Closes?)
    ensures Inv(Next(s, e))
  {
    hide Unfinished;
    MovesCount(s.calls, e.call, Next(s, e).calls[e.call]);
  }

  lemma StepKeepsInv(s: State, e: Event)
    requires Inv(s) && Enabled(s, e)
    ensures Inv(Next(s, e))
  {
    hide Unfinished;
    match e
    case Do(c, key, limit) => DoKeepsInv(s, c, key, limit);
    case Returns(_, _) => MoveKeepsInv(s, e);
    case Unregisters(_) => MoveKeepsInv(s, e);
    case Closes(_) => MoveKeepsInv(s, e);
    case Receives(_) =>
    case ContextDone(_) =>
    case Stop =>
  }

  ghost predicate Run(start: State, events: seq<Event>, end: State)
    decreases |events|
  {
    if events == [] then end == start
    else
      var n := |events| - 1;
      exists before :: Run(start, events[..n], before) && Enabled(before, events[n]) && end == Next(before, events[n])
  }

  lemma {:induction false} RunKeepsInv(start: State, events: seq<Event>, end: State)
    requires Inv(start) && Run(start, events, end)
    ensures Inv(end)
    decreases |events|
  {
    hide Next, Enabled, Inv;
    if events != [] {
      var n := |events| - 1;
      var before :| Run(start, events[..n], before) && Enabled(before, events[n]) && end == Next(before, events[n]);
      RunKeepsInv(start, events[..n], before);
      StepKeepsInv(before, events[n]);
    }
  }

  lemma StartInv()
    ensures Inv(START)
  {
    assert Unfinished([]) == {};
  }

  /** At most one transfer runs per destination at any moment. */
  lemma OneRunPerKey(events: seq<Event>, s: State, j: nat, k: nat)
    requires Run(START, events, s) && j < |s.calls| && k < |s.calls|
    requires s.calls[j].stage == s.calls[k].stage == Running && s.calls[j].key == s.calls[k].key
    ensures j == k
  {
    StartInv();
    RunKeepsInv(START, events, s);
  }

  /** An answer is the result of a run that was under way during the call, judged by the caller's own limit. */
  lemma AnswersComeFromOverlappingRuns(events: seq<Event>, s: State, c: nat)
    requires Run(START, events, s) && c in s.callers && s.callers[c].Answered?
    ensures var a := s.callers[c];
            && a.call < |s.calls| && s.calls[a.call].began <= a.joined <= s.calls[a.call].left
            && a.answer == AnswerFor(s.calls[a.call], a.limit)
            && (a.answer.Shared? && a.answer.result.error == NoError && a.limit > 0 ==>
                a.answer.result.written <= a.limit)
  {
    StartInv();
    RunKeepsInv(START, events, s);
  }

  /** Waiting for the group means waiting until no run is left. */
  lemma WaitMeansIdle(events: seq<Event>, s: State)
    requires Run(START, events, s)
    ensures s.active == 0 <==> forall k :: 0 <= k < |s.calls| ==> s.calls[k].stage == Closed
  {
    StartInv();
    RunKeepsInv(START, events, s);
    if s.active == 0 {
      forall k | 0 <= k < |s.calls| ensures s.calls[k].stage == Closed {
        assert k !in Unfinished(s.calls);
      }
    } else {
      var k :| k in Unfinished(s.calls);
      assert s.calls[k].stage != Closed;
    }
  }

  lemma IdleIsClosed(s: State)
    requires Inv(s) && s.active == 0
    ensures forall k :: 0 <= k < |s.calls| ==> s.calls[k].stage == Closed
  {
    forall k | 0 <= k < |s.calls| ensures s.calls[k].stage == Closed {
      assert k !in Unfinished(s.calls);
    }
  }

  lemma StoppedStep(s: State, e: Event)
    requires Inv(s) && s.stopped && Enabled(s, e)
    ensures Next(s, e).stopped && |Next(s, e).calls| == |s.calls|
    ensures s.active == 0 ==> Next(s, e).calls == s.calls && Next(s, e).active == 0
  {
    hide Registered, Overlapping, Unfinished;
    if s.active == 0 {
      IdleIsClosed(s);
    }
  }

  /** After stop no run starts, so a group that has been waited for stays idle. */
  lemma {:induction false} StoppedStaysIdle(start: State, events: seq<Event>, end: State)
    requires Inv(start) && start.stopped && Run(start, events, end)
    ensures end.stopped && |end.calls| == |start.calls|
    ensures start.active == 0 ==> end.calls == start.calls && end.active == 0
    decreases |events|
  {
    hide Next, Enabled, Inv;
    if events != [] {
      var n := |events| - 1;
      var before :| Run(start, events[..n], before) && Enabled(before, events[n]) && end == Next(before, events[n]);
      StoppedStaysIdle(start, events[..n], before);
      RunKeepsInv(start, events[..n], before);
      StoppedStep(before, events[n]);
    }
  }

  // ----- the group's fields under their lock -----

  class TransferGroup {
    var stopped: bool
    var inflight: map<string, nat>
    var calls: seq<Call>
    var active: int
    ghost var callers: map<nat, Caller>
    /** Counts the group's steps, to compare moments. */
    var now: nat
    ghost var history: seq<Event>

    ghost function View(): State
      reads this
    {
      State(stopped, inflight, calls, callers, active, now)
    }

    ghost predicate Valid()
      reads this
    {
      Run(START, history, View())
    }

    constructor ()
      ensures Valid() && View() == START
    {
      stopped, inflight, calls, active, callers, now, history := false, map[], [], 0, map[], 0, [];
    }

    /** The locked part of `do`: join the run for this key, or start one. */
    method Join(key: string, limit: nat, ghost caller: nat) returns (turnedAway: bool, call: nat, starts: bool)
      requires Valid() && caller !in callers
      modifies this
      ensures Valid() && View() == Next(old(View()), Do(caller, key, limit))
      ensures turnedAway == old(stopped)
      ensures (!turnedAway ==> callers[caller] == Parked(call, limit, old(now)) && starts == (key !in old(inflight)))
    {
      hide Run;
      ghost var e := Do(caller, key, limit);
      Extended(history, View(), e);
      var began := now;
      history, now := history + [e], now + 1;
      turnedAway, call, starts := stopped, 0, false;
      if stopped {
        callers := callers[caller := TurnedAway];
        return;
      }
      if key !in inflight {
        starts := true;
        inflight := inflight[key := |calls|];
        calls := calls + [Call(key, limit, Running, Result(0, Abandoned), began, 0)];
        active := active + 1;
      }
      call := inflight[key];
      callers := callers[caller := Parked(call, limit, began)];
    }

    /** The transfer's goroutine leaves the table. */
    method Unregister(call: nat)
      requires Valid() && Enabled(View(), Unregisters(call))
      modifies this
      ensures Valid() && View() == Next(old(View()), Unregisters(call))
    {
      hide Run;
      Extended(history, View(), Unregisters(call));
      inflight := inflight - {calls[call].key};
      calls := calls[call := calls[call].(stage := Unregistered, left := now)];
      history, now := history + [Unregisters(call)], now + 1;
    }
  }

  lemma Extended(history: seq<Event>, s: State, e: Event)
    requires Run(START, history, s) && Enabled(s, e)
    ensures Run(START, history + [e], Next(s, e))
  {
    assert (history + [e])[..|history|] == history;
  }
}
