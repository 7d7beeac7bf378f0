/**
 Connection notifications: transitions are recorded under one lock, a disconnect waits out a
 cancellable debounce first, and legacy POSTs queue behind one another through chained channels.
 */
module ConnectionEvents {
  import opened Wrappers

  /** `Abandoned` gave up before its POST and keeps its place until its predecessor is done. */
  datatype Stage = Waiting | Posting | Abandoned | Done

  /** The delivery of one recorded transition; its predecessor is the one before it in the queue. */
  datatype Delivery = Delivery(record: nat, stage: Stage)

  datatype Debounce = Debounce(key: string, legacy: bool, cancelled: bool, over: bool)

  datatype State = State(closing: bool, down: bool, last: string, pending: Option<nat>, debounces: seq<Debounce>,
                         recorded: seq<string>, queue: seq<Delivery>, posts: seq<nat>)

  const START := State(false, false, "", None, [], [], [], [])

  function Key(state: string, reason: string): (k: string)
    ensures k != ""
  {
    state + ":" + reason
  }

  // ----- transitions -----

  function Cancel(s: State): State {
    match s.pending
    case None => s
    case Some(d) =>
      if d < |s.debounces|
      then s.(debounces := s.debounces[d := s.debounces[d].(cancelled := true)], pending := None)
      else s
  }

  /** A transition becomes visible to receivers; with a legacy sender it joins the delivery queue. */
  function Record(s: State, key: string, legacy: bool): State {
    s.(last := key, recorded := s.recorded + [key],
       queue := if legacy then s.queue + [Delivery(|s.recorded|, Waiting)] else s.queue)
  }

  predicate Delayed(state: string, immediate: bool) {
    state == "disconnected" && !immediate
  }

  /** `notifyConnection` up to releasing its lock; `runtime` is whether a runtime receiver can exist. */
  function Notify(s: State, state: string, reason: string, immediate: bool, legacy: bool, runtime: bool): State {
    var key := Key(state, reason);
    if s.closing || s.down || (Delayed(state, immediate) && s.pending.Some?) then s
    else
      var t := if Delayed(state, immediate) then s else Cancel(s);
      if key == t.last then t
      else if immediate || (!legacy && !runtime) then Record(t, key, legacy)
      else t.(debounces := t.debounces + [Debounce(key, legacy, false, false)], pending := Some(|t.debounces|))
  }

  /** A debounce goroutine wakes, by its timer or because it was cancelled. */
  function Fire(s: State, d: nat): State
    requires d < |s.debounces|
  {
    var b := s.debounces[d];
    var t := s.(debounces := s.debounces[d := b.(over := true)]);
    if b.over then s
    else if b.cancelled || s.down then t
    else Record(t.(pending := None), b.key, b.legacy)
  }

  function SetStage(s: State, i: nat, stage: Stage): State
    requires i < |s.queue|
  {
    s.(queue := s.queue[i := s.queue[i].(stage := stage)])
  }

  predicate PredecessorDone(s: State, i: nat)
    requires i < |s.queue|
  {
    i == 0 || s.queue[i - 1].stage == Done
  }

  function GiveUp(s: State, i: nat): State
    requires i < |s.queue|
  {
    SetStage(s, i, if PredecessorDone(s, i) then Done else Abandoned)
  }

  datatype Event =
    | Notified(state: string, reason: string, immediate: bool, legacy: bool, runtime: bool)
    | Fired(debounce: nat)
    | PostBegins(i: nat)
    | PostEnds(i: nat)
    | DeadlineExpires(i: nat)
    | PlaceReleased(i: nat)
    | Stopped
    | ContextDone

  predicate Enabled(s: State, e: Event) {
    match e
    case Notified(_, _, _, _, _) => true
    case Fired(d) => d < |s.debounces| && !s.debounces[d].over
    case PostBegins(i) => i < |s.queue| && s.queue[i].stage == Waiting && PredecessorDone(s, i)
    case PostEnds(i) => i < |s.queue| && s.queue[i].stage == Posting
    case DeadlineExpires(i) => i < |s.queue| && s.queue[i].stage == Waiting
    case PlaceReleased(i) => i < |s.queue| && s.queue[i].stage == Abandoned && PredecessorDone(s, i)
    case Stopped => true
    case ContextDone => true
  }

  function Next(s: State, e: Event): State
    requires Enabled(s, e)
  {
    match e
    case Notified(state, reason, immediate, legacy, runtime) => Notify(s, state, reason, immediate, legacy, runtime)
    case Fired(d) => Fire(s, d)
    case PostBegins(i) => SetStage(s, i, Posting).(posts := s.posts + [i])
    case PostEnds(i) => SetStage(s, i, Done)
    case DeadlineExpires(i) => GiveUp(s, i)
    case PlaceReleased(i) => SetStage(s, i, Done)
    case Stopped => Cancel(s).(closing := true)
    case ContextDone => s.(down := true)
  }

  // ----- what every run keeps -----

  /** No two transitions in a row are equal, and `last` is the latest. */
  ghost predicate Log(s: State) {
    && s.last == (if s.recorded == [] then "" else s.recorded[|s.recorded| - 1])
    && (forall i :: 0 < i < |s.recorded| ==> s.recorded[i - 1] != s.recorded[i])
  }

  /** Only the pending debounce can still record, and it would record a change. */
  ghost predicate OnePending(s: State) {
    && (s.pending.Some? ==> s.pending.value < |s.debounces| && s.debounces[s.pending.value].key != s.last)
    && (forall d :: 0 <= d < |s.debounces| && !s.debounces[d].cancelled && !s.debounces[d].over ==>
        s.pending == Some(d))
    && (forall d :: 0 <= d < |s.debounces| && s.pending == Some(d) ==>
        !s.debounces[d].cancelled && (!s.debounces[d].over || s.down))
    && (forall d :: 0 <= d < |s.debounces| ==> s.debounces[d].key != "")
  }

  /** Deliveries follow the log. */
  ghost predicate Ordered(s: State) {
    && (forall i :: 0 <= i < |s.queue| ==> s.queue[i].record < |s.recorded|)
    && (forall i, j :: 0 <= i < j < |s.queue| ==> s.queue[i].record < s.queue[j].record)
  }

  predicate Past(d: Delivery) {
    d.stage == Posting || d.stage == Done
  }

  /** What is posting or done has only finished deliveries before it. */
  ghost predicate Front(s: State) {
    forall i, j :: 0 <= i < j < |s.queue| && Past(s.queue[j]) ==> s.queue[i].stage == Done
  }

  /** POSTs started in queue order, each at most once. */
  ghost predicate PostOrder(s: State) {
    && (forall k :: 0 <= k < |s.posts| ==> s.posts[k] < |s.queue| && Past(s.queue[s.posts[k]]))
    && (forall k, m :: 0 <= k < m < |s.posts| ==> s.posts[k] < s.posts[m])
  }

  ghost predicate Inv(s: State) {
    Log(s) && OnePending(s) && Ordered(s) && Front(s) && PostOrder(s)
  }

  lemma CancelKeepsInv(s: State)
    requires Inv(s)
    ensures Inv(Cancel(s)) && Cancel(s).pending.None? && Cancel(s).last == s.last && Cancel(s).recorded == s.recorded
  {
  }

  lemma RecordKeepsInv(s: State, key: string, legacy: bool)
    requires Inv(s) && key != s.last && key != "" && s.pending.None?
    ensures Inv(Record(s, key, legacy))
  {
  }

  lemma DebounceKeepsInv(s: State, b: Debounce)
    requires Inv(s) && s.pending.None? && b.key != s.last && b.key != "" && !b.cancelled && !b.over
    ensures Inv(s.(debounces := s.debounces + [b], pending := Some(|s.debounces|)))
  {
  }

  lemma NotifyKeepsInv(s: State, state: string, reason: string, immediate: bool, legacy: bool, runtime: bool)
    requires Inv(s)
    ensures Inv(Notify(s, state, reason, immediate, legacy, runtime))
  {
    hide Inv, Record;
    var key := Key(state, reason);
    if !(s.closing || s.down || (Delayed(state, immediate) && s.pending.Some?)) {
      var t := if Delayed(state, immediate) then s else Cancel(s);
      CancelKeepsInv(s);
      if key != t.last {
        if immediate || (!legacy && !runtime) {
          RecordKeepsInv(t, key, legacy);
        } else {
          DebounceKeepsInv(t, Debounce(key, legacy, false, false));
        }
      }
    }
  }

  lemma FireKeepsInv(s: State, d: nat)
    requires Inv(s) && d < |s.debounces|
    ensures Inv(Fire(s, d))
  {
    var b := s.debounces[d];
    if !b.over && !b.cancelled && !s.down {
      var t := s.(debounces := s.debounces[d := b.(over := true)], pending := None);
      assert s.pending == Some(d);
      assert Inv(t);
      RecordKeepsInv(t, b.key, b.legacy);
    }
  }

  lemma {:induction false} AllDoneBefore(s: State, i: nat)
    requires Front(s) && i < |s.queue| && PredecessorDone(s, i)
    ensures forall j :: 0 <= j < i ==> s.queue[j].stage == Done
  {
    if i > 0 {
      assert Past(s.queue[i - 1]);
    }
  }

  lemma StageKeepsInv(s: State, i: nat, stage: Stage)
    requires Inv(s) && i < |s.queue| && s.queue[i].stage != Done
    requires stage == Posting || stage == Done ==> PredecessorDone(s, i)
    requires stage == Abandoned ==> s.queue[i].stage == Waiting
    requires stage != Waiting
    ensures Inv(SetStage(s, i, stage))
  {
    if stage == Posting || stage == Done {
      AllDoneBefore(s, i);
    }
    assert forall j :: i < j < |s.queue| ==> !Past(s.queue[j]);
  }

  lemma PostKeepsInv(s: State, i: nat)
    requires Inv(s) && Enabled(s, PostBegins(i))
    ensures Inv(Next(s, PostBegins(i)))
  {
    StageKeepsInv(s, i, Posting);
    forall k | 0 <= k < |s.posts| ensures s.posts[k] < i {
      assert Past(s.queue[s.posts[k]]);
    }
  }

  lemma StepKeepsInv(s: State, e: Event)
    requires Inv(s) && Enabled(s, e)
    ensures Inv(Next(s, e))
  {
    match e
    case Notified(state, reason, immediate, legacy, runtime) =>
      NotifyKeepsInv(s, state, reason, immediate, legacy, runtime);
    case Fired(d) => FireKeepsInv(s, d);
    case PostBegins(i) => PostKeepsInv(s, i);
    case PostEnds(i) => PostingIsFront(s, i); StageKeepsInv(s, i, Done);
    case DeadlineExpires(i) => StageKeepsInv(s, i, if PredecessorDone(s, i) then Done else Abandoned);
    case PlaceReleased(i) => StageKeepsInv(s, i, Done);
    case Stopped => CancelKeepsInv(s);
    case ContextDone =>
  }

  lemma PostingIsFront(s: State, i: nat)
    requires Inv(s) && i < |s.queue| && s.queue[i].stage == Posting
    ensures PredecessorDone(s, i)
  {
    assert Past(s.queue[i]);
  }

  // ----- runs -----

  ghost predicate Run(events: seq<Event>, end: State)
    decreases |events|
  {
    if events == [] then end == START
    else
      var n := |events| - 1;
      exists before :: Run(events[..n], before) && Enabled(before, events[n]) && end == Next(before, events[n])
  }

  lemma {:induction false} RunKeepsInv(events: seq<Event>, end: State)
    requires Run(events, end)
    ensures Inv(end)
    decreases |events|
  {
    hide Next;
    if events != [] {
      var n := |events| - 1;
      var before :| Run(events[..n], before) && Enabled(before, events[n]) && end == Next(before, events[n]);
      RunKeepsInv(events[..n], before);
      StepKeepsInv(before, events[n]);
    }
  }

  /** POSTs run one at a time, and each carries a transition recorded after the one POSTed before it. */
  lemma PostsFollowTheLog(events: seq<Event>, s: State)
    requires Run(events, s)
    ensures forall i, j | 0 <= i < |s.queue| && 0 <= j < |s.queue| ::
              s.queue[i].stage == s.queue[j].stage == Posting ==> i == j
    ensures forall k, m :: 0 <= k < m < |s.posts| ==>
              s.posts[m] < |s.queue| && s.posts[k] < |s.queue|
                && s.queue[s.posts[k]].record < s.queue[s.posts[m]].record < |s.recorded|
    ensures forall i, k :: 0 <= i < |s.queue| && 0 <= k < |s.posts| && s.queue[i].stage == Posting ==> s.posts[k] <= i
  {
    RunKeepsInv(events, s);
    forall i, j | 0 <= i < j < |s.queue| && s.queue[j].stage == Posting ensures s.queue[i].stage != Posting {
      assert Past(s.queue[j]);
    }
    forall i, k | 0 <= i < |s.queue| && 0 <= k < |s.posts| && s.queue[i].stage == Posting ensures s.posts[k] <= i {
      assert Past(s.queue[s.posts[k]]);
    }
  }

  /** Receivers never see the same transition twice in a row. */
  lemma NoRepeatedTransition(events: seq<Event>, s: State, i: nat)
    requires Run(events, s) && 0 < i < |s.recorded|
    ensures s.recorded[i - 1] != s.recorded[i]
  {
    RunKeepsInv(events, s);
  }

  /** At most one debounce can still record, and a cancelled one never does. */
  lemma OneLiveDebounce(events: seq<Event>, s: State, d: nat, e: nat)
    requires Run(events, s) && d < |s.debounces| && e < |s.debounces|
    ensures Fire(s, d).recorded != s.recorded && Fire(s, e).recorded != s.recorded ==> d == e
    ensures Fire(s, d).recorded != s.recorded ==> !s.debounces[d].cancelled && s.pending == Some(d)
    ensures s.debounces[d].cancelled ==> Fire(s, d).recorded == s.recorded && Fire(s, d).queue == s.queue
  {
    RunKeepsInv(events, s);
  }

  /** A run whose legacy sender is on throughout. */
  predicate AllLegacy(events: seq<Event>) {
    forall i :: 0 <= i < |events| && events[i].Notified? ==> events[i].legacy
  }

  ghost predicate Complete(s: State) {
    && |s.queue| == |s.recorded| && (forall i :: 0 <= i < |s.queue| ==> s.queue[i].record == i)
    && (forall d :: 0 <= d < |s.debounces| ==> s.debounces[d].legacy)
  }

  lemma StepKeepsComplete(s: State, e: Event)
    requires Complete(s) && Enabled(s, e) && (e.Notified? ==> e.legacy)
    ensures Complete(Next(s, e))
  {
  }

  /** With a legacy sender every recorded transition gets exactly one delivery, in order. */
  lemma {:induction false} EveryTransitionIsQueued(events: seq<Event>, s: State)
    requires Run(events, s) && AllLegacy(events)
    ensures |s.queue| == |s.recorded| && forall i :: 0 <= i < |s.queue| ==> s.queue[i].record == i
    ensures Complete(s)
    decreases |events|
  {
    hide Next, Enabled;
    if events != [] {
      var n := |events| - 1;
      var before :| Run(events[..n], before) && Enabled(before, events[n]) && s == Next(before, events[n]);
      assert AllLegacy(events[..n]);
      EveryTransitionIsQueued(events[..n], before);
      StepKeepsComplete(before, events[n]);
    }
  }

  /** A disconnect that is undone before its debounce fires leaves no trace. */
  lemma FlapIsInvisible(events: seq<Event>, s: State, gone: string, back: string, legacy: bool, runtime: bool)
    requires Run(events, s) && !s.closing && !s.down && s.pending.None? && s.last == Key("connected", back)
    ensures var t := Notify(Notify(s, "disconnected", gone, false, legacy, runtime), "connected", back, true, legacy,
                            runtime);
            (legacy || runtime ==>
             t.recorded == s.recorded && t.queue == s.queue && t.last == s.last && t.pending.None?)
  {
    RunKeepsInv(events, s);
    assert Key("connected", back)[0] == 'c' && Key("disconnected", gone)[0] == 'd';
  }

  /** The queue always has a next step until every delivery is done. */
  lemma QueueNeverSticks(events: seq<Event>, s: State, i: nat)
    requires Run(events, s) && i < |s.queue| && s.queue[i].stage != Done
    ensures exists j: nat | j <= i ::
              Enabled(s, PostBegins(j)) || Enabled(s, PostEnds(j)) || Enabled(s, PlaceReleased(j))
  {
    var j := FirstOpen(s, i);
    assert Enabled(s, PostBegins(j)) || Enabled(s, PostEnds(j)) || Enabled(s, PlaceReleased(j));
  }

  ghost function FirstOpen(s: State, i: nat): (j: nat)
    requires i < |s.queue| && s.queue[i].stage != Done
    ensures j <= i && s.queue[j].stage != Done && PredecessorDone(s, j)
  {
    if PredecessorDone(s, i) then i else FirstOpen(s, i - 1)
  }

  // ----- the bridge's fields under their lock -----

  class Notifier {
    var closing: bool
    var down: bool
    var last: string
    /** The debounce that `connectionDisconnectCancel` would cancel. */
    var pending: Option<nat>
    var debounces: seq<Debounce>
    var queue: seq<Delivery>
    var posts: seq<nat>
    /** What receivers were told. */
    ghost var recorded: seq<string>
    /** How many transitions have been recorded. */
    var count: nat
    ghost var history: seq<Event>

    ghost function View(): State
      reads this
    {
      State(closing, down, last, pending, debounces, recorded, queue, posts)
    }

    ghost predicate Valid()
      reads this
    {
      Run(history, View()) && count == |recorded|
    }

    constructor ()
      ensures Valid() && View() == START
    {
      closing, down, last, pending, debounces, queue, posts := false, false, "", None, [], [], [];
      recorded, count, history := [], 0, [];
    }

    method CancelPending()
      modifies `debounces, `pending
      ensures View() == Cancel(old(View()))
    {
      match pending
      case None =>
      case Some(d) =>
        if d < |debounces| {
          debounces := debounces[d := debounces[d].(cancelled := true)];
          pending := None;
        }
    }

    method RecordTransition(key: string, legacy: bool)
      requires count == |recorded|
      modifies `last, `recorded, `count, `queue
      ensures View() == Record(old(View()), key, legacy) && count == |recorded|
    {
      last := key;
      if legacy {
        queue := queue + [Delivery(count, Waiting)];
      }
      recorded, count := recorded + [key], count + 1;
    }

    method NotifyConnection(state: string, reason: string, immediate: bool, legacy: bool, runtime: bool)
      requires Valid()
      modifies this
      ensures Valid() && View() == Notify(old(View()), state, reason, immediate, legacy, runtime)
    {
      hide Record, Cancel;
      ghost var was := View();
      ghost var e := Notified(state, reason, immediate, legacy, runtime);
      Extended(history, was, e);
      history := history + [e];
      if closing || down {
        return;
      }
      if state != "disconnected" || immediate {
        CancelPending();
      } else if pending.Some? {
        return;
      }
      var key := Key(state, reason);
      if key == last {
        return;
      }
      if immediate || (!legacy && !runtime) {
        RecordTransition(key, legacy);
      } else {
        pending := Some(|debounces|);
        debounces := debounces + [Debounce(key, legacy, false, false)];
      }
    }

    /** The debounce goroutine takes the lock after its timer or its cancellation. */
    method DebounceEnds(d: nat)
      requires Valid() && d < |debounces| && !debounces[d].over
      modifies this
      ensures Valid() && View() == Fire(old(View()), d)
    {
      hide Record;
      Extended(history, View(), Fired(d));
      history := history + [Fired(d)];
      var b := debounces[d];
      debounces := debounces[d := b.(over := true)];
      if b.cancelled || down {
        return;
      }
      pending := None;
      RecordTransition(b.key, b.legacy);
    }

    /** `finishConnectionDelivery` of a delivery that is posting, or waited until its deadline. */
    method FinishDelivery(i: nat)
      requires Valid() && i < |queue| && (queue[i].stage == Posting || queue[i].stage == Waiting)
      modifies this
      ensures Valid() && View() == if old(queue)[i].stage == Posting then SetStage(old(View()), i, Done)
              else GiveUp(old(View()), i)
    {
      ghost var e := if queue[i].stage == Posting then PostEnds(i) else DeadlineExpires(i);
      Extended(history, View(), e);
      if queue[i].stage == Posting {
        RunKeepsInv(history, View());
        PostingIsFront(View(), i);
      }
      history := history + [e];
      var free := i == 0 || queue[i - 1].stage == Done;
      queue := queue[i := queue[i].(stage := if free then Done else Abandoned)];
    }

    method Stop()
      requires Valid()
      modifies this
      ensures Valid() && View() == Cancel(old(View())).(closing := true)
    {
      Extended(history, View(), Stopped);
      history := history + [Stopped];
      closing := true;
      CancelPending();
    }
  }

  lemma Extended(history: seq<Event>, s: State, e: Event)
    requires Run(history, s) && Enabled(s, e)
    ensures Run(history + [e], Next(s, e))
  {
    assert (history + [e])[..|history|] == history;
  }
}
