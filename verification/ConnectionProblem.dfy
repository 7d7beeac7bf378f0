/** The account's connection problem: what is remembered, what is on disk, and what a restart recovers. */
module ConnectionProblem {
  import opened Wrappers

  /** Zero is the unset time. */
  type Time = int

  datatype Problem = Problem(unlinkedAt: Option<Time>, revokedDevice: string, sessionRemoved: bool, kind: string,
                             code: int,
                             banReason: int, expiresAt: Option<Time>, since: Time, build: string)

  const HOUR: int := 3_600_000_000_000

  // ----- classification -----

  function KindOf(code: int): string {
    if code == 401 then "unlinked"
    else if code == 402 then "temporarily_banned"
    else if code == 403 then "locked"
    else if code == 405 then "client_outdated"
    else if code == 406 then "banned"
    else if 500 <= code < 600 then "server_error"
    else "other"
  }

  /** `classifyConnectionProblem`. */
  function Classify(code: int, reason: int, expire: int, now: Time, build: string): Problem {
    Problem(None, "", false, KindOf(code), code, reason,
            if code == 402 then Some(now + if expire <= 0 then HOUR else expire) else None,
            now, if code == 405 then build else "")
  }

  predicate Restricts(p: Problem) {
    p.kind == "temporarily_banned" || p.kind == "banned" || p.kind == "locked" || p.kind == "client_outdated"
  }

  predicate Unlinked(p: Problem) {
    p.kind == "unlinked" || p.unlinkedAt.Some?
  }

  /** The two facts that must survive: an account restriction and a revoked session. */
  datatype Facts = Facts(restricted: bool, unlinked: bool)

  function FactsOf(p: Option<Problem>): Facts {
    match p
    case None => Facts(false, false)
    case Some(q) => Facts(Restricts(q), Unlinked(q))
  }

  predicate Covers(a: Facts, b: Facts) {
    (b.restricted ==> a.restricted) && (b.unlinked ==> a.unlinked)
  }

  function UnlinkOnly(p: Problem): Problem {
    Problem(p.unlinkedAt, p.revokedDevice, p.sessionRemoved, "unlinked", 401, 0, None,
            if p.unlinkedAt.Some? then p.unlinkedAt.value else p.since, "")
  }

  /** `unlinkedDevice` saves a copy of what is remembered, marked as cleaned. */
  function Cleaned(p: Problem): Problem {
    p.(sessionRemoved := true)
  }

  // ----- recording -----

  /** One report from the library, with what the recorder reads while it holds its locks. */
  datatype Report = Report(code: int, reason: int, expire: int, now: Time, persistent: bool, retired: bool,
                           device: string)

  function Revoke(p: Problem, at: Option<Time>, device: string, removed: bool): Problem {
    p.(unlinkedAt := at, revokedDevice := device, sessionRemoved := removed)
  }

  /** The problem before its unlink facts are filled in; an account restriction absorbs everything weaker. */
  function Merged(previous: Option<Problem>, r: Report, build: string): Option<Problem> {
    var report := if r.persistent then Classify(r.code, r.reason, r.expire, r.now, build)
                  else Problem(None, "", false, "other", r.code, 0, None, r.now, "");
    if !Restricts(report) && FactsOf(previous).restricted then
      (if r.code != 401 then None else previous)
    else Some(report)
  }

  /** `recordConnectionProblemStateIf`: the problem to remember, or none when the report changes nothing. */
  function Recorded(previous: Option<Problem>, r: Report, build: string): Option<Problem> {
    match Merged(previous, r, build)
    case None => None
    case Some(next) =>
      var revoking := r.code == 401 && r.persistent;
      if !revoking && FactsOf(previous).unlinked && !Restricts(next) && r.retired then None
      else if !revoking && FactsOf(previous).unlinked then
        var p := previous.value;
        Some(Revoke(next, Some(if p.unlinkedAt.Some? then p.unlinkedAt.value else p.since), p.revokedDevice,
                    p.sessionRemoved))
      else if revoking then Some(Revoke(next, Some(r.now), r.device, false))
      else Some(next)
  }

  // ----- the saved problem -----

  type Jids = string -> bool

  /** What `readConnectionProblem` accepts; `jids` are the canonical device identities. */
  predicate Readable(p: Problem, jids: Jids) {
    && p.since != 0 && (p.unlinkedAt.Some? ==> p.unlinkedAt.value != 0)
    && (p.revokedDevice != "" ==> jids(p.revokedDevice))
    && p.kind == KindOf(p.code) && (p.kind == "temporarily_banned" ==> p.expiresAt.Some?)
  }

  datatype Read = Loaded(problem: Option<Problem>) | Corrupt

  /** Reading at start, which also lets an upgrade release a client-outdated restriction. */
  function ReadBack(disk: Option<Problem>, jids: Jids, build: string): Read {
    match disk
    case None => Loaded(None)
    case Some(p) =>
      if !Readable(p, jids) then Corrupt
      else if p.kind == "client_outdated" && p.build != build
        then Loaded(if Unlinked(p) then Some(UnlinkOnly(p)) else None)
      else Loaded(Some(p))
  }

  // ----- the state machine -----

  datatype State = State(memory: Option<Problem>, disk: Option<Problem>, failed: bool, build: string)

  datatype Event =
    | Reported(report: Report, written: bool)
    | Retried(written: bool)
    | Cleared(removed: bool)
    | Resolved(written: bool)
    | CleanedUp(written: bool)
    | Restarted(build: string, written: bool)

  function Persist(s: State, p: Problem, written: bool): State {
    if written then s.(disk := Some(p), failed := false) else s.(failed := true)
  }

  predicate Enabled(s: State, e: Event, jids: Jids) {
    match e
    case Reported(r, _) => r.now > 0 && (r.device != "" ==> jids(r.device))
    case Retried(_) => s.memory.Some? && Restricts(s.memory.value)
    case Cleared(_) => true
    case Resolved(_) => s.memory.Some? && Unlinked(s.memory.value)
    case CleanedUp(_) => s.memory.Some? && Unlinked(s.memory.value)
    case Restarted(build, written) =>
      ReadBack(s.disk, jids, build).Loaded? && (ReadBack(s.disk, jids, build).problem != s.disk ==> written)
  }

  function Next(s: State, e: Event, jids: Jids): State
    requires Enabled(s, e, jids)
  {
    match e
    case Reported(r, written) =>
      (match Recorded(s.memory, r, s.build)
       case None => s
       case Some(p) => if r.persistent then Persist(s.(memory := Some(p)), p, written) else s.(memory := Some(p)))
    case Retried(written) => Persist(s, s.memory.value, written)
    case Cleared(removed) => if removed then s.(memory := None, disk := None, failed := false) else s.(failed := true)
    case Resolved(written) =>
      var p := UnlinkOnly(s.memory.value);
      var t := Persist(s, p, written);
      if written then t.(memory := Some(p)) else t
    case CleanedUp(written) =>
      var p := Cleaned(s.memory.value);
      var t := Persist(s, p, written);
      if written then t.(memory := Some(p)) else t
    case Restarted(build, written) =>
      var p := ReadBack(s.disk, jids, build).problem;
      State(p, p, false, build)
  }

  // ----- what every run keeps -----

  predicate Stamped(p: Problem, jids: Jids) {
    p.since != 0 && (p.unlinkedAt.Some? ==> p.unlinkedAt.value != 0)
      && (p.revokedDevice != "" ==> jids(p.revokedDevice))
  }

  /** A temporary ban ends, and after it was reported. */
  predicate Ends(p: Problem) {
    p.kind == "temporarily_banned" ==> p.expiresAt.Some? && p.expiresAt.value > p.since
  }

  /** Only the kind of a problem that restricts nothing may keep it from being read. */
  predicate Sound(p: Problem, jids: Jids) {
    Stamped(p, jids) && Ends(p) && (Restricts(p) ==> Readable(p, jids))
  }

  ghost predicate Inv(s: State, jids: Jids) {
    && (s.memory.Some? ==> Sound(s.memory.value, jids)) && (s.disk.Some? ==> Sound(s.disk.value, jids))
    && (!s.failed ==> FactsOf(s.memory) == FactsOf(s.disk))
  }

  /** A report never loses a fact; only a persistent one adds any. */
  lemma RecordedFacts(previous: Option<Problem>, r: Report, build: string)
    requires Recorded(previous, r, build).Some?
    ensures Covers(FactsOf(Recorded(previous, r, build)), FactsOf(previous))
    ensures !r.persistent ==> FactsOf(Recorded(previous, r, build)) == FactsOf(previous)
  {
  }

  lemma RecordedReadable(previous: Option<Problem>, r: Report, build: string, jids: Jids)
    requires previous.Some? ==> Sound(previous.value, jids)
    requires r.now > 0 && (r.device != "" ==> jids(r.device)) && Recorded(previous, r, build).Some?
    ensures var p := Recorded(previous, r, build).value;
            Sound(p, jids) && (r.persistent ==> Readable(p, jids))
  {
  }

  lemma StepKeepsInv(s: State, e: Event, jids: Jids)
    requires Inv(s, jids) && Enabled(s, e, jids)
    ensures Inv(Next(s, e, jids), jids)
  {
    hide Recorded;
    match e
    case Reported(r, _) =>
      if Recorded(s.memory, r, s.build).Some? {
        RecordedFacts(s.memory, r, s.build);
        RecordedReadable(s.memory, r, s.build, jids);
      }
    case Retried(_) =>
    case Cleared(_) =>
    case Resolved(_) =>
    case CleanedUp(_) =>
    case Restarted(_, _) =>
  }

  // ----- runs -----

  function Start(build: string): State {
    State(None, None, false, build)
  }

  ghost predicate Run(start: State, events: seq<Event>, end: State, jids: Jids)
    decreases |events|
  {
    if events == [] then end == start
    else
      var n := |events| - 1;
      exists before :: Run(start, events[..n], before, jids) && Enabled(before, events[n], jids)
        && end == Next(before, events[n], jids)
  }

  /** Whatever happens, memory and disk agree on both facts unless a write is known to have failed. */
  lemma {:induction false} RunKeepsInv(start: State, events: seq<Event>, end: State, jids: Jids)
    requires Inv(start, jids) && Run(start, events, end, jids)
    ensures Inv(end, jids)
    decreases |events|
  {
    hide Next, Enabled, Inv;
    if events != [] {
      var n := |events| - 1;
      var before :| Run(start, events[..n], before, jids) && Enabled(before, events[n], jids)
                    && end == Next(before, events[n], jids);
      RunKeepsInv(start, events[..n], before, jids);
      StepKeepsInv(before, events[n], jids);
    }
  }

  /** Neither an operator's acknowledgement nor an upgrade. */
  predicate Ordinary(e: Event, build: string) {
    e.Reported? || e.Retried? || e.CleanedUp? || (e.Restarted? && e.build == build)
  }

  /** Every restriction for an outdated client names the running build. */
  predicate Current(s: State) {
    && (s.memory.Some? && s.memory.value.kind == "client_outdated" ==> s.memory.value.build == s.build)
    && (s.disk.Some? && s.disk.value.kind == "client_outdated" ==> s.disk.value.build == s.build)
  }

  ghost predicate Durable(s: State, jids: Jids) {
    Inv(s, jids) && Current(s) && Covers(FactsOf(s.memory), FactsOf(s.disk))
  }

  lemma RecordedCurrent(previous: Option<Problem>, r: Report, build: string)
    requires previous.Some? && previous.value.kind == "client_outdated" ==> previous.value.build == build
    ensures var p := Recorded(previous, r, build); p.Some? && p.value.kind == "client_outdated" ==>
            p.value.build == build
  {
  }

  lemma OrdinaryStepLosesNothing(s: State, e: Event, jids: Jids)
    requires Durable(s, jids) && Enabled(s, e, jids) && Ordinary(e, s.build)
    ensures Durable(Next(s, e, jids), jids) && Next(s, e, jids).build == s.build
    ensures Covers(FactsOf(Next(s, e, jids).disk), FactsOf(s.disk))
    ensures !e.Restarted? ==> Covers(FactsOf(Next(s, e, jids).memory), FactsOf(s.memory))
  {
    hide Recorded, Inv;
    StepKeepsInv(s, e, jids);
    match e
    case Reported(r, _) =>
      RecordedCurrent(s.memory, r, s.build);
      if Recorded(s.memory, r, s.build).Some? {
        RecordedFacts(s.memory, r, s.build);
      }
    case Retried(_) =>
    case CleanedUp(_) =>
    case Restarted(_, _) =>
  }

  /**
   Over any run of reports, failed or successful writes, retries, session cleanups and restarts of the same
   build, what the disk once said about a restriction or an unlink it says forever, and memory with it.
   */
  lemma {:induction false} PersistedFactsSurvive(start: State, events: seq<Event>, end: State, jids: Jids)
    requires Durable(start, jids) && Run(start, events, end, jids)
    requires forall i :: 0 <= i < |events| ==> Ordinary(events[i], start.build)
    ensures Durable(end, jids) && end.build == start.build
    ensures Covers(FactsOf(end.disk), FactsOf(start.disk)) && Covers(FactsOf(end.memory), FactsOf(start.disk))
    decreases |events|
  {
    hide Next, Enabled, Durable;
    DurableCovers(start, jids);
    if events != [] {
      var n := |events| - 1;
      var before :| Run(start, events[..n], before, jids) && Enabled(before, events[n], jids)
                    && end == Next(before, events[n], jids);
      PersistedFactsSurvive(start, events[..n], before, jids);
      OrdinaryStepLosesNothing(before, events[n], jids);
      DurableCovers(end, jids);
    }
  }

  lemma DurableCovers(s: State, jids: Jids)
    requires Durable(s, jids)
    ensures Covers(FactsOf(s.memory), FactsOf(s.disk))
  {
  }

  // ----- what an unlink and a restriction say -----

  /** An unlink's moment, its device, and whether its session was removed. */
  datatype Unlink = Unlink(at: Time, device: string, removed: bool)

  function UnlinkOf(p: Option<Problem>): Option<Unlink> {
    if FactsOf(p).unlinked then
      var q := p.value;
      Some(Unlink(if q.unlinkedAt.Some? then q.unlinkedAt.value else q.since, q.revokedDevice, q.sessionRemoved))
    else None
  }

  /** A restriction's kind, code, reason, expiry, start and build. */
  function RestrictionOf(p: Option<Problem>): Option<Problem> {
    if FactsOf(p).restricted then Some(Revoke(p.value, None, "", false)) else None
  }

  /** A report that tells of a new unlink. */
  predicate Unlinks(e: Event) {
    e.Reported? && e.report.persistent && e.report.code == 401
  }

  /** A report that tells of a new restriction. */
  predicate Binds(e: Event) {
    e.Reported? && e.report.persistent && Restricts(Classify(e.report.code, 0, 0, 0, ""))
  }

  lemma RecordedDetails(previous: Option<Problem>, r: Report, written: bool, build: string)
    requires Recorded(previous, r, build).Some?
    ensures FactsOf(previous).unlinked && !Unlinks(Reported(r, written)) ==>
              UnlinkOf(Recorded(previous, r, build)) == UnlinkOf(previous)
    ensures FactsOf(previous).restricted && !Binds(Reported(r, written)) ==>
              RestrictionOf(Recorded(previous, r, build)) == RestrictionOf(previous)
  {
  }

  lemma StepKeepsDetails(s: State, e: Event, jids: Jids)
    requires Durable(s, jids) && Enabled(s, e, jids) && Ordinary(e, s.build)
    ensures var t := Next(s, e, jids);
            && (FactsOf(s.disk).unlinked && UnlinkOf(s.memory) == UnlinkOf(s.disk) && !Unlinks(e) ==>
                  var u := UnlinkOf(s.disk).value;
                  UnlinkOf(t.memory) == UnlinkOf(t.disk) == Some(u.(removed := u.removed || e == CleanedUp(true))))
            && (FactsOf(s.disk).restricted && RestrictionOf(s.memory) == RestrictionOf(s.disk) && !Binds(e) ==>
                  RestrictionOf(t.memory) == RestrictionOf(t.disk) == RestrictionOf(s.disk))
  {
    hide Recorded, Classify;
    match e
    case Reported(r, written) =>
      if Recorded(s.memory, r, s.build).Some? {
        RecordedDetails(s.memory, r, written, s.build);
      }
    case Retried(_) =>
    case CleanedUp(_) =>
    case Restarted(_, _) =>
  }

  /**
   Over such a run a persisted unlink keeps its moment and device until a new unlink is reported, and its
   session counts as removed if and only if it did before or a cleanup was saved.
   */
  lemma {:induction false} UnlinkSurvives(start: State, events: seq<Event>, end: State, jids: Jids)
    requires Durable(start, jids) && FactsOf(start.disk).unlinked && UnlinkOf(start.memory) == UnlinkOf(start.disk)
    requires Run(start, events, end, jids)
    requires forall i :: 0 <= i < |events| ==> Ordinary(events[i], start.build) && !Unlinks(events[i])
    ensures var u := UnlinkOf(start.disk).value;
            UnlinkOf(end.memory) == UnlinkOf(end.disk) == Some(u.(removed := u.removed || CleanedUp(true) in events))
    decreases |events|
  {
    hide Next, Enabled, Durable;
    if events != [] {
      var n := |events| - 1;
      assert events == events[..n] + [events[n]];
      var before :| Run(start, events[..n], before, jids) && Enabled(before, events[n], jids)
                    && end == Next(before, events[n], jids);
      UnlinkSurvives(start, events[..n], before, jids);
      PersistedFactsSurvive(start, events[..n], before, jids);
      StepKeepsDetails(before, events[n], jids);
    }
  }

  /** And a persisted restriction keeps every detail until a new restriction is reported, unlinks or not. */
  lemma {:induction false} RestrictionSurvives(start: State, events: seq<Event>, end: State, jids: Jids)
    requires Durable(start, jids) && FactsOf(start.disk).restricted
    requires RestrictionOf(start.memory) == RestrictionOf(start.disk) && Run(start, events, end, jids)
    requires forall i :: 0 <= i < |events| ==> Ordinary(events[i], start.build) && !Binds(events[i])
    ensures RestrictionOf(end.memory) == RestrictionOf(end.disk) == RestrictionOf(start.disk)
    decreases |events|
  {
    hide Next, Enabled, Durable;
    if events != [] {
      var n := |events| - 1;
      var before :| Run(start, events[..n], before, jids) && Enabled(before, events[n], jids)
                    && end == Next(before, events[n], jids);
      RestrictionSurvives(start, events[..n], before, jids);
      PersistedFactsSurvive(start, events[..n], before, jids);
      StepKeepsDetails(before, events[n], jids);
    }
  }

  // ----- reading back -----

  /** The step saves a problem or removes the saved one. */
  predicate Saves(s: State, e: Event) {
    match e
    case Reported(r, written) => written && r.persistent && Recorded(s.memory, r, s.build).Some?
    case Retried(written) => written
    case Cleared(removed) => removed
    case Resolved(written) => written
    case CleanedUp(written) => written
    case Restarted(_, _) => false
  }

  /** The kind is the one the code stands for. */
  predicate Matches(p: Problem) {
    p.kind == KindOf(p.code)
  }

  /** A saved cleanup of a problem whose kind does not match its code. */
  predicate Spoils(s: State, e: Event) {
    e == CleanedUp(true) && s.memory.Some? && !Matches(s.memory.value)
  }

  /** The last step of the run that saved anything was such a cleanup. */
  ghost predicate Spoiled(start: State, events: seq<Event>, end: State, jids: Jids)
    decreases |events|
  {
    events != [] &&
    var n := |events| - 1;
    exists before :: Run(start, events[..n], before, jids) && Enabled(before, events[n], jids)
      && end == Next(before, events[n], jids)
      && if Saves(before, events[n]) then Spoils(before, events[n]) else Spoiled(start, events[..n], before, jids)
  }

  ghost predicate Reads(s: State, jids: Jids) {
    s.disk.Some? ==> Readable(s.disk.value, jids)
  }

  lemma SoundReadsIff(p: Problem, jids: Jids)
    requires Sound(p, jids)
    ensures Readable(p, jids) <==> Matches(p)
  {
  }

  lemma StepReadsIff(s: State, e: Event, jids: Jids)
    requires Inv(s, jids) && Enabled(s, e, jids)
    ensures Reads(Next(s, e, jids), jids) <==> if Saves(s, e) then !Spoils(s, e) else Reads(s, jids)
  {
    hide Recorded, KindOf;
    match e
    case Reported(r, _) =>
      if Recorded(s.memory, r, s.build).Some? {
        RecordedReadable(s.memory, r, s.build, jids);
      }
    case Retried(_) =>
    case Cleared(_) =>
    case Resolved(_) =>
      UnlinkOnlyReads(s.memory.value, jids);
    case CleanedUp(_) =>
      SoundReadsIff(Cleaned(s.memory.value), jids);
    case Restarted(_, _) =>
      if s.disk.Some? {
        UnlinkOnlyReads(s.disk.value, jids);
      }
  }

  lemma UnlinkOnlyReads(p: Problem, jids: Jids)
    requires Sound(p, jids)
    ensures Readable(UnlinkOnly(p), jids)
  {
  }

  /** After any run at all, the saved problem can be read if and only if no such cleanup saved it last. */
  lemma {:induction false} RunReadsIff(start: State, events: seq<Event>, end: State, jids: Jids)
    requires Inv(start, jids) && Reads(start, jids) && Run(start, events, end, jids)
    ensures Reads(end, jids) <==> !Spoiled(start, events, end, jids)
    ensures CleanedUp(true) !in events ==> Reads(end, jids)
    decreases |events|
  {
    hide Next, Enabled, Inv, Reads, Saves, Spoils;
    if events != [] {
      var n, more := |events| - 1, events[..|events| - 1];
      forall before | Run(start, more, before, jids) && Enabled(before, events[n], jids)
        && end == Next(before, events[n], jids)
        ensures Reads(end, jids) <==>
                if Saves(before, events[n]) then !Spoils(before, events[n]) else !Spoiled(start, more, before, jids)
        ensures CleanedUp(true) !in events ==> Reads(end, jids)
      {
        RunReadsIff(start, more, before, jids);
        RunKeepsInv(start, more, before, jids);
        StepReadsIff(before, events[n], jids);
        SpoilsIsCleanup(before, events[n]);
      }
    }
  }

  lemma SpoilsIsCleanup(s: State, e: Event)
    ensures Spoils(s, e) ==> e == CleanedUp(true)
  {
  }

  /** The same build then reads back exactly what was saved. */
  lemma WrittenReadsBack(start: State, events: seq<Event>, s: State, jids: Jids)
    requires Durable(start, jids) && Reads(start, jids) && Run(start, events, s, jids)
    requires forall i :: 0 <= i < |events| ==> Ordinary(events[i], start.build)
    ensures ReadBack(s.disk, jids, s.build) == (if Spoiled(start, events, s, jids) then Corrupt else Loaded(s.disk))
    ensures CleanedUp(true) !in events ==> ReadBack(s.disk, jids, s.build) == Loaded(s.disk)
  {
    hide Spoiled;
    PersistedFactsSurvive(start, events, s, jids);
    RunReadsIff(start, events, s, jids);
  }

  /** An upgrade releases exactly the restriction of an outdated client, and never the unlink. */
  lemma UpgradeReleasesOnlyOutdated(s: State, build: string, written: bool, jids: Jids)
    requires Inv(s, jids) && Enabled(s, Restarted(build, written), jids)
    ensures var t := Next(s, Restarted(build, written), jids);
            && FactsOf(t.disk).unlinked == FactsOf(s.disk).unlinked
            && (FactsOf(t.disk).restricted <==>
                  FactsOf(s.disk).restricted
                    && !(s.disk.value.kind == "client_outdated" && s.disk.value.build != build))
            && t.memory == t.disk && !t.failed
  {
  }

  // ----- session cleanup -----

  /** The copy that cleanup saves can be read back exactly when its kind is the one its code stands for. */
  lemma CleanupReadableIff(s: State, jids: Jids, build: string)
    requires Inv(s, jids) && s.memory.Some? && Unlinked(s.memory.value)
    ensures ReadBack(Some(Cleaned(s.memory.value)), jids, build).Loaded? <==>
            s.memory.value.kind == KindOf(s.memory.value.code)
  {
  }

  /**
   So a generic report while unlinked spoils a copy that could be read if and only if no restriction
   absorbs it, its session is not already retired, and its code stands for a kind of its own.
   */
  lemma GenericReportSpoilsIff(s: State, r: Report, written: bool, jids: Jids, build: string)
    requires Inv(s, jids) && s.memory.Some? && Unlinked(s.memory.value) && !r.persistent
    requires Enabled(s, Reported(r, written), jids)
    requires ReadBack(Some(Cleaned(s.memory.value)), jids, build).Loaded?
    ensures var t := Next(s, Reported(r, written), jids);
            && t.memory.Some?
            && (ReadBack(Some(Cleaned(t.memory.value)), jids, build) == Corrupt <==>
                !FactsOf(s.memory).restricted && !r.retired && KindOf(r.code) != "other")
  {
    var t := Next(s, Reported(r, written), jids);
    StepKeepsInv(s, Reported(r, written), jids);
    if Recorded(s.memory, r, s.build).Some? {
      RecordedFacts(s.memory, r, s.build);
    }
    CleanupReadableIff(s, jids, build);
    CleanupReadableIff(t, jids, build);
  }

  /** An unlink, then a generic 502 failure, then cleanup: the saved problem is refused at the next start. */
  lemma GenericFailureSpoilsCleanup(build: string, jids: Jids)
    ensures var first := Reported(Report(401, 0, 0, 1, true, false, ""), true);
            var second := Reported(Report(502, 0, 0, 2, false, false, ""), true);
            && Enabled(Start(build), first, jids) && Enabled(Next(Start(build), first, jids), second, jids)
            && (var s := Next(Next(Start(build), first, jids), second, jids);
                && Enabled(s, CleanedUp(true), jids)
                && ReadBack(Next(s, CleanedUp(true), jids).disk, jids, build) == Corrupt)
  {
    assert KindOf(502) == "server_error";
    assert "server_error"[0] != "other"[0];
  }

  // ----- the bridge's fields under their locks -----

  class ProblemRecorder {
    var memory: Option<Problem>
    var disk: Option<Problem>
    var failed: bool
    var build: string
    ghost const jids: Jids

    ghost function View(): State
      reads this
    {
      State(memory, disk, failed, build)
    }

    ghost predicate Valid()
      reads this
    {
      Inv(View(), jids)
    }

    constructor (build: string, ghost jids: Jids)
      ensures Valid() && View() == Start(build) && this.jids == jids
    {
      memory, disk, failed, this.build, this.jids := None, None, false, build, jids;
    }

    method Save(p: Problem, written: bool)
      modifies `disk, `failed
      ensures View() == Persist(old(View()), p, written)
    {
      if written {
        disk := Some(p);
      }
      failed := !written;
    }

    method Record(r: Report, written: bool)
      requires Valid() && Enabled(View(), Reported(r, written), jids)
      modifies this
      ensures Valid() && View() == Next(old(View()), Reported(r, written), jids)
    {
      hide Inv, Restricts, Unlinked;
      StepKeepsInv(View(), Reported(r, written), jids);
      var next := if r.persistent then Classify(r.code, r.reason, r.expire, r.now, build)
                  else Problem(None, "", false, "other", r.code, 0, None, r.now, "");
      if !Restricts(next) && memory.Some? && Restricts(memory.value) {
        if r.code != 401 {
          return;
        }
        next := memory.value;
      }
      if (r.code != 401 || !r.persistent) && memory.Some? && Unlinked(memory.value) {
        if !Restricts(next) && r.retired {
          return;
        }
        var p := memory.value;
        next := next.(unlinkedAt := p.unlinkedAt, revokedDevice := p.revokedDevice, sessionRemoved := p.sessionRemoved);
        if next.unlinkedAt.None? {
          next := next.(unlinkedAt := Some(p.since));
        }
      }
      if r.code == 401 && r.persistent {
        next := next.(unlinkedAt := Some(r.now), sessionRemoved := false, revokedDevice := r.device);
      }
      memory := Some(next);
      if r.persistent {
        Save(next, written);
      }
    }

    method Resolve(written: bool)
      requires Valid() && Enabled(View(), Resolved(written), jids)
      modifies this
      ensures Valid() && View() == Next(old(View()), Resolved(written), jids)
    {
      StepKeepsInv(View(), Resolved(written), jids);
      var next := UnlinkOnly(memory.value);
      Save(next, written);
      if written {
        memory := Some(next);
      }
    }

    method CleanUp(written: bool)
      requires Valid() && Enabled(View(), CleanedUp(written), jids)
      modifies this
      ensures Valid() && View() == Next(old(View()), CleanedUp(written), jids)
    {
      StepKeepsInv(View(), CleanedUp(written), jids);
      var next := memory.value.(sessionRemoved := true);
      Save(next, written);
      if written {
        memory := Some(next);
      }
    }

    method Clear(removed: bool)
      requires Valid()
      modifies this
      ensures Valid() && View() == Next(old(View()), Cleared(removed), jids)
    {
      StepKeepsInv(View(), Cleared(removed), jids);
      if !removed {
        failed := true;
        return;
      }
      memory, disk, failed := None, None, false;
    }
  }
}
