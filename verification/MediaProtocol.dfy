/**
 The media publication, deletion and recovery protocol of the S3 backend, as a step system.

 Durable state is the remote bucket and five SQL tables. Every request to the bucket and every SQL
 statement is one step, a crash may happen between any two of them, and a failed remote request may
 or may not have taken effect. Operations on one content hash are serialised by that hash's lock,
 so the volatile state is one stage per locked hash; operations on different hashes interleave
 freely.
 */
module MediaProtocol {
  import opened Wrappers

  /** The SHA-256 of a plaintext, which also names the object under the instance's prefix. */
  datatype Hash = Hash(hex: string)

  /** Primary key of `messages`. */
  datatype Key = Key(id: string, chat: string)

  /** The columns of a message row that the media cache reads. */
  datatype Message = Message(stamp: string, kind: string, sha: Option<Hash>)

  /** What the holder of a hash's lock will do next. */
  datatype Stage =
    // put
    | PutStat(row: Key, expected: Option<Hash>)
    | PutJournal(row: Key, expected: Option<Hash>)
    | PutUpload(row: Key, expected: Option<Hash>)
    | PutVerify(row: Key, expected: Option<Hash>, uploaded: bool)
    | PutCommit(row: Key, expected: Option<Hash>, uploaded: bool)
    | PutCleanup
    | PutForget
    // Delete, for one of its objects
    | DeleteCheck(rows: set<Key>)
    | DeleteCount(selected: set<Key>)
    | DeleteMark
    | DeleteRemote
    | DeleteRow
    | DeleteDetach(selected: set<Key>)
    // reconcileDeletionLocked, alone or as the prelude of Open
    | SettleCheck(reader: Option<Key>)
    | SettleHead(reader: Option<Key>)
    | SettleGone(reader: Option<Key>)
    | SettleKeep(reader: Option<Key>)
    | OpenCheck(row: Key)
    | OpenFetch(row: Key)
    // removeOrphan
    | OrphanCheck
    | OrphanRemote
    | OrphanRow
    // reconcilePendingUploads, for one intent
    | UploadCheck
    | UploadRemote
    | UploadForget

  /**
   Everything kept under one hash: the length of the object in the bucket, the bytes of its row in
   `media_cache`, whether `media_cache_deletions` marks it, the bytes of its upload intent in
   `media_cache_uploads`, and the stage of the operation that holds its lock.
   */
  datatype Slot = Slot(stored: Option<nat>, row: Option<nat>, marked: bool, intent: Option<nat>, stage: Option<Stage>)

  const EMPTY := Slot(None, None, false, None, None)

  /** `refs` is `media_cache_refs`. */
  datatype State = State(slots: map<Hash, Slot>, refs: map<Key, Hash>, messages: map<Key, Message>)

  const INITIAL := State(map[], map[], map[])

  function At(s: State, h: Hash): Slot {
    if h in s.slots then s.slots[h] else EMPTY
  }

  function RefsTo(refs: map<Key, Hash>, h: Hash): set<Key> {
    set k | k in refs && refs[k] == h
  }

  /** How a request ended. Only a remote request can fail and still have taken effect. */
  datatype Reply = Done | Failed | FailedButApplied

  /** What a step does to the refs of its own hash. */
  datatype RefChange = Keep | Cascade | Detach(keys: set<Key>) | Attach(row: Key)

  datatype Effect = Effect(slot: Slot, change: RefChange)

  // ----- single statements -----

  function Leave(x: Slot): Effect {
    Effect(x.(stage := None), Keep)
  }

  function Goto(x: Slot, st: Stage): Effect {
    Effect(x.(stage := Some(st)), Keep)
  }

  /** DELETE FROM media_cache: the foreign keys cascade to the deletion marker and the refs. */
  function DropRow(x: Slot, next: Option<Stage>): Effect {
    Effect(x.(row := None, marked := false, stage := next), Cascade)
  }

  /** A failed put removes what it uploaded before it gives the lock back. */
  function PutFails(x: Slot, uploaded: bool): Effect {
    if uploaded then Goto(x, PutCleanup) else Leave(x)
  }

  function AfterSettle(reader: Option<Key>): Option<Stage> {
    match reader
    case None => None
    case Some(row) => Some(OpenCheck(row))
  }

  // ----- one step of the operation that holds a hash's lock -----

  /** `n` is the length of the content with this hash. */
  function PutStep(n: nat, x: Slot, messages: map<Key, Message>, st: Stage, reply: Reply): Effect {
    match st
    case PutStat(row, expected) =>
      if !reply.Done? then Leave(x)
      else if x.stored == None then Goto(x, PutJournal(row, expected))
      else if x.stored == Some(n) then Goto(x, PutVerify(row, expected, false))
      else Leave(x)
    case PutJournal(row, expected) =>
      if !reply.Done? then Leave(x) else Goto(x.(intent := Some(n)), PutUpload(row, expected))
    case PutUpload(row, expected) =>
      (match reply
       case Done => Goto(x.(stored := Some(n)), PutVerify(row, expected, true))
       case Failed => PutFails(x, true)
       case FailedButApplied => PutFails(x.(stored := Some(n)), true))
    case PutVerify(row, expected, uploaded) =>
      if reply.Done? && x.stored == Some(n) then Goto(x, PutCommit(row, expected, uploaded)) else PutFails(x, uploaded)
    case PutCommit(row, expected, uploaded) =>
      if reply.Done? && row in messages && messages[row].sha == expected
      then Effect(x.(row := Some(n), marked := false, intent := None, stage := None), Attach(row))
      else PutFails(x, uploaded)
    case PutCleanup =>
      (match reply
       case Done => Goto(x.(stored := None), PutForget)
       case Failed => Leave(x)
       case FailedButApplied => Leave(x.(stored := None)))
    case PutForget =>
      if reply.Done? then Leave(x.(intent := None)) else Leave(x)
    case _ => Leave(x)
  }

  /** `keys` are the rows that refer to the hash when the step reads them. */
  function DeleteStep(x: Slot, keys: set<Key>, st: Stage, reply: Reply): Effect {
    match st
    case DeleteCheck(rows) =>
      if !reply.Done? || rows * keys == {} then Leave(x) else Goto(x, DeleteCount(rows * keys))
    case DeleteCount(selected) =>
      if !reply.Done? then Leave(x)
      else if |keys| == |selected| then Goto(x, DeleteMark)
      else Goto(x, DeleteDetach(selected))
    case DeleteMark =>
      // The marker's foreign key refuses a hash without a catalog row.
      if !reply.Done? || x.row == None then Leave(x) else Goto(x.(marked := true), DeleteRemote)
    case DeleteRemote =>
      (match reply
       case Done => Goto(x.(stored := None), DeleteRow)
       case Failed => Goto(x, SettleCheck(None))
       case FailedButApplied => Goto(x.(stored := None), SettleCheck(None)))
    case DeleteRow =>
      if reply.Done? then DropRow(x, None) else Leave(x)
    case DeleteDetach(selected) =>
      if reply.Done? then Effect(x.(stage := None), Detach(selected)) else Leave(x)
    case _ => Leave(x)
  }

  function SettleStep(h: Hash, x: Slot, refs: map<Key, Hash>, messages: map<Key, Message>, st: Stage,
                      reply: Reply): Effect {
    match st
    case SettleCheck(reader) =>
      if !reply.Done? then Leave(x)
      else if !x.marked then Effect(x.(stage := AfterSettle(reader)), Keep)
      else Goto(x, SettleHead(reader))
    case SettleHead(reader) =>
      if !reply.Done? then Leave(x)
      else if x.stored != None then Goto(x, SettleKeep(reader))
      else Goto(x, SettleGone(reader))
    case SettleGone(reader) =>
      if !reply.Done? then Leave(x) else DropRow(x, AfterSettle(reader))
    case SettleKeep(reader) =>
      if !reply.Done? then Leave(x) else Effect(x.(marked := false, stage := AfterSettle(reader)), Keep)
    case OpenCheck(row) =>
      if reply.Done? && Serves(h, x, refs, messages, row) then Goto(x, OpenFetch(row)) else Leave(x)
    case OpenFetch(row) => Leave(x)
    case _ => Leave(x)
  }

  /** `reference`: the ref, the catalog row and the message's own hash all agree on `h`. */
  predicate Serves(h: Hash, x: Slot, refs: map<Key, Hash>, messages: map<Key, Message>, row: Key) {
    row in refs && refs[row] == h && x.row != None && row in messages && messages[row].sha == Some(h)
  }

  function SweepStep(x: Slot, keys: set<Key>, st: Stage, reply: Reply): Effect {
    match st
    case OrphanCheck =>
      if !reply.Done? || keys != {} then Leave(x) else Goto(x, OrphanRemote)
    case OrphanRemote =>
      (match reply
       case Done => Goto(x.(stored := None), OrphanRow)
       case Failed => Leave(x)
       case FailedButApplied => Leave(x.(stored := None)))
    case OrphanRow =>
      if reply.Done? && keys == {} then DropRow(x, None) else Leave(x)
    case UploadCheck =>
      if !reply.Done? || x.intent == None then Leave(x)
      else if x.row != None then Goto(x, UploadForget)
      else Goto(x, UploadRemote)
    case UploadRemote =>
      (match reply
       case Done => Goto(x.(stored := None), UploadForget)
       case Failed => Leave(x)
       case FailedButApplied => Leave(x.(stored := None)))
    case UploadForget =>
      if reply.Done? then Leave(x.(intent := None)) else Leave(x)
    case _ => Leave(x)
  }

  predicate IsPut(st: Stage) {
    st.PutStat? || st.PutJournal? || st.PutUpload? || st.PutVerify? || st.PutCommit? || st.PutCleanup? || st.PutForget?
  }

  predicate IsDelete(st: Stage) {
    st.DeleteCheck? || st.DeleteCount? || st.DeleteMark? || st.DeleteRemote? || st.DeleteRow? || st.DeleteDetach?
  }

  predicate IsSettle(st: Stage) {
    st.SettleCheck? || st.SettleHead? || st.SettleGone? || st.SettleKeep? || st.OpenCheck? || st.OpenFetch?
  }

  function StepOf(n: nat, h: Hash, x: Slot, refs: map<Key, Hash>, messages: map<Key, Message>, st: Stage,
                  reply: Reply): Effect {
    if IsPut(st) then PutStep(n, x, messages, st, reply)
    else if IsDelete(st) then DeleteStep(x, RefsTo(refs, h), st, reply)
    else if IsSettle(st) then SettleStep(h, x, refs, messages, st, reply)
    else SweepStep(x, RefsTo(refs, h), st, reply)
  }

  // ----- the transition system -----

  datatype Event =
    | StoreMessage(key: Key, row: Message)
    | DropMessage(key: Key)
    | MoveRef(from: Key, to: Key)
    | Crash
    | Lock(hash: Hash, first: Stage)
    | Request(hash: Hash, reply: Reply)

  /** Content lengths: with collision-free hashes the length is a function of the hash. */
  type Lengths = Hash -> nat

  /** How an operation starts; `put` has refused bytes that do not match the row's known hash. */
  predicate FirstStage(h: Hash, st: Stage) {
    match st
    case PutStat(_, expected) => expected == None || expected == Some(h)
    case DeleteCheck(_) => true
    case SettleCheck(_) => true
    case OrphanCheck => true
    case UploadCheck => true
    case _ => false
  }

  /** Stages whose request changes the bucket. */
  predicate Mutates(st: Stage) {
    st.PutUpload? || st.PutCleanup? || st.DeleteRemote? || st.OrphanRemote? || st.UploadRemote?
  }

  predicate Enabled(s: State, e: Event) {
    match e
    case StoreMessage(_, _) => true
    case DropMessage(_) => true
    case MoveRef(from, to) =>
      // The merge runs at startup, before the store exists.
      && (forall g :: g in s.slots ==> s.slots[g].stage == None)
      && from in s.refs && to in s.messages && from != to && s.messages[to].sha == Some(s.refs[from])
    case Crash => true
    case Lock(h, first) => At(s, h).stage == None && FirstStage(h, first)
    case Request(h, reply) =>
      At(s, h).stage != None && (reply.FailedButApplied? ==> Mutates(At(s, h).stage.value))
  }

  function ChangeRefs(refs: map<Key, Hash>, h: Hash, change: RefChange): map<Key, Hash> {
    match change
    case Keep => refs
    case Cascade => refs - RefsTo(refs, h)
    case Detach(keys) => refs - (keys * RefsTo(refs, h))
    case Attach(row) => refs[row := h]
  }

  /** Publishing also records a hash that the message row did not know yet. */
  function ChangeMessages(messages: map<Key, Message>, h: Hash, change: RefChange): map<Key, Message> {
    if change.Attach? && change.row in messages
    then messages[change.row := messages[change.row].(sha := Some(h))] else messages
  }

  function Apply(s: State, h: Hash, eff: Effect): State {
    State(s.slots[h := eff.slot], ChangeRefs(s.refs, h, eff.change), ChangeMessages(s.messages, h, eff.change))
  }

  function Next(size: Lengths, s: State, e: Event): State
    requires Enabled(s, e)
  {
    match e
    case StoreMessage(k, row) => s.(messages := s.messages[k := row])
    case DropMessage(k) => s.(messages := s.messages - {k}, refs := s.refs - {k})
    case MoveRef(from, to) =>
      // The LID merge copies a ref, then deletes the source row.
      var copied := if to in s.refs then s.refs else s.refs[to := s.refs[from]];
      s.(refs := copied - {from}, messages := s.messages - {from})
    case Crash => s.(slots := map h | h in s.slots :: s.slots[h].(stage := None))
    case Lock(h, first) => s.(slots := s.slots[h := At(s, h).(stage := Some(first))])
    case Request(h, reply) =>
      var x := At(s, h);
      Apply(s, h, StepOf(size(h), h, x, s.refs, s.messages, x.stage.value, reply))
  }

  // ----- runs -----

  predicate Runnable(size: Lengths, events: seq<Event>)
    decreases |events|, 0
  {
    if events == [] then true
    else
      var n := |events| - 1;
      Runnable(size, events[..n]) && Enabled(Execute(size, events[..n]), events[n])
  }

  /** The state after a run of events from the empty store. */
  function Execute(size: Lengths, events: seq<Event>): State
    requires Runnable(size, events)
    decreases |events|, 1
  {
    if events == [] then INITIAL
    else
      var n := |events| - 1;
      Next(size, Execute(size, events[..n]), events[n])
  }
}
