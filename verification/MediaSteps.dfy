/** Where the sequences of protocol steps behind one recovery action lead, however its requests end. */
module MediaSteps {
  import opened Wrappers
  import opened MediaProtocol

  // ----- how an action's requests end -----

  /** Where an action's requests fail, if anywhere; a failed removal may still have been applied. */
  datatype Trouble = Calm | AtCheck | AtRemote(applied: bool) | AtRow

  function CheckReply(t: Trouble): Reply {
    if t.AtCheck? then Failed else Done
  }

  /** The answer to a request that changes nothing. */
  function HeadReply(t: Trouble): Reply {
    if t.AtRemote? then Failed else Done
  }

  function RemovalReply(t: Trouble): Reply {
    match t
    case AtRemote(applied) => if applied then FailedButApplied else Failed
    case _ => Done
  }

  function RowReply(t: Trouble): Reply {
    if t.AtRow? then Failed else Done
  }

  /** The object went although the action failed. */
  predicate Applied(t: Trouble) {
    t.AtRow? || t == AtRemote(true)
  }

  // ----- what an action leaves in a slot -----

  /** A marked row whose object is gone. */
  predicate Gone(x: Slot) {
    x.marked && x.stored == None
  }

  predicate SettleFails(x: Slot, t: Trouble) {
    t.AtCheck? || (x.marked && (t.AtRemote? || t.AtRow?))
  }

  /** The row of a missing object goes. */
  predicate SettleDrops(x: Slot, t: Trouble) {
    Gone(x) && !SettleFails(x, t)
  }

  function SettleSlot(x: Slot, t: Trouble): Slot {
    if SettleFails(x, t) then x
    else if Gone(x) then x.(row := None, marked := false)
    else x.(marked := false)
  }

  predicate ForgetFails(x: Slot, t: Trouble) {
    t.AtCheck? || t.AtRow? || (t.AtRemote? && x.row == None)
  }

  function ForgetSlot(x: Slot, t: Trouble): Slot {
    var y := if x.row == None && (!ForgetFails(x, t) || Applied(t)) then x.(stored := None) else x;
    if ForgetFails(x, t) then y else y.(intent := None)
  }

  /** An object that no ref names, and its row. */
  function CollectSlot(x: Slot): Slot {
    x.(stored := None, row := None, marked := false)
  }

  function SweepSlot(x: Slot, t: Trouble): Slot {
    if t == Calm then CollectSlot(x) else if Applied(t) then x.(stored := None) else x
  }

  // ----- the steps of each action -----

  function SettleOne(s: State, h: Hash, t: Trouble): State {
    State(s.slots[h := SettleSlot(At(s, h), t).(stage := None)],
          if SettleDrops(At(s, h), t) then s.refs - RefsTo(s.refs, h) else s.refs,
          s.messages)
  }

  /** `s` with slot `h` replaced. */
  function With(s: State, h: Hash, x: Slot): State {
    s.(slots := s.slots[h := x])
  }

  lemma WithTwice(s: State, h: Hash, x: Slot, y: Slot)
    ensures With(With(s, h, x), h, y) == With(s, h, y) && At(With(s, h, x), h) == x
  {
    assert s.slots[h := x][h := y] == s.slots[h := y];
  }

  function Headed(x: Slot): Slot {
    x.(stage := Some(SettleHead(None)))
  }

  function Decided(x: Slot): Slot {
    x.(stage := Some(if x.stored == None then SettleGone(None) else SettleKeep(None)))
  }

  lemma CheckStep(size: Lengths, s: State, h: Hash, t: Trouble)
    requires At(s, h).stage == Some(SettleCheck(None))
    ensures Next(size, s, Request(h, CheckReply(t))) ==
            if At(s, h).marked && !t.AtCheck? then With(s, h, Headed(At(s, h))) else SettleOne(s, h, t)
  {
  }

  lemma HeadStep(size: Lengths, s: State, h: Hash, t: Trouble)
    requires At(s, h).marked && !t.AtCheck?
    ensures Next(size, With(s, h, Headed(At(s, h))), Request(h, HeadReply(t))) ==
            if t.AtRemote? then SettleOne(s, h, t) else With(s, h, Decided(At(s, h)))
  {
    WithTwice(s, h, Headed(At(s, h)), Decided(At(s, h)));
    WithTwice(s, h, Headed(At(s, h)), At(s, h).(stage := None));
  }

  lemma RowStep(size: Lengths, s: State, h: Hash, t: Trouble)
    requires At(s, h).marked && (t == Calm || t == AtRow)
    ensures Next(size, With(s, h, Decided(At(s, h))), Request(h, RowReply(t))) == SettleOne(s, h, t)
  {
    WithTwice(s, h, Decided(At(s, h)), SettleSlot(At(s, h), t).(stage := None));
  }

  function SweepOne(s: State, h: Hash, t: Trouble): State {
    With(s, h, (if RefsTo(s.refs, h) == {} then SweepSlot(At(s, h), t) else At(s, h)).(stage := None))
  }

  function ForgetOne(s: State, h: Hash, t: Trouble): State {
    With(s, h, ForgetSlot(At(s, h), t).(stage := None))
  }

  function Staged(s: State, h: Hash, st: Stage): State {
    With(s, h, At(s, h).(stage := Some(st)))
  }

  lemma OrphanSteps(size: Lengths, s: State, h: Hash, t: Trouble)
    requires At(s, h).stage == None
    ensures Next(size, s, Lock(h, OrphanCheck)) == Staged(s, h, OrphanCheck)
    ensures Next(size, Staged(s, h, OrphanCheck), Request(h, CheckReply(t))) ==
            if RefsTo(s.refs, h) == {} && !t.AtCheck? then Staged(s, h, OrphanRemote) else SweepOne(s, h, t)
  {
    var x := At(s, h);
    WithTwice(s, h, x.(stage := Some(OrphanCheck)), x.(stage := Some(OrphanRemote)));
    WithTwice(s, h, x.(stage := Some(OrphanCheck)), x);
  }

  function Emptied(x: Slot): Slot {
    x.(stored := None, stage := Some(OrphanRow))
  }

  lemma OrphanRemoteStep(size: Lengths, s: State, h: Hash, t: Trouble)
    requires RefsTo(s.refs, h) == {} && !t.AtCheck?
    ensures Next(size, Staged(s, h, OrphanRemote), Request(h, RemovalReply(t))) ==
            if t.AtRemote? then SweepOne(s, h, t) else With(s, h, Emptied(At(s, h)))
  {
    var x := At(s, h).(stage := Some(OrphanRemote));
    WithTwice(s, h, x, Emptied(At(s, h)));
    WithTwice(s, h, x, SweepSlot(At(s, h), t).(stage := None));
  }

  lemma OrphanRowStep(size: Lengths, s: State, h: Hash, t: Trouble)
    requires RefsTo(s.refs, h) == {} && (t == Calm || t == AtRow)
    ensures Next(size, With(s, h, Emptied(At(s, h))), Request(h, RowReply(t))) == SweepOne(s, h, t)
  {
    WithTwice(s, h, Emptied(At(s, h)), SweepSlot(At(s, h), t).(stage := None));
    assert s.refs - RefsTo(s.refs, h) == s.refs;
  }

  function Resolved(x: Slot): Slot {
    (if x.row == None then x.(stored := None) else x).(stage := Some(UploadForget))
  }

  lemma UploadCheckStep(size: Lengths, s: State, h: Hash, t: Trouble)
    requires At(s, h).stage == None && At(s, h).intent != None
    ensures Next(size, s, Lock(h, UploadCheck)) == Staged(s, h, UploadCheck)
    ensures Next(size, Staged(s, h, UploadCheck), Request(h, CheckReply(t))) ==
            if t.AtCheck? then ForgetOne(s, h, t)
            else if At(s, h).row == None then Staged(s, h, UploadRemote)
            else With(s, h, Resolved(At(s, h)))
  {
    var x := At(s, h);
    WithTwice(s, h, x.(stage := Some(UploadCheck)), x.(stage := Some(UploadRemote)));
    WithTwice(s, h, x.(stage := Some(UploadCheck)), Resolved(x));
    WithTwice(s, h, x.(stage := Some(UploadCheck)), x);
  }

  lemma UploadRemoteStep(size: Lengths, s: State, h: Hash, t: Trouble)
    requires At(s, h).row == None && !t.AtCheck?
    ensures Next(size, Staged(s, h, UploadRemote), Request(h, RemovalReply(t))) ==
            if t.AtRemote? then ForgetOne(s, h, t) else With(s, h, Resolved(At(s, h)))
  {
    var x := At(s, h);
    WithTwice(s, h, x.(stage := Some(UploadRemote)), Resolved(x));
    WithTwice(s, h, x.(stage := Some(UploadRemote)), ForgetSlot(x, t).(stage := None));
  }

  lemma UploadForgetStep(size: Lengths, s: State, h: Hash, t: Trouble)
    requires !t.AtCheck? && (At(s, h).row == None ==> !t.AtRemote?)
    ensures Next(size, With(s, h, Resolved(At(s, h))), Request(h, RowReply(t))) == ForgetOne(s, h, t)
  {
    WithTwice(s, h, Resolved(At(s, h)), ForgetSlot(At(s, h), t).(stage := None));
  }

  // ----- Delete, for one object -----

  /**
   Where `Delete` fails on one object, if anywhere: at the lock or the first read, at the count, at the
   marker, at the remote removal, which is then settled, or at the statement that drops the row or the refs.
   */
  datatype Fault = Sound | Unread | Uncounted | Unmarked | Unremoved(applied: bool, settling: Trouble) | Unwritten

  /** Whether the object was dealt with, given up, or made the whole call fail. */
  datatype DeleteEnd = Finished | GaveUp | Stopped

  /** `remove` says that the object itself is to go, and not only some of its refs. */
  function EndOf(remove: bool, f: Fault): DeleteEnd {
    match f
    case Sound => Finished
    case Unmarked => if remove then Stopped else Finished
    case Unremoved(_, _) => if remove then GaveUp else Finished
    case _ => Stopped
  }

  /** A marked object whose removal may or may not have been applied. */
  function Doubtful(x: Slot, applied: bool): Slot {
    x.(marked := true, stored := if applied then None else x.stored)
  }

  function DeleteSlot(x: Slot, remove: bool, f: Fault): Slot {
    if !remove then x
    else
      match f
      case Sound => CollectSlot(x)
      case Unremoved(applied, t) => SettleSlot(Doubtful(x, applied), t)
      case Unwritten => Doubtful(x, true)
      case _ => x
  }

  /** The selected refs go. */
  predicate DeleteDrops(x: Slot, remove: bool, f: Fault) {
    EndOf(remove, f).Finished? || (remove && f.Unremoved? && SettleDrops(Doubtful(x, f.applied), f.settling))
  }

  /** The refs in `keys` go, and the object with them when nothing else refers to it, as far as the fault allows. */
  function DeleteOne(s: State, h: Hash, keys: set<Key>, f: Fault): State {
    var x, remove := At(s, h), RefsTo(s.refs, h) <= keys;
    State(s.slots[h := DeleteSlot(x, remove, f).(stage := None)],
          if DeleteDrops(x, remove, f) then s.refs - keys else s.refs,
          s.messages)
  }

  function Answer(failed: bool): Reply {
    if failed then Failed else Done
  }

  function RemoteAnswer(f: Fault): Reply {
    match f
    case Unremoved(applied, _) => if applied then FailedButApplied else Failed
    case _ => Done
  }

  lemma DeleteCheckStep(size: Lengths, s: State, h: Hash, keys: set<Key>, f: Fault)
    requires At(s, h).stage == None && keys != {} && keys <= RefsTo(s.refs, h)
    ensures Next(size, s, Lock(h, DeleteCheck(keys))) == Staged(s, h, DeleteCheck(keys))
    ensures Next(size, Staged(s, h, DeleteCheck(keys)), Request(h, Answer(f.Unread?))) ==
            if f.Unread? then DeleteOne(s, h, keys, f) else Staged(s, h, DeleteCount(keys))
  {
    var x := At(s, h);
    WithTwice(s, h, x.(stage := Some(DeleteCheck(keys))), x.(stage := Some(DeleteCount(keys))));
    WithTwice(s, h, x.(stage := Some(DeleteCheck(keys))), x);
    assert keys * RefsTo(s.refs, h) == keys;
  }

  lemma DeleteCountStep(size: Lengths, s: State, h: Hash, keys: set<Key>, f: Fault)
    requires At(s, h).stage == None
    ensures Next(size, Staged(s, h, DeleteCount(keys)), Request(h, Answer(f.Uncounted?))) ==
            if f.Uncounted? then DeleteOne(s, h, keys, f)
            else if |RefsTo(s.refs, h)| == |keys| then Staged(s, h, DeleteMark)
            else Staged(s, h, DeleteDetach(keys))
  {
    var x := At(s, h);
    WithTwice(s, h, x.(stage := Some(DeleteCount(keys))), x.(stage := Some(DeleteMark)));
    WithTwice(s, h, x.(stage := Some(DeleteCount(keys))), x.(stage := Some(DeleteDetach(keys))));
    WithTwice(s, h, x.(stage := Some(DeleteCount(keys))), x);
  }

  function Condemned(x: Slot): Slot {
    x.(marked := true, stage := Some(DeleteRemote))
  }

  lemma DeleteMarkStep(size: Lengths, s: State, h: Hash, keys: set<Key>, f: Fault)
    requires At(s, h).row != None && At(s, h).stage == None && RefsTo(s.refs, h) <= keys
    ensures Next(size, Staged(s, h, DeleteMark), Request(h, Answer(f.Unmarked?))) ==
            if f.Unmarked? then DeleteOne(s, h, keys, f) else With(s, h, Condemned(At(s, h)))
  {
    var x := At(s, h);
    WithTwice(s, h, x.(stage := Some(DeleteMark)), Condemned(x));
    WithTwice(s, h, x.(stage := Some(DeleteMark)), x);
  }

  /** The object once the removal was answered. */
  function Answered(x: Slot, f: Fault): Slot {
    match f
    case Unremoved(applied, _) => Doubtful(x, applied).(stage := Some(SettleCheck(None)))
    case _ => Doubtful(x, true).(stage := Some(DeleteRow))
  }

  lemma DeleteRemoteStep(size: Lengths, s: State, h: Hash, f: Fault)
    ensures Next(size, With(s, h, Condemned(At(s, h))), Request(h, RemoteAnswer(f))) ==
            With(s, h, Answered(At(s, h), f))
  {
    WithTwice(s, h, Condemned(At(s, h)), Answered(At(s, h), f));
  }

  lemma DeleteSettles(s: State, h: Hash, keys: set<Key>, f: Fault)
    requires keys == RefsTo(s.refs, h) && f.Unremoved?
    ensures SettleOne(With(s, h, Answered(At(s, h), f)), h, f.settling) == DeleteOne(s, h, keys, f)
  {
    WithTwice(s, h, Answered(At(s, h), f), SettleSlot(Doubtful(At(s, h), f.applied), f.settling).(stage := None));
  }

  lemma DeleteRowStep(size: Lengths, s: State, h: Hash, keys: set<Key>, f: Fault)
    requires keys == RefsTo(s.refs, h) && (f == Sound || f == Unwritten)
    ensures Next(size, With(s, h, Answered(At(s, h), f)), Request(h, Answer(f.Unwritten?))) == DeleteOne(s, h, keys, f)
  {
    WithTwice(s, h, Answered(At(s, h), f), DeleteSlot(At(s, h), true, f).(stage := None));
  }

  lemma DeleteDetachStep(size: Lengths, s: State, h: Hash, keys: set<Key>, f: Fault)
    requires keys < RefsTo(s.refs, h) && !f.Unread? && !f.Uncounted?
    ensures Next(size, Staged(s, h, DeleteDetach(keys)), Request(h, Answer(f.Unwritten?))) == DeleteOne(s, h, keys, f)
  {
    var x := At(s, h);
    WithTwice(s, h, x.(stage := Some(DeleteDetach(keys))), x.(stage := None));
    assert keys * RefsTo(s.refs, h) == keys;
  }
}
