/** A compressed playback stream: what its calls do to its state and to the
    device's list of usecases.

    The stream's usecase is entered in the list when the path is enabled and
    removed when it is disabled.  Pausing disables the path, so that standby must
    not disable it again; the effects library's stop hook is where the code
    records that.  A flush and a standby give the stream lock up while the offload
    thread is in a call, so other calls may come between their two parts.  Step
    says what each part does, OffloadStream is the object whose methods do it, and
    the theorems say when list and state agree. */
module Offload {

  datatype PlayState = IDLE | PLAYING | PAUSED | PAUSED_FLUSHED

  const OFFLOAD: nat := 2  // USECASE_AUDIO_PLAYBACK_OFFLOAD

  /** `closing` is whether a standby sleeps, with the device lock, `flushing` how many flushes sleep.  `hasHook` is
      whether the effects library gives a stop hook.  `locked` is whether a call has returned with the stream lock still
      held, `inputsLocked` whether one has with the lock on the input streams. */
  datatype Stream = Stream(
    standby: bool, closing: bool, state: PlayState, open: bool, flushing: nat, usecases: seq<nat>, hasHook: bool,
    locked: bool, inputsLocked: bool)

  datatype OpenResult = Ready | NotReady | NoHandle

  datatype Status = Done | NoMemory | IoError | Invalid | NotSupported | Sleeps

  /** The calls, with what the allocator and the driver answer, and whether the thread is in a call; `mic` is whether a
      microphone capture is active.  A call that sleeps ends in a step of its own. */
  datatype Op =
    | Write(startOk: bool, result: OpenResult, pathOk: bool, mic: bool)
    | Pause
    | Resume(pathOk: bool)
    | Flush(blocked: bool)
    | FlushWakes
    | Standby(blocked: bool)
    | StandbyWakes

  // ----- the usecase list -----

  function Count(list: seq<nat>, id: nat): nat {
    if list == [] then 0 else (if list[0] == id then 1 else 0) + Count(list[1..], id)
  }

  /** The list without the first entry of `id`. */
  function WithoutFirst(list: seq<nat>, id: nat): seq<nat> {
    if list == [] then []
    else if list[0] == id then list[1..]
    else [list[0]] + WithoutFirst(list[1..], id)
  }

  /** The entries of other usecases, in order. */
  function Others(list: seq<nat>, id: nat): seq<nat> {
    if list == [] then []
    else if list[0] == id then Others(list[1..], id)
    else [list[0]] + Others(list[1..], id)
  }

  lemma {:induction false} AppendCounts(list: seq<nat>, id: nat)
    ensures Count(list + [id], id) == Count(list, id) + 1
    ensures Others(list + [id], id) == Others(list, id)
  {
    if list == [] {
    } else {
      assert (list + [id])[1..] == list[1..] + [id];
      AppendCounts(list[1..], id);
    }
  }

  lemma {:induction false} WithoutFirstCounts(list: seq<nat>, id: nat)
    ensures Count(WithoutFirst(list, id), id) == if Count(list, id) == 0 then 0 else Count(list, id) - 1
    ensures Others(WithoutFirst(list, id), id) == Others(list, id)
    ensures Count(list, id) == 0 ==> WithoutFirst(list, id) == list
  {
    if list == [] {
    } else if list[0] == id {
    } else {
      WithoutFirstCounts(list[1..], id);
      var w := WithoutFirst(list[1..], id);
      assert ([list[0]] + w)[1..] == w;
    }
  }

  // ----- the calls -----

  function EnablePath(s: Stream): Stream { s.(usecases := s.usecases + [OFFLOAD]) }

  function DisablePath(s: Stream): Stream { s.(usecases := WithoutFirst(s.usecases, OFFLOAD)) }

  /** With the hook, a paused stream's path is left alone and the state is reset; without it, neither. */
  function StopOutput(s: Stream): Stream {
    if s.hasHook then
      var t := s.(state := IDLE);
      if s.state in {PAUSED, PAUSED_FLUSHED} then t else DisablePath(t)
    else DisablePath(s)
  }

  function StartOutput(s: Stream, startOk: bool, result: OpenResult): (Stream, Status) {
    if !startOk then (s, NoMemory)
    else match result
      case NotReady => (StopOutput(EnablePath(s).(open := false)), IoError)
      case Ready => (EnablePath(s).(open := true), Done)
      case NoHandle => (EnablePath(s).(open := false), Done)
  }

  function WriteOffload(s: Stream, pathOk: bool): (Stream, Status) {
    if s.state == PAUSED_FLUSHED && !pathOk then (s.(locked := true), NoMemory)
    else ((if s.state == PAUSED_FLUSHED then EnablePath(s) else s).(state := PLAYING), Done)
  }

  /** The last part of standby: the handle is closed and the output stopped. */
  function EndStandby(s: Stream): Stream { StopOutput(s.(closing := false, open := false)) }

  function Step(s: Stream, op: Op): (Stream, Status) {
    match op
    case Write(startOk, result, pathOk, mic) =>
      if !s.standby then WriteOffload(s, pathOk)
      else
        var (t, status) := StartOutput(s, startOk, result);
        if status != Done then (t, status)
        else WriteOffload(t.(standby := false, inputsLocked := s.inputsLocked || mic), pathOk)
    case Pause =>
      if s.open && s.state == PLAYING then
        (DisablePath(s.(state := PAUSED)), if Count(s.usecases, OFFLOAD) == 0 then Invalid else Done)
      else (s, NotSupported)
    case Resume(pathOk) =>
      if s.open && s.state == PAUSED then ((if pathOk then EnablePath(s) else s).(state := PLAYING), Done)
      else (s, Done)
    case Flush(blocked) =>
      if s.state == PLAYING then (s, NotSupported)
      else if s.state != PAUSED then (s, Done)
      else if s.open && blocked then (s.(flushing := s.flushing + 1), Sleeps)
      else (s.(state := PAUSED_FLUSHED), Done)
    case FlushWakes =>
      if s.flushing == 0 then (s, Done) else (s.(state := PAUSED_FLUSHED, flushing := s.flushing - 1), Done)
    case Standby(blocked) =>
      if s.standby then (s, Done)
      else if s.open && blocked then (s.(standby := true, closing := true), Sleeps)
      else (EndStandby(s.(standby := true)), Done)
    case StandbyWakes => if s.closing then (EndStandby(s), Done) else (s, Done)
  }

  /** The call goes on to take the device lock. */
  predicate NeedsDevice(s: Stream, op: Op) {
    match op
    case Write(_, _, _, _) => s.standby || s.state == PAUSED_FLUSHED
    case Pause => s.open && s.state == PLAYING
    case Resume(_) => s.open && s.state == PAUSED
    case Standby(_) => !s.standby
    case _ => false
  }

  /** No lock that the call takes is kept from it: the stream lock, the device lock, which a standby keeps while it
      sleeps, and, for a write that starts the stream, the lock on the input streams. */
  predicate CanReturn(s: Stream, op: Op) {
    !s.locked && (NeedsDevice(s, op) ==> !s.closing) && (op.Write? && s.standby ==> !s.inputsLocked)
    && (op.FlushWakes? ==> s.flushing > 0) && (op.StandbyWakes? ==> s.closing)
  }

  // ----- when list and state agree -----

  /** Out of standby, or still on the way there. */
  predicate IsLive(s: Stream) { !s.standby || s.closing }

  predicate IsActive(s: Stream) { IsLive(s) && s.state in {IDLE, PLAYING} }

  predicate ListAgrees(s: Stream) { Count(s.usecases, OFFLOAD) == if IsActive(s) then 1 else 0 }

  /** In standby the handle is closed, unless a standby sleeps, and with the hook the state has been reset. */
  predicate Inv(s: Stream) {
    ListAgrees(s) && (s.closing ==> s.standby) && (s.standby ==> (s.open <==> s.closing))
    && (!IsLive(s) && s.hasHook ==> s.state == IDLE)
  }

  /** The steps that break the agreement: a write to a paused stream; a write that leaves standby with the state of a
      flushed pause; a resume that cannot enable the path; and a flush that wakes when the stream plays again, or is in
      standby with its state reset. */
  predicate Breaks(s: Stream, op: Op) {
    match op
    case Write(startOk, result, _, _) =>
      if s.standby then s.state == PAUSED_FLUSHED && startOk && result != NotReady else s.state == PAUSED
    case Resume(pathOk) => s.open && s.state == PAUSED && !pathOk
    case FlushWakes => IsActive(s) || (!IsLive(s) && s.hasHook)
    case _ => false
  }

  /** From a state where list and state agree, a step keeps them in agreement exactly when it is none of those. */
  lemma {:induction false} StepKeepsExactlyWhen(s: Stream, op: Op)
    requires Inv(s) && CanReturn(s, op)
    ensures Inv(Step(s, op).0) <==> !Breaks(s, op)
  {
    hide Count, Others, WithoutFirst;
    AppendCounts(s.usecases, OFFLOAD);
    WithoutFirstCounts(s.usecases, OFFLOAD);
    AppendCounts(s.usecases + [OFFLOAD], OFFLOAD);
    WithoutFirstCounts(s.usecases + [OFFLOAD], OFFLOAD);
  }

  lemma {:induction false} PathKeepsOthers(s: Stream)
    ensures Others(EnablePath(s).usecases, OFFLOAD) == Others(s.usecases, OFFLOAD)
    ensures Others(DisablePath(s).usecases, OFFLOAD) == Others(s.usecases, OFFLOAD)
    ensures Others(StopOutput(s).usecases, OFFLOAD) == Others(s.usecases, OFFLOAD)
  {
    AppendCounts(s.usecases, OFFLOAD);
    WithoutFirstCounts(s.usecases, OFFLOAD);
    hide Count, Others, WithoutFirst;
  }

  lemma {:induction false} StartKeepsOthers(s: Stream, startOk: bool, result: OpenResult)
    ensures Others(StartOutput(s, startOk, result).0.usecases, OFFLOAD) == Others(s.usecases, OFFLOAD)
  {
    PathKeepsOthers(s);
    var t := EnablePath(s).(open := false);
    PathKeepsOthers(t);
    hide Others, StopOutput;
  }

  lemma {:induction false} WriteKeepsOthers(s: Stream, pathOk: bool)
    ensures Others(WriteOffload(s, pathOk).0.usecases, OFFLOAD) == Others(s.usecases, OFFLOAD)
  {
    PathKeepsOthers(s);
    hide Others;
  }

  /** No call touches the entries of other usecases. */
  lemma {:induction false} StepKeepsOthers(s: Stream, op: Op)
    ensures Others(Step(s, op).0.usecases, OFFLOAD) == Others(s.usecases, OFFLOAD)
  {
    hide Count, Others, StartOutput, WriteOffload, StopOutput, WithoutFirst;
    match op
    case Write(startOk, result, pathOk, mic) =>
      WriteKeepsOthers(s, pathOk);
      StartKeepsOthers(s, startOk, result);
      var t := StartOutput(s, startOk, result).0;
      WriteKeepsOthers(t.(standby := false, inputsLocked := s.inputsLocked || mic), pathOk);
    case Pause =>
      PathKeepsOthers(s.(state := PAUSED));
    case Resume(_) =>
      PathKeepsOthers(s);
    case Standby(_) =>
      PathKeepsOthers(s.(standby := true, closing := false, open := false));
    case StandbyWakes =>
      PathKeepsOthers(s.(closing := false, open := false));
    case _ =>
  }

  // ----- overtaken flushes -----

  /** While a flush sleeps, the stream is live and paused. */
  predicate FlushIsAlone(s: Stream) { s.flushing > 0 ==> IsLive(s) && s.state in {PAUSED, PAUSED_FLUSHED} }

  /** The calls that a sleeping flush must not be overtaken by: a write or a resume that takes effect, and the end of a
      standby. */
  predicate Overtakes(s: Stream, op: Op) {
    s.flushing > 0
    && match op
       case Write(_, _, pathOk, _) => s.state == PAUSED || pathOk
       case Resume(_) => s.open && s.state == PAUSED
       case Standby(blocked) => !s.standby && !(s.open && blocked)
       case StandbyWakes => true
       case _ => false
  }

  /** They are exactly what puts a sleeping flush where its waking breaks the agreement. */
  lemma {:induction false} OvertakenExactlyWhen(s: Stream, op: Op)
    requires Inv(s) && FlushIsAlone(s) && CanReturn(s, op)
    ensures FlushIsAlone(Step(s, op).0) <==> !Overtakes(s, op)
    ensures op.FlushWakes? ==> !Breaks(s, op)
  {
    hide Count, WithoutFirst;
  }

  // ----- locks that are kept -----

  /** A call returns with the stream lock held exactly when it writes with the state of a flushed pause and the path
      cannot be enabled: to a stream that is out of standby, or to one that leaves standby in that write.  Out of
      standby that write does nothing else; from standby it has entered the usecase. */
  lemma {:induction false} LockIsKeptExactlyWhen(s: Stream, op: Op)
    requires CanReturn(s, op)
    ensures Step(s, op).0.locked
            <==> op.Write? && !op.pathOk && s.state == PAUSED_FLUSHED
                 && (s.standby ==> op.startOk && op.result != NotReady)
    ensures Step(s, op).0.locked && !s.standby ==> Step(s, op) == (s.(locked := true), NoMemory)
    ensures Step(s, op).0.locked && s.standby ==>
              Step(s, op) == (s.(locked := true, standby := false, open := op.result == Ready,
                                 inputsLocked := op.mic, usecases := s.usecases + [OFFLOAD]), NoMemory)
  {
    StopKeepsLock(s.(standby := true, closing := false, open := false));
    StopKeepsLock(s.(closing := false, open := false));
    StopKeepsLock(EnablePath(s).(open := false));
    hide StopOutput, Count, Others, WithoutFirst;
  }

  lemma {:induction false} StopKeepsLock(s: Stream)
    ensures StopOutput(s).locked == s.locked
  {}

  /** A call returns with the lock on the input streams held exactly when it is a write that starts the stream while a
      microphone capture is active. */
  lemma {:induction false} InputsLockIsKeptExactlyWhen(s: Stream, op: Op)
    requires CanReturn(s, op) && !s.inputsLocked
    ensures Step(s, op).0.inputsLocked <==> op.Write? && s.standby && op.startOk && op.result != NotReady && op.mic
  {}

  // ----- runs -----

  function After(s: Stream, ops: seq<Op>): Stream
    decreases |ops|
  {
    if ops == [] then s else After(Step(s, ops[0]).0, ops[1..])
  }

  predicate PathsWork(op: Op) {
    match op
    case Write(_, _, pathOk, _) => pathOk
    case Resume(pathOk) => pathOk
    case _ => true
  }

  /** The step can be made, the caller does not write to a paused stream, enabling the path of a stream that is out of
      standby succeeds, and no sleeping flush is overtaken. */
  predicate IsWell(s: Stream, op: Op) {
    CanReturn(s, op) && PathsWork(op) && !(op.Write? && !s.standby && s.state == PAUSED) && !Overtakes(s, op)
  }

  predicate IsUsedWell(s: Stream, ops: seq<Op>)
    decreases |ops|
  {
    ops == [] || (IsWell(s, ops[0]) && IsUsedWell(Step(s, ops[0]).0, ops[1..]))
  }

  function NewStream(others: seq<nat>): Stream { Stream(true, false, IDLE, false, 0, others, true, false, false) }

  lemma {:induction false} StepIsWell(s: Stream, op: Op)
    requires Inv(s) && FlushIsAlone(s) && s.hasHook && IsWell(s, op)
    ensures var t := Step(s, op).0; Inv(t) && FlushIsAlone(t) && t.hasHook && !t.locked
  {
    StepKeepsExactlyWhen(s, op);
    OvertakenExactlyWhen(s, op);
    LockIsKeptExactlyWhen(s, op);
    hide Count, WithoutFirst, ListAgrees;
  }

  lemma {:induction false} RunKeeps(s: Stream, ops: seq<Op>)
    requires Inv(s) && FlushIsAlone(s) && s.hasHook && !s.locked && IsUsedWell(s, ops)
    ensures Inv(After(s, ops)) && After(s, ops).hasHook && !After(s, ops).locked
    ensures Others(After(s, ops).usecases, OFFLOAD) == Others(s.usecases, OFFLOAD)
    decreases |ops|
  {
    if ops == [] {
    } else {
      StepIsWell(s, ops[0]);
      StepKeepsOthers(s, ops[0]);
      hide Step, Inv, FlushIsAlone, IsWell, Others;
      RunKeeps(Step(s, ops[0]).0, ops[1..]);
    }
  }

  /** With the hook, after any calls, also calls that others overtake while they sleep, the stream's usecase is in the
      list exactly when the stream is live and idle or playing, and then once; the other entries are those it started
      with, in order. */
  lemma {:induction false} ListedExactlyWhenActive(others: seq<nat>, ops: seq<Op>)
    requires OFFLOAD !in others && IsUsedWell(NewStream(others), ops)
    ensures var s := After(NewStream(others), ops);
            Count(s.usecases, OFFLOAD) == (if (!s.standby || s.closing) && s.state in {IDLE, PLAYING} then 1 else 0)
            && Others(s.usecases, OFFLOAD) == others
            && (OFFLOAD in s.usecases <==> IsActive(s))
  {
    NotListed(others);
    RunKeeps(NewStream(others), ops);
    ListedCounts(After(NewStream(others), ops).usecases);
  }

  lemma {:induction false} NotListed(list: seq<nat>)
    requires OFFLOAD !in list
    ensures Count(list, OFFLOAD) == 0 && Others(list, OFFLOAD) == list
  {
    if list == [] {
    } else {
      NotListed(list[1..]);
    }
  }

  lemma {:induction false} ListedCounts(list: seq<nat>)
    ensures OFFLOAD in list <==> Count(list, OFFLOAD) > 0
  {
    if list == [] {
    } else {
      ListedCounts(list[1..]);
    }
  }

  // ----- the player that the client sees -----

  datatype Play = Playing | Paused | Flushed

  /** Off, or on with or without a handle of the driver. */
  datatype Player = Off | On(hasHandle: bool, play: Play)

  /** The calls, one at a time, as the client knows them. */
  function PlayerStep(p: Player, op: Op): (Player, Status) {
    match p
    case Off =>
      (match op
       case Write(startOk, result, _, _) =>
         if !startOk then (Off, NoMemory)
         else if result == NotReady then (Off, IoError)
         else (On(result == Ready, Playing), Done)
       case Pause => (Off, NotSupported)
       case _ => (Off, Done))
    case On(h, Playing) =>
      (match op
       case Write(_, _, _, _) => (On(h, Playing), Done)
       case Pause => if h then (On(h, Paused), Done) else (On(h, Playing), NotSupported)
       case Flush(_) => (On(h, Playing), NotSupported)
       case Standby(_) => (Off, Done)
       case _ => (On(h, Playing), Done))
    case On(h, Paused) =>
      (match op
       case Write(_, _, _, _) => (On(h, Playing), Done)
       case Pause => (On(h, Paused), NotSupported)
       case Resume(_) => (On(h, Playing), Done)
       case Flush(_) => (On(h, Flushed), Done)
       case Standby(_) => (Off, Done)
       case _ => (On(h, Paused), Done))
    case On(h, Flushed) =>
      (match op
       case Write(_, _, pathOk, _) => if pathOk then (On(h, Playing), Done) else (On(h, Flushed), NoMemory)
       case Pause => (On(h, Flushed), NotSupported)
       case Standby(_) => (Off, Done)
       case _ => (On(h, Flushed), Done))
  }

  /** The stream is what the client sees; paused it has a handle. */
  predicate IsSeenAs(s: Stream, p: Player) {
    s.hasHook && !s.closing
    && match p
       case Off => s.standby && !s.open && s.state == IDLE
       case On(h, play) =>
         !s.standby && s.open == h
         && s.state == (match play case Playing => PLAYING case Paused => PAUSED case Flushed => PAUSED_FLUSHED)
         && (play != Playing ==> h)
  }

  /** A call that finds the thread in none, and nobody asleep. */
  predicate IsPlain(op: Op) {
    match op
    case Flush(blocked) => !blocked
    case Standby(blocked) => !blocked
    case FlushWakes => false
    case StandbyWakes => false
    case _ => true
  }

  /** With the hook, the calls do to the stream, and return, what the player says, whether or not the usecase is listed;
      only a pause looks at the list. */
  lemma {:induction false} StepRefinesPlayer(s: Stream, p: Player, op: Op)
    requires IsSeenAs(s, p) && IsPlain(op)
    ensures var (t, status) := Step(s, op);
            IsSeenAs(t, PlayerStep(p, op).0)
            && status == if op.Pause? && PlayerStep(p, op).1 == Done && OFFLOAD !in s.usecases then Invalid
                         else PlayerStep(p, op).1
  {
    ListedCounts(s.usecases);
    hide Count, WithoutFirst;
    if op.Write? {
      WriteRefinesPlayer(s, p, op);
      hide Step, IsSeenAs, PlayerStep;
    }
  }

  lemma {:induction false} WriteRefinesPlayer(s: Stream, p: Player, op: Op)
    requires IsSeenAs(s, p) && op.Write?
    ensures var (t, status) := Step(s, op);
            IsSeenAs(t, PlayerStep(p, op).0) && status == PlayerStep(p, op).1
  {
    hide Count, WithoutFirst;
  }

  function PlayerAfter(p: Player, ops: seq<Op>): Player
    decreases |ops|
  {
    if ops == [] then p else PlayerAfter(PlayerStep(p, ops[0]).0, ops[1..])
  }

  /** Over any sequence of such calls, from a new stream on, the stream is what the player has become. */
  lemma {:induction false} RunRefinesPlayer(others: seq<nat>, ops: seq<Op>)
    requires forall i :: 0 <= i < |ops| ==> IsPlain(ops[i])
    ensures IsSeenAs(After(NewStream(others), ops), PlayerAfter(Off, ops))
  {
    RunRefinesFrom(NewStream(others), Off, ops);
  }

  lemma {:induction false} RunRefinesFrom(s: Stream, p: Player, ops: seq<Op>)
    requires IsSeenAs(s, p) && forall i :: 0 <= i < |ops| ==> IsPlain(ops[i])
    ensures IsSeenAs(After(s, ops), PlayerAfter(p, ops))
    decreases |ops|
  {
    if ops != [] {
      StepRefinesPlayer(s, p, ops[0]);
      hide Step, IsSeenAs, PlayerStep, IsPlain;
      RunRefinesFrom(Step(s, ops[0]).0, PlayerStep(p, ops[0]).0, ops[1..]);
    }
  }

  /** A flush sleeps exactly when it is for a paused stream with a handle and the thread is in a call, a standby when it
      is for a stream with a handle; with nothing in between, sleeping and waking do what the call does at once. */
  lemma {:induction false} SleepThenWake(s: Stream)
    requires s.flushing == 0 && !s.closing
    ensures Step(s, Flush(true)).1 == Sleeps <==> s.open && s.state == PAUSED
    ensures Step(s, Flush(true)).1 == Sleeps ==>
              Step(Step(s, Flush(true)).0, FlushWakes) == Step(s, Flush(false)) == (s.(state := PAUSED_FLUSHED), Done)
    ensures Step(s, Standby(true)).1 == Sleeps <==> s.open && !s.standby
    ensures Step(s, Standby(true)).1 == Sleeps ==>
              Step(Step(s, Standby(true)).0, StandbyWakes) == Step(s, Standby(false))
              && Step(s, Standby(false)).0.standby && !Step(s, Standby(false)).0.open
  {
    hide Count, WithoutFirst;
  }

  // ----- each failure is reached -----

  const START: Op := Write(true, Ready, true, false)

  function Played(): Stream { Stream(false, false, PLAYING, true, 0, [OFFLOAD], true, false, false) }

  function Halted(): Stream { Stream(false, false, PAUSED, true, 0, [], true, false, false) }

  lemma {:induction false} AfterBoth(s: Stream, first: seq<Op>, second: seq<Op>)
    ensures After(s, first + second) == After(After(s, first), second)
    decreases |first|
  {
    if first == [] {
      assert first + second == second;
    } else {
      assert (first + second)[1..] == first[1..] + second;
      AfterBoth(Step(s, first[0]).0, first[1..], second);
    }
  }

  /** A run of calls in which each step leads from one state to the next. */
  predicate Leads(states: seq<Stream>, ops: seq<Op>) {
    |states| == |ops| + 1
    && forall k :: 0 <= k < |ops| ==> CanReturn(states[k], ops[k]) && Step(states[k], ops[k]).0 == states[k + 1]
  }

  lemma {:induction false} LeadsAfter(states: seq<Stream>, ops: seq<Op>)
    requires Leads(states, ops)
    ensures After(states[0], ops) == states[|ops|]
    decreases |ops|
  {
    if ops == [] {
    } else {
      assert Step(states[0], ops[0]).0 == states[1];
      assert Leads(states[1..], ops[1..]) by {
        forall k | 0 <= k < |ops| - 1
          ensures CanReturn(states[1..][k], ops[1..][k]) && Step(states[1..][k], ops[1..][k]).0 == states[1..][k + 1]
        {
          assert states[1..][k] == states[k + 1] && ops[1..][k] == ops[k + 1];
        }
      }
      LeadsAfter(states[1..], ops[1..]);
    }
  }

  /** With the hook and no overlap: a write to a paused stream, and a resume whose path fails, play without an entry; a
      write after a flush whose path fails keeps the stream lock. */
  lemma {:induction false} FailuresAreReached()
    ensures After(NewStream([]), [START, Pause]) == Halted()
    ensures Step(Halted(), START).0 == Halted().(state := PLAYING)
    ensures Step(Halted(), Resume(false)).0 == Halted().(state := PLAYING)
    ensures var s := After(NewStream([]), [START, Pause, Flush(false)]);
            s == Halted().(state := PAUSED_FLUSHED) && Step(s, Write(true, Ready, false, false)).0 == s.(locked := true)
  {
    LeadsAfter([NewStream([]), Played(), Halted()], [START, Pause]);
    LeadsAfter([NewStream([]), Played(), Halted(), Halted().(state := PAUSED_FLUSHED)], [START, Pause, Flush(false)]);
  }

  lemma {:induction false} FlushSleeps()
    ensures After(NewStream([]), [START, Pause, Flush(true)]) == Halted().(flushing := 1)
  {
    LeadsAfter([NewStream([]), Played(), Halted(), Halted().(flushing := 1)], [START, Pause, Flush(true)]);
  }

  /** A flush that sleeps is overtaken by a resume: the stream plays, the flush wakes, and the next write enters the
      usecase a second time. */
  lemma {:induction false} ResumeOvertakesFlush()
    ensures After(NewStream([]), [START, Pause, Flush(true)] + [Resume(true), FlushWakes, START]).usecases
            == [OFFLOAD, OFFLOAD]
  {
    FlushSleeps();
    AfterBoth(NewStream([]), [START, Pause, Flush(true)], [Resume(true), FlushWakes, START]);
    hide After, Step;
    FlushOvertaken();
  }

  lemma {:induction false} FlushOvertaken()
    ensures After(Halted().(flushing := 1), [Resume(true), FlushWakes, START])
            == Played().(usecases := [OFFLOAD, OFFLOAD])
  {
    var states := [Halted().(flushing := 1), Played().(flushing := 1), Played().(state := PAUSED_FLUSHED),
                   Played().(usecases := [OFFLOAD, OFFLOAD])];
    assert Step(states[0], Resume(true)).0 == states[1];
    assert Step(states[2], START).0 == states[3];
    hide After;
    LeadsAfter(states, [Resume(true), FlushWakes, START]);
  }

  /** It is overtaken by a standby, which has reset the state: the write that leaves standby enters the usecase
      twice. */
  lemma {:induction false} StandbyOvertakesFlush()
    ensures After(NewStream([]),
                  [START, Pause, Flush(true)] + [Standby(true), StandbyWakes, FlushWakes, START]).usecases
            == [OFFLOAD, OFFLOAD]
  {
    FlushSleeps();
    AfterBoth(NewStream([]), [START, Pause, Flush(true)], [Standby(true), StandbyWakes, FlushWakes, START]);
    assert ([] + [OFFLOAD]) + [OFFLOAD] == [OFFLOAD, OFFLOAD];
    hide After;
    LeadsAfter([Halted().(flushing := 1), Halted().(flushing := 1, standby := true, closing := true),
                NewStream([]).(flushing := 1), NewStream([]).(state := PAUSED_FLUSHED),
                Played().(usecases := [OFFLOAD, OFFLOAD])],
               [Standby(true), StandbyWakes, FlushWakes, START]);
  }

  /** Without the hook no overlap is needed: standby leaves the state of a flushed pause, and the write that leaves
      standby enters the usecase twice, or keeps the stream lock if the second time fails. */
  lemma {:induction false} ListedTwiceWithoutHook()
    ensures var s := After(NewStream([]).(hasHook := false), [START, Pause, Flush(false), Standby(false)]);
            s == NewStream([]).(hasHook := false, state := PAUSED_FLUSHED)
            && Step(s, START).0.usecases == [OFFLOAD, OFFLOAD]
            && Step(s, Write(true, Ready, false, false)).0
               == Stream(false, false, PAUSED_FLUSHED, true, 0, [OFFLOAD], false, true, false)
  {
    var flushed := Halted().(hasHook := false, state := PAUSED_FLUSHED);
    var s := NewStream([]).(hasHook := false, state := PAUSED_FLUSHED);
    assert ([] + [OFFLOAD]) + [OFFLOAD] == [OFFLOAD, OFFLOAD];
    LeadsAfter([NewStream([]).(hasHook := false), Played().(hasHook := false), Halted().(hasHook := false), flushed,
                s],
               [START, Pause, Flush(false), Standby(false)]);
  }

  /** A write that starts the stream while a microphone capture is active keeps the lock on the input streams, and the
      next start of the stream does not return. */
  lemma {:induction false} InputsLockStops(op: Op)
    requires op.Write?
    ensures var s := After(NewStream([]), [START.(mic := true), Standby(false)]);
            s.standby && s.inputsLocked && !CanReturn(s, op)
  {
    var playing := Played().(inputsLocked := true);
    LeadsAfter([NewStream([]), playing, NewStream([]).(inputsLocked := true)], [START.(mic := true), Standby(false)]);
  }

  // ----- the object -----

  /** The device's list of usecases, by id; `OffloadRouting` ties it to the routes. */
  class UsecaseList {
    var usecaseList: seq<nat>
    const hasHook: bool

    constructor (hasHook: bool)
      ensures usecaseList == [] && this.hasHook == hasHook
    {
      usecaseList := [];
      this.hasHook := hasHook;
    }

    /** Removes the first entry of `id`, if there is one. */
    method RemoveUsecase(id: nat) returns (found: bool)
      modifies this
      ensures found <==> Count(old(usecaseList), id) > 0
      ensures usecaseList == WithoutFirst(old(usecaseList), id)
    {
      var i := 0;
      while i < |usecaseList| && usecaseList[i] != id
        invariant i <= |usecaseList| && forall j :: 0 <= j < i ==> usecaseList[j] != id
      {
        i := i + 1;
      }
      FirstEntry(usecaseList, id, i);
      found := i < |usecaseList|;
      if found {
        usecaseList := usecaseList[..i] + usecaseList[i + 1..];
      }
    }
  }

  /** The first entry of an id, found from the front. */
  lemma {:induction false} FirstEntry(list: seq<nat>, id: nat, i: nat)
    requires i <= |list| && (forall j :: 0 <= j < i ==> list[j] != id) && (i < |list| ==> list[i] == id)
    ensures Count(list, id) > 0 <==> i < |list|
    ensures WithoutFirst(list, id) == if i < |list| then list[..i] + list[i + 1..] else list
    decreases i
  {
    if i > 0 {
      var rest := list[1..];
      FirstEntry(rest, id, i - 1);
      assert WithoutFirst(list, id) == [list[0]] + WithoutFirst(rest, id);
      hide WithoutFirst, Count;
      assert [list[0]] + rest == list;
      if i < |list| {
        assert rest[i..] == list[i + 1..];
        assert [list[0]] + rest[..i - 1] == list[..i];
        assert [list[0]] + (rest[..i - 1] + rest[i..]) == ([list[0]] + rest[..i - 1]) + rest[i..];
      }
    }
  }

  class OffloadStream {
    var standby: bool
    var closing: bool
    var offloadState: PlayState
    var open: bool
    var flushing: nat
    var locked: bool
    var inputsLocked: bool
    const dev: UsecaseList

    constructor (dev: UsecaseList)
      ensures this.dev == dev
      ensures View() == Stream(true, false, IDLE, false, 0, dev.usecaseList, dev.hasHook, false, false)
    {
      standby, closing, offloadState, open, flushing := true, false, IDLE, false, 0;
      locked, inputsLocked := false, false;
      this.dev := dev;
    }

    ghost function View(): Stream
      reads this, dev
    {
      Stream(standby, closing, offloadState, open, flushing, dev.usecaseList, dev.hasHook, locked, inputsLocked)
    }

    method EnableOutputPath(memory: bool) returns (ok: bool)
      modifies dev
      ensures ok == memory && View() == if ok then EnablePath(old(View())) else old(View())
    {
      ok := memory;
      if ok {
        dev.usecaseList := dev.usecaseList + [OFFLOAD];
      }
    }

    method DisableOutputPath() returns (status: Status)
      modifies dev
      ensures View() == DisablePath(old(View()))
      ensures status == if Count(old(dev.usecaseList), OFFLOAD) == 0 then Invalid else Done
    {
      var found := dev.RemoveUsecase(OFFLOAD);
      status := if found then Done else Invalid;
    }

    method StopOutputStream()
      modifies this, dev
      ensures View() == StopOutput(old(View()))
    {
      var disable := true;
      if dev.hasHook {
        if offloadState == PAUSED || offloadState == PAUSED_FLUSHED {
          disable := false;
        }
        offloadState := IDLE;
      }
      if disable {
        var _ := DisableOutputPath();
      }
    }

    method StartOutputStream(startOk: bool, result: OpenResult) returns (status: Status)
      modifies this, dev
      ensures (View(), status) == StartOutput(old(View()), startOk, result)
    {
      var ok := EnableOutputPath(startOk);
      if !ok {
        return NoMemory;
      }
      open := result == Ready;
      if result == NotReady {
        StopOutputStream();
        return IoError;
      }
      return Done;
    }

    method WriteData(pathOk: bool) returns (status: Status)
      modifies this, dev
      ensures (View(), status) == WriteOffload(old(View()), pathOk)
    {
      if offloadState == PAUSED_FLUSHED {
        var ok := EnableOutputPath(pathOk);
        if !ok {
          locked := true;
          return NoMemory;
        }
      }
      if offloadState != PLAYING {
        offloadState := PLAYING;
      }
      return Done;
    }

    method OutWrite(startOk: bool, result: OpenResult, pathOk: bool, mic: bool) returns (status: Status)
      requires CanReturn(View(), Write(startOk, result, pathOk, mic))
      modifies this, dev
      ensures (View(), status) == Step(old(View()), Write(startOk, result, pathOk, mic))
    {
      if standby {
        inputsLocked := true;
        status := StartOutputStream(startOk, result);
        if status != Done {
          inputsLocked := false;
          return;
        }
        standby := false;
        if !mic {
          inputsLocked := false;
        }
      }
      status := WriteData(pathOk);
    }

    method OutPause() returns (status: Status)
      requires CanReturn(View(), Pause)
      modifies this, dev
      ensures (View(), status) == Step(old(View()), Pause)
    {
      status := NotSupported;
      if open && offloadState == PLAYING {
        offloadState := PAUSED;
        status := DisableOutputPath();
      }
    }

    method OutResume(pathOk: bool) returns (status: Status)
      requires CanReturn(View(), Resume(pathOk))
      modifies this, dev
      ensures (View(), status) == Step(old(View()), Resume(pathOk))
    {
      status := Done;
      if open && offloadState == PAUSED {
        var _ := EnableOutputPath(pathOk);
        offloadState := PLAYING;
      }
    }

    /** Up to the end, or to the wait for the thread. */
    method OutFlush(blocked: bool) returns (status: Status)
      requires CanReturn(View(), Flush(blocked))
      modifies this
      ensures (View(), status) == Step(old(View()), Flush(blocked))
    {
      if offloadState == PLAYING {
        return NotSupported;
      }
      if offloadState == PAUSED {
        if open && blocked {
          flushing := flushing + 1;
          return Sleeps;
        }
        offloadState := PAUSED_FLUSHED;
      }
      return Done;
    }

    /** From the end of the wait on. */
    method FlushWakesUp() returns (status: Status)
      requires CanReturn(View(), FlushWakes)
      modifies this
      ensures (View(), status) == Step(old(View()), FlushWakes)
    {
      flushing := flushing - 1;
      offloadState := PAUSED_FLUSHED;
      return Done;
    }

    /** Up to the end, or to the wait for the thread. */
    method OutStandby(blocked: bool) returns (status: Status)
      requires CanReturn(View(), Standby(blocked))
      modifies this, dev
      ensures (View(), status) == Step(old(View()), Standby(blocked))
    {
      if standby {
        return Done;
      }
      standby := true;
      if open && blocked {
        closing := true;
        return Sleeps;
      }
      CloseAndStop();
      return Done;
    }

    method StandbyWakesUp() returns (status: Status)
      requires CanReturn(View(), StandbyWakes)
      modifies this, dev
      ensures (View(), status) == Step(old(View()), StandbyWakes)
    {
      CloseAndStop();
      return Done;
    }

    method CloseAndStop()
      modifies this, dev
      ensures View() == EndStandby(old(View()))
    {
      closing := false;
      open := false;
      StopOutputStream();
    }
  }
}
