/** The compress offload thread and its clients, as interleaved steps.

    Every step is what one party does between two points at which another may
    run: a lock is taken, released, or given up inside a condition wait, or the
    thread reads the handle without the lock.  A client that stops the stream
    gives the stream lock up while `offload_thread_blocked` is set, and keeps the
    device lock if it is on its way to standby.  A signal of the thread reaches one
    of the clients that sleep; any condition wait may also end by itself, and the
    flag is tested again after it. */
module OffloadThread {
  import opened Bits

  type Handle = nat

  datatype Command = Exit | Wait | Drain | PartialDrain

  datatype DriverCall = CompressWait | CompressNextTrack | CompressPartialDrain | CompressDrain

  function CallsOf(cmd: Command): seq<DriverCall> {
    match cmd
    case Exit => []
    case Wait => [CompressWait]
    case PartialDrain => [CompressNextTrack, CompressPartialDrain]
    case Drain => [CompressDrain]
  }

  /** Where the thread is; `calls` are the blocking calls still to be made for a command. */
  datatype ThreadPc =
    | Starting                                    // about to take the lock for the first time
    | AtTop                                       // at the head of its loop, holding the lock
    | Sleeping                                    // waiting for a command
    | Unlocked(cmd: Command, calls: seq<DriverCall>)  // about to read the handle and call
    | InCall(handle: Option<Handle>, cmd: Command, calls: seq<DriverCall>)  // inside a blocking call
    | Returned(cmd: Command)                      // about to take the lock again, and to tell the client
    | Exited

  /** What a client takes the stream lock for.  `ForPath` is a pause, resume, write after a flush or change of
      routing that goes on to take the device lock; `ForCommand` is a write or drain that does not. */
  datatype Request = ForStandby | ForFlush | ForWrite | ForPath | ForCommand

  /** Where a client is; `closing` tells standby from flush. */
  datatype ClientPc =
    | Idle
    | Locked(request: Request)    // holds the stream lock
    | InDevice(request: Request)  // holds the device lock as well
    | StopCheck(closing: bool)    // at the test of the wait loop
    | StopWaiting(closing: bool, woken: bool)  // inside the condition wait, asleep or about to take the lock again
    | Closing                     // about to close the handle
    | Closed                      // closed, the field still set
    | StandbyEnd

  datatype Owner = Free | Thread | Client(c: nat)

  datatype State = State(
    lock: Owner, device: Option<nat>,
    cmds: seq<Command>, compr: Option<Handle>, blocked: bool, standby: bool,
    thread: ThreadPc, clients: seq<ClientPc>,
    open: set<Handle>, next: Handle)  // the driver's open handles, and the next one it gives out

  datatype OpenResult = Ready | NotReady | NoHandle

  datatype Action =
    | Lock(c: nat, request: Request)
    | Leave(c: nat)                   // releases what it holds
    | ReleaseDevice(c: nat)           // done with the path
    | Send(c: nat, cmd: Command)
    | TakeDevice(c: nat)
    | SkipOpen(c: nat)                // a write that finds the stream out of standby
    | Open(c: nat, result: OpenResult)
    | BeginStandby(c: nat)
    | BeginFlush(c: nat)
    | Check(c: nat)                   // tests offload_thread_blocked
    | Wake(c: nat)
    | Spurious(c: nat)                // the wait ends without a signal
    | CloseHandle(c: nat)
    | ForgetHandle(c: nat)
    | ThreadLock(signalled: nat)
    | ThreadTop(signalled: nat)
    | ThreadCall
    | ThreadReturn
    | ThreadSpurious

  predicate HoldsLock(p: ClientPc) { !p.Idle? && !p.StopWaiting? }

  predicate HoldsDevice(p: ClientPc) {
    p.InDevice? || ((p.StopCheck? || p.StopWaiting?) && p.closing) || p.Closing? || p.Closed? || p.StandbyEnd?
  }

  function Initial(clients: nat): State {
    State(Free, None, [], None, false, true, Starting, seq(clients, _ => Idle), {}, 0)
  }

  /** A client at its stream lock must take the device lock next. */
  predicate NeedsDevice(s: State, p: ClientPc) {
    p == Locked(ForPath) || (p == Locked(ForStandby) && !s.standby) || (p == Locked(ForWrite) && s.standby)
  }

  predicate IsAsleep(p: ClientPc) { p.StopWaiting? && !p.woken }

  /** A signal reaches a client that is asleep, if there is one. */
  predicate CanSignal(clients: seq<ClientPc>, c: nat) {
    (exists d :: 0 <= d < |clients| && IsAsleep(clients[d])) ==> c < |clients| && IsAsleep(clients[c])
  }

  function Signal(clients: seq<ClientPc>, c: nat): (r: seq<ClientPc>)
    ensures |r| == |clients|
  {
    if c < |clients| && IsAsleep(clients[c]) then clients[c := clients[c].(woken := true)] else clients
  }

  predicate IsThreads(a: Action) {
    a.ThreadLock? || a.ThreadTop? || a.ThreadCall? || a.ThreadReturn? || a.ThreadSpurious?
  }

  predicate ClientCan(s: State, a: Action)
    requires !IsThreads(a)
  {
    a.c < |s.clients|
    && var p := s.clients[a.c];
    match a
    case Lock(_, _) => p == Idle && s.lock == Free
    case Leave(_) =>
      p in {Locked(ForCommand), Locked(ForFlush), StandbyEnd}
      || (p == Locked(ForStandby) && s.standby)
    case ReleaseDevice(_) => p == InDevice(ForPath)
    case Send(_, _) => p == Locked(ForCommand)
    case TakeDevice(_) => NeedsDevice(s, p) && s.device == None
    case SkipOpen(_) => p == Locked(ForWrite) && !s.standby
    case Open(_, _) => p == InDevice(ForWrite)
    case BeginStandby(_) => p in {InDevice(ForStandby), InDevice(ForPath)} && !s.standby
    case BeginFlush(_) => p == Locked(ForFlush) && s.compr.Some?
    case Check(_) => p.StopCheck?
    case Wake(_) => p.StopWaiting? && p.woken && s.lock == Free
    case Spurious(_) => IsAsleep(p)
    case CloseHandle(_) => p == Closing
    case ForgetHandle(_) => p == Closed
  }

  predicate Enabled(s: State, a: Action) {
    match a
    case ThreadLock(c) =>
      s.lock == Free
      && (s.thread == Starting || (s.thread == Sleeping && s.cmds != [])
          || (s.thread.Returned? && CanSignal(s.clients, c)))
    case ThreadTop(c) => s.thread == AtTop && (TopSignals(s) ==> CanSignal(s.clients, c))
    case ThreadCall => s.thread.Unlocked? && s.thread.calls != []
    case ThreadReturn => s.thread.InCall?
    case ThreadSpurious => s.thread == Sleeping && s.lock == Free
    case _ => ClientCan(s, a)
  }

  /** At the head of its loop the thread signals when it ends and when it finds no handle. */
  predicate TopSignals(s: State) { s.cmds != [] && (s.cmds[0] == Exit || s.compr == None) }

  function ThreadStep(s: State, a: Action): State
    requires IsThreads(a) && Enabled(s, a)
  {
    match a
    case ThreadLock(c) =>
      if s.thread.Returned? then
        s.(lock := Thread, thread := AtTop, blocked := false, clients := Signal(s.clients, c))
      else s.(lock := Thread, thread := AtTop)
    case ThreadSpurious => s.(lock := Thread, thread := AtTop)
    case ThreadTop(c) =>
      if s.cmds == [] then s.(lock := Free, thread := Sleeping)
      else if s.cmds[0] == Exit then
        s.(lock := Free, thread := Exited, cmds := [], clients := Signal(s.clients, c))
      else if s.compr == None then s.(cmds := s.cmds[1..], clients := Signal(s.clients, c))
      else s.(lock := Free, thread := Unlocked(s.cmds[0], CallsOf(s.cmds[0])), cmds := s.cmds[1..], blocked := true)
    case ThreadCall => s.(thread := InCall(s.compr, s.thread.cmd, s.thread.calls[1..]))
    case ThreadReturn =>
      s.(thread := if s.thread.calls == [] then Returned(s.thread.cmd) else Unlocked(s.thread.cmd, s.thread.calls))
  }

  /** What a client does to the shared state, and where it goes. */
  function ClientMove(s: State, a: Action): (State, ClientPc)
    requires !IsThreads(a) && ClientCan(s, a)
  {
    var p := s.clients[a.c];
    match a
    case Lock(c, r) => (s.(lock := Client(c)), Locked(r))
    case Leave(c) => (s.(lock := Free, device := if HoldsDevice(p) then None else s.device), Idle)
    case ReleaseDevice(c) => (s.(device := None), Locked(ForCommand))
    case Send(c, cmd) => (s.(lock := Free, cmds := s.cmds + [cmd]), Idle)
    case TakeDevice(c) => (s.(device := Some(c)), InDevice(p.request))
    case SkipOpen(c) => (s, Locked(ForCommand))
    case Open(c, result) =>
      (match result
       case Ready =>
         (s.(device := None, standby := false, compr := Some(s.next), open := s.open + {s.next}, next := s.next + 1),
          Locked(ForCommand))
       case NoHandle => (s.(device := None, standby := false, compr := None), Locked(ForCommand))
       case NotReady => (s.(lock := Free, device := None, compr := None, next := s.next + 1), Idle))
    case BeginStandby(c) => (s.(standby := true), if s.compr.Some? then StopCheck(true) else StandbyEnd)
    case BeginFlush(c) => (s, StopCheck(false))
    case Check(c) =>
      if s.blocked then (s.(lock := Free), StopWaiting(p.closing, false))
      else if p.closing then (s, Closing)
      else (s.(lock := Free), Idle)
    case Wake(c) => (s.(lock := Client(c)), StopCheck(p.closing))
    case Spurious(c) => (s, StopWaiting(p.closing, true))
    case CloseHandle(c) => (s.(open := if s.compr.Some? then s.open - {s.compr.value} else s.open), Closed)
    case ForgetHandle(c) => (s.(compr := None), StandbyEnd)
  }

  function Step(s: State, a: Action): State
    requires Enabled(s, a)
  {
    if IsThreads(a) then ThreadStep(s, a)
    else var (t, p) := ClientMove(s, a); t.(clients := s.clients[a.c := p])
  }

  /** The states of a run of any number of clients and the thread. */
  predicate IsRun(states: seq<State>, actions: seq<Action>) {
    |states| == |actions| + 1 && states[0] == Initial(|states[0].clients|)
    && forall k :: 0 <= k < |actions| ==> Enabled(states[k], actions[k]) && states[k + 1] == Step(states[k], actions[k])
  }

  // ----- the invariant -----

  /** The thread: it holds the lock only at the head of its loop, and from leaving it with a command until it has
      the lock again the flag is set; until it has made its calls, the handle is open. */
  predicate ThreadAgrees(s: State) {
    (s.lock == Thread <==> s.thread == AtTop)
    && (s.blocked <==> s.thread.Unlocked? || s.thread.InCall? || s.thread.Returned?)
    && (s.thread.Unlocked? || s.thread.InCall? ==> s.compr.Some? && s.compr.value in s.open)
    && (s.thread.Unlocked? ==> s.thread.calls != [])
    && (s.thread.InCall? ==> s.thread.handle == s.compr)
  }

  /** At most one handle is open: the stream's.  It outlives the start of standby only while a client has the device. */
  predicate HandlesAgree(s: State) {
    (forall h :: h in s.open ==> s.compr == Some(h))
    && (s.lock.Client? ==> s.lock.c < |s.clients|)
    && (s.device.Some? ==> s.device.value < |s.clients|)
    && (s.compr.Some? && s.compr.value !in s.open ==> s.lock.Client? && s.clients[s.lock.c] == Closed)
    && (s.standby && s.compr.Some? ==> s.device.Some?)
  }

  /** What a client knows at each of its points. */
  predicate ClientKnows(s: State, p: ClientPc) {
    match p
    case StopCheck(true) => s.standby && s.compr.Some?
    case StopWaiting(true, _) => s.standby && s.compr.Some?
    case InDevice(r) =>
      (s.standby ==> s.compr == None)
      && ((r == ForWrite && s.standby) || (r == ForStandby && !s.standby) || r == ForPath)
    case Closing => s.standby && !s.blocked && s.compr.Some? && s.compr.value in s.open
    case Closed => s.standby && !s.blocked && s.compr.Some? && s.compr.value !in s.open
    case StandbyEnd => s.standby && s.compr == None
    case _ => true
  }

  predicate ClientAgrees(s: State, c: nat)
    requires c < |s.clients|
  {
    (HoldsLock(s.clients[c]) <==> s.lock == Client(c))
    && (HoldsDevice(s.clients[c]) <==> s.device == Some(c))
    && ClientKnows(s, s.clients[c])
  }

  /** While the flag is not set, not all clients are asleep: the last signal has woken one, which has not slept
      since. */
  predicate SomeoneIsAwake(s: State) {
    s.blocked || s.clients == [] || exists c :: 0 <= c < |s.clients| && !IsAsleep(s.clients[c])
  }

  predicate Inv(s: State) {
    ThreadAgrees(s) && HandlesAgree(s) && SomeoneIsAwake(s) && forall c :: 0 <= c < |s.clients| ==> ClientAgrees(s, c)
  }

  /** Whoever holds neither lock is not disturbed by a party that takes what is free and gives up what it holds,
      if what it does to the stream respects the device lock. */
  lemma {:induction false} BystanderKeeps(s: State, t: State, d: nat)
    requires d < |s.clients| == |t.clients| && t.clients[d] == s.clients[d] && ClientAgrees(s, d)
    requires s.lock != Client(d) && t.lock != Client(d)
    requires t.device == Some(d) <==> s.device == Some(d)
    requires s.device == Some(d) ==> t.standby == s.standby && t.compr == s.compr
    ensures ClientAgrees(t, d)
  {}

  lemma {:induction false} ActorHolds(s: State, a: Action)
    requires Inv(s) && !IsThreads(a) && ClientCan(s, a)
    ensures var (t, p) := ClientMove(s, a);
            (HoldsLock(p) <==> t.lock == Client(a.c)) && (HoldsDevice(p) <==> t.device == Some(a.c))
  {
    assert ClientAgrees(s, a.c);
    hide Inv, ClientAgrees, ClientKnows;
  }

  lemma {:induction false} ActorKnows(s: State, a: Action)
    requires Inv(s) && !IsThreads(a) && ClientCan(s, a)
    ensures ClientKnows(ClientMove(s, a).0, ClientMove(s, a).1)
  {
    assert ClientAgrees(s, a.c) && HandlesAgree(s);
    hide Inv, ClientAgrees, HoldsDevice;
  }

  /** The client that moves. */
  lemma {:induction false} ActorKeeps(s: State, a: Action)
    requires Inv(s) && !IsThreads(a) && ClientCan(s, a)
    ensures ClientAgrees(Step(s, a), a.c)
  {
    ActorHolds(s, a);
    ActorKnows(s, a);
    hide ClientMove, ClientCan, Inv, HoldsLock, HoldsDevice;
  }

  lemma {:induction false} ActorKeepsShared(s: State, a: Action)
    requires Inv(s) && !IsThreads(a) && ClientCan(s, a)
    ensures ThreadAgrees(Step(s, a)) && HandlesAgree(Step(s, a))
  {
    assert ClientAgrees(s, a.c);
    assert s.device.Some? ==> ClientAgrees(s, s.device.value);
  }

  /** What a client's move may do to the locks and the stream. */
  lemma {:induction false} ActorRespects(s: State, a: Action)
    requires Inv(s) && !IsThreads(a) && ClientCan(s, a) && !a.Spurious?
    ensures s.lock in {Free, Client(a.c)} && Step(s, a).lock in {Free, Client(a.c)}
    ensures Step(s, a).device == s.device || (s.device in {None, Some(a.c)} && Step(s, a).device in {None, Some(a.c)})
    ensures s.device != Some(a.c) ==> Step(s, a).standby == s.standby && Step(s, a).compr == s.compr
  {
    assert ClientAgrees(s, a.c);
  }

  lemma {:induction false} ClientStepKeeps(s: State, a: Action)
    requires Inv(s) && !IsThreads(a) && ClientCan(s, a)
    ensures Inv(Step(s, a))
  {
    var t := Step(s, a);
    ActorKeeps(s, a);
    ActorKeepsShared(s, a);
    ActorIsAwake(s, a);
    if a.Spurious? {
      SpuriousKeeps(s, a.c);
    } else {
      ActorRespects(s, a);
      assert forall d :: 0 <= d < |t.clients| && d != a.c ==> t.clients[d] == s.clients[d];
      forall d | 0 <= d < |t.clients|
        ensures ClientAgrees(t, d)
      {
        if d != a.c {
          hide ClientAgrees, Step;
          BystanderKeeps(s, t, d);
        }
      }
    }
  }

  lemma {:induction false} ActorIsAwake(s: State, a: Action)
    requires Inv(s) && !IsThreads(a) && ClientCan(s, a)
    ensures SomeoneIsAwake(Step(s, a))
  {
    var t := Step(s, a);
    assert t.blocked == s.blocked;
    assert !t.blocked ==> !IsAsleep(t.clients[a.c]);
  }

  /** Being woken makes no difference to locks and handle. */
  lemma {:induction false} SpuriousKeeps(s: State, c: nat)
    requires Inv(s) && ClientCan(s, Spurious(c))
    ensures forall d :: 0 <= d < |s.clients| ==> ClientAgrees(Step(s, Spurious(c)), d)
  {
    forall d | 0 <= d < |s.clients|
      ensures ClientAgrees(Step(s, Spurious(c)), d)
    {
      assert ClientAgrees(s, d);
    }
  }

  lemma {:induction false} ThreadStepKeeps(s: State, a: Action)
    requires Inv(s) && IsThreads(a) && Enabled(s, a)
    ensures Inv(Step(s, a))
  {
    var t := Step(s, a);
    ThreadStepKeepsShared(s, a);
    ThreadWakesSomeone(s, a);
    forall c | 0 <= c < |t.clients|
      ensures ClientAgrees(t, c)
    {
      assert ClientAgrees(s, c);
    }
  }

  lemma {:induction false} ThreadStepKeepsShared(s: State, a: Action)
    requires Inv(s) && IsThreads(a) && Enabled(s, a)
    ensures ThreadAgrees(Step(s, a)) && HandlesAgree(Step(s, a))
  {
    assert s.lock.Client? ==> ClientAgrees(s, s.lock.c);
  }

  lemma {:induction false} ThreadWakesSomeone(s: State, a: Action)
    requires Inv(s) && IsThreads(a) && Enabled(s, a)
    ensures SomeoneIsAwake(Step(s, a))
  {
    var t := Step(s, a);
    if !t.blocked && t.clients != [] {
      if s.blocked {
        assert a.ThreadLock? && s.thread.Returned? && CanSignal(s.clients, a.signalled);
        if IsAsleep(s.clients[0]) {
          assert !IsAsleep(t.clients[a.signalled]);
        } else {
          assert !IsAsleep(t.clients[0]);
        }
      } else {
        var c :| 0 <= c < |s.clients| && !IsAsleep(s.clients[c]);
        assert !IsAsleep(t.clients[c]);
      }
    }
  }

  lemma {:induction false} RunKeeps(states: seq<State>, actions: seq<Action>, k: nat)
    requires IsRun(states, actions) && k < |states|
    ensures Inv(states[k])
  {
    if k == 0 {
      assert states[0].clients == [] || !IsAsleep(states[0].clients[0]);
    } else {
      RunKeeps(states, actions, k - 1);
      if IsThreads(actions[k - 1]) {
        ThreadStepKeeps(states[k - 1], actions[k - 1]);
      } else {
        ClientStepKeeps(states[k - 1], actions[k - 1]);
      }
    }
  }

  /** In every interleaving, a blocking call is on the stream's handle, which is open, with the flag set. */
  lemma {:induction false} CallsAreSafe(states: seq<State>, actions: seq<Action>, k: nat)
    requires IsRun(states, actions) && k < |states| && states[k].thread.InCall?
    ensures states[k].blocked
    ensures states[k].thread.handle.Some? && states[k].thread.handle == states[k].compr
    ensures states[k].open == {states[k].thread.handle.value}
  {
    RunKeeps(states, actions, k);
  }

  /** In every interleaving, no handle is closed while the thread uses it or is about to, and the close is of the
      one open handle. */
  lemma {:induction false} CloseIsAlone(states: seq<State>, actions: seq<Action>, k: nat)
    requires IsRun(states, actions) && k < |actions| && actions[k].CloseHandle?
    ensures !states[k].thread.InCall? && !states[k].thread.Unlocked?
    ensures states[k].compr.Some? && states[k].open == {states[k].compr.value}
    ensures states[k + 1].open == {}
  {
    RunKeeps(states, actions, k);
    assert ClientAgrees(states[k], actions[k].c);
  }

  /** When a handle is opened, no other one is open: none is leaked. */
  lemma {:induction false} OpenIsAlone(states: seq<State>, actions: seq<Action>, k: nat)
    requires IsRun(states, actions) && k < |actions| && actions[k].Open?
    ensures states[k].open == {} && states[k].compr == None
  {
    RunKeeps(states, actions, k);
    assert ClientAgrees(states[k], actions[k].c);
  }

  // ----- commands -----

  /** The commands sent in the first k actions. */
  function Sent(actions: seq<Action>, k: nat): seq<Command>
    requires k <= |actions|
  {
    if k == 0 then []
    else Sent(actions, k - 1) + (if actions[k - 1].Send? then [actions[k - 1].cmd] else [])
  }

  /** The thread is at the head of its loop and finds a command. */
  predicate Takes(s: State, a: Action) { a.ThreadTop? && s.cmds != [] }

  /** The commands that the thread has taken by then. */
  function Taken(states: seq<State>, actions: seq<Action>, k: nat): seq<Command>
    requires k <= |actions| && |states| == |actions| + 1
  {
    if k == 0 then []
    else
      Taken(states, actions, k - 1)
      + (if Takes(states[k - 1], actions[k - 1]) then [states[k - 1].cmds[0]] else [])
  }

  /** What has been sent is what has been taken, followed by what is queued; a command to exit is the last that is
      taken, and what is queued then is dropped. */
  predicate IsInOrder(s: State, sent: seq<Command>, taken: seq<Command>) {
    if s.thread.Exited? then
      taken <= sent && taken != [] && taken[|taken| - 1] == Exit && Exit !in taken[..|taken| - 1]
    else sent == taken + s.cmds && Exit !in taken
  }

  lemma {:induction false} StepKeepsOrder(s: State, a: Action, sent: seq<Command>, taken: seq<Command>)
    requires Enabled(s, a) && IsInOrder(s, sent, taken)
    ensures IsInOrder(Step(s, a), sent + (if a.Send? then [a.cmd] else []),
                      taken + (if Takes(s, a) then [s.cmds[0]] else []))
  {
    if IsThreads(a) {
      ThreadKeepsOrder(s, a, sent, taken);
    } else {
      ClientLeavesThread(s, a);
      hide Step, Enabled;
      assert taken + [] == taken;
    }
  }

  lemma {:induction false} ThreadKeepsOrder(s: State, a: Action, sent: seq<Command>, taken: seq<Command>)
    requires IsThreads(a) && Enabled(s, a) && IsInOrder(s, sent, taken)
    ensures IsInOrder(Step(s, a), sent, taken + (if Takes(s, a) then [s.cmds[0]] else []))
  {
    hide CanSignal, Signal, TopSignals;
    if Takes(s, a) {
      QueueMoves(sent, taken, s.cmds);
    } else {
      assert taken + [] == taken;
    }
  }

  lemma {:induction false} QueueMoves(sent: seq<Command>, taken: seq<Command>, cmds: seq<Command>)
    requires sent == taken + cmds && cmds != []
    ensures var more := taken + [cmds[0]];
            sent == more + cmds[1..] && more <= sent && more[|more| - 1] == cmds[0] && more[..|more| - 1] == taken
  {}

  lemma {:induction false} ClientLeavesThread(s: State, a: Action)
    requires Enabled(s, a) && !IsThreads(a)
    ensures Step(s, a).thread == s.thread
    ensures Step(s, a).cmds == s.cmds + (if a.Send? then [a.cmd] else [])
  {
    CanStep(s, a);
  }

  /** In every interleaving the thread takes the commands in the order in which they are sent, each once and none left
      out, until it takes one to exit. */
  lemma {:induction false} TakenInOrder(states: seq<State>, actions: seq<Action>, k: nat)
    requires IsRun(states, actions) && k < |states|
    ensures IsInOrder(states[k], Sent(actions, k), Taken(states, actions, k))
  {
    if k == 0 {
    } else {
      TakenInOrder(states, actions, k - 1);
      assert Enabled(states[k - 1], actions[k - 1]) && states[k - 1 + 1] == Step(states[k - 1], actions[k - 1]);
      hide IsInOrder, Enabled, Step, IsRun, Takes;
      StepKeepsOrder(states[k - 1], actions[k - 1], Sent(actions, k - 1), Taken(states, actions, k - 1));
    }
  }

  /** A client that has its path, or finds or has opened the stream, can go on to send a command, which is queued
      behind the others. */
  lemma {:induction false} GoesOnToSend(s: State, a: Action, cmd: Command)
    requires Inv(s) && Enabled(s, a)
    requires a.SkipOpen? || a.ReleaseDevice? || (a.Open? && a.result != NotReady)
    ensures Enabled(Step(s, a), Send(a.c, cmd))
    ensures Step(Step(s, a), Send(a.c, cmd)).cmds == s.cmds + [cmd]
    ensures Step(Step(s, a), Send(a.c, cmd)).clients == s.clients[a.c := Idle]
  {
    var t := Step(s, a);
    assert Step(t, Send(a.c, cmd)).clients == t.clients[a.c := Idle];
  }

  // ----- what the thread does for a command -----

  datatype Notice = WriteReady | DrainReady

  /** What the driver and the client see of the thread. */
  datatype Deed = Called(call: DriverCall, handle: Option<Handle>) | Told(notice: Notice)

  function NoticeOf(cmd: Command): Notice { if cmd == Wait then WriteReady else DrainReady }

  function Deeds(s: State, a: Action): seq<Deed>
    requires Enabled(s, a)
  {
    if a.ThreadCall? then [Called(s.thread.calls[0], s.compr)]
    else if a.ThreadLock? && s.thread.Returned? then [Told(NoticeOf(s.thread.cmd))]
    else []
  }

  /** What a command asks for. */
  function Service(cmd: Command, h: Option<Handle>): seq<Deed> {
    match cmd
    case Exit => []
    case Wait => [Called(CompressWait, h), Told(WriteReady)]
    case PartialDrain => [Called(CompressNextTrack, h), Called(CompressPartialDrain, h), Told(DrainReady)]
    case Drain => [Called(CompressDrain, h), Told(DrainReady)]
  }

  /** What a step takes on: nothing without a handle. */
  function TakenOn(s: State, a: Action): seq<Deed> {
    if Takes(s, a) && s.compr.Some? then Service(s.cmds[0], s.compr) else []
  }

  function CallDeeds(calls: seq<DriverCall>, h: Option<Handle>): seq<Deed> {
    if calls == [] then [] else [Called(calls[0], h)] + CallDeeds(calls[1..], h)
  }

  /** What is still to be done for the command in hand. */
  function ToDo(s: State): seq<Deed> {
    match s.thread
    case Unlocked(cmd, calls) => CallDeeds(calls, s.compr) + [Told(NoticeOf(cmd))]
    case InCall(_, cmd, calls) => CallDeeds(calls, s.compr) + [Told(NoticeOf(cmd))]
    case Returned(cmd) => [Told(NoticeOf(cmd))]
    case _ => []
  }

  lemma {:induction false} ServiceIsToDo(cmd: Command, h: Option<Handle>)
    requires cmd != Exit
    ensures CallDeeds(CallsOf(cmd), h) + [Told(NoticeOf(cmd))] == Service(cmd, h)
  {
    var calls := CallsOf(cmd);
    if cmd == PartialDrain {
      assert calls[1..] == [CompressPartialDrain];
      OneCall(CompressPartialDrain, h);
      assert CallDeeds(calls, h) == [Called(CompressNextTrack, h), Called(CompressPartialDrain, h)];
    } else {
      OneCall(calls[0], h);
      assert calls == [calls[0]];
    }
  }

  lemma {:induction false} OneCall(call: DriverCall, h: Option<Handle>)
    ensures CallDeeds([call], h) == [Called(call, h)]
  {
    assert [call][1..] == [];
  }

  /** While the thread has the handle in hand, nobody changes it. */
  lemma {:induction false} HandleStays(s: State, a: Action)
    requires Inv(s) && Enabled(s, a) && (s.thread.Unlocked? || s.thread.InCall?)
    ensures Step(s, a).compr == s.compr
  {
    if !IsThreads(a) {
      CanStep(s, a);
      assert ClientAgrees(s, a.c);
    }
  }

  lemma {:induction false} StepServes(s: State, a: Action)
    requires Inv(s) && Enabled(s, a)
    ensures Deeds(s, a) + ToDo(Step(s, a)) == ToDo(s) + TakenOn(s, a)
  {
    if s.thread.Unlocked? || s.thread.InCall? {
      HandleStays(s, a);
    }
    if !IsThreads(a) {
      ClientLeavesThread(s, a);
      hide Step, Enabled, Inv;
    } else {
      ThreadStepServes(s, a);
    }
  }

  lemma {:induction false} ThreadStepServes(s: State, a: Action)
    requires Inv(s) && Enabled(s, a) && IsThreads(a)
    ensures Deeds(s, a) + ToDo(Step(s, a)) == ToDo(s) + TakenOn(s, a)
  {
    hide Inv, CanSignal, Signal, TopSignals, NoticeOf;
    if a.ThreadTop? {
      if s.cmds != [] && s.cmds[0] != Exit {
        ServiceIsToDo(s.cmds[0], s.compr);
      }
      hide CallDeeds, CallsOf;
    } else if a.ThreadCall? {
      CallServes(s.thread.calls, s.compr, NoticeOf(s.thread.cmd));
      hide CallDeeds;
    } else {
      hide CallDeeds, Service;
    }
  }

  lemma {:induction false} CallServes(calls: seq<DriverCall>, h: Option<Handle>, notice: Notice)
    requires calls != []
    ensures [Called(calls[0], h)] + (CallDeeds(calls[1..], h) + [Told(notice)])
            == (CallDeeds(calls, h) + [Told(notice)]) + []
  {}

  function AllDeeds(states: seq<State>, actions: seq<Action>, k: nat): seq<Deed>
    requires IsRun(states, actions) && k <= |actions|
  {
    if k == 0 then [] else AllDeeds(states, actions, k - 1) + Deeds(states[k - 1], actions[k - 1])
  }

  function AllTakenOn(states: seq<State>, actions: seq<Action>, k: nat): seq<Deed>
    requires k <= |actions| && |states| == |actions| + 1
  {
    if k == 0 then [] else AllTakenOn(states, actions, k - 1) + TakenOn(states[k - 1], actions[k - 1])
  }

  /** In every interleaving, what the thread has done and still has to do for the command in hand is exactly what the
      commands that it took with a handle ask for, in order: its calls, on that handle, and then the notice. */
  lemma {:induction false} ServesInOrder(states: seq<State>, actions: seq<Action>, k: nat)
    requires IsRun(states, actions) && k < |states|
    ensures AllDeeds(states, actions, k) + ToDo(states[k]) == AllTakenOn(states, actions, k)
  {
    if k == 0 {
    } else {
      ServesInOrder(states, actions, k - 1);
      RunKeeps(states, actions, k - 1);
      var s, a := states[k - 1], actions[k - 1];
      assert Enabled(s, a) && states[k - 1 + 1] == Step(s, a);
      StepServes(s, a);
      hide Enabled, Step, Inv, Deeds, ToDo, TakenOn, IsRun;
      ServedOn(AllDeeds(states, actions, k - 1), AllTakenOn(states, actions, k - 1), Deeds(s, a), ToDo(s),
               ToDo(states[k]), TakenOn(s, a));
    }
  }

  lemma {:induction false} ServedOn(before: seq<Deed>, on: seq<Deed>, deeds: seq<Deed>, toDo: seq<Deed>,
                                    toDo': seq<Deed>, more: seq<Deed>)
    requires before + toDo == on && deeds + toDo' == toDo + more
    ensures (before + deeds) + toDo' == on + more
  {
    assert (before + deeds) + toDo' == before + (deeds + toDo');
    assert before + (toDo + more) == (before + toDo) + more;
  }

  // ----- what the calls have made of the stream -----

  /** Whether the last thing that was done about standby, of the first k actions, was to enter it. */
  function IsStandbyAfter(actions: seq<Action>, k: nat): bool
    requires k <= |actions|
  {
    k == 0 || (match actions[k - 1]
               case BeginStandby(_) => true
               case Open(_, result) => result == NotReady && IsStandbyAfter(actions, k - 1)
               case _ => IsStandbyAfter(actions, k - 1))
  }

  /** Whether the last handle that was opened was ready and has not been given up since. */
  predicate HasHandleAfter(actions: seq<Action>, k: nat)
    requires k <= |actions|
  {
    k > 0 && match actions[k - 1]
             case Open(_, result) => result == Ready
             case ForgetHandle(_) => false
             case _ => HasHandleAfter(actions, k - 1)
  }

  lemma {:induction false} StreamIsHistory(states: seq<State>, actions: seq<Action>, k: nat)
    requires IsRun(states, actions) && k < |states|
    ensures states[k].standby == IsStandbyAfter(actions, k) && states[k].compr.Some? == HasHandleAfter(actions, k)
  {
    if k > 0 {
      StreamIsHistory(states, actions, k - 1);
      assert Enabled(states[k - 1], actions[k - 1]) && states[k - 1 + 1] == Step(states[k - 1], actions[k - 1]);
      hide IsRun;
      StreamStep(states[k - 1], actions[k - 1]);
    }
  }

  lemma {:induction false} StreamStep(s: State, a: Action)
    requires Enabled(s, a)
    ensures var t := Step(s, a);
            t.standby == (match a
                          case BeginStandby(_) => true
                          case Open(_, result) => result == NotReady && s.standby
                          case _ => s.standby)
            && t.compr.Some? == (match a
                                 case Open(_, result) => result == Ready
                                 case ForgetHandle(_) => false
                                 case _ => s.compr.Some?)
  {
    if IsThreads(a) {
      hide CanSignal, Signal, TopSignals;
    } else {
      CanStep(s, a);
    }
  }

  predicate IsStopping(p: ClientPc) { p.StopCheck? || p.StopWaiting? }

  /** A flush or a standby that finds a handle waits for the thread, and leaves its wait exactly at a test that finds
      the flag not set: the thread is in no call then. */
  lemma {:induction false} WaitEndsExactlyWhen(s: State, a: Action, c: nat)
    requires Inv(s) && Enabled(s, a) && c < |s.clients|
    ensures !IsStopping(s.clients[c]) ==>
              (IsStopping(Step(s, a).clients[c])
               <==> a == BeginFlush(c) || (a == BeginStandby(c) && s.compr.Some?))
    ensures IsStopping(s.clients[c]) ==>
              (!IsStopping(Step(s, a).clients[c]) <==> a == Check(c) && !s.blocked)
    ensures a == Check(c) && !s.blocked ==>
              !s.thread.Unlocked? && !s.thread.InCall?
              && Step(s, a).clients[c] == if s.clients[c].closing then Closing else Idle
  {
    assert ClientAgrees(s, c);
    if IsThreads(a) {
      hide CanSignal, TopSignals;
    } else {
      CanStep(s, a);
      ActorStops(s, a);
      hide ClientMove, ClientCan, Enabled;
    }
  }

  lemma {:induction false} ActorStops(s: State, a: Action)
    requires Inv(s) && !IsThreads(a) && ClientCan(s, a)
    ensures var p, q := s.clients[a.c], Step(s, a).clients[a.c];
            (IsStopping(q)
             <==> (IsStopping(p) && !(a.Check? && !s.blocked)) || a.BeginFlush? || (a.BeginStandby? && s.compr.Some?))
            && (a.Check? && !s.blocked ==> IsStopping(p) && q == if p.closing then Closing else Idle)
            && (a.BeginFlush? || a.BeginStandby? ==> !IsStopping(p))
    ensures forall d :: 0 <= d < |s.clients| && d != a.c ==> Step(s, a).clients[d] == s.clients[d]
  {
    hide HandlesAgree, SomeoneIsAwake, ThreadAgrees, ClientKnows;
  }

  function AsleepCount(clients: seq<ClientPc>): nat {
    if clients == [] then 0 else (if IsAsleep(clients[0]) then 1 else 0) + AsleepCount(clients[1..])
  }

  lemma {:induction false} UpdatedCount(clients: seq<ClientPc>, c: nat, p: ClientPc)
    requires c < |clients|
    ensures AsleepCount(clients[c := p])
            == AsleepCount(clients) - (if IsAsleep(clients[c]) then 1 else 0) + (if IsAsleep(p) then 1 else 0)
    decreases c
  {
    if c == 0 {
      assert clients[0 := p][1..] == clients[1..];
    } else {
      assert clients[c := p][1..] == clients[1..][c - 1 := p];
      UpdatedCount(clients[1..], c - 1, p);
    }
  }

  lemma {:induction false} NobodyAsleep(clients: seq<ClientPc>)
    ensures AsleepCount(clients) == 0 <==> forall c :: 0 <= c < |clients| ==> !IsAsleep(clients[c])
  {
    if clients != [] {
      NobodyAsleep(clients[1..]);
      assert forall c :: 0 < c < |clients| ==> clients[c] == clients[1..][c - 1];
    }
  }

  lemma {:induction false} SignalledCount(clients: seq<ClientPc>, c: nat)
    requires CanSignal(clients, c)
    ensures AsleepCount(Signal(clients, c)) == if AsleepCount(clients) > 0 then AsleepCount(clients) - 1 else 0
  {
    NobodyAsleep(clients);
    if c < |clients| && IsAsleep(clients[c]) {
      UpdatedCount(clients, c, clients[c].(woken := true));
    }
  }

  /** Who is asleep: one more by a test that finds the flag set, one fewer by a wait that ends by itself, and one fewer,
      if there is one, by a signal: when the thread comes back from a command, takes a command without a handle, and
      ends. */
  lemma {:induction false} AsleepAfter(s: State, a: Action)
    requires Enabled(s, a)
    ensures var n, m := AsleepCount(s.clients), AsleepCount(Step(s, a).clients);
            if a.Check? && s.blocked then m == n + 1
            else if a.Spurious? then m == n - 1
            else if (a.ThreadLock? && s.thread.Returned?)
                    || (Takes(s, a) && (s.cmds[0] == Exit || s.compr == None)) then
              m == if n > 0 then n - 1 else 0
            else m == n
  {
    if IsThreads(a) {
      if a.ThreadLock? || a.ThreadTop? {
        if CanSignal(s.clients, a.signalled) {
          SignalledCount(s.clients, a.signalled);
        }
      }
      hide AsleepCount, CanSignal, Signal;
    } else {
      CanStep(s, a);
      UpdatedCount(s.clients, a.c, ClientMove(s, a).1);
      hide AsleepCount;
    }
  }

  // ----- progress -----

  predicate IsRequest(a: Action) { a.Lock? }

  predicate IsSpurious(a: Action) { a.Spurious? || a.ThreadSpurious? }

  /** Nothing can move any more, but for a wait that ends without a signal. */
  ghost predicate IsStuck(s: State) { forall a: Action :: Enabled(s, a) ==> IsSpurious(a) }

  /** The client that holds the stream lock needs the device lock, and another has it. */
  predicate DeviceIsKept(s: State) {
    s.lock.Client? && s.lock.c < |s.clients| && NeedsDevice(s, s.clients[s.lock.c]) && s.device.Some?
  }

  function NextOf(s: State, c: nat): Action
    requires c < |s.clients|
  {
    match s.clients[c]
    case Locked(ForWrite) => if s.standby then TakeDevice(c) else SkipOpen(c)
    case Locked(ForPath) => TakeDevice(c)
    case Locked(ForStandby) => if s.standby then Leave(c) else TakeDevice(c)
    case InDevice(ForWrite) => Open(c, Ready)
    case InDevice(ForStandby) => BeginStandby(c)
    case InDevice(ForPath) => ReleaseDevice(c)
    case StopCheck(_) => Check(c)
    case Closing => CloseHandle(c)
    case Closed => ForgetHandle(c)
    case _ => Leave(c)
  }

  /** A client with the stream lock can go on, unless it needs a device lock that is kept from it. */
  lemma {:induction false} ClientCanMove(s: State, c: nat)
    requires Inv(s) && s.lock == Client(c) && !DeviceIsKept(s)
    ensures Enabled(s, NextOf(s, c)) && !NextOf(s, c).Lock? && !IsSpurious(NextOf(s, c))
  {
    assert ClientAgrees(s, c);
  }

  /** A client that a signal can reach, or any number if there is none. */
  lemma {:induction false} SomeoneToSignal(clients: seq<ClientPc>) returns (c: nat)
    ensures CanSignal(clients, c)
  {
    c := 0;
    if d :| 0 <= d < |clients| && IsAsleep(clients[d]) {
      c := d;
    }
  }

  /** With the stream lock free and the flag set, the thread can go on; with the flag not set, a client can. */
  lemma {:induction false} FreeLockCanBeTaken(s: State) returns (a: Action)
    requires Inv(s) && s.lock == Free && s.clients != []
    ensures Enabled(s, a) && !IsSpurious(a)
  {
    if s.thread.Unlocked? {
      a := ThreadCall;
    } else if s.thread.InCall? {
      a := ThreadReturn;
    } else if s.blocked {
      var c := SomeoneToSignal(s.clients);
      a := ThreadLock(c);
    } else {
      var c :| 0 <= c < |s.clients| && !IsAsleep(s.clients[c]);
      assert ClientAgrees(s, c);
      a := if s.clients[c] == Idle then Lock(c, ForFlush) else Wake(c);
    }
  }

  /** Exactly when nothing can move any more: the thread is not in a call, and a client that holds the stream lock
      needs the device lock, which a client on its way to standby keeps while it waits for the stream lock. */
  lemma {:induction false} StuckExactlyWhen(s: State)
    requires Inv(s) && s.clients != []
    ensures IsStuck(s) <==> DeviceIsKept(s) && !s.thread.Unlocked? && !s.thread.InCall?
    ensures IsStuck(s) ==> s.clients[s.device.value].StopWaiting? && s.clients[s.device.value].closing
  {
    if s.thread.Unlocked? {
      assert Enabled(s, ThreadCall);
    } else if s.thread.InCall? {
      assert Enabled(s, ThreadReturn);
    } else if s.lock == Free {
      var a := FreeLockCanBeTaken(s);
    } else if s.lock == Thread {
      var c := SomeoneToSignal(s.clients);
      assert Enabled(s, ThreadTop(c));
    } else if !DeviceIsKept(s) {
      ClientCanMove(s, s.lock.c);
    } else {
      var d := s.device.value;
      assert ClientAgrees(s, s.lock.c) && ClientAgrees(s, d);
      forall a: Action | Enabled(s, a)
        ensures IsSpurious(a)
      {
        NobodyElse(s, a);
      }
    }
  }

  lemma {:induction false} NobodyElse(s: State, a: Action)
    requires Inv(s) && DeviceIsKept(s) && !s.thread.Unlocked? && !s.thread.InCall?
    ensures Enabled(s, a) ==> a.Spurious?
  {
    if !IsThreads(a) && a.c < |s.clients| {
      assert ClientAgrees(s, a.c);
    }
  }

  /** Nor does a wait that ends by itself help. */
  lemma {:induction false} StuckForGood(s: State, a: Action)
    requires Inv(s) && s.clients != [] && IsStuck(s) && Enabled(s, a)
    ensures IsStuck(Step(s, a))
  {
    StuckExactlyWhen(s);
    NobodyElse(s, a);
    ClientStepKeeps(s, a);
    assert ClientAgrees(s, s.lock.c) && ClientAgrees(s, a.c);
    StuckExactlyWhen(Step(s, a));
  }

  // ----- signals -----

  /** Whoever sleeps will be signalled: the thread is still to come back. */
  predicate WaitsAreCovered(s: State) {
    s.blocked || forall c :: 0 <= c < |s.clients| ==> !IsAsleep(s.clients[c])
  }

  predicate TwoSleep(s: State) {
    exists c, d :: 0 <= c < d < |s.clients| && IsAsleep(s.clients[c]) && IsAsleep(s.clients[d])
  }

  /** A sleeper is left without a signal exactly when the thread comes back and two sleep: it wakes one of them. */
  lemma {:induction false} CoveredExactlyWhen(s: State, a: Action)
    requires Inv(s) && Enabled(s, a) && WaitsAreCovered(s)
    ensures WaitsAreCovered(Step(s, a)) <==> !(a.ThreadLock? && s.thread.Returned? && TwoSleep(s))
  {
    if a.ThreadLock? && s.thread.Returned? {
      OneIsWoken(s, a.signalled);
    } else if IsThreads(a) {
    } else {
      ActorSleepsCovered(s, a);
    }
  }

  lemma {:induction false} AsleepTwice(s: State, c: nat, d: nat)
    requires c < |s.clients| && d < |s.clients| && c != d && IsAsleep(s.clients[c]) && IsAsleep(s.clients[d])
    ensures TwoSleep(s)
  {
    if d < c {
      AsleepTwice(s, d, c);
    }
  }

  lemma {:induction false} OneIsWoken(s: State, c: nat)
    requires CanSignal(s.clients, c)
    ensures (forall d :: 0 <= d < |s.clients| ==> !IsAsleep(Signal(s.clients, c)[d])) <==> !TwoSleep(s)
  {
    var t := Signal(s.clients, c);
    if TwoSleep(s) {
      var d, e :| 0 <= d < e < |s.clients| && IsAsleep(s.clients[d]) && IsAsleep(s.clients[e]);
      assert IsAsleep(t[if c == d then e else d]);
    } else {
      forall d: nat | d < |s.clients|
        ensures !IsAsleep(t[d])
      {
        if IsAsleep(s.clients[d]) && d != c {
          AsleepTwice(s, c, d);
        }
      }
    }
  }

  lemma {:induction false} ActorSleepsCovered(s: State, a: Action)
    requires Inv(s) && !IsThreads(a) && ClientCan(s, a) && WaitsAreCovered(s)
    ensures WaitsAreCovered(Step(s, a))
  {
    var t := Step(s, a);
    if !s.blocked {
      forall d | 0 <= d < |t.clients|
        ensures !IsAsleep(t.clients[d])
      {
        assert d != a.c ==> t.clients[d] == s.clients[d];
      }
    }
  }

  /** Only a new request, or a wait that ends by itself, can move anything. */
  ghost predicate IsQuiet(s: State) { forall a: Action :: Enabled(s, a) ==> a.Lock? || IsSpurious(a) }

  /** While waits are covered, and the device lock is not kept from the holder of the stream lock, everything that was
      begun comes to its end: when no more can move, no client waits, and the thread sleeps or is gone. */
  lemma {:induction false} QuietMeansDone(s: State)
    requires Inv(s) && WaitsAreCovered(s) && IsQuiet(s) && !DeviceIsKept(s)
    ensures forall c :: 0 <= c < |s.clients| ==> s.clients[c] == Idle
    ensures s.thread in {Sleeping, Exited}
  {
    var w := SomeoneToSignal(s.clients);
    assert !Enabled(s, ThreadCall) && !Enabled(s, ThreadReturn) && !Enabled(s, ThreadTop(w));
    if s.lock.Client? {
      ClientCanMove(s, s.lock.c);
    }
    assert !Enabled(s, ThreadLock(w));
    forall c | 0 <= c < |s.clients|
      ensures s.clients[c] == Idle
    {
      assert ClientAgrees(s, c) && !Enabled(s, Wake(c));
    }
  }

  // ----- every request costs a bounded number of steps -----

  const COMMAND_WEIGHT: nat := 8

  /** How many steps a client can still bring about, at most, from where it is. */
  function ClientWeight(p: ClientPc): nat {
    match p
    case Idle => 0
    case StandbyEnd => 1
    case Closed => 2
    case Closing => 3
    case StopWaiting(_, woken) => if woken then 5 else 3
    case StopCheck(_) => 4
    case Locked(ForCommand) => COMMAND_WEIGHT + 3
    case InDevice(_) => COMMAND_WEIGHT + 4
    case Locked(_) => COMMAND_WEIGHT + 5
  }

  function ThreadWeight(p: ThreadPc, cmds: seq<Command>): nat {
    match p
    case Exited => 0
    case Sleeping => if cmds == [] then 0 else 2
    case AtTop => 1
    case Starting => 2
    case Returned(_) => 4
    case InCall(_, _, calls) => 5 + 2 * |calls|
    case Unlocked(_, calls) => 4 + 2 * |calls|
  }

  function ClientsWeight(clients: seq<ClientPc>): nat {
    if clients == [] then 0 else ClientWeight(clients[0]) + ClientsWeight(clients[1..])
  }

  function QueueWeight(s: State): nat { ThreadWeight(s.thread, s.cmds) + COMMAND_WEIGHT * |s.cmds| }

  function Potential(s: State): nat { QueueWeight(s) + ClientsWeight(s.clients) }

  lemma {:induction false} UpdatedWeight(clients: seq<ClientPc>, c: nat, p: ClientPc)
    requires c < |clients|
    ensures ClientsWeight(clients[c := p]) == ClientsWeight(clients) - ClientWeight(clients[c]) + ClientWeight(p)
    decreases c
  {
    if c == 0 {
      assert clients[0 := p][1..] == clients[1..];
    } else {
      assert clients[c := p][1..] == clients[1..][c - 1 := p];
      UpdatedWeight(clients[1..], c - 1, p);
    }
  }

  lemma {:induction false} SignalWeight(clients: seq<ClientPc>, c: nat)
    ensures ClientsWeight(Signal(clients, c)) <= ClientsWeight(clients) + 2
  {
    if c < |clients| && IsAsleep(clients[c]) {
      UpdatedWeight(clients, c, clients[c].(woken := true));
    }
  }

  /** What a request, or a wait that ends by itself, may add, with its own step. */
  function Cost(a: Action): nat { if IsRequest(a) then COMMAND_WEIGHT + 6 else if IsSpurious(a) then 3 else 0 }

  lemma {:induction false} ThreadStepLowers(s: State, a: Action)
    requires IsThreads(a) && Enabled(s, a)
    ensures Potential(Step(s, a)) + 1 <= Potential(s) + Cost(a)
  {
    if a.ThreadLock? || a.ThreadTop? {
      SignalWeight(s.clients, a.signalled);
    }
    hide ClientsWeight, Signal, CanSignal, TopSignals;
  }

  lemma {:induction false} MoveLowers(s: State, a: Action)
    requires !IsThreads(a) && ClientCan(s, a)
    ensures var (t, p) := ClientMove(s, a);
            t.clients == s.clients
            && QueueWeight(t) + ClientWeight(p) + 1 <= QueueWeight(s) + ClientWeight(s.clients[a.c]) + Cost(a)
  {}

  lemma {:induction false} ClientStepLowers(s: State, a: Action)
    requires !IsThreads(a) && ClientCan(s, a)
    ensures Potential(Step(s, a)) + 1 <= Potential(s) + Cost(a)
  {
    MoveLowers(s, a);
    var (t, p) := ClientMove(s, a);
    UpdatedWeight(s.clients, a.c, p);
    assert Step(s, a) == t.(clients := s.clients[a.c := p]);
    hide ClientsWeight, ThreadWeight, ClientMove, ClientCan, ClientWeight, Cost, Enabled;
    assert QueueWeight(Step(s, a)) == QueueWeight(t);
  }

  function Costs(actions: seq<Action>): nat {
    if actions == [] then 0 else Cost(actions[|actions| - 1]) + Costs(actions[..|actions| - 1])
  }

  /** Part of a run. */
  predicate IsStretch(states: seq<State>, actions: seq<Action>) {
    |states| == |actions| + 1
    && forall k :: 0 <= k < |actions| ==> Enabled(states[k], actions[k]) && states[k + 1] == Step(states[k], actions[k])
  }

  lemma {:induction false} StretchIsBounded(states: seq<State>, actions: seq<Action>)
    requires IsStretch(states, actions)
    ensures Potential(states[|actions|]) + |actions| <= Potential(states[0]) + Costs(actions)
    decreases |actions|
  {
    if actions != [] {
      var n := |actions| - 1;
      assert Enabled(states[n], actions[n]) && states[n + 1] == Step(states[n], actions[n]);
      if IsThreads(actions[n]) {
        ThreadStepLowers(states[n], actions[n]);
      } else {
        ClientStepLowers(states[n], actions[n]);
      }
      hide Potential, Step, Enabled, Cost;
      StretchIsBounded(states[..n + 1], actions[..n]);
    }
  }

  lemma {:induction false} IdleWeight(clients: seq<ClientPc>)
    requires forall c :: 0 <= c < |clients| ==> clients[c] == Idle
    ensures ClientsWeight(clients) == 0
  {
    if clients != [] {
      IdleWeight(clients[1..]);
    }
  }

  function CountOf(actions: seq<Action>, which: Action -> bool): nat {
    if actions == [] then 0
    else (if which(actions[|actions| - 1]) then 1 else 0) + CountOf(actions[..|actions| - 1], which)
  }

  lemma {:induction false} CostsCounted(actions: seq<Action>)
    ensures Costs(actions) == 14 * CountOf(actions, IsRequest) + 3 * CountOf(actions, IsSpurious)
  {
    if actions != [] {
      CostsCounted(actions[..|actions| - 1]);
    }
  }

  /** No interleaving goes on without new requests: it has at most 14 steps for each request, 3 for each wait that ends
      by itself, and 2 more. */
  lemma {:induction false} RunIsBounded(states: seq<State>, actions: seq<Action>)
    requires IsRun(states, actions)
    ensures |actions| <= 2 + 14 * CountOf(actions, IsRequest) + 3 * CountOf(actions, IsSpurious)
  {
    IdleWeight(states[0].clients);
    CostsCounted(actions);
    StretchIsBounded(states, actions);
  }

  // ----- every wait ends -----

  /** A stretch without new requests and without waits that end by themselves, in which the thread does not come back
      while two sleep. */
  predicate IsWorkedOff(states: seq<State>, actions: seq<Action>) {
    IsStretch(states, actions)
    && forall k :: 0 <= k < |actions| ==>
         !actions[k].Lock? && !IsSpurious(actions[k])
         && !(actions[k].ThreadLock? && states[k].thread.Returned? && TwoSleep(states[k]))
  }

  lemma {:induction false} WorkedOffKeeps(states: seq<State>, actions: seq<Action>)
    requires IsWorkedOff(states, actions) && Inv(states[0]) && WaitsAreCovered(states[0])
    ensures Inv(states[|actions|]) && WaitsAreCovered(states[|actions|]) && Costs(actions) == 0
    decreases |actions|
  {
    if actions != [] {
      var n := |actions| - 1;
      assert Enabled(states[n], actions[n]) && states[n + 1] == Step(states[n], actions[n]);
      assert Cost(actions[n]) == 0;
      hide Step, Enabled, Inv, WaitsAreCovered, TwoSleep, Cost;
      WorkedOffKeeps(states[..n + 1], actions[..n]);
      CoveredExactlyWhen(states[n], actions[n]);
      if IsThreads(actions[n]) {
        ThreadStepKeeps(states[n], actions[n]);
      } else {
        CanStep(states[n], actions[n]);
        ClientStepKeeps(states[n], actions[n]);
      }
    }
  }

  lemma {:induction false} CanStep(s: State, a: Action)
    requires !IsThreads(a) && Enabled(s, a)
    ensures ClientCan(s, a)
  {}

  /** What was begun is worked off in no more steps than the potential says, however they are interleaved; and when
      there is none left, every wait has ended, exactly unless the device lock is kept from the holder of the stream
      lock. */
  lemma {:induction false} EveryWaitEnds(states: seq<State>, actions: seq<Action>)
    requires IsWorkedOff(states, actions) && Inv(states[0]) && WaitsAreCovered(states[0])
    ensures |actions| <= Potential(states[0])
    ensures IsQuiet(states[|actions|]) ==>
              (DeviceIsKept(states[|actions|])
               <==> exists c :: 0 <= c < |states[|actions|].clients| && states[|actions|].clients[c] != Idle)
  {
    var s := states[|actions|];
    WorkedOffKeeps(states, actions);
    StretchIsBounded(states, actions);
    hide Potential, Costs;
    if IsQuiet(s) {
      if DeviceIsKept(s) {
        assert s.clients[s.lock.c] != Idle;
      } else {
        QuietMeansDone(s);
      }
    }
  }

  // ----- the stuck state is reached -----

  /** The thread waits for room in the driver's buffer. */
  const WAITING: ThreadPc := InCall(Some(0), Wait, [])

  ghost predicate IsReached(s: State) {
    exists states: seq<State>, actions: seq<Action> :: IsRun(states, actions) && states[|actions|] == s
  }

  lemma {:induction false} InitialIsReached(clients: nat)
    ensures IsReached(Initial(clients))
  {
    var states, none: seq<Action> := [Initial(clients)], [];
    assert IsRun(states, none) && states[|none|] == Initial(clients);
  }

  /** A run extended by one step. */
  lemma {:induction false} Reach(s: State, a: Action, t: State)
    requires IsReached(s) && Enabled(s, a) && Step(s, a) == t
    ensures IsReached(t)
  {
    var states, actions: seq<Action> :| IsRun(states, actions) && states[|actions|] == s;
    var longer, more := states + [t], actions + [a];
    hide Step, Enabled;
    assert IsRun(longer, more) && longer[|more|] == t;
  }

  lemma {:induction false} InitialOfTwo()
    ensures IsReached(State(Free, None, [], None, false, true, Starting, [Idle, Idle], {}, 0))
  {
    InitialIsReached(2);
    hide IsReached;
    assert Initial(2).clients == [Idle, Idle];
  }

  /** A writer finds the stream in standby and takes the device lock. */
  lemma {:induction false} WriterComes()
    ensures IsReached(State(Client(0), Some(0), [], None, false, true, Starting, [InDevice(ForWrite), Idle], {}, 0))
  {
    InitialOfTwo();
    hide IsReached;
    var s0 := State(Free, None, [], None, false, true, Starting, [Idle, Idle], {}, 0);
    var s1 := s0.(lock := Client(0), clients := [Locked(ForWrite), Idle]);
    Reach(s0, Lock(0, ForWrite), s1);
    Reach(s1, TakeDevice(0), s1.(device := Some(0), clients := [InDevice(ForWrite), Idle]));
  }

  /** It opens the stream and asks to be told when it can write again. */
  lemma {:induction false} WriterOpens()
    ensures IsReached(State(Free, None, [Wait], Some(0), false, false, Starting, [Idle, Idle], {0}, 1))
  {
    WriterComes();
    hide IsReached;
    var s2 := State(Client(0), Some(0), [], None, false, true, Starting, [InDevice(ForWrite), Idle], {}, 0);
    var s3 := State(Client(0), None, [], Some(0), false, false, Starting, [Locked(ForCommand), Idle], {0}, 1);
    Reach(s2, Open(0, Ready), s3);
    Reach(s3, Send(0, Wait), s3.(lock := Free, cmds := [Wait], clients := [Idle, Idle]));
  }

  /** The thread takes the command and waits. */
  lemma {:induction false} ThreadWaits()
    ensures IsReached(State(Free, None, [], Some(0), true, false, WAITING, [Idle, Idle], {0}, 1))
  {
    WriterOpens();
    hide IsReached;
    var s4 := State(Free, None, [Wait], Some(0), false, false, Starting, [Idle, Idle], {0}, 1);
    var s5 := State(Thread, None, [Wait], Some(0), false, false, AtTop, [Idle, Idle], {0}, 1);
    Reach(s4, ThreadLock(0), s5);
    var s6 := State(Free, None, [], Some(0), true, false, Unlocked(Wait, [CompressWait]), [Idle, Idle], {0}, 1);
    Reach(s5, ThreadTop(0), s6);
    assert s6.thread.calls[1..] == [];
    Reach(s6, ThreadCall, State(Free, None, [], Some(0), true, false, WAITING, [Idle, Idle], {0}, 1));
  }

  /** A client on its way to standby takes the device lock. */
  lemma {:induction false} StandbyComes()
    ensures IsReached(State(Client(0), Some(0), [], Some(0), true, false, WAITING,
                            [InDevice(ForStandby), Idle], {0}, 1))
  {
    ThreadWaits();
    hide IsReached;
    var s7 := State(Free, None, [], Some(0), true, false, WAITING, [Idle, Idle], {0}, 1);
    var s8 := s7.(lock := Client(0), clients := [Locked(ForStandby), Idle]);
    Reach(s7, Lock(0, ForStandby), s8);
    Reach(s8, TakeDevice(0), s8.(device := Some(0), clients := [InDevice(ForStandby), Idle]));
  }

  /** It waits for the thread with the device lock in hand. */
  lemma {:induction false} StandbyWaits()
    ensures IsReached(State(Free, Some(0), [], Some(0), true, true, WAITING,
                            [StopWaiting(true, false), Idle], {0}, 1))
  {
    StandbyComes();
    hide IsReached;
    var s9 := State(Client(0), Some(0), [], Some(0), true, false, WAITING, [InDevice(ForStandby), Idle],
                    {0}, 1);
    var s10 := s9.(standby := true, clients := [StopCheck(true), Idle]);
    Reach(s9, BeginStandby(0), s10);
    Reach(s10, Check(0), s10.(lock := Free, clients := [StopWaiting(true, false), Idle]));
  }

  /** The stuck state is reached: a change of routing arrives while a client in standby waits for the thread. */
  lemma {:induction false} StuckIsReached() returns (s: State)
    ensures IsReached(s) && IsStuck(s)
  {
    StandbyWaits();
    hide IsReached;
    var s11 := State(Free, Some(0), [], Some(0), true, true, WAITING, [StopWaiting(true, false), Idle],
                     {0}, 1);
    var s12 := s11.(lock := Client(1), clients := [StopWaiting(true, false), Locked(ForPath)]);
    Reach(s11, Lock(1, ForPath), s12);
    s := s12.(thread := Returned(Wait));
    Reach(s12, ThreadReturn, s);
    ReachedKeeps(s);
    StuckExactlyWhen(s);
  }

  lemma {:induction false} ReachedKeeps(s: State)
    requires IsReached(s)
    ensures Inv(s)
  {
    var states, actions: seq<Action> :| IsRun(states, actions) && states[|actions|] == s;
    RunKeeps(states, actions, |actions|);
  }

  // ----- a standby that sleeps on is reached -----

  /** A client flushes while the thread waits, and sleeps. */
  lemma {:induction false} FlushSleeps()
    ensures IsReached(State(Free, None, [], Some(0), true, false, WAITING, [StopWaiting(false, false), Idle],
                            {0}, 1))
  {
    ThreadWaits();
    hide IsReached;
    var s7 := State(Free, None, [], Some(0), true, false, WAITING, [Idle, Idle], {0}, 1);
    var s8 := s7.(lock := Client(0), clients := [Locked(ForFlush), Idle]);
    Reach(s7, Lock(0, ForFlush), s8);
    var s9 := s8.(clients := [StopCheck(false), Idle]);
    Reach(s8, BeginFlush(0), s9);
    Reach(s9, Check(0), s9.(lock := Free, clients := [StopWaiting(false, false), Idle]));
  }

  /** Another comes for standby. */
  lemma {:induction false} SecondComes()
    ensures IsReached(State(Client(1), Some(1), [], Some(0), true, false, WAITING,
                            [StopWaiting(false, false), InDevice(ForStandby)], {0}, 1))
  {
    FlushSleeps();
    hide IsReached;
    var s10 := State(Free, None, [], Some(0), true, false, WAITING, [StopWaiting(false, false), Idle],
                     {0}, 1);
    var s11 := s10.(lock := Client(1), clients := [StopWaiting(false, false), Locked(ForStandby)]);
    Reach(s10, Lock(1, ForStandby), s11);
    Reach(s11, TakeDevice(1), s11.(device := Some(1), clients := [StopWaiting(false, false), InDevice(ForStandby)]));
  }

  /** Both sleep, and the thread's call ends. */
  lemma {:induction false} BothSleep()
    ensures IsReached(State(Free, Some(1), [], Some(0), true, true, Returned(Wait),
                            [StopWaiting(false, false), StopWaiting(true, false)], {0}, 1))
  {
    SecondComes();
    hide IsReached;
    var s12 := State(Client(1), Some(1), [], Some(0), true, false, WAITING,
                     [StopWaiting(false, false), InDevice(ForStandby)], {0}, 1);
    var s13 := s12.(standby := true, clients := [StopWaiting(false, false), StopCheck(true)]);
    Reach(s12, BeginStandby(1), s13);
    var s14 := s13.(lock := Free, clients := [StopWaiting(false, false), StopWaiting(true, false)]);
    Reach(s13, Check(1), s14);
    Reach(s14, ThreadReturn, s14.(thread := Returned(Wait)));
  }

  /** The thread signals the flush only, and goes to sleep. */
  lemma {:induction false} OneIsSignalled()
    ensures IsReached(State(Free, Some(1), [], Some(0), false, true, Sleeping,
                            [StopWaiting(false, true), StopWaiting(true, false)], {0}, 1))
  {
    BothSleep();
    hide IsReached;
    var s15 := State(Free, Some(1), [], Some(0), true, true, Returned(Wait),
                     [StopWaiting(false, false), StopWaiting(true, false)], {0}, 1);
    assert IsAsleep(s15.clients[0]);
    var s16 := State(Thread, Some(1), [], Some(0), false, true, AtTop,
                     [StopWaiting(false, true), StopWaiting(true, false)], {0}, 1);
    Reach(s15, ThreadLock(0), s16);
    Reach(s16, ThreadTop(0), s16.(lock := Free, thread := Sleeping));
  }

  /** The flush has ended; standby sleeps on with the device lock, until somebody makes a request that wakes the
      thread. */
  lemma {:induction false} StandbySleepsOn() returns (s: State)
    ensures IsReached(s) && IsQuiet(s) && !WaitsAreCovered(s)
    ensures s.device == Some(1) && s.clients == [Idle, StopWaiting(true, false)] && s.thread == Sleeping
  {
    FlushEnds();
    hide IsReached, IsRun;
    s := State(Free, Some(1), [], Some(0), false, true, Sleeping, [Idle, StopWaiting(true, false)], {0}, 1);
    assert IsAsleep(s.clients[1]);
  }

  lemma {:induction false} FlushEnds()
    ensures IsReached(State(Free, Some(1), [], Some(0), false, true, Sleeping, [Idle, StopWaiting(true, false)],
                            {0}, 1))
  {
    OneIsSignalled();
    hide IsReached;
    var s17 := State(Free, Some(1), [], Some(0), false, true, Sleeping,
                     [StopWaiting(false, true), StopWaiting(true, false)], {0}, 1);
    var s18 := s17.(lock := Client(0), clients := [StopCheck(false), StopWaiting(true, false)]);
    Reach(s17, Wake(0), s18);
    Reach(s18, Check(0), s18.(lock := Free, clients := [Idle, StopWaiting(true, false)]));
  }
}
