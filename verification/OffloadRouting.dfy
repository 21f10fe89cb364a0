/** The offload stream on the audio device: pausing, resuming and standby enter
    and remove a route, with its references to sound devices.

    `Offload` knows the usecases by id only, `AudioRouting` the routes.  Here the
    calls of the stream work on the routes, the ids of the routes are shown to be
    the list of `Offload`, and the invariants of both hold together over runs in
    which calls of the stream and events of other usecases alternate. */
module OffloadRouting {
  import A = AudioRouting
  import O = Offload

  const OFFLOAD: A.UsecaseId := A.USECASE_AUDIO_PLAYBACK_OFFLOAD

  // ----- the calls, on the routes -----

  function Enable(hw: A.Hw, ch: A.Choice): A.Hw { A.Enter(hw, OFFLOAD, ch) }

  function Disable(hw: A.Hw): A.Hw { A.StopStream(hw, OFFLOAD) }

  function StopOutput(hw: A.Hw, s: O.Stream): A.Hw {
    if s.hasHook && s.state in {O.PAUSED, O.PAUSED_FLUSHED} then hw else Disable(hw)
  }

  function WriteOffload(hw: A.Hw, s: O.Stream, pathOk: bool, ch: A.Choice): A.Hw {
    if s.state == O.PAUSED_FLUSHED && pathOk then Enable(hw, ch) else hw
  }

  /** `ch` is what the device tables answer when a path is enabled, `again` what they answer the second time. */
  function StepRoutes(hw: A.Hw, s: O.Stream, op: O.Op, ch: A.Choice, again: A.Choice): A.Hw {
    match op
    case Write(startOk, result, pathOk, _) =>
      if !s.standby then WriteOffload(hw, s, pathOk, ch)
      else if !startOk then hw
      else if result == O.NotReady then StopOutput(Enable(hw, ch), s)
      else WriteOffload(Enable(hw, ch), s, pathOk, again)
    case Pause => if s.open && s.state == O.PLAYING then Disable(hw) else hw
    case Resume(pathOk) => if s.open && s.state == O.PAUSED && pathOk then Enable(hw, ch) else hw
    case Standby(blocked) => if s.standby || (s.open && blocked) then hw else StopOutput(hw, s)
    case StandbyWakes => if s.closing then StopOutput(hw, s) else hw
    case _ => hw
  }

  // ----- the ids of the routes are the list of the stream -----

  lemma {:induction false} SelectKeepsIds(hw: A.Hw, id: A.UsecaseId, ch: A.Choice)
    ensures A.Ids(A.SelectDevices(hw, id, ch).routes) == A.Ids(hw.routes)
    decreases ch
  {
    var i := A.IndexOf(hw.routes, id);
    if i >= 0 {
      var r := hw.routes[i];
      var (out, inp) := A.Inherited(hw, r);
      if r.kind == A.VoiceCall {
        ApplyKeepsIds(hw, i, ch.out, ch.inp);
      } else if r.kind == A.Capture {
        ApplyKeepsIds(hw, i, A.NONE, if inp == A.NONE then ch.inp else inp);
      } else if out != A.NONE {
        ApplyKeepsIds(hw, i, out, A.NONE);
      } else if A.NestedTarget(hw.routes).Some? && ch.nested.Some? {
        var t := A.NestedTarget(hw.routes).value;
        SelectKeepsIds(hw, t, ch.nested.value);
        ApplyKeepsIds(A.SelectDevices(hw, t, ch.nested.value), i, ch.out, A.NONE);
      } else {
        ApplyKeepsIds(hw, i, ch.out, A.NONE);
      }
    }
  }

  lemma {:induction false} ApplyKeepsIds(hw: A.Hw, i: nat, out: A.Device, inp: A.Device)
    requires i < |hw.routes|
    ensures A.Ids(A.Apply(hw, i, out, inp).routes) == A.Ids(hw.routes)
  {
    if hw.routes[i].out == out && hw.routes[i].inp == inp {
      A.ApplyUnchanged(hw, i, out, inp);
    } else {
      A.ApplyRoutes(hw, i, out, inp);
    }
  }

  lemma {:induction false} EnableIds(hw: A.Hw, ch: A.Choice)
    ensures A.Ids(Enable(hw, ch).routes) == A.Ids(hw.routes) + [O.OFFLOAD]
  {
    var r := A.Route(OFFLOAD, A.KindOf(OFFLOAD), A.NONE, A.NONE);
    SelectKeepsIds(hw.(routes := hw.routes + [r]), OFFLOAD, ch);
    assert A.Ids(hw.routes + [r]) == A.Ids(hw.routes) + [O.OFFLOAD];
  }

  lemma {:induction false} IndexIsFirst(rs: seq<A.Route>, id: A.UsecaseId)
    ensures A.IndexOf(rs, id) >= 0 ==> forall j :: 0 <= j < A.IndexOf(rs, id) ==> rs[j].id != id
  {
    if rs == [] || rs[0].id == id {
    } else {
      IndexIsFirst(rs[1..], id);
      var k := A.IndexOf(rs[1..], id);
      assert k >= 0 ==> forall j :: 0 < j < k + 1 ==> rs[j] == rs[1..][j - 1];
    }
  }

  lemma {:induction false} StopIds(hw: A.Hw, id: A.UsecaseId)
    ensures A.Ids(A.StopStream(hw, id).routes) == O.WithoutFirst(A.Ids(hw.routes), id)
  {
    var rs, i := hw.routes, A.IndexOf(hw.routes, id);
    IndexIsFirst(rs, id);
    if i >= 0 {
      O.FirstEntry(A.Ids(rs), id, i);
      assert A.Ids(A.Remove(rs, i)) == A.Ids(rs)[..i] + A.Ids(rs)[i + 1..];
    } else {
      O.FirstEntry(A.Ids(rs), id, |rs|);
    }
  }

  lemma {:induction false} StopRefines(hw: A.Hw, s: O.Stream)
    requires s.usecases == A.Ids(hw.routes)
    ensures O.StopOutput(s).usecases == A.Ids(StopOutput(hw, s).routes)
  {
    StopIds(hw, OFFLOAD);
    hide A.Ids, A.StopStream, O.WithoutFirst;
  }

  lemma {:induction false} WriteRefines(hw: A.Hw, s: O.Stream, pathOk: bool, ch: A.Choice)
    requires s.usecases == A.Ids(hw.routes)
    ensures O.WriteOffload(s, pathOk).0.usecases == A.Ids(WriteOffload(hw, s, pathOk, ch).routes)
  {
    EnableIds(hw, ch);
    hide A.Ids, Enable;
  }

  /** Whatever the state, a call does to the ids of the routes what `Offload` says it does to its list. */
  lemma {:induction false} StepRefines(hw: A.Hw, s: O.Stream, op: O.Op, ch: A.Choice, again: A.Choice)
    requires s.usecases == A.Ids(hw.routes)
    ensures O.Step(s, op).0.usecases == A.Ids(StepRoutes(hw, s, op, ch, again).routes)
  {
    hide A.Ids, Enable, Disable, StopOutput, WriteOffload, O.StopOutput, O.WriteOffload, O.WithoutFirst;
    match op
    case Write(startOk, result, pathOk, mic) =>
      EnableIds(hw, ch);
      WriteRefines(hw, s, pathOk, ch);
      var t := O.EnablePath(s).(open := result == O.Ready);
      var started := t.(standby := false, inputsLocked := s.inputsLocked || mic);
      WriteRefines(Enable(hw, ch), started, pathOk, again);
      StopRefines(Enable(hw, ch), t);
      StateOnly(Enable(hw, ch), s, t, pathOk, again);
      StateOnly(Enable(hw, ch), s, started, pathOk, again);
    case Pause =>
      DisableRefines(hw, s);
    case Resume(pathOk) =>
      EnableIds(hw, ch);
    case Standby(_) =>
      var t := s.(standby := true, closing := false, open := false);
      StopRefines(hw, t);
      StateOnly(hw, s, t, false, ch);
    case StandbyWakes =>
      var t := s.(closing := false, open := false);
      StopRefines(hw, t);
      StateOnly(hw, s, t, false, ch);
    case _ =>
  }

  lemma {:induction false} DisableRefines(hw: A.Hw, s: O.Stream)
    requires s.usecases == A.Ids(hw.routes)
    ensures O.DisablePath(s.(state := O.PAUSED)).usecases == A.Ids(Disable(hw).routes)
  {
    StopIds(hw, OFFLOAD);
    hide A.Ids, A.StopStream;
  }

  /** Only hook and play state decide what happens to the routes. */
  lemma {:induction false} StateOnly(hw: A.Hw, s: O.Stream, t: O.Stream, pathOk: bool, ch: A.Choice)
    requires s.state == t.state && s.hasHook == t.hasHook
    ensures StopOutput(hw, s) == StopOutput(hw, t)
    ensures WriteOffload(hw, s, pathOk, ch) == WriteOffload(hw, t, pathOk, ch)
  {}

  // ----- both invariants, over runs -----

  /** A call of the stream, or an event of another usecase, of a call, or of a change of routing. */
  datatype Event = OfStream(op: O.Op, ch: A.Choice, again: A.Choice) | OfDevice(event: A.Event)

  datatype Both = Both(hw: A.Hw, stream: O.Stream)

  /** A standby that sleeps keeps the device lock, so no event of others comes in between. */
  predicate IsAllowed(b: Both, e: Event) {
    match e
    case OfStream(op, _, _) => O.IsWell(b.stream, op)
    case OfDevice(event) =>
      !b.stream.closing && A.IsAllowed(b.hw, event) && (event.Start? || event.Stop? ==> event.id != OFFLOAD)
  }

  function Step(b: Both, e: Event): Both {
    match e
    case OfStream(op, ch, again) => Both(StepRoutes(b.hw, b.stream, op, ch, again), O.Step(b.stream, op).0)
    case OfDevice(event) =>
      var hw := A.Step(b.hw, event);
      Both(hw, b.stream.(usecases := A.Ids(hw.routes)))
  }

  /** Counts, ids, input device and call flag on one side, list and play state on the other. */
  predicate Inv(b: Both) {
    A.Base(b.hw) && b.stream.usecases == A.Ids(b.hw.routes) && O.Inv(b.stream) && O.FlushIsAlone(b.stream)
    && b.stream.hasHook && !b.stream.locked
  }

  lemma {:induction false} FirstIsAlone(rs: seq<A.Route>)
    requires rs != [] && A.UniqueIds(rs)
    ensures A.IndexOf(rs[1..], rs[0].id) < 0
  {
    assert forall j :: 0 <= j < |rs| - 1 ==> rs[1..][j] == rs[j + 1];
    assert forall j :: 0 <= j < |rs| - 1 ==> rs[1..][j].id != rs[0].id;
  }

  /** With unique ids, the list has an id once or not at all. */
  lemma {:induction false} CountOfIds(rs: seq<A.Route>, id: A.UsecaseId)
    requires A.UniqueIds(rs)
    ensures O.Count(A.Ids(rs), id) == if A.IndexOf(rs, id) >= 0 then 1 else 0
  {
    if rs == [] {
    } else {
      assert A.Ids(rs)[1..] == A.Ids(rs[1..]);
      assert A.UniqueIds(rs[1..]) by {
        assert forall i :: 0 <= i < |rs| - 1 ==> rs[1..][i] == rs[i + 1];
      }
      CountOfIds(rs[1..], id);
      FirstIsAlone(rs);
    }
  }

  lemma {:induction false} EnableKeeps(hw: A.Hw, ch: A.Choice)
    requires A.Base(hw) && A.IndexOf(hw.routes, OFFLOAD) < 0
    ensures A.Base(Enable(hw, ch)) && A.IndexOf(Enable(hw, ch).routes, OFFLOAD) >= 0
  {
    hide A.Core, A.Enter, A.IndexOf;
    A.EnterKeeps(hw, OFFLOAD, ch);
  }

  lemma {:induction false} DisableKeeps(hw: A.Hw)
    requires A.Base(hw)
    ensures A.Base(Disable(hw)) && A.IndexOf(Disable(hw).routes, OFFLOAD) < 0
  {
    hide A.Core, A.IndexOf;
    A.StopStreamKeeps(hw, OFFLOAD);
  }

  lemma {:induction false} RoutesKeepBase(hw: A.Hw, s: O.Stream, op: O.Op, ch: A.Choice, again: A.Choice)
    requires A.Base(hw) && O.Inv(s) && s.hasHook && O.IsWell(s, op)
    requires A.IndexOf(hw.routes, OFFLOAD) >= 0 <==> O.IsActive(s)
    ensures A.Base(StepRoutes(hw, s, op, ch, again))
  {
    hide A.Base, A.IndexOf, O.ListAgrees, Enable, Disable;
    DisableKeeps(hw);
    if A.IndexOf(hw.routes, OFFLOAD) < 0 {
      EnableKeeps(hw, ch);
      DisableKeeps(Enable(hw, ch));
    }
    match op
    case Write(_, _, _, _) =>
    case Pause =>
    case Resume(_) =>
    case Standby(_) =>
    case _ =>
  }

  lemma {:induction false} StreamStepKeeps(b: Both, e: Event)
    requires Inv(b) && IsAllowed(b, e) && e.OfStream?
    ensures Inv(Step(b, e))
  {
    var hw, s := b.hw, b.stream;
    CountOfIds(hw.routes, OFFLOAD);
    hide StepRoutes, A.Ids, A.Core, A.IndexOf, O.Count;
    StepRefines(hw, s, e.op, e.ch, e.again);
    O.StepIsWell(s, e.op);
    RoutesKeepBase(hw, s, e.op, e.ch, e.again);
    hide A.Base, O.Step;
  }

  /** A call that brings the stream's usecase in puts it at the end, on the device chosen for it. */
  lemma {:induction false} BroughtInRoute(b: Both, e: Event)
    requires Inv(b) && IsAllowed(b, e) && e.OfStream?
    requires !O.IsActive(b.stream) && O.IsActive(Step(b, e).stream)
    ensures var rs := Step(b, e).hw.routes;
            |rs| == |b.hw.routes| + 1
            && A.IsSelected(b.hw.routes, A.Route(2, A.Playback, A.NONE, A.NONE), e.ch, rs[|rs| - 1])
  {
    var hw := b.hw;
    CountOfIds(hw.routes, OFFLOAD);
    assert A.IndexOf(hw.routes, OFFLOAD) < 0;
    hide A.Ids, A.Core, A.IndexOf, O.Count, O.WithoutFirst, A.Enter, StepRoutes, O.Step, O.IsWell, A.IsSelected;
    BroughtIn(hw, b.stream, e.op, e.ch, e.again);
    A.EnteredIsSelected(hw, OFFLOAD, e.ch);
  }

  lemma {:induction false} BroughtIn(hw: A.Hw, s: O.Stream, op: O.Op, ch: A.Choice, again: A.Choice)
    requires O.Inv(s) && s.hasHook && O.IsWell(s, op) && !O.IsActive(s) && O.IsActive(O.Step(s, op).0)
    ensures StepRoutes(hw, s, op, ch, again) == Enable(hw, ch)
  {
    hide Enable, Disable, O.Count, O.WithoutFirst;
  }

  /** Events of others leave the stream's usecase where it is. */
  lemma {:induction false} OthersKeepListed(hw: A.Hw, event: A.Event)
    requires A.Base(hw) && A.IsAllowed(hw, event) && (event.Start? || event.Stop? ==> event.id != OFFLOAD)
    ensures A.IndexOf(A.Step(hw, event).routes, OFFLOAD) >= 0 <==> A.IndexOf(hw.routes, OFFLOAD) >= 0
  {
    hide A.SelectDevices, A.Core, A.OneBackend, A.OffloadReroute, A.Enter, A.IndexOf, A.StopVoiceCall, A.StopStream;
    match event
    case Start(id, ch, o) =>
      A.EnterKeeps(hw, id, ch);
      A.StopStreamKeeps(A.Enter(hw, id, ch), id);
    case Stop(id) =>
      A.StopStreamKeeps(hw, id);
    case Reroute(id, ch) =>
      A.SelectKeeps(hw, id, ch);
      A.SameIndex(hw.routes, A.SelectDevices(hw, id, ch).routes, OFFLOAD);
    case StartCall(ch, m) =>
      A.SetCall(hw);
      A.EnterKeeps(hw.(inCall := true), A.USECASE_VOICE_CALL, ch);
    case StopCall =>
      StopCallKeepsListed(hw);
    case RestartCall(ch, m) =>
      StopCallKeepsListed(hw);
      A.StopVoiceCallKeeps(hw);
      A.SetCall(A.StopVoiceCall(hw));
      A.EnterKeeps(A.StopVoiceCall(hw).(inCall := true), A.USECASE_VOICE_CALL, ch);
    case SetOffload(ch) =>
      A.OffloadRerouteKeeps(hw, ch);
      A.SameIndex(hw.routes, A.OffloadReroute(hw, ch).routes, OFFLOAD);
  }

  lemma {:induction false} StopCallKeepsListed(hw: A.Hw)
    requires A.Core(hw)
    ensures A.IndexOf(A.StopVoiceCall(hw).routes, OFFLOAD) >= 0 <==> A.IndexOf(hw.routes, OFFLOAD) >= 0
  {
    var i := A.IndexOf(hw.routes, A.USECASE_VOICE_CALL);
    if i >= 0 {
      A.RemovedIndex(hw.routes, i, OFFLOAD);
    }
  }

  lemma {:induction false} DeviceStepKeeps(b: Both, e: Event)
    requires Inv(b) && IsAllowed(b, e) && e.OfDevice?
    ensures Inv(Step(b, e))
  {
    A.StepKeeps(b.hw, e.event);
    OthersKeepListed(b.hw, e.event);
    CountOfIds(b.hw.routes, OFFLOAD);
    CountOfIds(A.Step(b.hw, e.event).routes, OFFLOAD);
    hide A.Step, A.IndexOf, A.Counted, O.Count, A.Ids;
  }

  function After(b: Both, events: seq<Event>): Both
    decreases |events|
  {
    if events == [] then b else After(Step(b, events[0]), events[1..])
  }

  predicate AreAllowed(b: Both, events: seq<Event>)
    decreases |events|
  {
    events == [] || (IsAllowed(b, events[0]) && AreAllowed(Step(b, events[0]), events[1..]))
  }

  const INITIAL: Both := Both(A.INITIAL, O.NewStream([]))

  lemma {:induction false} RunKeeps(b: Both, events: seq<Event>)
    requires Inv(b) && AreAllowed(b, events)
    ensures Inv(After(b, events))
    decreases |events|
  {
    if events == [] {
    } else {
      if events[0].OfStream? {
        StreamStepKeeps(b, events[0]);
      } else {
        DeviceStepKeeps(b, events[0]);
      }
      hide Inv, Step, IsAllowed;
      RunKeeps(Step(b, events[0]), events[1..]);
    }
  }

  /** After any run of stream calls and other events, every reference count is the number of live routes that expand to
      its device, and the stream has a route exactly when it is live and idle or playing.  So a paused stream, or one in
      standby, holds no device. */
  lemma {:induction false} CountsAndListAgree(events: seq<Event>)
    requires AreAllowed(INITIAL, events)
    ensures var b := After(INITIAL, events);
            A.Counted(b.hw.cnt, b.hw.routes)
            && (A.IndexOf(b.hw.routes, OFFLOAD) >= 0 <==> O.IsActive(b.stream))
            && b.stream.usecases == A.Ids(b.hw.routes)
  {
    A.NoneUnused([]);
    assert Inv(INITIAL) by {
      assert A.Counted(A.INITIAL.cnt, A.INITIAL.routes);
      assert A.Ids([]) == [];
    }
    RunKeeps(INITIAL, events);
    CountOfIds(After(INITIAL, events).hw.routes, OFFLOAD);
  }

  /** A stream that is paused or in standby, alone on the device, leaves every count at 0. */
  lemma {:induction false} PausedHoldsNothing(events: seq<Event>)
    requires AreAllowed(INITIAL, events) && !O.IsActive(After(INITIAL, events).stream)
    requires forall i :: 0 <= i < |After(INITIAL, events).hw.routes| ==>
               After(INITIAL, events).hw.routes[i].id == OFFLOAD
    ensures After(INITIAL, events).hw.cnt == A.NO_REFERENCES
  {
    CountsAndListAgree(events);
    var hw := After(INITIAL, events).hw;
    assert hw.routes == [];
    forall d: A.Device
      ensures hw.cnt[d] == 0
    {}
  }
}
