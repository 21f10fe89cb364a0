/** The routing state of the audio HAL, and what every operation on it keeps.

    A usecase in `adev->usecase_list` is a `Route`: its id, its type and the
    output and input sound devices that it holds.  The functions follow
    audio_hw.c step by step; the methods of `AudioHw.AudioDevice` are proved
    equal to them.  Which sound device `get_output_snd_device` and
    `get_input_snd_device` answer is arbitrary and given as a `Choice`. */
module AudioRouting {
  import opened Bits

  // ----- sound devices -----

  const SND_DEVICE_MAX := 36

  type Device = d: int | 0 <= d < SND_DEVICE_MAX

  const NONE: Device := 0
  const SPEAKER: Device := 2
  const HEADPHONES: Device := 3
  const SPEAKER_AND_HEADPHONES: Device := 4

  /** `calloc(SND_DEVICE_MAX, sizeof(int))`. */
  const NO_REFERENCES: seq<int> :=
    [0, 0, 0, 0, 0, 0, 0, 0, 0, 0, 0, 0, 0, 0, 0, 0, 0, 0, 0, 0, 0, 0, 0, 0, 0, 0, 0, 0, 0, 0, 0, 0, 0, 0, 0, 0]

  type Counts = c: seq<int> | |c| == SND_DEVICE_MAX witness NO_REFERENCES

  /** How many references a route to dev holds on the physical device d. */
  function Uses(dev: Device, d: Device): nat {
    if dev == NONE then 0
    else if dev == SPEAKER_AND_HEADPHONES then (if d == SPEAKER || d == HEADPHONES then 1 else 0)
    else if dev == d then 1 else 0
  }

  function EnableDevice(cnt: Counts, dev: Device): Counts
    decreases dev == SPEAKER_AND_HEADPHONES
  {
    if dev == SPEAKER_AND_HEADPHONES then EnableDevice(EnableDevice(cnt, SPEAKER), HEADPHONES)
    else cnt[dev := cnt[dev] + 1]
  }

  function DisableDevice(cnt: Counts, dev: Device): Counts
    decreases dev == SPEAKER_AND_HEADPHONES
  {
    if dev == SPEAKER_AND_HEADPHONES then DisableDevice(DisableDevice(cnt, SPEAKER), HEADPHONES)
    else if cnt[dev] <= 0 then cnt
    else cnt[dev := cnt[dev] - 1]
  }

  // ----- usecases -----

  datatype Kind = Playback | Capture | VoiceCall

  const USECASE_AUDIO_CAPTURE := 4
  const USECASE_VOICE_CALL := 5
  const AUDIO_USECASE_MAX := 6

  type UsecaseId = id: int | 0 <= id < AUDIO_USECASE_MAX

  function KindOf(id: UsecaseId): Kind {
    if id < USECASE_AUDIO_CAPTURE then Playback else if id == USECASE_AUDIO_CAPTURE then Capture else VoiceCall
  }

  datatype Route = Route(id: UsecaseId, kind: Kind, out: Device, inp: Device) {
    function Holds(d: Device): nat { Uses(out, d) + Uses(inp, d) }

    /** The device on the backend of the given type. */
    function On(kind: Kind): Device { if kind == Playback then out else inp }

    function Switch(kind: Kind, dev: Device): Route {
      if kind == Playback then this.(out := dev) else this.(inp := dev)
    }
  }

  /** `snd_dev_ref_cnt`, `usecase_list` and `voice.in_call`. */
  datatype Hw = Hw(cnt: Counts, routes: seq<Route>, inCall: bool)

  /** Number of live routes that expand to d. */
  function Load(rs: seq<Route>, d: Device): nat {
    if rs == [] then 0 else rs[0].Holds(d) + Load(rs[1..], d)
  }

  function IndexOf(rs: seq<Route>, id: UsecaseId): (i: int)
    ensures -1 <= i < |rs|
    ensures i >= 0 ==> rs[i].id == id
    ensures i < 0 ==> forall k :: 0 <= k < |rs| ==> rs[k].id != id
  {
    if rs == [] then -1
    else if rs[0].id == id then 0
    else var i := IndexOf(rs[1..], id); if i < 0 then -1 else i + 1
  }

  /** The first usecase of type capture or voice call, whose stream is taken for the active input. */
  function FirstInput(rs: seq<Route>): (i: int)
    ensures -1 <= i < |rs|
  {
    if rs == [] then -1
    else if rs[0].kind != Playback then 0
    else var i := FirstInput(rs[1..]); if i < 0 then -1 else i + 1
  }

  // ----- routing -----

  /** Whether `check_and_route_usecases` moves usecase i, when called for usecase `self`. */
  predicate IsSwitched(rs: seq<Route>, i: nat, self: nat, kind: Kind, dev: Device)
    requires i < |rs|
  {
    i != self && rs[i].kind == kind && rs[i].On(kind) != dev
  }

  function SwitchRoutes(rs: seq<Route>, self: nat, kind: Kind, dev: Device): (rs': seq<Route>)
    ensures |rs'| == |rs|
    ensures forall i :: 0 <= i < |rs| ==>
      rs'[i] == if IsSwitched(rs, i, self, kind, dev) then rs[i].Switch(kind, dev) else rs[i]
  {
    seq(|rs|, i requires 0 <= i < |rs| =>
      if IsSwitched(rs, i, self, kind, dev) then rs[i].Switch(kind, dev) else rs[i])
  }

  /** The counts after the first n usecases have been visited. */
  function SwitchCounts(cnt: Counts, rs: seq<Route>, self: nat, kind: Kind, dev: Device, n: nat): Counts
    requires n <= |rs|
  {
    if n == 0 then cnt
    else
      var c := SwitchCounts(cnt, rs, self, kind, dev, n - 1);
      if IsSwitched(rs, n - 1, self, kind, dev) then EnableDevice(DisableDevice(c, rs[n - 1].On(kind)), dev) else c
  }

  /** Moves the other usecases of a type to dev and enables it for usecase `self`; nothing for NONE. */
  function Attach(cnt: Counts, rs: seq<Route>, self: nat, kind: Kind, dev: Device): (r: (Counts, seq<Route>))
    requires self < |rs|
    ensures |r.1| == |rs|
  {
    if dev == NONE then (cnt, rs)
    else (EnableDevice(SwitchCounts(cnt, rs, self, kind, dev, |rs|), dev), SwitchRoutes(rs, self, kind, dev))
  }

  function AttachBoth(cnt: Counts, rs: seq<Route>, self: nat, out: Device, inp: Device): (r: (Counts, seq<Route>))
    requires self < |rs|
    ensures |r.1| == |rs|
  {
    var a := Attach(cnt, rs, self, Playback, out);
    Attach(a.0, a.1, self, Capture, inp)
  }

  function Release(cnt: Counts, dev: Device): Counts {
    if dev != NONE then DisableDevice(cnt, dev) else cnt
  }

  /** The second half of `select_devices`: usecase i goes to the devices out and inp. */
  function Apply(hw: Hw, i: nat, out: Device, inp: Device): (hw': Hw)
    requires i < |hw.routes|
    ensures |hw'.routes| == |hw.routes| && hw'.inCall == hw.inCall
  {
    var r := hw.routes[i];
    if out == r.out && inp == r.inp then hw
    else
      var c0 := Release(Release(hw.cnt, r.out), r.inp);
      var a := AttachBoth(c0, hw.routes, i, out, inp);
      hw.(cnt := a.0, routes := a.1[i := r.(out := out, inp := inp)])
  }

  /** The answers of the device tables, and of the test for a nested `select_devices`. */
  datatype Choice = Choice(out: Device, inp: Device, nested: Option<Choice>)

  /** The devices that usecase r inherits from a voice call. */
  function Inherited(hw: Hw, r: Route): (Device, Device) {
    var vc := if r.kind != VoiceCall && hw.inCall then IndexOf(hw.routes, USECASE_VOICE_CALL) else -1;
    if vc >= 0 then (hw.routes[vc].out, hw.routes[vc].inp) else (NONE, NONE)
  }

  /** The capture usecase that the playback branch may route first. */
  function NestedTarget(rs: seq<Route>): Option<UsecaseId> {
    var i := FirstInput(rs);
    if i >= 0 && rs[i].kind == Capture then Some(rs[i].id) else None
  }

  function SelectDevices(hw: Hw, id: UsecaseId, ch: Choice): (hw': Hw)
    ensures |hw'.routes| == |hw.routes| && hw'.inCall == hw.inCall
    decreases ch
  {
    var i := IndexOf(hw.routes, id);
    if i < 0 then hw
    else
      var r := hw.routes[i];
      var (out, inp) := Inherited(hw, r);
      match r.kind
      case VoiceCall => Apply(hw, i, ch.out, ch.inp)
      case Capture => Apply(hw, i, NONE, if inp == NONE then ch.inp else inp)
      case Playback =>
        if out != NONE then Apply(hw, i, out, NONE)
        else if NestedTarget(hw.routes).Some? && ch.nested.Some? then
          Apply(SelectDevices(hw, NestedTarget(hw.routes).value, ch.nested.value), i, ch.out, NONE)
        else Apply(hw, i, ch.out, NONE)
  }

  // ----- operations -----

  function Remove(rs: seq<Route>, i: nat): seq<Route>
    requires i < |rs|
  {
    rs[..i] + rs[i + 1..]
  }

  /** Appends a usecase without devices and routes it. */
  function Enter(hw: Hw, id: UsecaseId, ch: Choice): Hw {
    SelectDevices(hw.(routes := hw.routes + [Route(id, KindOf(id), NONE, NONE)]), id, ch)
  }

  /** Stops a stream: one device is released and the usecase leaves the list. */
  function StopStream(hw: Hw, id: UsecaseId): Hw {
    var i := IndexOf(hw.routes, id);
    if i < 0 then hw
    else
      var r := hw.routes[i];
      hw.(cnt := DisableDevice(hw.cnt, if r.kind == Capture then r.inp else r.out), routes := Remove(hw.routes, i))
  }

  function StopVoiceCall(hw: Hw): Hw {
    var i := IndexOf(hw.routes, USECASE_VOICE_CALL);
    if i < 0 then hw.(inCall := false)
    else
      var r := hw.routes[i];
      Hw(DisableDevice(DisableDevice(hw.cnt, r.out), r.inp), Remove(hw.routes, i), false)
  }

  /** How the start of a stream goes: no memory or profile, or routed and then opened or not. */
  datatype Outcome = Unavailable | OpenFails | Opens

  function StartStream(hw: Hw, id: UsecaseId, ch: Choice, o: Outcome): Hw {
    match o
    case Unavailable => hw
    case Opens => Enter(hw, id, ch)
    case OpenFails => StopStream(Enter(hw, id, ch), id)
  }

  function StartVoiceCall(hw: Hw, ch: Choice, memory: bool): Hw {
    if memory then Enter(hw.(inCall := true), USECASE_VOICE_CALL, ch) else hw
  }

  const USECASE_AUDIO_PLAYBACK_OFFLOAD: UsecaseId := 2

  /** `out_set_offload_parameters`: an offload usecase on the combo device gives up its speaker. */
  function TrimCombo(hw: Hw): Hw {
    var i := IndexOf(hw.routes, USECASE_AUDIO_PLAYBACK_OFFLOAD);
    if i >= 0 && hw.routes[i].out == SPEAKER_AND_HEADPHONES then
      hw.(cnt := DisableDevice(hw.cnt, SPEAKER), routes := hw.routes[i := hw.routes[i].(out := HEADPHONES)])
    else hw
  }

  /** What `out_set_parameters` does to an offload stream that stays on its PCM devices. */
  function OffloadReroute(hw: Hw, ch: Choice): Hw {
    SelectDevices(TrimCombo(hw), USECASE_AUDIO_PLAYBACK_OFFLOAD, ch)
  }

  /** The output device that the offload usecase is sent to. */
  function OffloadTarget(hw: Hw, ch: Choice): Device {
    var i := IndexOf(hw.routes, USECASE_AUDIO_PLAYBACK_OFFLOAD);
    var out := if i >= 0 then Inherited(hw, hw.routes[i]).0 else NONE;
    if out != NONE then out else ch.out
  }

  /** The offload usecase leaves the combo device for the headphones, and others stay on it. */
  predicate LeavesOthersOnCombo(hw: Hw, ch: Choice) {
    var i := IndexOf(hw.routes, USECASE_AUDIO_PLAYBACK_OFFLOAD);
    i >= 0 && hw.routes[i].out == SPEAKER_AND_HEADPHONES && OffloadTarget(hw, ch) == HEADPHONES
    && exists j :: 0 <= j < |hw.routes| && j != i && hw.routes[j].kind != Capture && hw.routes[j].out != NONE
  }

  datatype Event =
    | Start(id: UsecaseId, ch: Choice, outcome: Outcome)
    | Stop(id: UsecaseId)
    | Reroute(id: UsecaseId, ch: Choice)
    | StartCall(ch: Choice, memory: bool)
    | StopCall
    | RestartCall(ch: Choice, memory: bool)
    | SetOffload(ch: Choice)

  /** What the callers see to: one live usecase per id, and no second call. */
  predicate IsAllowed(hw: Hw, e: Event) {
    match e
    case Start(id, _, _) => id != USECASE_VOICE_CALL && IndexOf(hw.routes, id) < 0
    case Stop(id) => id != USECASE_VOICE_CALL
    case Reroute(id, _) => id != USECASE_VOICE_CALL
    case StartCall(_, _) => !hw.inCall
    case StopCall => true
    case RestartCall(_, _) => hw.inCall
    case SetOffload(_) => true
  }

  function Step(hw: Hw, e: Event): Hw {
    match e
    case Start(id, ch, o) => StartStream(hw, id, ch, o)
    case Stop(id) => StopStream(hw, id)
    case Reroute(id, ch) => SelectDevices(hw, id, ch)
    case StartCall(ch, a) => StartVoiceCall(hw, ch, a)
    case StopCall => StopVoiceCall(hw)
    case RestartCall(ch, a) => StartVoiceCall(StopVoiceCall(hw), ch, a)
    case SetOffload(ch) => OffloadReroute(hw, ch)
  }

  const INITIAL: Hw := Hw(NO_REFERENCES, [], false)

  /** The states of every run from the initial one. */
  predicate IsRun(states: seq<Hw>, events: seq<Event>) {
    |states| == |events| + 1 && states[0] == INITIAL
    && forall k :: 0 <= k < |events| ==>
         IsAllowed(states[k], events[k]) && states[k + 1] == Step(states[k], events[k])
  }

  // ----- what every operation keeps -----

  /** Every count is the number of live routes that expand to the device. */
  predicate Counted(cnt: Counts, rs: seq<Route>) {
    forall d: Device :: cnt[d] == Load(rs, d)
  }

  predicate UniqueIds(rs: seq<Route>) {
    forall i, j :: 0 <= i < j < |rs| ==> rs[i].id != rs[j].id
  }

  predicate WellTyped(rs: seq<Route>) {
    forall i :: 0 <= i < |rs| ==>
      rs[i].kind == KindOf(rs[i].id)
      && (rs[i].kind == Playback ==> rs[i].inp == NONE)
      && (rs[i].kind == Capture ==> rs[i].out == NONE)
  }

  /** Usecases that share a backend, and have a device on it, have the same one. */
  predicate OneBackend(rs: seq<Route>, kind: Kind) {
    forall i, j :: 0 <= i < |rs| && 0 <= j < |rs|
      && rs[i].kind in {kind, VoiceCall} && rs[j].kind in {kind, VoiceCall}
      && rs[i].On(kind) != NONE && rs[j].On(kind) != NONE
      ==> rs[i].On(kind) == rs[j].On(kind)
  }

  /** What holds in every state, whatever the runs: counts, unique ids, one input device, and a call
      is on exactly when its usecase is in the list. */
  predicate Base(hw: Hw) {
    Core(hw) && (hw.inCall <==> IndexOf(hw.routes, USECASE_VOICE_CALL) >= 0)
  }

  predicate Core(hw: Hw) {
    Counted(hw.cnt, hw.routes) && UniqueIds(hw.routes) && WellTyped(hw.routes)
    && OneBackend(hw.routes, Capture)
  }

  /** ...and there is one output device, too. */
  predicate Inv(hw: Hw) { Base(hw) && OneBackend(hw.routes, Playback) }

  // ----- reference counts -----

  lemma {:induction false} EnableAdds(cnt: Counts, dev: Device)
    requires dev != NONE
    ensures forall d: Device :: EnableDevice(cnt, dev)[d] == cnt[d] + Uses(dev, d)
    decreases dev == SPEAKER_AND_HEADPHONES
  {
    if dev == SPEAKER_AND_HEADPHONES {
      EnableAdds(cnt, SPEAKER);
      EnableAdds(EnableDevice(cnt, SPEAKER), HEADPHONES);
    }
  }

  /** Releasing what is held never meets the guard against negative counts. */
  lemma {:induction false} DisableSubtracts(cnt: Counts, dev: Device)
    requires forall d: Device :: cnt[d] >= Uses(dev, d)
    requires cnt[NONE] == 0
    ensures forall d: Device :: DisableDevice(cnt, dev)[d] == cnt[d] - Uses(dev, d)
  {
    if dev == SPEAKER_AND_HEADPHONES {
      assert cnt[SPEAKER] >= Uses(dev, SPEAKER) == 1 && cnt[HEADPHONES] >= Uses(dev, HEADPHONES) == 1;
    } else if dev != NONE {
      assert cnt[dev] >= Uses(dev, dev) == 1;
    }
  }

  lemma {:induction false} LoadUpdate(rs: seq<Route>, i: nat, r: Route, d: Device)
    requires i < |rs|
    ensures Load(rs[i := r], d) == Load(rs, d) - rs[i].Holds(d) + r.Holds(d)
    ensures Load(rs, d) >= rs[i].Holds(d)
  {
    if i == 0 {
      assert rs[0 := r][1..] == rs[1..];
    } else {
      assert rs[i := r][1..] == rs[1..][i - 1 := r];
      LoadUpdate(rs[1..], i - 1, r, d);
    }
  }

  lemma {:induction false} LoadAppend(rs: seq<Route>, r: Route, d: Device)
    ensures Load(rs + [r], d) == Load(rs, d) + r.Holds(d)
  {
    if rs == [] {
      assert [] + [r] == [r];
    } else {
      assert (rs + [r])[1..] == rs[1..] + [r];
      LoadAppend(rs[1..], r, d);
    }
  }

  lemma {:induction false} LoadRemove(rs: seq<Route>, i: nat, d: Device)
    requires i < |rs|
    ensures Load(Remove(rs, i), d) == Load(rs, d) - rs[i].Holds(d)
  {
    if i == 0 {
      assert Remove(rs, 0) == rs[1..];
    } else {
      assert Remove(rs, i)[1..] == Remove(rs[1..], i - 1);
      LoadRemove(rs[1..], i - 1, d);
    }
  }

  lemma {:induction false} NoneUnused(rs: seq<Route>)
    ensures Load(rs, NONE) == 0
  {
    if rs != [] {
      NoneUnused(rs[1..]);
    }
  }

  /** Releasing one device of a counted state, and writing NONE in its place. */
  lemma {:induction false} ReleaseCounted(cnt: Counts, rs: seq<Route>, i: nat, kind: Kind)
    requires i < |rs| && Counted(cnt, rs)
    ensures Counted(DisableDevice(cnt, rs[i].On(kind)), rs[i := rs[i].Switch(kind, NONE)])
    ensures Counted(Release(cnt, rs[i].On(kind)), rs[i := rs[i].Switch(kind, NONE)])
  {
    var dev := rs[i].On(kind);
    var r := rs[i].Switch(kind, NONE);
    NoneUnused(rs);
    assert cnt[NONE] == 0;
    forall d: Device
      ensures cnt[d] >= Uses(dev, d)
      ensures Load(rs[i := r], d) == cnt[d] - Uses(dev, d)
    {
      LoadUpdate(rs, i, r, d);
    }
    DisableSubtracts(cnt, dev);
  }

  lemma {:induction false} EnableCounted(cnt: Counts, rs: seq<Route>, i: nat, kind: Kind, dev: Device)
    requires i < |rs| && rs[i].On(kind) == NONE && dev != NONE && Counted(cnt, rs)
    ensures Counted(EnableDevice(cnt, dev), rs[i := rs[i].Switch(kind, dev)])
  {
    EnableAdds(cnt, dev);
    forall d: Device
      ensures Load(rs[i := rs[i].Switch(kind, dev)], d) == cnt[d] + Uses(dev, d)
    {
      LoadUpdate(rs, i, rs[i].Switch(kind, dev), d);
    }
  }

  /** The routes after the first n usecases have been visited. */
  function SwitchPrefix(rs: seq<Route>, self: nat, kind: Kind, dev: Device, n: nat): (rs': seq<Route>)
    requires n <= |rs|
    ensures |rs'| == |rs|
  {
    SwitchRoutes(rs, self, kind, dev)[..n] + rs[n..]
  }

  lemma {:induction false} SwitchPrefixStep(rs: seq<Route>, self: nat, kind: Kind, dev: Device, i: nat)
    requires i < |rs|
    ensures var p := SwitchPrefix(rs, self, kind, dev, i);
      p[i] == rs[i] && SwitchPrefix(rs, self, kind, dev, i + 1)
        == if IsSwitched(rs, i, self, kind, dev) then p[i := rs[i].Switch(kind, dev)] else p
  {}

  /** Moving one usecase from its device to another. */
  lemma {:induction false} MoveCounted(cnt: Counts, rs: seq<Route>, i: nat, kind: Kind, dev: Device)
    requires i < |rs| && dev != NONE && Counted(cnt, rs)
    ensures Counted(EnableDevice(DisableDevice(cnt, rs[i].On(kind)), dev), rs[i := rs[i].Switch(kind, dev)])
  {
    ReleaseCounted(cnt, rs, i, kind);
    var rs' := rs[i := rs[i].Switch(kind, NONE)];
    EnableCounted(DisableDevice(cnt, rs[i].On(kind)), rs', i, kind, dev);
    assert rs'[i := rs'[i].Switch(kind, dev)] == rs[i := rs[i].Switch(kind, dev)];
  }

  lemma {:induction false} SwitchCounted(cnt: Counts, rs: seq<Route>, self: nat, kind: Kind, dev: Device, n: nat)
    requires n <= |rs| && dev != NONE && Counted(cnt, rs)
    ensures Counted(SwitchCounts(cnt, rs, self, kind, dev, n), SwitchPrefix(rs, self, kind, dev, n))
  {
    if n == 0 {
      assert SwitchPrefix(rs, self, kind, dev, 0) == rs;
    } else {
      SwitchCounted(cnt, rs, self, kind, dev, n - 1);
      var c := SwitchCounts(cnt, rs, self, kind, dev, n - 1);
      var p := SwitchPrefix(rs, self, kind, dev, n - 1);
      SwitchPrefixStep(rs, self, kind, dev, n - 1);
      if IsSwitched(rs, n - 1, self, kind, dev) {
        MoveCounted(c, p, n - 1, kind, dev);
      }
    }
  }

  lemma {:induction false} AttachCounted(cnt: Counts, rs: seq<Route>, self: nat, kind: Kind, dev: Device)
    requires self < |rs| && rs[self].On(kind) == NONE && Counted(cnt, rs)
    ensures var a := Attach(cnt, rs, self, kind, dev);
      Counted(a.0, a.1[self := rs[self].Switch(kind, dev)])
  {
    if dev == NONE {
      assert rs[self := rs[self].Switch(kind, dev)] == rs;
    } else {
      SwitchCounted(cnt, rs, self, kind, dev, |rs|);
      assert SwitchPrefix(rs, self, kind, dev, |rs|) == SwitchRoutes(rs, self, kind, dev);
      EnableCounted(SwitchCounts(cnt, rs, self, kind, dev, |rs|), SwitchRoutes(rs, self, kind, dev), self, kind, dev);
    }
  }

  /** Nothing that is done to the others depends on the devices of usecase `self`. */
  lemma {:induction false} SwitchIgnoresSelf(cnt: Counts, rs: seq<Route>, r: Route, self: nat, kind: Kind,
                                             dev: Device, n: nat)
    requires self < |rs| && n <= |rs|
    ensures SwitchCounts(cnt, rs[self := r], self, kind, dev, n) == SwitchCounts(cnt, rs, self, kind, dev, n)
  {
    if n == 0 {
    } else {
      SwitchIgnoresSelf(cnt, rs, r, self, kind, dev, n - 1);
    }
  }

  lemma {:induction false} AttachIgnoresSelf(cnt: Counts, rs: seq<Route>, r: Route, self: nat, kind: Kind, dev: Device)
    requires self < |rs|
    ensures var a, a' := Attach(cnt, rs, self, kind, dev), Attach(cnt, rs[self := r], self, kind, dev);
      a'.0 == a.0 && a'.1 == a.1[self := r]
  {
    SwitchIgnoresSelf(cnt, rs, r, self, kind, dev, |rs|);
  }

  lemma {:induction false} ApplyCounted(hw: Hw, i: nat, out: Device, inp: Device)
    requires i < |hw.routes| && Counted(hw.cnt, hw.routes)
    ensures Counted(Apply(hw, i, out, inp).cnt, Apply(hw, i, out, inp).routes)
  {
    var rs := hw.routes;
    var r := rs[i];
    var off := r.(out := NONE, inp := NONE);
    var c0 := Release(Release(hw.cnt, r.out), r.inp);
    ReleaseBothCounted(hw.cnt, rs, i);
    var a1 := Attach(c0, rs, i, Playback, out);
    AttachIgnoresSelf(c0, rs, off, i, Playback, out);
    AttachCounted(c0, rs[i := off], i, Playback, out);
    var half := off.(out := out);
    assert a1.1[i := off][i := half] == a1.1[i := half];
    var a2 := Attach(a1.0, a1.1, i, Capture, inp);
    AttachIgnoresSelf(a1.0, a1.1, half, i, Capture, inp);
    AttachCounted(a1.0, a1.1[i := half], i, Capture, inp);
    assert a2.1[i := half][i := half.(inp := inp)] == a2.1[i := r.(out := out, inp := inp)];
  }

  lemma {:induction false} ReleaseBothCounted(cnt: Counts, rs: seq<Route>, i: nat)
    requires i < |rs| && Counted(cnt, rs)
    ensures Counted(Release(Release(cnt, rs[i].out), rs[i].inp), rs[i := rs[i].(out := NONE, inp := NONE)])
    ensures Counted(DisableDevice(DisableDevice(cnt, rs[i].out), rs[i].inp), rs[i := rs[i].(out := NONE, inp := NONE)])
  {
    var r := rs[i];
    var rs1 := rs[i := r.(out := NONE)];
    ReleaseCounted(cnt, rs, i, Playback);
    ReleaseCounted(Release(cnt, r.out), rs1, i, Capture);
    ReleaseCounted(DisableDevice(cnt, r.out), rs1, i, Capture);
    assert rs1[i := rs1[i].Switch(Capture, NONE)] == rs[i := r.(out := NONE, inp := NONE)];
  }

  // ----- routes -----

  predicate SameUsecases(rs: seq<Route>, rs': seq<Route>) {
    |rs'| == |rs| && forall i :: 0 <= i < |rs| ==> rs'[i].id == rs[i].id && rs'[i].kind == rs[i].kind
  }

  /** Where another usecase ends up when one is put on the devices out and inp. */
  function Settled(r: Route, out: Device, inp: Device): Route {
    if r.kind == Playback && out != NONE then r.(out := out)
    else if r.kind == Capture && inp != NONE then r.(inp := inp)
    else r
  }

  lemma {:induction false} ApplyRoutes(hw: Hw, i: nat, out: Device, inp: Device)
    requires i < |hw.routes|
    requires hw.routes[i].out != out || hw.routes[i].inp != inp
    ensures var rs' := Apply(hw, i, out, inp).routes;
      rs'[i] == hw.routes[i].(out := out, inp := inp)
      && forall j :: 0 <= j < |hw.routes| && j != i ==> rs'[j] == Settled(hw.routes[j], out, inp)
  {
    var r := hw.routes[i];
    var c0 := Release(Release(hw.cnt, r.out), r.inp);
    var a1 := Attach(c0, hw.routes, i, Playback, out);
    AttachRoutes(c0, hw.routes, i, Playback, out);
    AttachRoutes(a1.0, a1.1, i, Capture, inp);
  }

  lemma {:induction false} AttachRoutes(cnt: Counts, rs: seq<Route>, i: nat, kind: Kind, dev: Device)
    requires i < |rs|
    ensures var rs' := Attach(cnt, rs, i, kind, dev).1;
      forall j :: 0 <= j < |rs| && j != i ==>
           rs'[j] == if dev != NONE && rs[j].kind == kind then rs[j].Switch(kind, dev) else rs[j]
  {}

  /** What select_devices sees to before it applies a choice: the devices of a running call win,
      and a stream has no device of the other direction. */
  predicate IsProper(rs: seq<Route>, i: nat, out: Device, inp: Device)
    requires i < |rs|
  {
    (rs[i].kind == Playback ==> inp == NONE) && (rs[i].kind == Capture ==> out == NONE)
    && forall v :: 0 <= v < |rs| && v != i && rs[v].kind == VoiceCall ==>
         (out == NONE || rs[v].out == NONE || rs[v].out == out)
         && (inp == NONE || rs[v].inp == NONE || rs[v].inp == inp)
  }

  /** `OneBackend` without usecase i. */
  predicate OthersAgree(rs: seq<Route>, i: nat, kind: Kind) {
    forall j, k :: 0 <= j < |rs| && 0 <= k < |rs| && j != i && k != i
      && rs[j].kind in {kind, VoiceCall} && rs[k].kind in {kind, VoiceCall}
      && rs[j].On(kind) != NONE && rs[k].On(kind) != NONE
      ==> rs[j].On(kind) == rs[k].On(kind)
  }

  lemma {:induction false} ApplyOneBackend(rs: seq<Route>, rs': seq<Route>, i: nat, out: Device, inp: Device,
                                           kind: Kind)
    requires i < |rs| == |rs'| && kind != VoiceCall
    requires UniqueIds(rs) && WellTyped(rs) && OthersAgree(rs, i, kind) && IsProper(rs, i, out, inp)
    requires rs'[i] == rs[i].(out := out, inp := inp)
    requires forall j :: 0 <= j < |rs| && j != i ==> rs'[j] == Settled(rs[j], out, inp)
    ensures OneBackend(rs', kind)
  {
    var dev := if kind == Playback then out else inp;
    if dev != NONE {
      forall j | 0 <= j < |rs| && rs'[j].kind in {kind, VoiceCall} && rs'[j].On(kind) != NONE
        ensures rs'[j].On(kind) == dev
      {
        if j != i && rs[j].kind == VoiceCall && rs[i].kind == VoiceCall {
          OneVoiceCall(rs, i, j);
        }
      }
    } else {
      forall j | 0 <= j < |rs| && rs'[j].kind in {kind, VoiceCall} && rs'[j].On(kind) != NONE
        ensures j != i && rs'[j].On(kind) == rs[j].On(kind) && rs[j].kind == rs'[j].kind
      {}
    }
  }

  lemma {:induction false} OneVoiceCall(rs: seq<Route>, i: nat, j: nat)
    requires i < |rs| && j < |rs| && UniqueIds(rs) && WellTyped(rs)
    requires rs[i].kind == VoiceCall && rs[j].kind == VoiceCall
    ensures i == j
  {
    assert rs[i].id == USECASE_VOICE_CALL == rs[j].id;
  }

  lemma {:induction false} ApplyKeeps(hw: Hw, i: nat, out: Device, inp: Device)
    requires Core(hw) && i < |hw.routes| && IsProper(hw.routes, i, out, inp)
    ensures Core(Apply(hw, i, out, inp))
    ensures OneBackend(hw.routes, Playback) ==> OneBackend(Apply(hw, i, out, inp).routes, Playback)
    ensures SameUsecases(hw.routes, Apply(hw, i, out, inp).routes)
  {
    hide Apply, Counted, OneBackend, OthersAgree;
    var rs, rs' := hw.routes, Apply(hw, i, out, inp).routes;
    if rs[i].out == out && rs[i].inp == inp {
      ApplyUnchanged(hw, i, out, inp);
    } else {
      ApplyCounted(hw, i, out, inp);
      ApplyRoutes(hw, i, out, inp);
      AllAgree(rs, i, Capture);
      ApplyOneBackend(rs, rs', i, out, inp, Capture);
      if OneBackend(rs, Playback) {
        AllAgree(rs, i, Playback);
        ApplyOneBackend(rs, rs', i, out, inp, Playback);
      }
    }
  }

  lemma {:induction false} AllAgree(rs: seq<Route>, i: nat, kind: Kind)
    requires OneBackend(rs, kind)
    ensures OthersAgree(rs, i, kind)
  {}

  lemma {:induction false} ApplyUnchanged(hw: Hw, i: nat, out: Device, inp: Device)
    requires i < |hw.routes| && hw.routes[i].out == out && hw.routes[i].inp == inp
    ensures Apply(hw, i, out, inp) == hw
  {}

  lemma {:induction false} SameIndex(rs: seq<Route>, rs': seq<Route>, id: UsecaseId)
    requires SameUsecases(rs, rs')
    ensures IndexOf(rs', id) == IndexOf(rs, id)
  {
    if rs != [] {
      SameIndex(rs[1..], rs'[1..], id);
    }
  }

  /** With a running call, a stream that inherits its devices does not disagree with it. */
  lemma {:induction false} InheritedIsProper(hw: Hw, i: nat, out: Device, inp: Device)
    requires Core(hw) && i < |hw.routes| && hw.routes[i].kind != VoiceCall
    requires IndexOf(hw.routes, USECASE_VOICE_CALL) >= 0 ==> hw.inCall
    requires hw.routes[i].kind == Playback ==> inp == NONE
    requires hw.routes[i].kind == Capture ==> out == NONE
    requires out != NONE ==> Inherited(hw, hw.routes[i]).0 in {NONE, out}
    requires inp != NONE ==> Inherited(hw, hw.routes[i]).1 in {NONE, inp}
    ensures IsProper(hw.routes, i, out, inp)
  {
    var rs := hw.routes;
    forall v | 0 <= v < |rs| && v != i && rs[v].kind == VoiceCall
      ensures hw.inCall && v == IndexOf(rs, USECASE_VOICE_CALL)
    {
      assert rs[v].id == USECASE_VOICE_CALL;
      OneVoiceCall(rs, v, IndexOf(rs, USECASE_VOICE_CALL));
    }
  }

  /** Routing a capture stream leaves the devices of all others but capture streams alone. */
  lemma {:induction false} CaptureLeavesOthers(hw: Hw, i: nat, inp: Device)
    requires i < |hw.routes| && hw.routes[i].kind == Capture && WellTyped(hw.routes)
    ensures var rs' := Apply(hw, i, NONE, inp).routes;
      forall j :: 0 <= j < |hw.routes| && hw.routes[j].kind != Capture ==> rs'[j] == hw.routes[j]
  {
    if hw.routes[i].inp == inp {
      ApplyUnchanged(hw, i, NONE, inp);
    } else {
      ApplyRoutes(hw, i, NONE, inp);
    }
  }

  /** select_devices keeps the counts, the one-backend rule and the list of usecases. */
  lemma {:induction false} SelectKeeps(hw: Hw, id: UsecaseId, ch: Choice)
    requires Core(hw)
    requires IndexOf(hw.routes, USECASE_VOICE_CALL) >= 0 ==> hw.inCall
    ensures Core(SelectDevices(hw, id, ch))
    ensures OneBackend(hw.routes, Playback) ==> OneBackend(SelectDevices(hw, id, ch).routes, Playback)
    ensures SameUsecases(hw.routes, SelectDevices(hw, id, ch).routes)
    ensures KindOf(id) == Capture ==>
      forall j :: 0 <= j < |hw.routes| && hw.routes[j].kind != Capture ==>
        SelectDevices(hw, id, ch).routes[j] == hw.routes[j]
    decreases ch
  {
    hide Apply, Counted, OneBackend, UniqueIds;
    var i := IndexOf(hw.routes, id);
    if i >= 0 {
      var r := hw.routes[i];
      var (out, inp) := Inherited(hw, r);
      match r.kind
      case VoiceCall =>
        VoiceIsProper(hw.routes, i, ch.out, ch.inp);
        ApplyKeeps(hw, i, ch.out, ch.inp);
      case Capture =>
        var inp' := if inp == NONE then ch.inp else inp;
        InheritedIsProper(hw, i, NONE, inp');
        ApplyKeeps(hw, i, NONE, inp');
        CaptureLeavesOthers(hw, i, inp');
      case Playback =>
        SelectPlaybackKeeps(hw, id, ch);
    }
  }

  lemma {:induction false} VoiceIsProper(rs: seq<Route>, i: nat, out: Device, inp: Device)
    requires i < |rs| && UniqueIds(rs) && WellTyped(rs) && rs[i].kind == VoiceCall
    ensures IsProper(rs, i, out, inp)
  {
    forall v | 0 <= v < |rs| && rs[v].kind == VoiceCall
      ensures v == i
    {
      OneVoiceCall(rs, i, v);
    }
  }

  lemma {:induction false} SelectPlaybackKeeps(hw: Hw, id: UsecaseId, ch: Choice)
    requires Core(hw)
    requires IndexOf(hw.routes, USECASE_VOICE_CALL) >= 0 ==> hw.inCall
    requires IndexOf(hw.routes, id) >= 0 && hw.routes[IndexOf(hw.routes, id)].kind == Playback
    ensures Core(SelectDevices(hw, id, ch))
    ensures OneBackend(hw.routes, Playback) ==> OneBackend(SelectDevices(hw, id, ch).routes, Playback)
    ensures SameUsecases(hw.routes, SelectDevices(hw, id, ch).routes)
    decreases ch, 0
  {
    hide Apply, Counted, OneBackend, UniqueIds;
    var i := IndexOf(hw.routes, id);
    var r := hw.routes[i];
    var out := Inherited(hw, r).0;
    if out == NONE && NestedTarget(hw.routes).Some? && ch.nested.Some? {
      var target := NestedTarget(hw.routes).value;
      var hw1 := SelectDevices(hw, target, ch.nested.value);
      SelectKeeps(hw, target, ch.nested.value);
      SameIndex(hw.routes, hw1.routes, USECASE_VOICE_CALL);
      InheritedIsProper(hw1, i, ch.out, NONE);
      ApplyKeeps(hw1, i, ch.out, NONE);
    } else {
      var out' := if out == NONE then ch.out else out;
      InheritedIsProper(hw, i, out', NONE);
      ApplyKeeps(hw, i, out', NONE);
    }
  }

  // ----- where a usecase is sent -----

  /** `dev` is the device of the call in that direction, if the call has one, and otherwise the one chosen. */
  predicate IsSentTo(rs: seq<Route>, kind: Kind, chosen: Device, dev: Device) {
    (forall v :: 0 <= v < |rs| && rs[v].kind == VoiceCall ==>
       var own := if kind == Playback then rs[v].out else rs[v].inp;
       dev == if own != NONE then own else chosen)
    && ((forall v :: 0 <= v < |rs| ==> rs[v].kind != VoiceCall) ==> dev == chosen)
  }

  /** A call goes to the devices chosen for it; a stream has one device, the call's if there is a call. */
  predicate IsSelected(rs: seq<Route>, r: Route, ch: Choice, r': Route) {
    r'.id == r.id && r'.kind == r.kind
    && match r.kind
       case VoiceCall => r'.out == ch.out && r'.inp == ch.inp
       case Playback => r'.inp == NONE && IsSentTo(rs, Playback, ch.out, r'.out)
       case Capture => r'.out == NONE && IsSentTo(rs, Capture, ch.inp, r'.inp)
  }

  lemma {:induction false} InheritedIs(hw: Hw, i: nat, ch: Choice)
    requires Core(hw) && (hw.inCall <==> IndexOf(hw.routes, USECASE_VOICE_CALL) >= 0)
    requires i < |hw.routes| && hw.routes[i].kind != VoiceCall
    ensures var (out, inp) := Inherited(hw, hw.routes[i]);
            IsSentTo(hw.routes, Playback, ch.out, if out != NONE then out else ch.out)
            && IsSentTo(hw.routes, Capture, ch.inp, if inp != NONE then inp else ch.inp)
  {
    var rs, c := hw.routes, IndexOf(hw.routes, USECASE_VOICE_CALL);
    forall v | 0 <= v < |rs| && rs[v].kind == VoiceCall
      ensures v == c
    {
      assert rs[v].id == USECASE_VOICE_CALL;
      OneVoiceCall(rs, v, c);
    }
    if hw.inCall {
      assert rs[c].kind == KindOf(rs[c].id) == VoiceCall;
    } else {
      assert forall v :: 0 <= v < |rs| ==> rs[v].kind != VoiceCall;
    }
  }

  lemma {:induction false} AppliedRoute(hw: Hw, i: nat, out: Device, inp: Device)
    requires i < |hw.routes|
    ensures Apply(hw, i, out, inp).routes[i] == hw.routes[i].(out := out, inp := inp)
  {
    if hw.routes[i].out == out && hw.routes[i].inp == inp {
      ApplyUnchanged(hw, i, out, inp);
    } else {
      ApplyRoutes(hw, i, out, inp);
    }
  }

  /** Where select_devices sends its usecase. */
  lemma {:induction false} SelectedRoute(hw: Hw, id: UsecaseId, ch: Choice)
    requires Core(hw) && (hw.inCall <==> IndexOf(hw.routes, USECASE_VOICE_CALL) >= 0)
    requires IndexOf(hw.routes, id) >= 0
    ensures var i := IndexOf(hw.routes, id);
            IsSelected(hw.routes, hw.routes[i], ch, SelectDevices(hw, id, ch).routes[i])
  {
    var i := IndexOf(hw.routes, id);
    var r := hw.routes[i];
    var (out, inp) := Inherited(hw, r);
    if r.kind != VoiceCall {
      InheritedIs(hw, i, ch);
    }
    hide Apply, Core, IsSentTo, Inherited, IndexOf;
    match r.kind
    case VoiceCall =>
      AppliedRoute(hw, i, ch.out, ch.inp);
    case Capture =>
      AppliedRoute(hw, i, NONE, if inp != NONE then inp else ch.inp);
    case Playback =>
      if out == NONE && NestedTarget(hw.routes).Some? && ch.nested.Some? {
        var hw1 := SelectDevices(hw, NestedTarget(hw.routes).value, ch.nested.value);
        SelectKeeps(hw, NestedTarget(hw.routes).value, ch.nested.value);
        AppliedRoute(hw1, i, ch.out, NONE);
      } else {
        AppliedRoute(hw, i, if out != NONE then out else ch.out, NONE);
      }
  }

  /** The first capture usecase is selected before a playback usecase: no call gives that an output device, the device
      tables ask for it, and no call comes before it. */
  predicate IsNested(hw: Hw, id: UsecaseId, ch: Choice) {
    KindOf(id) == Playback && ch.nested.Some?
    && (exists f :: 0 <= f < |hw.routes| && hw.routes[f].kind == Capture
                    && forall j :: 0 <= j < f ==> hw.routes[j].kind == Playback)
    && forall v :: 0 <= v < |hw.routes| && hw.routes[v].kind == VoiceCall ==> hw.routes[v].out == NONE
  }

  lemma {:induction false} FirstInputIs(rs: seq<Route>)
    ensures var f := FirstInput(rs);
            (forall j :: 0 <= j < (if f < 0 then |rs| else f) ==> rs[j].kind == Playback)
            && (f >= 0 ==> rs[f].kind != Playback)
  {
    if rs != [] && rs[0].kind == Playback {
      FirstInputIs(rs[1..]);
      var f := FirstInput(rs[1..]);
      assert forall j :: 0 < j < (if f < 0 then |rs| else f + 1) ==> rs[j] == rs[1..][j - 1];
    }
  }

  lemma {:induction false} NestedExactlyWhen(hw: Hw, id: UsecaseId, ch: Choice)
    requires Core(hw) && (hw.inCall <==> IndexOf(hw.routes, USECASE_VOICE_CALL) >= 0)
    requires IndexOf(hw.routes, id) >= 0 && KindOf(id) == Playback
    ensures var r := hw.routes[IndexOf(hw.routes, id)];
            IsNested(hw, id, ch)
            <==> Inherited(hw, r).0 == NONE && NestedTarget(hw.routes).Some? && ch.nested.Some?
  {
    var i := IndexOf(hw.routes, id);
    InheritedIs(hw, i, ch.(out := SPEAKER));
    InheritedIs(hw, i, ch.(out := HEADPHONES));
    FirstInputIs(hw.routes);
  }

  /** Where the other usecases end up: when the selected one changes its route, those of its type move to its device;
      when nothing changes, or for a device of NONE, they stay. */
  lemma {:induction false} FollowingRoutes(hw: Hw, id: UsecaseId, ch: Choice, j: nat)
    requires Core(hw) && (hw.inCall <==> IndexOf(hw.routes, USECASE_VOICE_CALL) >= 0)
    requires IndexOf(hw.routes, id) >= 0 && j < |hw.routes| && j != IndexOf(hw.routes, id) && !IsNested(hw, id, ch)
    ensures var i, rs, rs' := IndexOf(hw.routes, id), hw.routes, SelectDevices(hw, id, ch).routes;
            rs'[j] == if rs'[i] == rs[i] then rs[j]
                      else if rs[j].kind == Playback && rs'[i].out != NONE then rs[j].(out := rs'[i].out)
                      else if rs[j].kind == Capture && rs'[i].inp != NONE then rs[j].(inp := rs'[i].inp)
                      else rs[j]
  {
    var i := IndexOf(hw.routes, id);
    var r := hw.routes[i];
    var (out, inp) := Inherited(hw, r);
    var (out', inp') := match r.kind
      case VoiceCall => (ch.out, ch.inp)
      case Capture => (NONE, if inp != NONE then inp else ch.inp)
      case Playback => (if out != NONE then out else ch.out, NONE);
    if r.kind == Playback {
      NestedExactlyWhen(hw, id, ch);
    }
    assert SelectDevices(hw, id, ch) == Apply(hw, i, out', inp');
    hide SelectDevices, IsNested, Core, Inherited, Apply;
    AppliedRoute(hw, i, out', inp');
    if r.out == out' && r.inp == inp' {
      ApplyUnchanged(hw, i, out', inp');
    } else {
      ApplyRoutes(hw, i, out', inp');
    }
  }

  /** A nested selection is one of its own, and afterwards the playback usecases follow as ever. */
  lemma {:induction false} NestedRoutes(hw: Hw, id: UsecaseId, ch: Choice, j: nat)
    requires Core(hw) && (hw.inCall <==> IndexOf(hw.routes, USECASE_VOICE_CALL) >= 0)
    requires IndexOf(hw.routes, id) >= 0 && j < |hw.routes| && j != IndexOf(hw.routes, id) && IsNested(hw, id, ch)
    ensures exists f :: 0 <= f < |hw.routes| && hw.routes[f].kind == Capture
                        && (forall k :: 0 <= k < f ==> hw.routes[k].kind == Playback)
    ensures var i, rs, rs' := IndexOf(hw.routes, id), hw.routes, SelectDevices(hw, id, ch).routes;
            forall f ::
              0 <= f < |rs| && rs[f].kind == Capture && (forall k :: 0 <= k < f ==> rs[k].kind == Playback) ==>
              rs'[j] == if rs[j].kind == Capture then SelectDevices(hw, rs[f].id, ch.nested.value).routes[j]
                        else if rs'[i] != rs[i] && rs[j].kind == Playback && rs'[i].out != NONE then
                          rs[j].(out := rs'[i].out)
                        else rs[j]
  {
    var i, f := IndexOf(hw.routes, id), FirstInput(hw.routes);
    FirstInputIs(hw.routes);
    NestedExactlyWhen(hw, id, ch);
    var hw1 := SelectDevices(hw, hw.routes[f].id, ch.nested.value);
    assert SelectDevices(hw, id, ch) == Apply(hw1, i, ch.out, NONE);
    SelectKeeps(hw, hw.routes[f].id, ch.nested.value);
    hide SelectDevices, IsNested, Core, Inherited, Apply, IndexOf;
    AppliedRoute(hw1, i, ch.out, NONE);
    if hw1.routes[i].out == ch.out && hw1.routes[i].inp == NONE {
      ApplyUnchanged(hw1, i, ch.out, NONE);
    } else {
      ApplyRoutes(hw1, i, ch.out, NONE);
    }
  }

  // ----- operations -----

  lemma {:induction false} EnterKeeps(hw: Hw, id: UsecaseId, ch: Choice)
    requires Core(hw) && IndexOf(hw.routes, id) < 0
    requires IndexOf(hw.routes, USECASE_VOICE_CALL) >= 0 || id == USECASE_VOICE_CALL ==> hw.inCall
    ensures Core(Enter(hw, id, ch)) && Enter(hw, id, ch).inCall == hw.inCall
    ensures OneBackend(hw.routes, Playback) ==> OneBackend(Enter(hw, id, ch).routes, Playback)
    ensures forall u: UsecaseId ::
      IndexOf(Enter(hw, id, ch).routes, u) >= 0 <==> IndexOf(hw.routes, u) >= 0 || u == id
  {
    var r := Route(id, KindOf(id), NONE, NONE);
    var hw0 := hw.(routes := hw.routes + [r]);
    forall d: Device ensures Load(hw0.routes, d) == hw.cnt[d] {
      LoadAppend(hw.routes, r, d);
    }
    forall u: UsecaseId
      ensures IndexOf(hw0.routes, u) >= 0 <==> IndexOf(hw.routes, u) >= 0 || u == id
    {
      if IndexOf(hw.routes, u) >= 0 {
        assert hw0.routes[IndexOf(hw.routes, u)].id == u;
      }
      assert hw0.routes[|hw.routes|].id == id;
    }
    AppendedRouted(hw.routes, r);
    SelectKeeps(hw0, id, ch);
    forall u: UsecaseId
      ensures IndexOf(Enter(hw, id, ch).routes, u) == IndexOf(hw0.routes, u)
    {
      SameIndex(hw0.routes, Enter(hw, id, ch).routes, u);
    }
  }

  lemma {:induction false} AppendedRouted(rs: seq<Route>, r: Route)
    requires UniqueIds(rs) && WellTyped(rs)
    requires IndexOf(rs, r.id) < 0 && r == Route(r.id, KindOf(r.id), NONE, NONE)
    ensures UniqueIds(rs + [r]) && WellTyped(rs + [r])
    ensures OneBackend(rs, Playback) ==> OneBackend(rs + [r], Playback)
    ensures OneBackend(rs, Capture) ==> OneBackend(rs + [r], Capture)
  {}

  lemma {:induction false} RemovedRouted(rs: seq<Route>, i: nat)
    requires i < |rs|
    requires UniqueIds(rs) && WellTyped(rs)
    ensures UniqueIds(Remove(rs, i)) && WellTyped(Remove(rs, i))
    ensures OneBackend(rs, Playback) ==> OneBackend(Remove(rs, i), Playback)
    ensures OneBackend(rs, Capture) ==> OneBackend(Remove(rs, i), Capture)
  {
    var rs' := Remove(rs, i);
    assert forall k :: 0 <= k < |rs'| ==> rs'[k] == rs[if k < i then k else k + 1];
  }

  lemma {:induction false} RemovedIndex(rs: seq<Route>, i: nat, u: UsecaseId)
    requires i < |rs| && UniqueIds(rs)
    ensures IndexOf(Remove(rs, i), u) >= 0 <==> IndexOf(rs, u) >= 0 && u != rs[i].id
  {
    var rs' := Remove(rs, i);
    var k, k' := IndexOf(rs, u), IndexOf(rs', u);
    if k >= 0 && u != rs[i].id {
      assert rs'[if k < i then k else k - 1].id == u;
    }
    if k' >= 0 {
      assert rs[if k' < i then k' else k' + 1].id == u;
    }
  }

  /** Releasing both devices of a usecase that leaves the list. */
  lemma {:induction false} LeaveCounted(cnt: Counts, rs: seq<Route>, i: nat)
    requires i < |rs| && Counted(cnt, rs)
    ensures Counted(DisableDevice(DisableDevice(cnt, rs[i].out), rs[i].inp), Remove(rs, i))
  {
    ReleaseBothCounted(cnt, rs, i);
    var rs2 := rs[i := rs[i].(out := NONE, inp := NONE)];
    assert Remove(rs2, i) == Remove(rs, i);
    forall d: Device ensures Load(Remove(rs2, i), d) == Load(rs2, d) {
      LoadRemove(rs2, i, d);
    }
  }

  lemma {:induction false} StopStreamKeeps(hw: Hw, id: UsecaseId)
    requires Core(hw)
    requires id != USECASE_VOICE_CALL
    ensures Core(StopStream(hw, id))
    ensures OneBackend(hw.routes, Playback) ==> OneBackend(StopStream(hw, id).routes, Playback)
    ensures forall u: UsecaseId ::
      IndexOf(StopStream(hw, id).routes, u) >= 0 <==> IndexOf(hw.routes, u) >= 0 && u != id
  {
    var i := IndexOf(hw.routes, id);
    if i >= 0 {
      var r := hw.routes[i];
      LeaveCounted(hw.cnt, hw.routes, i);
      RemovedRouted(hw.routes, i);
      forall u: UsecaseId
        ensures IndexOf(Remove(hw.routes, i), u) >= 0 <==> IndexOf(hw.routes, u) >= 0 && u != id
      {
        RemovedIndex(hw.routes, i, u);
      }
      NoneUnused(hw.routes);
      assert hw.cnt[NONE] == 0;
      if r.kind == Capture {
        assert DisableDevice(hw.cnt, NONE) == hw.cnt;
      } else {
        ReleaseCounted(hw.cnt, hw.routes, i, Playback);
        NoneUnused(hw.routes[i := r.(out := NONE)]);
        assert DisableDevice(hw.cnt, r.out)[NONE] == 0;
      }
    }
  }

  lemma {:induction false} StopVoiceCallKeeps(hw: Hw)
    requires Core(hw)
    ensures Core(StopVoiceCall(hw)) && !StopVoiceCall(hw).inCall
    ensures OneBackend(hw.routes, Playback) ==> OneBackend(StopVoiceCall(hw).routes, Playback)
    ensures IndexOf(StopVoiceCall(hw).routes, USECASE_VOICE_CALL) < 0
  {
    var i := IndexOf(hw.routes, USECASE_VOICE_CALL);
    if i >= 0 {
      LeaveCounted(hw.cnt, hw.routes, i);
      RemovedRouted(hw.routes, i);
      RemovedIndex(hw.routes, i, USECASE_VOICE_CALL);
    }
  }

  // ----- the offload parameters -----

  lemma {:induction false} TrimCounted(hw: Hw)
    requires Counted(hw.cnt, hw.routes)
    ensures Counted(TrimCombo(hw).cnt, TrimCombo(hw).routes)
  {
    var i := IndexOf(hw.routes, USECASE_AUDIO_PLAYBACK_OFFLOAD);
    if i >= 0 && hw.routes[i].out == SPEAKER_AND_HEADPHONES {
      var r := hw.routes[i].(out := HEADPHONES);
      forall d: Device
        ensures Load(hw.routes[i := r], d) == Load(hw.routes, d) - Uses(SPEAKER, d)
        ensures hw.cnt[d] >= Uses(SPEAKER, d)
      {
        LoadUpdate(hw.routes, i, r, d);
      }
      NoneUnused(hw.routes);
      assert hw.cnt[NONE] == 0;
      DisableSubtracts(hw.cnt, SPEAKER);
    }
  }

  lemma {:induction false} TrimKeeps(hw: Hw)
    requires Base(hw)
    ensures Core(TrimCombo(hw)) && SameUsecases(hw.routes, TrimCombo(hw).routes)
  {
    hide Counted;
    TrimCounted(hw);
  }

  /** The state in which select_devices applies its choice for a playback usecase. */
  function BeforeApply(hw: Hw, i: nat, ch: Choice): Hw
    requires i < |hw.routes|
  {
    if Inherited(hw, hw.routes[i]).0 == NONE && NestedTarget(hw.routes).Some? && ch.nested.Some? then
      SelectDevices(hw, NestedTarget(hw.routes).value, ch.nested.value)
    else hw
  }

  lemma {:induction false} BeforeApplyKeeps(hw: Hw, i: nat, ch: Choice)
    requires Core(hw) && i == IndexOf(hw.routes, USECASE_AUDIO_PLAYBACK_OFFLOAD)
    requires IndexOf(hw.routes, USECASE_VOICE_CALL) >= 0 ==> hw.inCall
    ensures var hw1 := BeforeApply(hw, i, ch);
      Core(hw1) && SameUsecases(hw.routes, hw1.routes)
      && (forall j :: 0 <= j < |hw.routes| && hw.routes[j].kind != Capture ==> hw1.routes[j] == hw.routes[j])
      && SelectDevices(hw, USECASE_AUDIO_PLAYBACK_OFFLOAD, ch) == Apply(hw1, i, OffloadTarget(hw, ch), NONE)
      && IsProper(hw1.routes, i, OffloadTarget(hw, ch), NONE)
  {
    hide Apply, Counted, OneBackend, UniqueIds;
    var hw1 := BeforeApply(hw, i, ch);
    if hw1 != hw {
      SelectKeeps(hw, NestedTarget(hw.routes).value, ch.nested.value);
    }
    SameIndex(hw.routes, hw1.routes, USECASE_VOICE_CALL);
    InheritedIsProper(hw1, i, OffloadTarget(hw, ch), NONE);
  }

  /** Trimming touches one playback usecase only, so what is inherited is the same. */
  lemma {:induction false} TrimInherited(hw: Hw, ch: Choice)
    requires Base(hw)
    ensures OffloadTarget(TrimCombo(hw), ch) == OffloadTarget(hw, ch)
  {
    hide Counted, OneBackend;
    TrimKeeps(hw);
    SameIndex(hw.routes, TrimCombo(hw).routes, USECASE_VOICE_CALL);
    SameIndex(hw.routes, TrimCombo(hw).routes, USECASE_AUDIO_PLAYBACK_OFFLOAD);
  }

  lemma {:induction false} TrimmedOthers(hw: Hw, rs: seq<Route>, i: nat)
    requires Inv(hw) && i == IndexOf(hw.routes, USECASE_AUDIO_PLAYBACK_OFFLOAD)
    requires hw.routes[i].out == SPEAKER_AND_HEADPHONES && SameUsecases(hw.routes, rs)
    requires forall j :: 0 <= j < |rs| && rs[j].kind != Capture ==> rs[j] == TrimCombo(hw).routes[j]
    ensures OthersAgree(rs, i, Playback)
    ensures rs[i].out == HEADPHONES
    ensures forall j :: 0 <= j < |rs| && j != i && rs[j].kind != Capture ==>
      rs[j] == hw.routes[j] && rs[j].out in {NONE, SPEAKER_AND_HEADPHONES}
  {
    hide Counted, UniqueIds;
    assert hw.routes[i].kind == Playback && hw.routes[i].On(Playback) == SPEAKER_AND_HEADPHONES;
    forall j | 0 <= j < |rs| && j != i && rs[j].kind != Capture
      ensures rs[j] == hw.routes[j] && rs[j].out in {NONE, SPEAKER_AND_HEADPHONES}
    {
      assert hw.routes[j].kind in {Playback, VoiceCall} && rs[j].On(Playback) == rs[j].out;
    }
  }

  /** Setting the parameters of an offload stream keeps the counts always, and the one-backend rule
      unless it leaves others behind on the combo device. */
  lemma {:induction false} OffloadRerouteAgrees(hw: Hw, ch: Choice)
    requires Inv(hw) && IndexOf(hw.routes, USECASE_AUDIO_PLAYBACK_OFFLOAD) >= 0
    ensures OneBackend(OffloadReroute(hw, ch).routes, Playback) <==> !LeavesOthersOnCombo(hw, ch)
  {
    hide Apply, Counted, OneBackend, UniqueIds, OthersAgree, TrimCombo, BeforeApply;
    var i := IndexOf(hw.routes, USECASE_AUDIO_PLAYBACK_OFFLOAD);
    var hw0 := TrimCombo(hw);
    var target := OffloadTarget(hw, ch);
    TrimKeeps(hw);
    TrimInherited(hw, ch);
    SameIndex(hw.routes, hw0.routes, USECASE_VOICE_CALL);
    SameIndex(hw.routes, hw0.routes, USECASE_AUDIO_PLAYBACK_OFFLOAD);
    TrimCall(hw);
    BeforeApplyKeeps(hw0, i, ch);
    var hw1 := BeforeApply(hw0, i, ch);
    ApplyKeeps(hw1, i, target, NONE);
    if hw.routes[i].out != SPEAKER_AND_HEADPHONES {
      TrimNothing(hw);
      SelectKeeps(hw, USECASE_AUDIO_PLAYBACK_OFFLOAD, ch);
    } else {
      TrimmedOthers(hw, hw1.routes, i);
      TrimmedResult(hw, hw1, i, ch);
    }
  }

  lemma {:induction false} TrimCall(hw: Hw)
    ensures TrimCombo(hw).inCall == hw.inCall
  {}

  lemma {:induction false} TrimNothing(hw: Hw)
    requires IndexOf(hw.routes, USECASE_AUDIO_PLAYBACK_OFFLOAD) >= 0
    requires hw.routes[IndexOf(hw.routes, USECASE_AUDIO_PLAYBACK_OFFLOAD)].out != SPEAKER_AND_HEADPHONES
    ensures TrimCombo(hw) == hw
  {}

  lemma {:induction false} TrimmedResult(hw: Hw, hw1: Hw, i: nat, ch: Choice)
    requires i == IndexOf(hw.routes, USECASE_AUDIO_PLAYBACK_OFFLOAD)
    requires hw.routes[i].out == SPEAKER_AND_HEADPHONES && KindOf(hw.routes[i].id) == hw.routes[i].kind
    requires Core(hw1) && SameUsecases(hw.routes, hw1.routes) && IsProper(hw1.routes, i, OffloadTarget(hw, ch), NONE)
    requires OthersAgree(hw1.routes, i, Playback) && hw1.routes[i].out == HEADPHONES
    requires forall j :: 0 <= j < |hw1.routes| && j != i && hw1.routes[j].kind != Capture ==>
      hw1.routes[j] == hw.routes[j] && hw1.routes[j].out in {NONE, SPEAKER_AND_HEADPHONES}
    ensures OneBackend(Apply(hw1, i, OffloadTarget(hw, ch), NONE).routes, Playback) <==> !LeavesOthersOnCombo(hw, ch)
  {
    hide Apply, Counted;
    var target := OffloadTarget(hw, ch);
    if target == HEADPHONES {
      ApplyUnchanged(hw1, i, target, NONE);
      if j :| 0 <= j < |hw.routes| && j != i && hw.routes[j].kind != Capture && hw.routes[j].out != NONE {
        assert hw1.routes[j].On(Playback) == SPEAKER_AND_HEADPHONES;
        assert hw1.routes[i].On(Playback) == HEADPHONES;
      }
    } else {
      ApplyRoutes(hw1, i, target, NONE);
      ApplyOneBackend(hw1.routes, Apply(hw1, i, target, NONE).routes, i, target, NONE, Playback);
    }
  }

  lemma {:induction false} OffloadRerouteKeeps(hw: Hw, ch: Choice)
    requires Base(hw)
    ensures Core(OffloadReroute(hw, ch)) && SameUsecases(hw.routes, OffloadReroute(hw, ch).routes)
    ensures OffloadReroute(hw, ch).inCall == hw.inCall
    ensures OneBackend(hw.routes, Playback) && !LeavesOthersOnCombo(hw, ch) ==>
      OneBackend(OffloadReroute(hw, ch).routes, Playback)
  {
    hide Counted, OneBackend, UniqueIds;
    TrimKeeps(hw);
    TrimCall(hw);
    SameIndex(hw.routes, TrimCombo(hw).routes, USECASE_VOICE_CALL);
    SelectKeeps(TrimCombo(hw), USECASE_AUDIO_PLAYBACK_OFFLOAD, ch);
    if OneBackend(hw.routes, Playback) && IndexOf(hw.routes, USECASE_AUDIO_PLAYBACK_OFFLOAD) >= 0 {
      OffloadRerouteAgrees(hw, ch);
    }
  }

  // ----- which usecases are live -----

  function Ids(rs: seq<Route>): (ids: seq<nat>)
    ensures |ids| == |rs|
  {
    seq(|rs|, i requires 0 <= i < |rs| => rs[i].id)
  }

  /** The ids but one, in order. */
  function Without(ids: seq<nat>, id: nat): seq<nat> {
    if ids == [] then [] else (if ids[0] == id then [] else [ids[0]]) + Without(ids[1..], id)
  }

  /** The live usecases after an event: only a stream that opens and a call that finds memory are added. */
  function IdsAfter(ids: seq<nat>, e: Event): seq<nat> {
    match e
    case Start(id, _, outcome) => if outcome == Opens then ids + [id] else ids
    case Stop(id) => Without(ids, id)
    case Reroute(_, _) => ids
    case StartCall(_, memory) => if memory then ids + [USECASE_VOICE_CALL] else ids
    case StopCall => Without(ids, USECASE_VOICE_CALL)
    case RestartCall(_, memory) =>
      Without(ids, USECASE_VOICE_CALL) + (if memory then [USECASE_VOICE_CALL] else [])
    case SetOffload(_) => ids
  }

  lemma {:induction false} WithoutAbsent(ids: seq<nat>, id: nat)
    requires id !in ids
    ensures Without(ids, id) == ids
  {
    if ids != [] {
      WithoutAbsent(ids[1..], id);
    }
  }

  lemma {:induction false} RemoveIds(rs: seq<Route>, i: nat)
    requires i < |rs| && UniqueIds(rs)
    ensures Ids(Remove(rs, i)) == Without(Ids(rs), rs[i].id)
    decreases i
  {
    var ids := Ids(rs);
    assert ids[1..] == Ids(rs[1..]);
    if i == 0 {
      assert Remove(rs, 0) == rs[1..];
      assert forall k :: 0 < k < |rs| ==> ids[k] != ids[0];
      WithoutAbsent(ids[1..], ids[0]);
    } else {
      assert UniqueIds(rs[1..]) by {
        assert forall k :: 0 <= k < |rs| - 1 ==> rs[1..][k] == rs[k + 1];
      }
      RemoveIds(rs[1..], i - 1);
      assert Remove(rs, i) == [rs[0]] + Remove(rs[1..], i - 1);
      assert Ids(Remove(rs, i)) == [ids[0]] + Ids(Remove(rs[1..], i - 1));
    }
  }

  lemma {:induction false} AbsentId(rs: seq<Route>, id: UsecaseId)
    requires IndexOf(rs, id) < 0
    ensures id !in Ids(rs)
  {}

  lemma {:induction false} SameIds(rs: seq<Route>, rs': seq<Route>)
    requires SameUsecases(rs, rs')
    ensures Ids(rs') == Ids(rs)
  {}

  lemma {:induction false} EnterIds(hw: Hw, id: UsecaseId, ch: Choice)
    requires Core(hw) && IndexOf(hw.routes, id) < 0
    requires IndexOf(hw.routes, USECASE_VOICE_CALL) >= 0 || id == USECASE_VOICE_CALL ==> hw.inCall
    ensures Ids(Enter(hw, id, ch).routes) == Ids(hw.routes) + [id]
  {
    EnteredSame(hw, id, ch);
    var rs := hw.routes + [Route(id, KindOf(id), NONE, NONE)];
    hide Enter, Core;
    SameIds(rs, Enter(hw, id, ch).routes);
    assert Ids(rs) == Ids(hw.routes) + [id];
  }

  /** Routing does not change the list that the usecase was appended to. */
  lemma {:induction false} EnteredSame(hw: Hw, id: UsecaseId, ch: Choice)
    requires Core(hw) && IndexOf(hw.routes, id) < 0
    requires IndexOf(hw.routes, USECASE_VOICE_CALL) >= 0 || id == USECASE_VOICE_CALL ==> hw.inCall
    ensures SameUsecases(hw.routes + [Route(id, KindOf(id), NONE, NONE)], Enter(hw, id, ch).routes)
  {
    var hw0 := AppendedState(hw, id);
    SelectKeeps(hw0, id, ch);
  }

  /** The state in which select_devices is called for a usecase that enters. */
  lemma {:induction false} AppendedState(hw: Hw, id: UsecaseId) returns (hw0: Hw)
    requires Core(hw) && IndexOf(hw.routes, id) < 0
    ensures hw0 == hw.(routes := hw.routes + [Route(id, KindOf(id), NONE, NONE)])
    ensures Core(hw0) && IndexOf(hw0.routes, id) == |hw.routes|
    ensures IndexOf(hw0.routes, USECASE_VOICE_CALL) >= 0
            <==> IndexOf(hw.routes, USECASE_VOICE_CALL) >= 0 || id == USECASE_VOICE_CALL
  {
    var r := Route(id, KindOf(id), NONE, NONE);
    hw0 := hw.(routes := hw.routes + [r]);
    forall d: Device ensures Load(hw0.routes, d) == hw.cnt[d] {
      LoadAppend(hw.routes, r, d);
    }
    AppendedRouted(hw.routes, r);
    assert hw0.routes[|hw.routes|].id == id;
    var c := IndexOf(hw.routes, USECASE_VOICE_CALL);
    assert c >= 0 ==> hw0.routes[c].id == USECASE_VOICE_CALL;
  }

  lemma {:induction false} StopIds(hw: Hw, id: UsecaseId)
    requires Core(hw)
    ensures Ids(StopStream(hw, id).routes) == Without(Ids(hw.routes), id)
  {
    var i := IndexOf(hw.routes, id);
    if i >= 0 {
      RemoveIds(hw.routes, i);
    } else {
      AbsentId(hw.routes, id);
      WithoutAbsent(Ids(hw.routes), id);
    }
  }

  lemma {:induction false} StopCallIds(hw: Hw)
    requires Core(hw)
    ensures Ids(StopVoiceCall(hw).routes) == Without(Ids(hw.routes), USECASE_VOICE_CALL)
  {
    var i := IndexOf(hw.routes, USECASE_VOICE_CALL);
    if i >= 0 {
      RemoveIds(hw.routes, i);
    } else {
      AbsentId(hw.routes, USECASE_VOICE_CALL);
      WithoutAbsent(Ids(hw.routes), USECASE_VOICE_CALL);
    }
  }

  /** A start that fails to open is undone: the ids are those before it. */
  lemma {:induction false} StartIds(hw: Hw, id: UsecaseId, ch: Choice, o: Outcome)
    requires Base(hw) && IsAllowed(hw, Start(id, ch, o))
    ensures Ids(Step(hw, Start(id, ch, o)).routes) == if o == Opens then Ids(hw.routes) + [id] else Ids(hw.routes)
  {
    EnterKeeps(hw, id, ch);
    EnterIds(hw, id, ch);
    var ids := Ids(hw.routes);
    AbsentId(hw.routes, id);
    hide Enter, Ids, Core, StopStream, IndexOf;
    StopIds(Enter(hw, id, ch), id);
    WithoutLast(ids, id);
  }

  lemma {:induction false} WithoutLast(ids: seq<nat>, id: nat)
    requires id !in ids
    ensures Without(ids + [id], id) == ids
  {
    if ids == [] {
      assert [] + [id] == [id] && [id][1..] == [];
    } else {
      assert (ids + [id])[1..] == ids[1..] + [id];
      WithoutLast(ids[1..], id);
    }
  }

  /** Every event leaves exactly the usecases live that it should, in order. */
  lemma {:induction false} StepIds(hw: Hw, e: Event)
    requires Base(hw) && IsAllowed(hw, e)
    ensures Ids(Step(hw, e).routes) == IdsAfter(Ids(hw.routes), e)
  {
    hide SelectDevices, Enter, StopVoiceCall, StopStream, IndexOf, Core, OneBackend, OffloadReroute, Ids, Without;
    match e
    case Start(id, ch, o) =>
      StartIds(hw, id, ch, o);
    case Stop(id) =>
      StopIds(hw, id);
    case Reroute(id, ch) =>
      SelectKeeps(hw, id, ch);
      SameIds(hw.routes, SelectDevices(hw, id, ch).routes);
    case StartCall(ch, m) =>
      SetCall(hw);
      EnterIds(hw.(inCall := true), USECASE_VOICE_CALL, ch);
    case StopCall =>
      StopCallIds(hw);
    case RestartCall(ch, m) =>
      StopCallIds(hw);
      StopVoiceCallKeeps(hw);
      SetCall(StopVoiceCall(hw));
      EnterIds(StopVoiceCall(hw).(inCall := true), USECASE_VOICE_CALL, ch);
      assert Without(Ids(hw.routes), USECASE_VOICE_CALL) + [] == Without(Ids(hw.routes), USECASE_VOICE_CALL);
    case SetOffload(ch) =>
      OffloadRerouteKeeps(hw, ch);
      SameIds(hw.routes, OffloadReroute(hw, ch).routes);
  }

  /** What an event enters in the list is on the devices chosen for it. */
  lemma {:induction false} EnteredRoute(hw: Hw, e: Event)
    requires Base(hw) && IsAllowed(hw, e)
    requires (e.Start? && e.outcome == Opens) || ((e.StartCall? || e.RestartCall?) && e.memory)
    ensures var id, rs' := if e.Start? then e.id else USECASE_VOICE_CALL, Step(hw, e).routes;
            rs' != []
            && IsSelected(hw.routes, Route(id, KindOf(id), NONE, NONE), e.ch, rs'[|rs'| - 1])
  {
    hide SelectDevices, StopVoiceCall, StopStream, IndexOf, Core, OneBackend;
    match e
    case Start(id, ch, o) =>
      EnteredIsSelected(hw, id, ch);
    case StartCall(ch, m) =>
      SetCall(hw);
      EnteredIsSelected(hw.(inCall := true), USECASE_VOICE_CALL, ch);
    case RestartCall(ch, m) =>
      StopVoiceCallKeeps(hw);
      SetCall(StopVoiceCall(hw));
      EnteredIsSelected(StopVoiceCall(hw).(inCall := true), USECASE_VOICE_CALL, ch);
  }

  /** What an event reroutes is on the devices chosen for it. */
  lemma {:induction false} ReroutedRoute(hw: Hw, e: Event)
    requires Base(hw) && IsAllowed(hw, e) && (e.Reroute? || e.SetOffload?)
    requires IndexOf(hw.routes, if e.Reroute? then e.id else USECASE_AUDIO_PLAYBACK_OFFLOAD) >= 0
    ensures var i := IndexOf(hw.routes, if e.Reroute? then e.id else USECASE_AUDIO_PLAYBACK_OFFLOAD);
            |Step(hw, e).routes| == |hw.routes| && IsSelected(hw.routes, hw.routes[i], e.ch, Step(hw, e).routes[i])
  {
    if e.Reroute? {
      SelectedRoute(hw, e.id, e.ch);
    } else {
      var t := TrimCombo(hw);
      TrimKeeps(hw);
      TrimCall(hw);
      SameIndex(hw.routes, t.routes, USECASE_VOICE_CALL);
      SameIndex(hw.routes, t.routes, USECASE_AUDIO_PLAYBACK_OFFLOAD);
      SelectedRoute(t, USECASE_AUDIO_PLAYBACK_OFFLOAD, e.ch);
      assert forall v :: 0 <= v < |hw.routes| && hw.routes[v].kind == VoiceCall ==> t.routes[v] == hw.routes[v];
      hide SelectDevices, Core;
    }
  }

  lemma {:induction false} EnteredIsSelected(hw: Hw, id: UsecaseId, ch: Choice)
    requires Core(hw) && IndexOf(hw.routes, id) < 0
    requires IndexOf(hw.routes, USECASE_VOICE_CALL) >= 0 || id == USECASE_VOICE_CALL <==> hw.inCall
    ensures var rs' := Enter(hw, id, ch).routes;
            |rs'| == |hw.routes| + 1
            && IsSelected(hw.routes, Route(id, KindOf(id), NONE, NONE), ch, rs'[|hw.routes|])
  {
    var hw0 := AppendedState(hw, id);
    SelectedRoute(hw0, id, ch);
    hide Core, IndexOf, SelectDevices;
    var r := Route(id, KindOf(id), NONE, NONE);
    assert hw0.routes[|hw.routes|] == r;
    if id != USECASE_VOICE_CALL {
      assert r.kind != VoiceCall;
      assert forall v :: 0 <= v < |hw.routes| ==> hw0.routes[v] == hw.routes[v];
    }
  }

  // ----- runs -----

  /** The live usecases after the first k events of a run. */
  function LiveIds(events: seq<Event>, k: nat): seq<nat>
    requires k <= |events|
  {
    if k == 0 then [] else IdsAfter(LiveIds(events, k - 1), events[k - 1])
  }

  /** In every state of every run, the usecases in the list are those that the events so far have left live. */
  lemma {:induction false} RunIds(states: seq<Hw>, events: seq<Event>, k: nat)
    requires IsRun(states, events) && k < |states|
    ensures Ids(states[k].routes) == LiveIds(events, k)
  {
    if k == 0 {
    } else {
      RunIds(states, events, k - 1);
      RunCounted(states, events, k - 1);
      hide Base, Step, IsAllowed, Ids;
      StepIds(states[k - 1], events[k - 1]);
    }
  }

  /** Every operation keeps the base invariant, and the one-output rule but in the one known case. */
  lemma {:induction false} StepKeeps(hw: Hw, e: Event)
    requires Base(hw) && IsAllowed(hw, e)
    ensures Base(Step(hw, e))
    ensures Inv(hw) && !(e.SetOffload? && LeavesOthersOnCombo(hw, e.ch)) ==> Inv(Step(hw, e))
  {
    hide SelectDevices, Enter, StopVoiceCall, IndexOf, Core, OneBackend, OffloadReroute, LeavesOthersOnCombo;
    match e
    case Start(id, ch, o) =>
      EnterKeeps(hw, id, ch);
      StopStreamKeeps(Enter(hw, id, ch), id);
    case Stop(id) =>
      StopStreamKeeps(hw, id);
    case Reroute(id, ch) =>
      SelectKeeps(hw, id, ch);
      SameIndex(hw.routes, SelectDevices(hw, id, ch).routes, USECASE_VOICE_CALL);
    case StartCall(ch, m) =>
      SetCall(hw);
      EnterKeeps(hw.(inCall := true), USECASE_VOICE_CALL, ch);
    case StopCall =>
      StopVoiceCallKeeps(hw);
    case RestartCall(ch, m) =>
      StopVoiceCallKeeps(hw);
      SetCall(StopVoiceCall(hw));
      EnterKeeps(StopVoiceCall(hw).(inCall := true), USECASE_VOICE_CALL, ch);
    case SetOffload(ch) =>
      OffloadRerouteKeeps(hw, ch);
      SameIndex(hw.routes, OffloadReroute(hw, ch).routes, USECASE_VOICE_CALL);
  }

  lemma {:induction false} SetCall(hw: Hw)
    requires Core(hw)
    ensures Core(hw.(inCall := true))
  {}

  /** In every state of every run each count is the number of routes that expand to its device. */
  lemma {:induction false} RunCounted(states: seq<Hw>, events: seq<Event>, k: nat)
    requires IsRun(states, events) && k < |states|
    ensures Base(states[k])
  {
    if k == 0 {
    } else {
      RunCounted(states, events, k - 1);
      StepKeeps(states[k - 1], events[k - 1]);
    }
  }

  /** The run never leaves others on the combo device while the offload stream gives it up. */
  predicate NoOneLeft(states: seq<Hw>, events: seq<Event>, k: nat)
    requires k <= |events| && |states| == |events| + 1
  {
    forall j :: 0 <= j < k && events[j].SetOffload? ==> !LeavesOthersOnCombo(states[j], events[j].ch)
  }

  /** Such a run keeps one output device and one input device at a time. */
  lemma {:induction false} RunAgrees(states: seq<Hw>, events: seq<Event>, k: nat)
    requires IsRun(states, events) && k < |states| && NoOneLeft(states, events, k)
    ensures Inv(states[k])
  {
    if k == 0 {
    } else {
      RunAgrees(states, events, k - 1);
      StepKeeps(states[k - 1], events[k - 1]);
    }
  }

  /** When all usecases are gone, all devices are off. */
  lemma {:induction false} AllOffAtEnd(states: seq<Hw>, events: seq<Event>, k: nat)
    requires IsRun(states, events) && k < |states| && states[k].routes == []
    ensures states[k].cnt == NO_REFERENCES && !states[k].inCall
  {
    RunCounted(states, events, k);
    forall d: Device ensures states[k].cnt[d] == 0 {}
  }

  // ----- the hypothesis is needed -----

  const ON_COMBO: Choice := Choice(SPEAKER_AND_HEADPHONES, NONE, None)

  const TO_HEADPHONES: Choice := Choice(HEADPHONES, NONE, None)

  /** A playback stream and the offload stream on the combo device. */
  function BothOnCombo(): seq<Route> {
    [Route(0, Playback, SPEAKER_AND_HEADPHONES, NONE),
     Route(USECASE_AUDIO_PLAYBACK_OFFLOAD, Playback, SPEAKER_AND_HEADPHONES, NONE)]
  }

  lemma {:induction false} FirstOnCombo()
    ensures Step(INITIAL, Start(0, ON_COMBO, Opens)).routes == [Route(0, Playback, SPEAKER_AND_HEADPHONES, NONE)]
    ensures !Step(INITIAL, Start(0, ON_COMBO, Opens)).inCall
  {
    var hw := INITIAL.(routes := [Route(0, Playback, NONE, NONE)]);
    assert INITIAL.routes + [Route(0, Playback, NONE, NONE)] == hw.routes;
    assert IndexOf(hw.routes, 0) == 0 && FirstInput(hw.routes) == -1;
    assert SelectDevices(hw, 0, ON_COMBO) == Apply(hw, 0, SPEAKER_AND_HEADPHONES, NONE);
    ApplyRoutes(hw, 0, SPEAKER_AND_HEADPHONES, NONE);
  }

  lemma {:induction false} SecondOnCombo(hw: Hw)
    requires hw.routes == [Route(0, Playback, SPEAKER_AND_HEADPHONES, NONE)] && !hw.inCall
    ensures Step(hw, Start(USECASE_AUDIO_PLAYBACK_OFFLOAD, ON_COMBO, Opens)).routes == BothOnCombo()
    ensures !Step(hw, Start(USECASE_AUDIO_PLAYBACK_OFFLOAD, ON_COMBO, Opens)).inCall
  {
    var id, r := USECASE_AUDIO_PLAYBACK_OFFLOAD, Route(USECASE_AUDIO_PLAYBACK_OFFLOAD, Playback, NONE, NONE);
    var hw1 := hw.(routes := [hw.routes[0], r]);
    assert hw.routes + [r] == hw1.routes;
    assert hw1.routes[1..] == [r];
    assert IndexOf(hw1.routes, id) == 1 && FirstInput(hw1.routes) == -1;
    assert SelectDevices(hw1, id, ON_COMBO) == Apply(hw1, 1, SPEAKER_AND_HEADPHONES, NONE);
    ApplyRoutes(hw1, 1, SPEAKER_AND_HEADPHONES, NONE);
  }

  lemma {:induction false} ThirdLeavesIt(hw: Hw)
    requires Inv(hw) && hw.routes == BothOnCombo() && !hw.inCall
    ensures LeavesOthersOnCombo(hw, TO_HEADPHONES)
    ensures !OneBackend(Step(hw, SetOffload(TO_HEADPHONES)).routes, Playback)
  {
    assert hw.routes[1..] == [hw.routes[1]];
    assert IndexOf(hw.routes, USECASE_AUDIO_PLAYBACK_OFFLOAD) == 1;
    assert hw.routes[0].out == SPEAKER_AND_HEADPHONES;
    OffloadRerouteAgrees(hw, TO_HEADPHONES);
  }

  lemma {:induction false} ThreeStepsAreRun(e0: Event, e1: Event, e2: Event)
    returns (states: seq<Hw>, events: seq<Event>)
    requires IsAllowed(INITIAL, e0) && IsAllowed(Step(INITIAL, e0), e1) && IsAllowed(Step(Step(INITIAL, e0), e1), e2)
    requires !e0.SetOffload? && !e1.SetOffload?
    ensures IsRun(states, events) && events == [e0, e1, e2] && |states| == 4
    ensures states[2] == Step(Step(INITIAL, e0), e1) && states[3] == Step(states[2], e2)
    ensures NoOneLeft(states, events, 2) && Inv(states[2])
  {
    hide Step, IsAllowed, LeavesOthersOnCombo, Inv;
    var s1 := Step(INITIAL, e0);
    var s2 := Step(s1, e1);
    states, events := [INITIAL, s1, s2, Step(s2, e2)], [e0, e1, e2];
    RunAgrees(states, events, 2);
  }

  /** A run that ends with two playback streams on different devices: both are started on the combo device, and the
      offload stream is sent to the headphones. */
  lemma {:induction false} LeftOnComboIsReached() returns (states: seq<Hw>, events: seq<Event>)
    ensures IsRun(states, events) && |events| == 3
    ensures !NoOneLeft(states, events, 3) && !OneBackend(states[3].routes, Playback)
  {
    var e0, e1 := Start(0, ON_COMBO, Opens), Start(USECASE_AUDIO_PLAYBACK_OFFLOAD, ON_COMBO, Opens);
    var e2 := SetOffload(TO_HEADPHONES);
    FirstOnCombo();
    SecondOnCombo(Step(INITIAL, e0));
    hide Step, OneBackend, LeavesOthersOnCombo, Base, Inv;
    states, events := ThreeStepsAreRun(e0, e1, e2);
    ThirdLeavesIt(states[2]);
    assert events[2].SetOffload? && LeavesOthersOnCombo(states[2], events[2].ch);
  }
}
