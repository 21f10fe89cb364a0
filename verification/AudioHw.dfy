/** The audio device of audio_hw.c: objects in a list, counts in an array.

    Every method is proved equal to the function of `AudioRouting` that it
    follows; the ghost field `hw` is the state that those functions speak of.
    Device I/O (mixer paths, amplifier, PCM, RIL) is left to its answers, which
    are parameters. */
module AudioHw {
  import opened Bits
  import opened AudioRouting

  const OK := 0
  const EINVAL := 22

  class Usecase {
    const id: UsecaseId
    const kind: Kind
    var outSndDevice: Device
    var inSndDevice: Device

    constructor (id: UsecaseId)
      ensures this.id == id && this.kind == KindOf(id)
      ensures outSndDevice == NONE && inSndDevice == NONE
    {
      this.id, this.kind := id, KindOf(id);
      outSndDevice, inSndDevice := NONE, NONE;
    }

    ghost function Value(): Route
      reads this
    {
      Route(id, kind, outSndDevice, inSndDevice)
    }
  }

  class AudioDevice {
    const sndDevRefCnt: array<int>
    var usecaseList: seq<Usecase>
    var inCall: bool
    ghost var hw: Hw

    ghost predicate Shape()
      reads `usecaseList
    {
      sndDevRefCnt.Length == SND_DEVICE_MAX
      && forall i, j :: 0 <= i < j < |usecaseList| ==> usecaseList[i].id != usecaseList[j].id
    }

    /** The usecases have the given values. */
    ghost predicate Mirrors(rs: seq<Route>)
      reads `usecaseList, usecaseList
    {
      |rs| == |usecaseList| && forall i :: 0 <= i < |rs| ==> usecaseList[i].Value() == rs[i]
    }

    ghost predicate Valid()
      reads this, sndDevRefCnt, usecaseList
    {
      Shape() && sndDevRefCnt[..] == hw.cnt && Mirrors(hw.routes) && inCall == hw.inCall
    }

    constructor ()
      ensures Valid() && fresh(sndDevRefCnt) && hw == INITIAL
    {
      sndDevRefCnt := new int[SND_DEVICE_MAX](_ => 0);
      usecaseList := [];
      inCall := false;
      hw := INITIAL;
      new;
      assert sndDevRefCnt[..] == NO_REFERENCES;
    }

    // ----- reference counts -----

    method EnableSndDevice(dev: Device)
      requires sndDevRefCnt.Length == SND_DEVICE_MAX
      modifies sndDevRefCnt
      ensures sndDevRefCnt[..] == EnableDevice(old(sndDevRefCnt[..]), dev)
      decreases dev == SPEAKER_AND_HEADPHONES
    {
      if dev == SPEAKER_AND_HEADPHONES {
        EnableSndDevice(SPEAKER);
        EnableSndDevice(HEADPHONES);
        return;
      }
      sndDevRefCnt[dev] := sndDevRefCnt[dev] + 1;
    }

    method DisableSndDevice(dev: Device) returns (status: int)
      requires sndDevRefCnt.Length == SND_DEVICE_MAX
      modifies sndDevRefCnt
      ensures sndDevRefCnt[..] == DisableDevice(old(sndDevRefCnt[..]), dev)
      ensures status == if dev == SPEAKER_AND_HEADPHONES || old(sndDevRefCnt[dev]) > 0 then OK else -EINVAL
      decreases dev == SPEAKER_AND_HEADPHONES
    {
      if dev == SPEAKER_AND_HEADPHONES {
        var _ := DisableSndDevice(SPEAKER);
        var _ := DisableSndDevice(HEADPHONES);
        return OK;
      }
      if sndDevRefCnt[dev] <= 0 {
        return -EINVAL;
      }
      sndDevRefCnt[dev] := sndDevRefCnt[dev] - 1;
      return OK;
    }

    // ----- the list -----

    method GetUsecaseFromId(id: UsecaseId) returns (u: Usecase?, ghost i: int)
      requires Valid()
      ensures i == IndexOf(hw.routes, id)
      ensures if i < 0 then u == null else u == usecaseList[i]
    {
      for k := 0 to |usecaseList|
        invariant forall j :: 0 <= j < k ==> usecaseList[j].id != id
      {
        if usecaseList[k].id == id {
          assert hw.routes[k].id == id;
          FirstIndex(hw.routes, id, k);
          return usecaseList[k], k;
        }
      }
      assert forall j :: 0 <= j < |usecaseList| ==> usecaseList[j].Value() == hw.routes[j];
      return null, -1;
    }

    /** The first usecase of type capture or voice call. */
    method GetFirstInput() returns (u: Usecase?, ghost i: int)
      requires Valid()
      ensures i == FirstInput(hw.routes)
      ensures if i < 0 then u == null else u == usecaseList[i]
    {
      for k := 0 to |usecaseList|
        invariant forall j :: 0 <= j < k ==> hw.routes[j].kind == Playback
      {
        assert usecaseList[k].Value() == hw.routes[k];
        if usecaseList[k].kind != Playback {
          FirstInputAt(hw.routes, k);
          return usecaseList[k], k;
        }
      }
      NoInput(hw.routes);
      return null, -1;
    }

    // ----- routing -----

    /** First pass: marks the ids of the usecases to move. */
    method MarkUsecases(uc: Usecase, kind: Kind, dev: Device, switchDevice: array<bool>, ghost self: nat,
                        ghost rs: seq<Route>)
      returns (needSwitch: bool)
      requires Shape() && Mirrors(rs) && self < |rs| && uc == usecaseList[self]
      requires switchDevice.Length == AUDIO_USECASE_MAX && forall k :: 0 <= k < AUDIO_USECASE_MAX ==> !switchDevice[k]
      modifies switchDevice
      ensures forall j :: 0 <= j < |rs| ==> switchDevice[rs[j].id] == IsSwitched(rs, j, self, kind, dev)
      ensures !needSwitch ==> forall j :: 0 <= j < |rs| ==> !IsSwitched(rs, j, self, kind, dev)
    {
      needSwitch := false;
      for i := 0 to |usecaseList|
        invariant forall j :: 0 <= j < |rs| ==>
          switchDevice[rs[j].id] == (j < i && IsSwitched(rs, j, self, kind, dev))
        invariant !needSwitch ==> forall j :: 0 <= j < i ==> !IsSwitched(rs, j, self, kind, dev)
      {
        var usecase := usecaseList[i];
        assert usecase.Value() == rs[i];
        assert forall j :: 0 <= j < |rs| && j != i ==> usecaseList[j].Value() == rs[j] && rs[j].id != rs[i].id;
        if usecase.kind == kind && usecase != uc {
          var usecaseSndDevice := if kind == Playback then usecase.outSndDevice else usecase.inSndDevice;
          if usecaseSndDevice != dev {
            switchDevice[usecase.id] := true;
            needSwitch := true;
          }
        }
      }
    }

    /** Moves usecase i from its device to dev. */
    method MoveUsecase(usecase: Usecase, kind: Kind, dev: Device, ghost i: nat, ghost rs: seq<Route>)
      requires Shape() && Mirrors(rs) && i < |rs| && usecase == usecaseList[i]
      modifies sndDevRefCnt, usecase
      ensures sndDevRefCnt[..] == EnableDevice(DisableDevice(old(sndDevRefCnt[..]), rs[i].On(kind)), dev)
      ensures Mirrors(rs[i := rs[i].Switch(kind, dev)])
    {
      hide EnableDevice, DisableDevice;
      assert usecase.Value() == rs[i];
      assert forall j :: 0 <= j < |rs| && j != i ==> usecaseList[j] != usecase && usecaseList[j].Value() == rs[j];
      var usecaseSndDevice := if kind == Playback then usecase.outSndDevice else usecase.inSndDevice;
      var _ := DisableSndDevice(usecaseSndDevice);
      EnableSndDevice(dev);
      if kind == Playback {
        usecase.outSndDevice := dev;
      } else {
        usecase.inSndDevice := dev;
      }
    }

    /** Moves all other usecases of a type to dev, in two passes over the list. */
    method CheckAndRouteUsecases(uc: Usecase, kind: Kind, dev: Device, ghost self: nat, ghost rs: seq<Route>)
      requires Shape() && Mirrors(rs) && self < |rs| && uc == usecaseList[self]
      modifies sndDevRefCnt, usecaseList
      ensures sndDevRefCnt[..] == SwitchCounts(old(sndDevRefCnt[..]), rs, self, kind, dev, |rs|)
      ensures Mirrors(SwitchRoutes(rs, self, kind, dev))
    {
      ghost var cnt0 := sndDevRefCnt[..];
      var switchDevice := new bool[AUDIO_USECASE_MAX](_ => false);
      var needSwitch := MarkUsecases(uc, kind, dev, switchDevice, self, rs);
      if needSwitch {
        MoveMarkedUsecases(kind, dev, switchDevice, self, rs);
      } else {
        NothingSwitched(cnt0, rs, self, kind, dev, |rs|);
      }
    }

    /** Second pass: moves the marked usecases. */
    method MoveMarkedUsecases(kind: Kind, dev: Device, switchDevice: array<bool>, ghost self: nat, ghost rs: seq<Route>)
      requires Shape() && Mirrors(rs) && switchDevice.Length == AUDIO_USECASE_MAX
      requires forall j :: 0 <= j < |rs| ==> switchDevice[rs[j].id] == IsSwitched(rs, j, self, kind, dev)
      modifies sndDevRefCnt, usecaseList
      ensures sndDevRefCnt[..] == SwitchCounts(old(sndDevRefCnt[..]), rs, self, kind, dev, |rs|)
      ensures Mirrors(SwitchRoutes(rs, self, kind, dev))
    {
      hide EnableDevice, DisableDevice, SwitchPrefix, SwitchRoutes, IsSwitched;
      ghost var cnt0 := sndDevRefCnt[..];
      SwitchPrefixEnds(rs, self, kind, dev);
      for i := 0 to |usecaseList|
        invariant sndDevRefCnt[..] == SwitchCounts(cnt0, rs, self, kind, dev, i)
        invariant Mirrors(SwitchPrefix(rs, self, kind, dev, i))
      {
        MoveIfMarked(kind, dev, switchDevice, i, self, rs);
      }
    }

    /** One step of the second pass. */
    method MoveIfMarked(kind: Kind, dev: Device, switchDevice: array<bool>, i: nat, ghost self: nat,
                        ghost rs: seq<Route>)
      requires Shape() && i < |rs| && Mirrors(SwitchPrefix(rs, self, kind, dev, i))
      requires switchDevice.Length == AUDIO_USECASE_MAX && switchDevice[rs[i].id] == IsSwitched(rs, i, self, kind, dev)
      modifies sndDevRefCnt, usecaseList
      ensures Mirrors(SwitchPrefix(rs, self, kind, dev, i + 1))
      ensures sndDevRefCnt[..]
        == if IsSwitched(rs, i, self, kind, dev) then
             EnableDevice(DisableDevice(old(sndDevRefCnt[..]), rs[i].On(kind)), dev)
           else old(sndDevRefCnt[..])
    {
      hide EnableDevice, DisableDevice, SwitchPrefix, IsSwitched;
      var usecase := usecaseList[i];
      SwitchPrefixStep(rs, self, kind, dev, i);
      assert usecase.Value() == rs[i];
      if switchDevice[usecase.id] {
        MoveUsecase(usecase, kind, dev, i, SwitchPrefix(rs, self, kind, dev, i));
      }
    }

    /** `Attach` on the objects. */
    method RouteTo(uc: Usecase, kind: Kind, dev: Device, ghost self: nat, ghost rs: seq<Route>)
      requires Shape() && Mirrors(rs) && self < |rs| && uc == usecaseList[self]
      modifies sndDevRefCnt, usecaseList
      ensures sndDevRefCnt[..] == Attach(old(sndDevRefCnt[..]), rs, self, kind, dev).0
      ensures Mirrors(Attach(old(sndDevRefCnt[..]), rs, self, kind, dev).1)
    {
      if dev != NONE {
        CheckAndRouteUsecases(uc, kind, dev, self, rs);
        EnableSndDevice(dev);
      }
    }

    /** `AttachBoth` on the objects. */
    method RouteToBoth(uc: Usecase, out: Device, inp: Device, ghost self: nat, ghost rs: seq<Route>)
      requires Shape() && Mirrors(rs) && self < |rs| && uc == usecaseList[self]
      modifies sndDevRefCnt, usecaseList
      ensures sndDevRefCnt[..] == AttachBoth(old(sndDevRefCnt[..]), rs, self, out, inp).0
      ensures Mirrors(AttachBoth(old(sndDevRefCnt[..]), rs, self, out, inp).1)
    {
      hide Attach;
      ghost var a := Attach(sndDevRefCnt[..], rs, self, Playback, out);
      RouteTo(uc, Playback, out, self, rs);
      RouteTo(uc, Capture, inp, self, a.1);
    }

    /** Disables the current devices of a usecase. */
    method ReleaseDevices(usecase: Usecase)
      requires sndDevRefCnt.Length == SND_DEVICE_MAX
      modifies sndDevRefCnt
      ensures sndDevRefCnt[..]
        == Release(Release(old(sndDevRefCnt[..]), usecase.outSndDevice), usecase.inSndDevice)
    {
      hide DisableDevice;
      if usecase.outSndDevice != NONE {
        var _ := DisableSndDevice(usecase.outSndDevice);
      }
      if usecase.inSndDevice != NONE {
        var _ := DisableSndDevice(usecase.inSndDevice);
      }
    }

    /** Writes the new devices of usecase i. */
    method RecordDevices(usecase: Usecase, out: Device, inp: Device, ghost i: nat, ghost rs: seq<Route>)
      requires Shape() && Mirrors(rs) && i < |rs| && usecase == usecaseList[i]
      modifies usecase
      ensures Mirrors(rs[i := Route(usecase.id, usecase.kind, out, inp)])
    {
      assert usecase.Value() == rs[i];
      assert forall j :: 0 <= j < |rs| && j != i ==> usecaseList[j] != usecase && usecaseList[j].Value() == rs[j];
      usecase.inSndDevice := inp;
      usecase.outSndDevice := out;
    }

    /** Releases the current devices of usecase i and puts it on others. */
    method ChangeDevices(usecase: Usecase, out: Device, inp: Device, ghost i: nat)
      requires Valid() && i < |usecaseList| && usecase == usecaseList[i]
      requires out != usecase.outSndDevice || inp != usecase.inSndDevice
      modifies `hw, sndDevRefCnt, usecaseList
      ensures Valid() && hw == Apply(old(hw), i, out, inp)
    {
      hide AttachBoth, Release;
      ghost var r := hw.routes[i];
      assert usecase.Value() == r;
      ghost var a := ReleaseAndRoute(usecase, out, inp, i);
      hide Mirrors;
      RecordDevices(usecase, out, inp, i, a.1);
      hw := hw.(cnt := a.0, routes := a.1[i := r.(out := out, inp := inp)]);
    }

    /** Releases the current devices of usecase i and reroutes the others. */
    method ReleaseAndRoute(usecase: Usecase, out: Device, inp: Device, ghost i: nat)
      returns (ghost a: (Counts, seq<Route>))
      requires Valid() && i < |usecaseList| && usecase == usecaseList[i]
      modifies sndDevRefCnt, usecaseList
      ensures var r := hw.routes[i]; a == AttachBoth(Release(Release(hw.cnt, r.out), r.inp), hw.routes, i, out, inp)
      ensures sndDevRefCnt[..] == a.0 && Mirrors(a.1)
    {
      hide AttachBoth, Release;
      assert i < |hw.routes| && usecase.Value() == hw.routes[i];
      hide Mirrors;
      ReleaseDevices(usecase);
      a := AttachBoth(sndDevRefCnt[..], hw.routes, i, out, inp);
      RouteToBoth(usecase, out, inp, i, hw.routes);
    }

    /** From the comparison with the current devices to the end of select_devices. */
    method ApplyDevices(usecase: Usecase, out: Device, inp: Device, ghost i: nat)
      requires Valid() && i < |usecaseList| && usecase == usecaseList[i]
      modifies `hw, sndDevRefCnt, usecaseList
      ensures Valid() && hw == Apply(old(hw), i, out, inp)
    {
      assert usecase.Value() == hw.routes[i];
      if out == usecase.outSndDevice && inp == usecase.inSndDevice {
        return;
      }
      ChangeDevices(usecase, out, inp, i);
    }

    method SelectDevices(ucId: UsecaseId, ch: Choice) returns (status: int)
      requires Valid()
      modifies `hw, sndDevRefCnt, usecaseList
      ensures Valid() && hw == AudioRouting.SelectDevices(old(hw), ucId, ch)
      ensures status == if IndexOf(old(hw.routes), ucId) < 0 then -EINVAL else OK
      decreases ch
    {
      hide Apply, IndexOf, FirstInput;
      var outSndDevice, inSndDevice := NONE, NONE;
      var input, n := GetFirstInput();
      var usecase, i := GetUsecaseFromId(ucId);
      if usecase == null {
        return -EINVAL;
      }
      assert usecase.Value() == hw.routes[i];
      if usecase.kind != VoiceCall && inCall {
        var vcUsecase, v := GetUsecaseFromId(USECASE_VOICE_CALL);
        if vcUsecase != null {
          assert vcUsecase.Value() == hw.routes[v];
          inSndDevice := vcUsecase.inSndDevice;
          outSndDevice := vcUsecase.outSndDevice;
        }
      }
      assert (outSndDevice, inSndDevice) == Inherited(hw, hw.routes[i]);
      if usecase.kind == VoiceCall {
        outSndDevice := ch.out;
        inSndDevice := ch.inp;
      } else if usecase.kind == Playback {
        inSndDevice := NONE;
        if outSndDevice == NONE {
          outSndDevice := ch.out;
          assert input != null ==> input.Value() == hw.routes[n];
          if input != null && input.kind == Capture && ch.nested.Some? {
            var _ := SelectDevices(input.id, ch.nested.value);
          }
        }
      } else {
        outSndDevice := NONE;
        if inSndDevice == NONE {
          inSndDevice := ch.inp;
        }
      }
      ApplyDevices(usecase, outSndDevice, inSndDevice, i);
      return OK;
    }

    /** out_set_offload_parameters: gives up the speaker of the combo device. */
    method OutSetOffloadParameters(ucInfo: Usecase?, ghost i: int) returns (ret: int)
      requires Valid() && i == IndexOf(hw.routes, USECASE_AUDIO_PLAYBACK_OFFLOAD)
      requires if i < 0 then ucInfo == null else ucInfo == usecaseList[i]
      modifies `hw, sndDevRefCnt, usecaseList
      ensures Valid() && hw == TrimCombo(old(hw))
      ensures ret == if i < 0 then -1 else OK
    {
      ret := if ucInfo == null then -1 else OK;
      if ucInfo != null {
        ghost var rs := hw.routes;
        assert ucInfo.Value() == rs[i];
        if ucInfo.outSndDevice == SPEAKER_AND_HEADPHONES {
          RecordDevices(ucInfo, HEADPHONES, ucInfo.inSndDevice, i, rs);
          var _ := DisableSndDevice(SPEAKER);
          hw := hw.(cnt := sndDevRefCnt[..], routes := rs[i := rs[i].(out := HEADPHONES)]);
        }
      }
    }

    /** A routing parameter for an offload stream that stays on its PCM devices. */
    method RerouteOffload(ch: Choice)
      requires Valid()
      modifies `hw, sndDevRefCnt, usecaseList
      ensures Valid() && hw == OffloadReroute(old(hw), ch)
    {
      var ucInfo, i := GetUsecaseFromId(USECASE_AUDIO_PLAYBACK_OFFLOAD);
      var _ := OutSetOffloadParameters(ucInfo, i);
      var _ := SelectDevices(USECASE_AUDIO_PLAYBACK_OFFLOAD, ch);
    }

    // ----- streams and calls -----

    /** Appends a new usecase to the list and routes it. */
    method EnterUsecase(id: UsecaseId, ch: Choice)
      requires Valid() && IndexOf(hw.routes, id) < 0
      modifies this, sndDevRefCnt, usecaseList
      ensures Valid() && hw == Enter(old(hw), id, ch) && inCall == old(inCall)
      ensures exists u: Usecase :: fresh(u) && usecaseList == old(usecaseList) + [u]
    {
      var ucInfo := new Usecase(id);
      assert forall j :: 0 <= j < |usecaseList| ==> usecaseList[j].Value() == hw.routes[j];
      usecaseList := usecaseList + [ucInfo];
      hw := hw.(routes := hw.routes + [Route(id, KindOf(id), NONE, NONE)]);
      var _ := SelectDevices(id, ch);
    }

    /** Takes usecase i off the list. */
    method RemoveUsecase(u: Usecase, ghost i: nat, ghost rs: seq<Route>)
      requires Shape() && Mirrors(rs) && i < |usecaseList| && u == usecaseList[i]
      modifies `usecaseList
      ensures Shape() && Mirrors(Remove(rs, i))
      ensures forall k :: 0 <= k < |usecaseList| ==> usecaseList[k] in old(usecaseList)
    {
      var k := 0;
      while usecaseList[k] != u
        invariant k <= i
        decreases i - k
      {
        k := k + 1;
      }
      ghost var was := usecaseList;
      usecaseList := usecaseList[..k] + usecaseList[k + 1..];
      assert forall j :: 0 <= j < |usecaseList| ==>
        usecaseList[j] == was[if j < i then j else j + 1] && Remove(rs, i)[j] == rs[if j < i then j else j + 1];
    }

    /** stop_input_stream and disable_output_path_l. */
    method StopStreamUsecase(id: UsecaseId) returns (status: int)
      requires Valid() && id != USECASE_VOICE_CALL
      modifies this, sndDevRefCnt
      ensures Valid() && hw == StopStream(old(hw), id)
      ensures status == if IndexOf(old(hw.routes), id) < 0 then -EINVAL else OK
    {
      hide DisableDevice, Remove, IndexOf;
      var ucInfo, i := GetUsecaseFromId(id);
      if ucInfo == null {
        return -EINVAL;
      }
      ghost var rs := hw.routes;
      assert ucInfo.Value() == rs[i];
      var dev := if ucInfo.kind == Capture then ucInfo.inSndDevice else ucInfo.outSndDevice;
      var _ := DisableSndDevice(dev);
      RemoveUsecase(ucInfo, i, rs);
      hw := hw.(cnt := sndDevRefCnt[..], routes := Remove(rs, i));
      return OK;
    }

    /** start_output_stream and start_input_stream; `o` tells how far they get. */
    method StartStreamUsecase(id: UsecaseId, ch: Choice, o: Outcome) returns (started: bool)
      requires Valid() && IsAllowed(hw, Start(id, ch, o))
      modifies this, sndDevRefCnt, usecaseList
      ensures Valid() && hw == StartStream(old(hw), id, ch, o) && started == (o == Opens)
    {
      if o == Unavailable {
        return false;
      }
      EnterUsecase(id, ch);
      if o == OpenFails {
        var _ := StopStreamUsecase(id);
        return false;
      }
      return true;
    }

    method DisableBoth(out: Device, inp: Device)
      requires sndDevRefCnt.Length == SND_DEVICE_MAX
      modifies sndDevRefCnt
      ensures sndDevRefCnt[..] == DisableDevice(DisableDevice(old(sndDevRefCnt[..]), out), inp)
    {
      hide DisableDevice;
      var _ := DisableSndDevice(out);
      var _ := DisableSndDevice(inp);
    }

    method StopVoiceCall() returns (status: int)
      requires Valid()
      modifies this, sndDevRefCnt
      ensures Valid() && hw == AudioRouting.StopVoiceCall(old(hw))
      ensures forall k :: 0 <= k < |usecaseList| ==> usecaseList[k] in old(usecaseList)
      ensures status == if IndexOf(old(hw.routes), USECASE_VOICE_CALL) < 0 then -EINVAL else OK
    {
      hide IndexOf;
      inCall := false;
      hw := hw.(inCall := false);
      assert forall j :: 0 <= j < |usecaseList| ==> usecaseList[j].Value() == hw.routes[j];
      status := RemoveVoiceUsecase();
    }

    /** The part of stop_voice_call that works on the usecase. */
    method RemoveVoiceUsecase() returns (status: int)
      requires Valid() && !inCall
      modifies `hw, `usecaseList, sndDevRefCnt
      ensures Valid() && hw == AudioRouting.StopVoiceCall(old(hw))
      ensures forall k :: 0 <= k < |usecaseList| ==> usecaseList[k] in old(usecaseList)
      ensures status == if IndexOf(old(hw.routes), USECASE_VOICE_CALL) < 0 then -EINVAL else OK
    {
      hide DisableDevice, Remove, IndexOf;
      var ucInfo, i := GetUsecaseFromId(USECASE_VOICE_CALL);
      if ucInfo == null {
        return -EINVAL;
      }
      assert ucInfo.Value() == hw.routes[i];
      ReleaseUsecase(ucInfo, i);
      return OK;
    }

    /** Both devices are given up, and the usecase leaves the list. */
    method ReleaseUsecase(ucInfo: Usecase, ghost i: nat)
      requires Valid() && i < |usecaseList| && ucInfo == usecaseList[i]
      modifies `hw, `usecaseList, sndDevRefCnt
      ensures Valid()
      ensures var r := old(hw.routes)[i];
        hw == Hw(DisableDevice(DisableDevice(old(hw.cnt), r.out), r.inp), Remove(old(hw.routes), i), old(hw.inCall))
      ensures forall k :: 0 <= k < |usecaseList| ==> usecaseList[k] in old(usecaseList)
    {
      hide DisableDevice, Remove;
      ghost var rs := hw.routes;
      assert ucInfo.Value() == rs[i];
      DisableBoth(ucInfo.outSndDevice, ucInfo.inSndDevice);
      RemoveUsecase(ucInfo, i, rs);
      hw := hw.(cnt := sndDevRefCnt[..], routes := Remove(rs, i));
    }

    /** `memory` is the answer of calloc. */
    method StartVoiceCall(ch: Choice, memory: bool)
      requires Valid() && IndexOf(hw.routes, USECASE_VOICE_CALL) < 0
      modifies this, sndDevRefCnt, usecaseList
      ensures Valid() && hw == AudioRouting.StartVoiceCall(old(hw), ch, memory)
    {
      if !memory {
        return;
      }
      inCall := true;
      hw := hw.(inCall := true);
      EnterUsecase(USECASE_VOICE_CALL, ch);
    }

    /** A change of output device, or of the modem's band, restarts a running call. */
    method RestartVoiceCall(ch: Choice, memory: bool)
      requires Valid() && Base(hw) && inCall
      modifies this, sndDevRefCnt, usecaseList
      ensures Valid() && hw == Step(old(hw), RestartCall(ch, memory))
    {
      hide Base, AudioRouting.StopVoiceCall, AudioRouting.StartVoiceCall;
      RestartStops(hw);
      var _ := StopVoiceCall();
      StartVoiceCall(ch, memory);
    }
  }

  lemma {:induction false} RestartStops(hw: Hw)
    requires Base(hw)
    ensures IndexOf(AudioRouting.StopVoiceCall(hw).routes, USECASE_VOICE_CALL) < 0
  {
    StopVoiceCallKeeps(hw);
  }

  // ----- the searches and passes, on values -----

  lemma {:induction false} FirstIndex(rs: seq<Route>, id: UsecaseId, k: nat)
    requires k < |rs| && rs[k].id == id && forall j :: 0 <= j < k ==> rs[j].id != id
    ensures IndexOf(rs, id) == k
  {
    if k > 0 {
      FirstIndex(rs[1..], id, k - 1);
    }
  }

  lemma {:induction false} FirstInputAt(rs: seq<Route>, k: nat)
    requires k < |rs| && rs[k].kind != Playback && forall j :: 0 <= j < k ==> rs[j].kind == Playback
    ensures FirstInput(rs) == k
  {
    if k > 0 {
      FirstInputAt(rs[1..], k - 1);
    }
  }

  lemma {:induction false} NoInput(rs: seq<Route>)
    requires forall j :: 0 <= j < |rs| ==> rs[j].kind == Playback
    ensures FirstInput(rs) == -1
  {
    if rs != [] {
      NoInput(rs[1..]);
    }
  }

  lemma {:induction false} SwitchPrefixEnds(rs: seq<Route>, self: nat, kind: Kind, dev: Device)
    ensures SwitchPrefix(rs, self, kind, dev, 0) == rs
    ensures SwitchPrefix(rs, self, kind, dev, |rs|) == SwitchRoutes(rs, self, kind, dev)
  {}

  /** Skipping the second pass when no usecase is marked makes no difference. */
  lemma {:induction false} NothingSwitched(cnt: Counts, rs: seq<Route>, self: nat, kind: Kind, dev: Device, n: nat)
    requires n <= |rs| && forall j :: 0 <= j < n ==> !IsSwitched(rs, j, self, kind, dev)
    ensures SwitchCounts(cnt, rs, self, kind, dev, n) == cnt
    ensures n == |rs| ==> SwitchRoutes(rs, self, kind, dev) == rs
  {
    if n > 0 {
      NothingSwitched(cnt, rs, self, kind, dev, n - 1);
    }
  }
}
