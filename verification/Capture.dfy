/** The capture stream of audio_hw.c, with its buffers.

    Buffers are arrays of frames, so that an offset of n frames is n times the
    frame size in bytes.  `script` and `effects` are what pcm_read and the
    effects are going to do. */
module Capture {
  import opened CaptureFlow

  const EINVAL := 22

  class StreamIn {
    const dstChannels: nat
    const hasProcessing: bool
    var periodSize: nat
    var channels: nat
    var hasPcm: bool
    var script: seq<PcmResult>
    var effects: seq<Effect>

    var readStatus: int
    var readBuf: array?<Frame>
    var readBufSize: nat
    var readBufFrames: nat

    var procBufIn: array?<Frame>
    var procBufOut: array?<Frame>
    var procBufSize: nat
    var procBufFrames: nat

    ghost predicate Valid()
      reads this
    {
      periodSize > 0 && IsScript(script, periodSize, channels) && Flows(script)
      && readBufFrames <= periodSize
      && (readBufFrames > 0 ==> readBuf != null && readBuf.Length >= periodSize && readStatus == 0)
      && (readBufSize > 0 ==> readBuf != null && readBuf.Length >= readBufSize)
      && procBufFrames <= procBufSize
      && (procBufSize > 0 && hasProcessing ==> procBufIn != null && procBufIn.Length >= procBufSize)
      && (procBufSize > 0 && dstChannels != channels ==> procBufOut != null && procBufOut.Length >= procBufSize)
      && (readBuf != null ==> readBuf != procBufIn && readBuf != procBufOut)
      && (procBufIn != null ==> procBufIn != procBufOut)
      && (!hasProcessing ==> procBufFrames == 0)
    }

    /** The unread tail of the period buffer, and what is still to be captured. */
    ghost function Src(): (s: Source)
      requires Valid()
      reads this, readBuf
      ensures Flows(s.script)
    {
      Source(if readBufFrames == 0 then [] else readBuf[periodSize - readBufFrames..periodSize], script)
    }

    /** What the process buffer holds. */
    ghost function Proc(): seq<Frame>
      requires Valid()
      reads this, procBufIn
    {
      if procBufFrames == 0 then [] else procBufIn[..procBufFrames]
    }

    /** The buffers as start_input_stream leaves them once the PCM device is open. */
    constructor (dstChannels: nat, hasProcessing: bool, periodSize: nat, channels: nat,
                 script: seq<PcmResult>, effects: seq<Effect>)
      requires periodSize > 0 && IsScript(script, periodSize, channels)
      ensures Valid() && Src() == Source([], script) && Proc() == []
    {
      this.dstChannels, this.hasProcessing := dstChannels, hasProcessing;
      this.periodSize, this.channels, this.hasPcm := periodSize, channels, true;
      this.script, this.effects := script, effects;
      readStatus := 0;
      readBuf, readBufSize, readBufFrames := null, 0, 0;
      procBufIn, procBufOut, procBufSize, procBufFrames := null, null, 0, 0;
      new;
      NoEmptyPeriod(script, periodSize, channels);
    }

    // ----- reading -----

    /** Makes the period buffer as large as a period. */
    method GrowReadBuf()
      requires Valid() && readBufFrames == 0
      modifies `readBuf, `readBufSize
      ensures Valid() && Src() == old(Src()) && Proc() == old(Proc())
      ensures readBuf != null && readBuf.Length >= periodSize && (readBuf == old(readBuf) || fresh(readBuf))
    {
      if readBufSize < periodSize {
        readBufSize := periodSize;
        readBuf := new Frame[periodSize](_ => []);
      }
    }

    /** Reads a period when the buffer is empty. */
    method Refill()
      requires Valid() && readBufFrames == 0
      modifies `readBuf, `readBufSize, `readBufFrames, `readStatus, `script, readBuf
      ensures Valid() && Proc() == old(Proc()) && (readBuf == old(readBuf) || fresh(readBuf))
      ensures match PcmRead(old(script)).0
        case Error(code) => readStatus == code && Src() == Source([], PcmRead(old(script)).1)
        case Period(fs) => readStatus == 0 && Src() == Source(fs, PcmRead(old(script)).1)
    {
      GrowReadBuf();
      var (answer, rest) := PcmRead(script);
      LaterScript(script, periodSize, channels);
      hide IsScript, Flows, PcmRead;
      script := rest;
      match answer
      case Error(code) =>
        readStatus := code;
      case Period(fs) =>
        FillPeriod(fs);
        readStatus := 0;
        readBufFrames := periodSize;
    }

    /** What pcm_read leaves in the buffer. */
    method FillPeriod(fs: seq<Frame>)
      requires readBuf != null && |fs| == periodSize <= readBuf.Length
      modifies readBuf
      ensures readBuf[..periodSize] == fs
    {
      forall i | 0 <= i < periodSize {
        readBuf[i] := fs[i];
      }
    }

    /** Offers up to `frameCount` frames of the period buffer; `offset` is negative for NULL. */
    method GetNextBuffer(frameCount: nat) returns (status: int, offset: int, count: nat)
      requires Valid() && frameCount > 0
      modifies `readBuf, `readBufSize, `readBufFrames, `readStatus, `script, readBuf
      ensures Valid() && Proc() == old(Proc()) && (readBuf == old(readBuf) || fresh(readBuf))
      ensures status == readStatus && (status == 0 <==> offset >= 0)
      ensures status != 0 ==>
        count == 0 && CaptureFlow.ReadFrames(old(Src()), frameCount) == ReadResult(status, [], Src())
      ensures status == 0 ==>
        0 < count <= readBufFrames == |Src().tail| && count <= frameCount && offset == periodSize - readBufFrames
        && count == (if frameCount > readBufFrames then readBufFrames else frameCount)
        && CaptureFlow.ReadFrames(old(Src()), frameCount) == CaptureFlow.ReadFrames(Src(), frameCount)
    {
      hide CaptureFlow.ReadFrames, IsScript;
      if readBufFrames == 0 {
        RefillStep(script, frameCount);
        ScriptCodes(script, periodSize, channels);
        Refill();
        if readStatus != 0 {
          return readStatus, -1, 0;
        }
      }
      count := if frameCount > readBufFrames then readBufFrames else frameCount;
      return readStatus, periodSize - readBufFrames, count;
    }

    /** Gives back `count` frames that have been used. */
    method ReleaseBuffer(count: nat)
      requires Valid() && count <= readBufFrames
      modifies `readBufFrames
      ensures Valid() && Proc() == old(Proc())
      ensures count <= |old(Src()).tail| && Src() == Source(old(Src()).tail[count..], old(Src()).script)
    {
      readBufFrames := readBufFrames - count;
    }

    /** One iteration of the loop of read_frames: `left` frames are still to be read into dst from
        position `to` on.  `copied` is what the iteration adds. */
    method ReadChunk(dst: array<Frame>, to: nat, left: nat) returns (status: int, count: nat, ghost copied: seq<Frame>)
      requires Valid() && left > 0 && to + left <= dst.Length && dst != readBuf
      requires dst == procBufIn ==> to >= procBufFrames
      modifies `readBuf, `readBufSize, `readBufFrames, `readStatus, `script, readBuf, dst
      ensures Valid() && Proc() == old(Proc()) && (readBuf == old(readBuf) || fresh(readBuf))
      ensures status == readStatus && count == |copied| <= left && (status == 0 ==> count > 0)
      ensures Patched(dst[..], old(dst[..]), to, copied)
      ensures var r := CaptureFlow.ReadFrames(old(Src()), left);
        if status != 0 then copied == [] && r == ReadResult(status, [], Src())
        else IsRest(r, copied, CaptureFlow.ReadFrames(Src(), left - count))
    {
      hide CaptureFlow.ReadFrames, IsScript, Valid, Src, IsRest, Patched;
      var offset;
      status, offset, count := GetNextBuffer(left);
      if status != 0 {
        copied := [];
        PatchNothing(dst[..], to);
        return;
      }
      copied := Src().tail[..count];
      TakeStep(Src(), left, count);
      CopyFrames(dst, to, offset, count);
      ReleaseBuffer(count);
    }

    /** Reads exactly `frames` frames into dst from position `at` on. */
    method ReadFrames(dst: array<Frame>, at: nat, frames: nat) returns (ret: int)
      requires Valid() && at + frames <= dst.Length && dst != readBuf
      requires dst == procBufIn ==> at >= procBufFrames
      modifies `readBuf, `readBufSize, `readBufFrames, `readStatus, `script, readBuf, dst
      ensures Valid() && (readBuf == old(readBuf) || fresh(readBuf)) && Proc() == old(Proc())
      ensures !hasPcm ==> ret == -EINVAL && Src() == old(Src()) && dst[..] == old(dst[..])
      ensures hasPcm ==> (var r := CaptureFlow.ReadFrames(old(Src()), frames);
        Src() == r.source
        && ret == (if r.status == 0 then frames else r.status)
        && |r.frames| <= frames
        && Patched(dst[..], old(dst[..]), at, r.frames))
    {
      hide CaptureFlow.ReadFrames, IsScript, Valid, Src, IsRest, Patched;
      if !hasPcm {
        return -EINVAL;
      }
      ghost var all := CaptureFlow.ReadFrames(Src(), frames);
      ghost var done: seq<Frame> := [];
      ghost var was := dst[..];
      StartRest(all);
      PatchNothing(was, at);
      var framesWr := 0;
      while framesWr < frames
        invariant Valid() && hasPcm && framesWr == |done| <= frames && dst != readBuf && Proc() == old(Proc())
        invariant readBuf == old(readBuf) || fresh(readBuf)
        invariant IsRest(all, done, CaptureFlow.ReadFrames(Src(), frames - framesWr))
        invariant Patched(dst[..], was, at, done)
      {
        ghost var r, before := CaptureFlow.ReadFrames(Src(), frames - framesWr), dst[..];
        var status, count;
        ghost var copied;
        status, count, copied := ReadChunk(dst, at + framesWr, frames - framesWr);
        PatchMore(before, was, at, done, dst[..], copied);
        if status != 0 {
          EndRest(all, done, r);
          assert done + copied == done;
          return readStatus;
        }
        ChainRest(all, done, r, copied, CaptureFlow.ReadFrames(Src(), frames - framesWr - count));
        done := done + copied;
        framesWr := framesWr + count;
      }
      NothingLeft(Src());
      EndRest(all, done, ReadResult(0, [], Src()));
      return framesWr;
    }

    /** memcpy from the period buffer. */
    method CopyFrames(dst: array<Frame>, to: nat, offset: nat, count: nat)
      requires Valid() && readBufFrames > 0 && offset == periodSize - readBufFrames && count <= readBufFrames
      requires to + count <= dst.Length && dst != readBuf
      requires dst == procBufIn ==> to >= procBufFrames
      modifies dst
      ensures Proc() == old(Proc())
      ensures Patched(dst[..], old(dst[..]), to, Src().tail[..count])
    {
      hide IsScript, Flows, Patched;
      assert readBuf[offset..offset + count] == Src().tail[..count];
      CopyRange(dst, to, readBuf, offset, count);
    }

    static method CopyRange(dst: array<Frame>, to: nat, src: array<Frame>, from: nat, count: nat)
      requires to + count <= dst.Length && from + count <= src.Length && dst != src
      modifies dst
      ensures dst[..to] == old(dst[..to])
      ensures Patched(dst[..], old(dst[..]), to, src[from..from + count])
    {
      forall j | 0 <= j < count {
        dst[to + j] := src[from + j];
      }
    }

    // ----- processing -----

    /** realloc, of which only the first `keep` frames matter. */
    static method Realloc(buf: array?<Frame>, keep: nat, frames: nat) returns (grown: array<Frame>)
      requires keep <= frames && (keep > 0 ==> buf != null && buf.Length >= keep)
      ensures fresh(grown) && grown.Length == frames
      ensures keep > 0 ==> grown[..keep] == buf[..keep]
    {
      grown := new Frame[frames](_ => []);
      if keep > 0 {
        forall j | 0 <= j < keep {
          grown[j] := buf[j];
        }
      }
    }

    /** Makes room for `frames` frames in the process buffers; realloc keeps what they hold. */
    method GrowProcBufs(frames: nat)
      requires Valid() && procBufSize < frames
      modifies `procBufIn, `procBufOut, `procBufSize
      ensures Valid() && Src() == old(Src()) && Proc() == old(Proc()) && procBufSize >= frames
      ensures procBufIn == old(procBufIn) || fresh(procBufIn)
      ensures procBufOut == old(procBufOut) || fresh(procBufOut)
    {
      hide IsScript, Flows;
      if hasProcessing {
        procBufIn := Realloc(procBufIn, procBufFrames, frames);
      }
      if dstChannels != channels {
        procBufOut := new Frame[frames](_ => []);
      }
      procBufSize := frames;
    }

    /** Reads n frames to the end of the process buffer. */
    method AppendToProcBuf(n: nat) returns (status: int)
      requires Valid() && hasProcessing && hasPcm && n > 0 && procBufFrames + n <= procBufSize
      modifies `readBuf, `readBufSize, `readBufFrames, `readStatus, `script, `procBufFrames, readBuf, procBufIn
      ensures Valid() && (readBuf == old(readBuf) || fresh(readBuf))
      ensures var r := CaptureFlow.ReadFrames(old(Src()), n);
        status == r.status && Src() == r.source
        && Proc() == (if status == 0 then old(Proc()) + r.frames else old(Proc()))
    {
      hide CaptureFlow.ReadFrames, IsScript, Patched;
      ReadSucceeds(Src(), n, periodSize, channels);
      ghost var r := CaptureFlow.ReadFrames(Src(), n);
      ghost var before := procBufIn[..];
      ghost var proc := Proc();
      assert proc == before[..procBufFrames];
      var framesRd := ReadFrames(procBufIn, procBufFrames, n);
      if framesRd < 0 {
        return framesRd;
      }
      Appended(procBufIn[..], before, procBufFrames, r.frames);
      ghost var source := Src();
      CountProcFrames(framesRd, proc + r.frames);
      return 0;
    }

    method CountProcFrames(n: nat, ghost proc: seq<Frame>)
      requires Valid() && hasProcessing && n > 0 && procBufFrames + n <= procBufSize
      requires procBufIn[..procBufFrames + n] == proc
      modifies `procBufFrames
      ensures Valid() && Proc() == proc && Src() == old(Src())
    {
      procBufFrames := procBufFrames + n;
    }

    /** Reloads the process buffer to `frames` frames. */
    method ReloadProcBuf(frames: nat) returns (status: int)
      requires Valid() && hasProcessing && hasPcm
      modifies `readBuf, `readBufSize, `readBufFrames, `readStatus, `script, readBuf
      modifies `procBufIn, `procBufOut, `procBufSize, `procBufFrames, procBufIn
      ensures Valid() && procBufSize >= frames
      ensures readBuf == old(readBuf) || fresh(readBuf)
      ensures procBufIn == old(procBufIn) || fresh(procBufIn)
      ensures old(procBufSize) >= frames ==> procBufOut == old(procBufOut)
      ensures procBufOut == old(procBufOut) || fresh(procBufOut)
      ensures var r := Reload(old(Proc()), old(Src()), frames);
        status == r.status && Src() == r.source
        && Proc() == (if status == 0 then old(Proc()) + r.frames else old(Proc()))
    {
      hide CaptureFlow.ReadFrames, IsScript, Src;
      status := 0;
      ghost var proc := Proc();
      assert proc + [] == proc;
      if procBufFrames < frames {
        if procBufSize < frames {
          GrowProcBufs(frames);
        }
        status := AppendToProcBuf(frames - procBufFrames);
      }
    }

    /** One call of the effects: they take frames from the front of the process buffer, which the rest
        is moved to, and write others to `out`. */
    method RunEffects(out: array<Frame>, at: nat, room: nat) returns (count: nat)
      requires Valid() && hasProcessing && effects != [] && at + room <= out.Length
      requires out != readBuf && out != procBufIn
      modifies `effects, `procBufFrames, procBufIn, out
      ensures Valid() && Src() == old(Src()) && effects == old(effects)[1..]
      ensures Proc() == old(Proc())[Consumed(old(effects)[0], |old(Proc())|)..]
      ensures count == |Produced(old(effects)[0], room)|
      ensures Patched(out[..], old(out[..]), at, Produced(old(effects)[0], room))
    {
      hide IsScript, Flows, Patched;
      var consumed := Consumed(effects[0], procBufFrames);
      var produced := Produced(effects[0], room);
      count := |produced|;
      WriteFrames(out, at, produced);
      effects := effects[1..];
      MoveToFront(consumed);
    }

    static method WriteFrames(out: array<Frame>, at: nat, fs: seq<Frame>)
      requires at + |fs| <= out.Length
      modifies out
      ensures Patched(out[..], old(out[..]), at, fs)
    {
      forall j | 0 <= j < |fs| {
        out[at + j] := fs[j];
      }
    }

    /** Moves what remains of the process buffer to its beginning. */
    method MoveToFront(consumed: nat)
      requires Valid() && hasProcessing && consumed <= procBufFrames
      modifies `procBufFrames, procBufIn
      ensures Valid() && Src() == old(Src()) && Proc() == old(Proc())[consumed..]
    {
      hide IsScript, Flows;
      ghost var proc := Proc();
      procBufFrames := procBufFrames - consumed;
      if procBufFrames > 0 {
        forall j | 0 <= j < procBufFrames {
          procBufIn[j] := procBufIn[j + consumed];
        }
        assert procBufIn[..procBufFrames] == proc[consumed..];
      }
    }

    /** Where the effects write: the caller's buffer, unless channels have to be dropped. */
    function OutBuf(buffer: array<Frame>): array?<Frame>
      reads `procBufOut, `channels
    {
      if dstChannels != channels then procBufOut else buffer
    }

    /** The buffers that the stream works on are the ones it had, or new. */
    twostate predicate SameOrFresh()
      reads this
    {
      (readBuf == old(readBuf) || fresh(readBuf))
      && (procBufIn == old(procBufIn) || fresh(procBufIn))
      && (procBufOut == old(procBufOut) || fresh(procBufOut))
    }

    /** One iteration of the processing loop. */
    method ProcessChunk(buffer: array<Frame>, framesWr: nat, frames: nat)
      returns (status: int, waiting: bool, count: nat)
      requires Valid() && hasProcessing && hasPcm && framesWr < frames <= buffer.Length
      requires buffer != readBuf && buffer != procBufIn && buffer != procBufOut
      modifies this, readBuf, procBufIn, procBufOut, buffer
      ensures Valid() && hasPcm && channels == old(channels) && procBufSize >= frames && SameOrFresh()
      ensures old(procBufSize) >= frames ==> procBufOut == old(procBufOut)
      ensures OutBuf(buffer) != null && OutBuf(buffer).Length >= frames
      ensures var r := Reload(old(Proc()), old(Src()), frames);
        status == r.status && Src() == r.source && waiting == (status == 0 && old(effects) == [])
      ensures status != 0 ==> Proc() == old(Proc())
      ensures status == 0 && waiting ==> Proc() == old(Proc()) + Reload(old(Proc()), old(Src()), frames).frames
      ensures status != 0 || waiting ==> count == 0 && effects == old(effects)
      ensures status == 0 && !waiting ==>
        (var full := old(Proc()) + Reload(old(Proc()), old(Src()), frames).frames;
         Proc() == full[Consumed(old(effects)[0], |full|)..])
        && effects == old(effects)[1..]
        && count == |Produced(old(effects)[0], frames - framesWr)|
        && framesWr + count <= OutBuf(buffer).Length
        && OutBuf(buffer)[framesWr..framesWr + count] == Produced(old(effects)[0], frames - framesWr)
        && (old(procBufSize) >= frames && old(OutBuf(buffer)) != null && framesWr <= old(OutBuf(buffer)).Length ==>
              OutBuf(buffer)[..framesWr] == old(OutBuf(buffer)[..framesWr]))
    {
      hide IsScript, Flows, Reload, CaptureFlow.ReadFrames, Src, Proc, Patched, Consumed, Produced;
      waiting, count := false, 0;
      status := ReloadProcBuf(frames);
      var out := OutBuf(buffer);
      if status != 0 {
        return;
      }
      if effects == [] {
        waiting := true;
        return;
      }
      ghost var before := out[..];
      count := RunEffects(out, framesWr, frames - framesWr);
      PatchedParts(out[..], before, framesWr, Produced(old(effects)[0], frames - framesWr));
    }

    /** In the processing loop, with `out` produced and `used` taken: what is left of the result `all`. */
    ghost predicate IsAt(buffer: array<Frame>, frames: nat, all: ProcessResult, out: seq<Frame>, used: seq<Frame>)
      reads this, readBuf, procBufIn, procBufOut, buffer
    {
      Valid() && hasProcessing && hasPcm && |out| <= frames <= buffer.Length
      && buffer != readBuf && buffer != procBufIn && buffer != procBufOut
      && (out != [] ==>
            procBufSize >= frames && OutBuf(buffer) != null && OutBuf(buffer).Length >= frames
            && OutBuf(buffer)[..|out|] == out)
      && IsProcessRest(all, used, ProcessFrames(Proc(), Src(), effects, out, frames))
    }

    /** One turn of the processing loop. */
    method ProcessTurn(buffer: array<Frame>, framesWr: nat, frames: nat, ghost all: ProcessResult,
                       ghost out: seq<Frame>, ghost used: seq<Frame>)
      returns (status: int, waiting: bool, count: nat, ghost out': seq<Frame>, ghost used': seq<Frame>)
      requires IsAt(buffer, frames, all, out, used) && framesWr == |out| < frames
      modifies this, readBuf, procBufIn, procBufOut, buffer
      ensures Valid() && hasPcm && channels == old(channels) && SameOrFresh()
      ensures status != 0 || waiting ==>
        all.progress == (if status != 0 then Failed(status) else Waiting)
        && Proc() == all.proc && Src() == all.source && effects == all.effects
      ensures status == 0 && !waiting ==>
        IsAt(buffer, frames, all, out', used') && |out'| == framesWr + count && |effects| < |old(effects)|
    {
      hide IsScript, Flows, Valid, Src, Proc, Reload, ProcessFrames, Consumed, IsProcessRest, Produced;
      out', used' := out, used;
      ghost var fx := effects;
      ProcessUnfold(Proc(), Src(), effects, out, frames, all, used);
      ghost var full := Proc() + Reload(Proc(), Src(), frames).frames;
      status, waiting, count := ProcessChunk(buffer, framesWr, frames);
      if status == 0 && !waiting {
        ghost var more := Produced(fx[0], frames - framesWr);
        Extended(OutBuf(buffer)[..], framesWr, more);
        out', used' := out + more, used + full[..Consumed(fx[0], |full|)];
      }
    }

    /** The processing loop: yields `frames` frames in OutBuf(buffer), unless a read fails or the
        effects have not been called often enough yet. */
    method ProcessLoop(buffer: array<Frame>, frames: nat) returns (progress: Progress)
      requires Valid() && hasProcessing && hasPcm && frames <= buffer.Length
      requires buffer != readBuf && buffer != procBufIn && buffer != procBufOut
      modifies this, readBuf, procBufIn, procBufOut, buffer
      ensures Valid() && hasPcm && channels == old(channels) && SameOrFresh()
      ensures var p := ProcessFrames(old(Proc()), old(Src()), old(effects), [], frames);
        progress == p.progress && Proc() == p.proc && Src() == p.source && effects == p.effects
        && (progress.Done? ==> |p.out| == frames)
        && (progress.Done? && frames > 0 ==>
              OutBuf(buffer) != null && OutBuf(buffer).Length >= frames && OutBuf(buffer)[..frames] == p.out)
    {
      hide IsScript, Flows, Valid, Src, Proc, Reload, ProcessFrames, Consumed, Produced;
      ghost var all := ProcessFrames(Proc(), Src(), effects, [], frames);
      ghost var out: seq<Frame>, used: seq<Frame> := [], [];
      assert [] + all.used == all.used;
      var framesWr := 0;
      while framesWr < frames
        invariant channels == old(channels) && SameOrFresh()
        invariant IsAt(buffer, frames, all, out, used) && framesWr == |out|
        decreases |effects|
      {
        var status, waiting, count;
        status, waiting, count, out, used := ProcessTurn(buffer, framesWr, frames, all, out, used);
        if status != 0 {
          return Failed(status);
        }
        if waiting {
          return Waiting;
        }
        framesWr := framesWr + count;
      }
      ProcessFinished(Proc(), Src(), effects, out, frames, all, used);
      return Done;
    }

    /** Removes the channels after the main ones from n frames. */
    method RemoveChannels(src: array<Frame>, dst: array<Frame>, n: nat)
      requires n <= src.Length && n <= dst.Length && src != dst
      modifies dst
      ensures dst[..n] == DropChannels(src[..n], dstChannels)
      ensures dst[n..] == old(dst[n..])
    {
      for i := 0 to n
        invariant dst[..i] == DropChannels(src[..i], dstChannels)
        invariant dst[n..] == old(dst[n..])
      {
        DropChannelsNext(src[..], i, dstChannels);
        dst[i] := if |src[i]| <= dstChannels then src[i] else src[i][..dstChannels];
      }
    }

    /** Copies `n` frames to the caller's buffer, unless they are there already. */
    method Deliver(buffer: array<Frame>, n: nat)
      requires n <= buffer.Length && (n > 0 ==> OutBuf(buffer) != null && OutBuf(buffer).Length >= n)
      requires buffer != procBufOut
      modifies buffer
      ensures forall k :: 0 <= k < n ==>
        buffer[k] == (var f := old(OutBuf(buffer)[k]);
                      if dstChannels != channels && |f| > dstChannels then f[..dstChannels] else f)
    {
      if dstChannels != channels && n > 0 {
        ghost var fs := procBufOut[..n];
        RemoveChannels(procBufOut, buffer, n);
        forall k | 0 <= k < n
          ensures buffer[k] == if |fs[k]| > dstChannels then fs[k][..dstChannels] else fs[k]
        {
          DropChannelsAt(fs, dstChannels, k);
          assert buffer[k] == buffer[..n][k];
        }
      }
    }

    /** The branch without effects: reads straight to where the frames are wanted. */
    method ReadUnprocessed(buffer: array<Frame>, frames: nat) returns (ret: int)
      requires Valid() && !hasProcessing && hasPcm && frames <= buffer.Length
      requires buffer != readBuf && buffer != procBufIn && buffer != procBufOut
      modifies this, readBuf, procBufOut, buffer
      ensures Valid() && hasPcm && channels == old(channels) && SameOrFresh()
      ensures var r := CaptureFlow.ReadFrames(old(Src()), frames);
        Src() == r.source && r.status <= 0 && ret == (if r.status == 0 then frames else r.status)
        && (r.status == 0 ==> |r.frames| == frames)
        && (r.status == 0 && frames > 0 ==>
              (OutBuf(buffer) != null && OutBuf(buffer).Length >= frames && OutBuf(buffer)[..frames] == r.frames))
    {
      hide IsScript, Flows, CaptureFlow.ReadFrames;
      if dstChannels != channels && procBufSize < frames {
        GrowProcBufs(frames);
      }
      if frames == 0 {
        NothingLeft(Src());
        return 0;
      }
      ret := ReadFront(OutBuf(buffer), frames);
    }

    /** Reads to the front of a buffer. */
    method ReadFront(dst: array<Frame>, frames: nat) returns (ret: int)
      requires Valid() && !hasProcessing && hasPcm && frames <= dst.Length && dst != readBuf
      modifies `readBuf, `readBufSize, `readBufFrames, `readStatus, `script, readBuf, dst
      ensures Valid() && (readBuf == old(readBuf) || fresh(readBuf))
      ensures var r := CaptureFlow.ReadFrames(old(Src()), frames);
        Src() == r.source && r.status <= 0 && ret == (if r.status == 0 then frames else r.status)
        && (r.status == 0 ==> dst[..frames] == r.frames)
    {
      hide IsScript, CaptureFlow.ReadFrames, Patched;
      ReadSucceeds(Src(), frames, periodSize, channels);
      ghost var r := CaptureFlow.ReadFrames(Src(), frames);
      ghost var before := dst[..];
      hide Flows, Src;
      ret := ReadFrames(dst, 0, frames);
      Appended(dst[..], before, 0, r.frames);
    }

    /** `read_and_process_frames`. */
    method ReadAndProcessFrames(buffer: array<Frame>, frames: nat) returns (ret: int, progress: Progress)
      requires Valid() && frames <= buffer.Length
      requires buffer != readBuf && buffer != procBufIn && buffer != procBufOut
      modifies this, readBuf, procBufIn, procBufOut, buffer
      ensures Valid() && SameOrFresh() && hasPcm == old(hasPcm) && channels == old(channels)
      ensures !old(hasPcm) ==> ret == -EINVAL
      ensures !hasProcessing ==> progress == Done
      ensures old(hasPcm) && hasProcessing ==>
        (var p := ProcessFrames(old(Proc()), old(Src()), old(effects), [], frames);
         progress == p.progress && Proc() == p.proc && Src() == p.source && effects == p.effects
         && (p.progress.Failed? ==> ret == p.progress.code)
         && (p.progress.Waiting? ==> ret == 0)
         && (p.progress.Done? ==> ret == frames)
         && (p.progress.Done? ==>
               |p.out| == frames
               && forall k :: 0 <= k < frames ==>
                    buffer[k] == if dstChannels != old(channels) && |p.out[k]| > dstChannels
                                 then p.out[k][..dstChannels] else p.out[k]))
      ensures old(hasPcm) && !hasProcessing ==>
        (var r := CaptureFlow.ReadFrames(old(Src()), frames);
         Src() == r.source && ret == (if r.status == 0 then frames else r.status)
         && (r.status == 0 ==>
               |r.frames| == frames
               && forall k :: 0 <= k < frames ==>
                    buffer[k] == if dstChannels != old(channels) && |r.frames[k]| > dstChannels
                                 then r.frames[k][..dstChannels] else r.frames[k]))
    {
      hide IsScript, CaptureFlow.ReadFrames, ProcessFrames, Valid, Src, Proc;
      progress := Done;
      if !hasPcm {
        return -EINVAL, progress;
      }
      if hasProcessing {
        progress := ProcessLoop(buffer, frames);
        match progress
        case Failed(code) => return code, progress;
        case Waiting => return 0, progress;
        case Done => ret := frames;
      } else {
        ret := ReadUnprocessed(buffer, frames);
        if ret < 0 {
          return;
        }
      }
      Deliver(buffer, frames);
    }

    // ----- sessions -----

    /** In standby: the PCM device is closed and the period buffer freed. */
    ghost predicate IsIdle()
      reads this
    {
      !hasPcm && periodSize > 0 && IsScript(script, periodSize, channels) && Flows(script)
      && readBuf == null && (procBufIn != null ==> procBufIn != procBufOut)
    }

    ghost predicate IsReady()
      reads this
    {
      if hasPcm then Valid() else IsIdle()
    }

    /** Where the next call starts from: in standby, from empty buffers. */
    ghost function StartSrc(): (s: Source)
      requires IsReady()
      reads this, readBuf
      ensures Flows(s.script)
    {
      if hasPcm then Src() else Source([], script)
    }

    ghost function StartProc(): seq<Frame>
      requires IsReady()
      reads this, procBufIn
    {
      if hasPcm then Proc() else []
    }

    /** The end of start_input_stream. */
    method Start()
      requires IsIdle()
      modifies this
      ensures Valid() && hasPcm && Src() == Source([], script) && Proc() == []
      ensures script == old(script) && effects == old(effects) && channels == old(channels) && SameOrFresh()
    {
      hasPcm := true;
      procBufFrames, procBufSize, readBufSize, readBufFrames := 0, 0, 0, 0;
    }

    /** do_in_standby_l. */
    method Standby()
      requires Valid() && hasPcm
      modifies this
      ensures IsIdle() && script == old(script) && effects == old(effects)
      ensures procBufIn == old(procBufIn) && procBufOut == old(procBufOut)
    {
      hasPcm := false;
      readBuf := null;
    }

    /** Zeroes the caller's buffer. */
    method Silence(buffer: array<Frame>, n: nat)
      requires n <= buffer.Length
      modifies buffer
      ensures IsSilent(buffer, n)
    {
      for i := 0 to n
        invariant forall j :: 0 <= j < i ==>
          |buffer[j]| == dstChannels && forall c :: 0 <= c < dstChannels ==> buffer[j][c] == 0
      {
        buffer[i] := seq(dstChannels, _ => 0);
      }
    }

    ghost predicate IsSilent(buffer: array<Frame>, n: nat)
      requires n <= buffer.Length
      reads this, buffer
    {
      forall i :: 0 <= i < n ==> |buffer[i]| == dstChannels && forall c :: 0 <= c < dstChannels ==> buffer[i][c] == 0
    }

    /** `in_read`: a call that fails goes to standby and gives silence; `opens` is whether the PCM device can be opened,
        if it has to be.  With the microphone muted, what was captured is replaced by silence.  The caller is always
        told that it got all it asked for. */
    method InRead(buffer: array<Frame>, frames: nat, opens: bool, muted: bool) returns (ret: nat, progress: Progress)
      requires IsReady() && frames <= buffer.Length
      requires buffer != readBuf && buffer != procBufIn && buffer != procBufOut
      modifies this, readBuf, procBufIn, procBufOut, buffer
      ensures IsReady() && ret == frames
      ensures muted ==> IsSilent(buffer, frames)
      ensures !old(hasPcm) && !opens ==>
        StartSrc() == old(StartSrc()) && StartProc() == [] && IsSilent(buffer, frames)
      ensures (old(hasPcm) || opens) && hasProcessing ==>
        (var p := ProcessFrames(old(StartProc()), old(StartSrc()), old(effects), [], frames);
         progress == p.progress && effects == p.effects
         && (p.progress.Failed? ==>
               StartProc() == [] && StartSrc() == Source([], p.source.script) && IsSilent(buffer, frames))
         && (!p.progress.Failed? ==> StartProc() == p.proc && StartSrc() == p.source)
         && (p.progress.Done? && !muted ==>
               |p.out| == frames
               && forall k :: 0 <= k < frames ==>
                    buffer[k] == if dstChannels != old(channels) && |p.out[k]| > dstChannels
                                 then p.out[k][..dstChannels] else p.out[k]))
      ensures (old(hasPcm) || opens) && !hasProcessing ==>
        (var r := CaptureFlow.ReadFrames(old(StartSrc()), frames);
         (r.status != 0 ==> StartSrc() == Source([], r.source.script) && IsSilent(buffer, frames))
         && (r.status == 0 ==> StartSrc() == r.source)
         && (r.status == 0 && !muted ==>
               |r.frames| == frames
               && forall k :: 0 <= k < frames ==>
                    buffer[k] == if dstChannels != old(channels) && |r.frames[k]| > dstChannels
                                 then r.frames[k][..dstChannels] else r.frames[k]))
    {
      hide IsScript, CaptureFlow.ReadFrames, ProcessFrames;
      progress := Done;
      ret := frames;
      if !hasPcm {
        if !opens {
          Silence(buffer, frames);
          return;
        }
        Start();
      }
      ReadStatus(Src(), frames, periodSize, channels);
      var got: int;
      got, progress := ReadAndProcessFrames(buffer, frames);
      if progress.Failed? || got < 0 {
        Standby();
        Silence(buffer, frames);
      } else if muted {
        Silence(buffer, frames);
      }
    }
  }

  lemma {:induction false} ReadStatus(s: Source, n: nat, period: nat, channels: nat)
    requires IsScript(s.script, period, channels) && period > 0 && Flows(s.script)
    ensures CaptureFlow.ReadFrames(s, n).status <= 0
  {
    ReadSucceeds(s, n, period, channels);
  }

  lemma {:induction false} DropChannelsNext(fs: seq<Frame>, i: nat, dst: nat)
    requires i < |fs|
    ensures DropChannels(fs[..i + 1], dst)
         == DropChannels(fs[..i], dst) + [if |fs[i]| <= dst then fs[i] else fs[i][..dst]]
  {
    assert fs[..i + 1] == fs[..i] + [fs[i]];
    DropChannelsSnoc(fs[..i], fs[i], dst);
  }

  lemma {:induction false} DropChannelsSnoc(fs: seq<Frame>, f: Frame, dst: nat)
    ensures DropChannels(fs + [f], dst) == DropChannels(fs, dst) + [if |f| <= dst then f else f[..dst]]
  {
    if fs == [] {
      assert [] + [f] == [f] && [f][1..] == [];
    } else {
      assert (fs + [f])[1..] == fs[1..] + [f];
      DropChannelsSnoc(fs[1..], f, dst);
    }
  }

  /** `p` is what is left of the result `all` once the effects took `used`. */
  ghost predicate IsProcessRest(all: ProcessResult, used: seq<Frame>, p: ProcessResult) {
    all == p.(used := used + p.used)
  }

  lemma {:induction false} ProcessUnfold(proc: seq<Frame>, s: Source, effects: seq<Effect>, out: seq<Frame>, n: nat,
                                         all: ProcessResult, used: seq<Frame>)
    requires Flows(s.script) && |out| < n
    requires IsProcessRest(all, used, ProcessFrames(proc, s, effects, out, n))
    ensures var r := Reload(proc, s, n); var full := proc + r.frames;
      if r.status != 0 then all == ProcessResult(Failed(r.status), out, used, proc, r.frames, r.source, effects)
      else if effects == [] then all == ProcessResult(Waiting, out, used, full, [], r.source, effects)
      else var k := Consumed(effects[0], |full|);
        IsProcessRest(all, used + full[..k],
          ProcessFrames(full[k..], r.source, effects[1..], out + Produced(effects[0], n - |out|), n))
  {
    hide Reload;
    var r := Reload(proc, s, n);
    var full := proc + r.frames;
    assert used + [] == used;
    if r.status == 0 && effects != [] {
      var k := Consumed(effects[0], |full|);
      var p := ProcessFrames(full[k..], r.source, effects[1..], out + Produced(effects[0], n - |out|), n);
      assert used + (full[..k] + p.used) == (used + full[..k]) + p.used;
    }
  }

  lemma {:induction false} ProcessFinished(proc: seq<Frame>, s: Source, effects: seq<Effect>, out: seq<Frame>, n: nat,
                                           all: ProcessResult, used: seq<Frame>)
    requires Flows(s.script) && |out| >= n
    requires IsProcessRest(all, used, ProcessFrames(proc, s, effects, out, n))
    ensures all == ProcessResult(Done, out, used, proc, [], s, effects)
  {
    assert used + [] == used;
  }

  lemma {:induction false} Extended(a: seq<Frame>, i: nat, more: seq<Frame>)
    requires i + |more| <= |a| && a[i..i + |more|] == more
    ensures a[..i + |more|] == a[..i] + more
  {}

  // ----- the steps on values -----

  lemma {:induction false} NoEmptyPeriod(script: seq<PcmResult>, period: nat, channels: nat)
    requires IsScript(script, period, channels) && period > 0
    ensures Flows(script)
  {}

  lemma {:induction false} LaterScript(script: seq<PcmResult>, period: nat, channels: nat)
    requires IsScript(script, period, channels) && Flows(script)
    ensures IsScript(PcmRead(script).1, period, channels) && Flows(PcmRead(script).1)
    ensures PcmRead(script).0.Period? ==> |PcmRead(script).0.frames| == period
  {}

  lemma {:induction false} ScriptCodes(script: seq<PcmResult>, period: nat, channels: nat)
    requires IsScript(script, period, channels)
    ensures PcmRead(script).0.Error? ==> PcmRead(script).0.code < 0
  {
    if script != [] {
      assert match script[0] case Period(fs) => true case Error(code) => code < 0;
    }
  }

  lemma {:induction false} RefillStep(script: seq<PcmResult>, n: nat)
    requires Flows(script) && n > 0
    ensures CaptureFlow.ReadFrames(Source([], script), n) ==
      match PcmRead(script).0
      case Error(code) => ReadResult(code, [], Source([], PcmRead(script).1))
      case Period(fs) => CaptureFlow.ReadFrames(Source(fs, PcmRead(script).1), n)
  {}

  lemma {:induction false} NothingLeft(s: Source)
    requires Flows(s.script)
    ensures CaptureFlow.ReadFrames(s, 0) == ReadResult(0, [], s)
  {}

  /** `r` is what is left of the result `all` once `done` has been copied. */
  ghost predicate IsRest(all: ReadResult, done: seq<Frame>, r: ReadResult) {
    r.status == all.status && r.source == all.source && done + r.frames == all.frames
  }

  lemma {:induction false} StartRest(all: ReadResult)
    ensures IsRest(all, [], all)
  {
    assert [] + all.frames == all.frames;
  }

  lemma {:induction false} EndRest(all: ReadResult, done: seq<Frame>, r: ReadResult)
    requires IsRest(all, done, r) && r.frames == []
    ensures all == r.(frames := done)
  {
    assert done + [] == done;
  }

  /** One step leaves the rest of the result. */
  lemma {:induction false} TakeStep(s: Source, n: nat, k: nat)
    requires Flows(s.script) && s.tail != [] && n > 0
    requires k == if n > |s.tail| then |s.tail| else n
    ensures IsRest(CaptureFlow.ReadFrames(s, n), s.tail[..k],
                   CaptureFlow.ReadFrames(Source(s.tail[k..], s.script), n - k))
  {}

  lemma {:induction false} ChainRest(all: ReadResult, done: seq<Frame>, r: ReadResult, more: seq<Frame>, r': ReadResult)
    requires IsRest(all, done, r) && IsRest(r, more, r')
    ensures IsRest(all, done + more, r')
  {
    assert done + (more + r'.frames) == (done + more) + r'.frames;
  }

  /** `now` is `was` with `done` written at position `at`. */
  ghost predicate Patched(now: seq<Frame>, was: seq<Frame>, at: nat, done: seq<Frame>) {
    at + |done| <= |was| && now == was[..at] + done + was[at + |done|..]
  }

  lemma {:induction false} PatchNothing(was: seq<Frame>, at: nat)
    requires at <= |was|
    ensures Patched(was, was, at, [])
  {}

  lemma {:induction false} Appended(now: seq<Frame>, was: seq<Frame>, at: nat, done: seq<Frame>)
    requires Patched(now, was, at, done)
    ensures |now| == |was| && now[..at] == was[..at] && now[..at + |done|] == was[..at] + done
  {}

  lemma {:induction false} PatchedParts(now: seq<Frame>, was: seq<Frame>, at: nat, done: seq<Frame>)
    requires Patched(now, was, at, done)
    ensures |now| == |was| && now[..at] == was[..at] && now[at..at + |done|] == done
  {}

  lemma {:induction false} PatchMore(before: seq<Frame>, was: seq<Frame>, at: nat, done: seq<Frame>, now: seq<Frame>,
                                     more: seq<Frame>)
    requires Patched(before, was, at, done) && Patched(now, before, at + |done|, more)
    ensures Patched(now, was, at, done + more)
  {}
}
