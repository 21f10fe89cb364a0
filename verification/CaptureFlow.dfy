/** How captured frames flow from the PCM device to the caller.

    A frame is the seq of its interleaved samples.  What `pcm_read` answers is a
    script that may hold any periods and any errors; what the effects do is a
    script, too.  The functions follow `read_frames` and
    `read_and_process_frames` of audio_hw.c, and the methods of `Capture.StreamIn`
    are proved equal to them. */
module CaptureFlow {

  type Frame = seq<int>

  // ----- reading -----

  /** One answer of pcm_read: a whole period, or an error. */
  datatype PcmResult = Period(frames: seq<Frame>) | Error(code: int)

  const EIO := 5

  /** The unread tail of `read_buf`, and the answers that pcm_read is going to give. */
  datatype Source = Source(tail: seq<Frame>, script: seq<PcmResult>)

  predicate IsScript(script: seq<PcmResult>, period: nat, channels: nat) {
    forall i :: 0 <= i < |script| ==>
      match script[i]
      case Period(fs) => |fs| == period && HasChannels(fs, channels)
      case Error(code) => code < 0
  }

  predicate HasChannels(fs: seq<Frame>, channels: nat) {
    forall i :: 0 <= i < |fs| ==> |fs[i]| == channels
  }

  /** pcm_read: the next answer of the script, and an error when there is none. */
  function PcmRead(script: seq<PcmResult>): (r: (PcmResult, seq<PcmResult>)) {
    if script == [] then (Error(-EIO), []) else (script[0], script[1..])
  }

  /** No period is empty: `period_size` is positive. */
  predicate Flows(script: seq<PcmResult>) {
    forall i :: 0 <= i < |script| && script[i].Period? ==> script[i].frames != []
  }

  datatype ReadResult = ReadResult(status: int, frames: seq<Frame>, source: Source)

  /** `read_frames` for n frames, without a resampler. */
  function ReadFrames(s: Source, n: nat): (r: ReadResult)
    requires Flows(s.script)
    ensures Flows(r.source.script)
    decreases |s.script|, n
  {
    if n == 0 then ReadResult(0, [], s)
    else if s.tail == [] then
      var (answer, rest) := PcmRead(s.script);
      match answer
      case Error(code) => ReadResult(code, [], Source([], rest))
      case Period(fs) => ReadFrames(Source(fs, rest), n)
    else
      var k := if n > |s.tail| then |s.tail| else n;
      var r := ReadFrames(Source(s.tail[k..], s.script), n - k);
      r.(frames := s.tail[..k] + r.frames)
  }

  /** The frames of all periods, in order. */
  function Periods(script: seq<PcmResult>): seq<Frame> {
    if script == [] then []
    else (if script[0].Period? then script[0].frames else []) + Periods(script[1..])
  }

  /** The frames that can be read before the next error. */
  function Available(s: Source): nat
    decreases |s.script|
  {
    |s.tail| + if s.script == [] || s.script[0].Error? then 0 else Available(Source(s.script[0].frames, s.script[1..]))
  }

  /** `later` is what is left of `script`. */
  predicate IsLater(script: seq<PcmResult>, later: seq<PcmResult>) {
    |later| <= |script| && script[|script| - |later|..] == later
  }

  /** The answers of pcm_read between the two. */
  function Between(script: seq<PcmResult>, later: seq<PcmResult>): seq<PcmResult>
    requires IsLater(script, later)
  {
    script[..|script| - |later|]
  }

  lemma {:induction false} PeriodsConcat(a: seq<PcmResult>, b: seq<PcmResult>)
    ensures Periods(a + b) == Periods(a) + Periods(b)
  {
    if a == [] {
      assert a + b == b;
    } else {
      assert (a + b)[1..] == a[1..] + b;
      PeriodsConcat(a[1..], b);
    }
  }

  lemma {:induction false} BetweenTrans(a: seq<PcmResult>, b: seq<PcmResult>, c: seq<PcmResult>)
    requires IsLater(a, b) && IsLater(b, c)
    ensures IsLater(a, c) && Between(a, c) == Between(a, b) + Between(b, c)
    ensures Periods(Between(a, c)) == Periods(Between(a, b)) + Periods(Between(b, c))
  {
    assert a == Between(a, b) + b && b == Between(b, c) + c;
    assert Between(a, c) == Between(a, b) + Between(b, c);
    PeriodsConcat(Between(a, b), Between(b, c));
  }

  lemma {:induction false} IsLaterRefl(a: seq<PcmResult>)
    ensures IsLater(a, a) && Periods(Between(a, a)) == []
  {
    assert Between(a, a) == [];
  }

  lemma {:induction false} OneAnswer(script: seq<PcmResult>)
    requires script != []
    ensures IsLater(script, script[1..])
    ensures Periods(Between(script, script[1..])) == if script[0].Period? then script[0].frames else []
  {
    var b := Between(script, script[1..]);
    assert b == [script[0]] && b[1..] == [];
    assert Periods([]) == [];
  }

  /** The frames that a call copies, followed by the unread tail, are the old tail and the periods read meanwhile: it
      copies no frame twice and skips none.  A call that fails does not return what it has copied. */
  lemma {:induction false} ReadConserves(s: Source, n: nat)
    requires Flows(s.script)
    ensures var r := ReadFrames(s, n);
      IsLater(s.script, r.source.script)
      && r.frames + r.source.tail == s.tail + Periods(Between(s.script, r.source.script))
    decreases |s.script|, n
  {
    hide Periods, Between;
    var r := ReadFrames(s, n);
    if n == 0 {
      IsLaterRefl(s.script);
    } else if s.tail == [] {
      if s.script == [] {
        IsLaterRefl(s.script);
      } else {
        OneAnswer(s.script);
        if s.script[0].Period? {
          ReadConserves(Source(s.script[0].frames, s.script[1..]), n);
          BetweenTrans(s.script, s.script[1..], r.source.script);
        }
      }
    } else {
      var k := if n > |s.tail| then |s.tail| else n;
      var rest := ReadFrames(Source(s.tail[k..], s.script), n - k);
      ReadConserves(Source(s.tail[k..], s.script), n - k);
      var q := Periods(Between(s.script, r.source.script));
      TakeFirst(s.tail, k, rest.frames, r.source.tail, q);
    }
  }

  lemma {:induction false} TakeFirst(tail: seq<Frame>, k: nat, frames: seq<Frame>, tail': seq<Frame>, q: seq<Frame>)
    requires k <= |tail| && frames + tail' == tail[k..] + q
    ensures (tail[..k] + frames) + tail' == tail + q
  {
    calc {
      (tail[..k] + frames) + tail';
      tail[..k] + (frames + tail');
      tail[..k] + (tail[k..] + q);
      (tail[..k] + tail[k..]) + q;
      { assert tail == tail[..k] + tail[k..]; }
      tail + q;
    }
  }

  /** A call succeeds exactly when there are enough frames before the next error, and then it yields
      the number of frames asked for. */
  lemma {:induction false} ReadSucceeds(s: Source, n: nat, period: nat, channels: nat)
    requires IsScript(s.script, period, channels) && period > 0 && Flows(s.script)
    ensures var r := ReadFrames(s, n);
      (r.status == 0 <==> n <= Available(s))
      && (r.status == 0 ==> |r.frames| == n && Available(r.source) == Available(s) - n)
      && (r.status != 0 ==> r.status < 0 && |r.frames| == Available(s) && r.source.tail == [])
    decreases |s.script|, n
  {
    if n == 0 {
    } else if s.tail == [] {
      if s.script != [] && s.script[0].Period? {
        ReadSucceeds(Source(s.script[0].frames, s.script[1..]), n, period, channels);
      }
    } else {
      var k := if n > |s.tail| then |s.tail| else n;
      ReadSucceeds(Source(s.tail[k..], s.script), n - k, period, channels);
    }
  }

  predicate AllPeriods(answers: seq<PcmResult>) { forall i :: 0 <= i < |answers| ==> answers[i].Period? }

  /** Of the answers that a call has met: it goes on as long as they are periods, and the first error ends it with its
      code.  Beyond the script there is only EIO. */
  predicate EndsWith(met: seq<PcmResult>, later: seq<PcmResult>, status: int) {
    if status == 0 then AllPeriods(met)
    else if AllPeriods(met) then later == [] && status == -5
    else met[|met| - 1] == Error(status) && AllPeriods(met[..|met| - 1])
  }

  lemma {:induction false} MetAfter(first: PcmResult, script: seq<PcmResult>, later: seq<PcmResult>, status: int)
    requires IsLater(script, later) && first.Period? && EndsWith(Between(script, later), later, status)
    ensures IsLater([first] + script, later) && EndsWith(Between([first] + script, later), later, status)
  {
    var met := Between(script, later);
    assert Between([first] + script, later) == [first] + met;
    assert ([first] + script)[|[first] + script| - |later|..] == later;
    hide Between, EndsWith, IsLater;
    EndsBehind([first], met, later, status);
  }

  lemma {:induction false} EndsBehind(a: seq<PcmResult>, b: seq<PcmResult>, later: seq<PcmResult>, status: int)
    requires AllPeriods(a) && EndsWith(b, later, status)
    ensures EndsWith(a + b, later, status)
  {
    PeriodsBoth(a, b);
    if !AllPeriods(b) {
      PeriodsBoth(a, b[..|b| - 1]);
      assert (a + b)[..|a + b| - 1] == a + b[..|b| - 1];
      hide AllPeriods;
    }
  }

  lemma {:induction false} PeriodsBoth(a: seq<PcmResult>, b: seq<PcmResult>)
    ensures AllPeriods(a + b) <==> AllPeriods(a) && AllPeriods(b)
  {
    var all := a + b;
    assert forall i :: 0 <= i < |a| ==> all[i] == a[i];
    assert forall i :: 0 <= i < |b| ==> all[|a| + i] == b[i];
  }

  /** A read fails with the code of the first error that pcm_read answers. */
  lemma {:induction false} ReadFailsWith(s: Source, n: nat, period: nat, channels: nat)
    requires IsScript(s.script, period, channels) && Flows(s.script)
    ensures var r := ReadFrames(s, n);
            IsLater(s.script, r.source.script)
            && EndsWith(Between(s.script, r.source.script), r.source.script, r.status)
    decreases |s.script|, n
  {
    var script, r := s.script, ReadFrames(s, n);
    if n == 0 || (s.tail == [] && script == []) {
      assert Between(script, script) == [];
    } else if s.tail == [] {
      if script[0].Period? {
        ReadFailsWith(Source(script[0].frames, script[1..]), n, period, channels);
        assert script == [script[0]] + script[1..];
        MetAfter(script[0], script[1..], r.source.script, r.status);
      } else {
        assert Between(script, script[1..]) == [script[0]];
        assert script[0].code < 0;
      }
    } else {
      var k := if n > |s.tail| then |s.tail| else n;
      ReadFailsWith(Source(s.tail[k..], script), n - k, period, channels);
    }
  }

  // ----- sessions of in_read -----

  /** What becomes of the frames captured for one call of `in_read`: they are passed on, or, when the call fails, lost,
      because the stream then goes to standby and the next call starts it anew. */
  datatype Chunk = Passed(frames: seq<Frame>) | Lost(frames: seq<Frame>)

  function AllFrames(chunks: seq<Chunk>): seq<Frame> {
    if chunks == [] then [] else chunks[0].frames + AllFrames(chunks[1..])
  }

  function PassedFrames(chunks: seq<Chunk>): seq<Frame> {
    if chunks == [] then []
    else (if chunks[0].Passed? then chunks[0].frames else []) + PassedFrames(chunks[1..])
  }

  predicate NothingLost(chunks: seq<Chunk>) {
    forall i :: 0 <= i < |chunks| && chunks[i].Lost? ==> chunks[i].frames == []
  }

  /** The frames passed on are all the frames exactly when none is lost. */
  lemma {:induction false} PassedIsAll(chunks: seq<Chunk>)
    ensures |PassedFrames(chunks)| <= |AllFrames(chunks)|
    ensures NothingLost(chunks) <==> PassedFrames(chunks) == AllFrames(chunks)
    ensures NothingLost(chunks) <==> |PassedFrames(chunks)| == |AllFrames(chunks)|
  {
    if chunks == [] {
    } else {
      var c, rest := chunks[0], chunks[1..];
      PassedIsAll(rest);
      assert chunks == [c] + rest;
      assert NothingLost(chunks) <==> (c.Lost? ==> c.frames == []) && NothingLost(rest);
      assert [] + PassedFrames(rest) == PassedFrames(rest);
      assert c.frames == [] ==> c.frames + AllFrames(rest) == AllFrames(rest);
    }
  }

  /** Calls without effects, from start on: a call that fails leaves nothing in the period buffer for the next. */
  function ReadSession(s: Source, ns: seq<nat>): (seq<Chunk>, Source)
    requires Flows(s.script)
    decreases |ns|
  {
    if ns == [] then ([], s)
    else
      var r := ReadFrames(s, ns[0]);
      if r.status == 0 then
        var (chunks, s') := ReadSession(r.source, ns[1..]);
        ([Passed(r.frames)] + chunks, s')
      else
        var (chunks, s') := ReadSession(Source([], r.source.script), ns[1..]);
        ([Lost(r.frames + r.source.tail)] + chunks, s')
  }

  /** Every call that fails finds no frame before the error. */
  predicate FailsOnlyWhenDry(s: Source, ns: seq<nat>)
    requires Flows(s.script)
    decreases |ns|
  {
    ns == [] || (var r := ReadFrames(s, ns[0]);
                 if r.status == 0 then FailsOnlyWhenDry(r.source, ns[1..])
                 else Available(s) == 0 && FailsOnlyWhenDry(Source([], r.source.script), ns[1..]))
  }

  /** Over any sequence of calls, the frames passed on and the frames lost, in order, followed by the unread tail, are
      exactly the periods read. */
  lemma {:induction false} ManyReadsConserve(s: Source, ns: seq<nat>)
    requires Flows(s.script)
    ensures var (chunks, s') := ReadSession(s, ns);
      IsLater(s.script, s'.script)
      && AllFrames(chunks) + s'.tail == s.tail + Periods(Between(s.script, s'.script))
    decreases |ns|
  {
    if ns == [] {
      IsLaterRefl(s.script);
      assert [] + s.tail == s.tail + [];
    } else {
      var r := ReadFrames(s, ns[0]);
      ReadConserves(s, ns[0]);
      var t := if r.status == 0 then r.source else Source([], r.source.script);
      var c := if r.status == 0 then Passed(r.frames) else Lost(r.frames + r.source.tail);
      assert (r.frames + r.source.tail) + [] == r.frames + r.source.tail;
      var (chunks, s') := ReadSession(t, ns[1..]);
      hide ReadFrames, Between, Periods, IsLater;
      ManyReadsConserve(t, ns[1..]);
      BetweenTrans(s.script, t.script, s'.script);
      ChunkFirst(c, chunks);
      var p1, p2 := Periods(Between(s.script, t.script)), Periods(Between(t.script, s'.script));
      Regroup(c.frames, t.tail, s.tail, p1, AllFrames(chunks), s'.tail, p2);
    }
  }

  lemma {:induction false} ChunkFirst(c: Chunk, chunks: seq<Chunk>)
    ensures AllFrames([c] + chunks) == c.frames + AllFrames(chunks)
    ensures NothingLost([c] + chunks) <==> (c.Lost? ==> c.frames == []) && NothingLost(chunks)
  {
    assert ([c] + chunks)[1..] == chunks;
    forall i | 0 <= i < |chunks|
      ensures ([c] + chunks)[i + 1] == chunks[i]
    {}
    if NothingLost([c] + chunks) {
      assert ([c] + chunks)[0] == c;
      forall i | 0 <= i < |chunks| && chunks[i].Lost?
        ensures chunks[i].frames == []
      {
        assert ([c] + chunks)[i + 1] == chunks[i];
      }
    }
  }

  lemma {:induction false} LaterIsScript(script: seq<PcmResult>, later: seq<PcmResult>, period: nat, channels: nat)
    requires IsScript(script, period, channels) && IsLater(script, later)
    ensures IsScript(later, period, channels)
  {
    var k := |script| - |later|;
    assert forall i :: 0 <= i < |later| ==> later[i] == script[k + i];
  }

  /** The frames passed on, followed by the unread tail, are all the periods read exactly when every call that failed
      had found no frame before the error. */
  lemma {:induction false} NothingLostExactlyWhen(s: Source, ns: seq<nat>, period: nat, channels: nat)
    requires IsScript(s.script, period, channels) && period > 0 && Flows(s.script)
    ensures var (chunks, s') := ReadSession(s, ns);
      (NothingLost(chunks) <==> FailsOnlyWhenDry(s, ns))
      && IsLater(s.script, s'.script)
      && (PassedFrames(chunks) + s'.tail == s.tail + Periods(Between(s.script, s'.script)) <==> FailsOnlyWhenDry(s, ns))
  {
    var (chunks, s') := ReadSession(s, ns);
    DryLosesNothing(s, ns, period, channels);
    ManyReadsConserve(s, ns);
    PassedIsAll(chunks);
    hide ReadSession, FailsOnlyWhenDry, PassedFrames, AllFrames, NothingLost, Periods, Between, IsLater;
    if PassedFrames(chunks) + s'.tail == s.tail + Periods(Between(s.script, s'.script)) {
      assert |PassedFrames(chunks) + s'.tail| == |AllFrames(chunks) + s'.tail|;
    }
  }

  lemma {:induction false} DryLosesNothing(s: Source, ns: seq<nat>, period: nat, channels: nat)
    requires IsScript(s.script, period, channels) && period > 0 && Flows(s.script)
    ensures NothingLost(ReadSession(s, ns).0) <==> FailsOnlyWhenDry(s, ns)
    decreases |ns|
  {
    if ns == [] {
    } else {
      var r := ReadFrames(s, ns[0]);
      ReadSucceeds(s, ns[0], period, channels);
      ReadConserves(s, ns[0]);
      LaterIsScript(s.script, r.source.script, period, channels);
      var t := if r.status == 0 then r.source else Source([], r.source.script);
      var c := if r.status == 0 then Passed(r.frames) else Lost(r.frames + r.source.tail);
      DryLosesNothing(t, ns[1..], period, channels);
      hide NothingLost, ReadFrames, IsLater, IsScript, Available, Periods, Between;
      ChunkFirst(c, ReadSession(t, ns[1..]).0);
    }
  }

  /** A read of two frames that meets an error after one loses that frame. */
  lemma {:induction false} FailedReadLoses(a: Frame)
    ensures ReadSession(Source([], [Period([a]), Error(-5)]), [2]) == ([Lost([a])], Source([], []))
  {
    var script := [Period([a]), Error(-5)];
    assert script[1..] == [Error(-5)] && script[1..][1..] == [];
    assert ReadFrames(Source([], [Error(-5)]), 1) == ReadResult(-5, [], Source([], []));
    assert ReadFrames(Source([a], [Error(-5)]), 2).frames == [a] + [];
    assert ReadFrames(Source([], script), 2) == ReadResult(-5, [a], Source([], []));
    assert [a] + [] == [a] && [Lost([a])] + [] == [Lost([a])];
    assert [2][1..] == [];
  }

  /** Two balanced steps make one. */
  lemma {:induction false} Regroup(out1: seq<Frame>, tail1: seq<Frame>, tail0: seq<Frame>, in1: seq<Frame>,
                                   out2: seq<Frame>, tail2: seq<Frame>, in2: seq<Frame>)
    requires out1 + tail1 == tail0 + in1
    requires out2 + tail2 == tail1 + in2
    ensures (out1 + out2) + tail2 == tail0 + (in1 + in2)
  {
    calc {
      (out1 + out2) + tail2;
      out1 + (out2 + tail2);
      out1 + (tail1 + in2);
      (out1 + tail1) + in2;
      (tail0 + in1) + in2;
      tail0 + (in1 + in2);
    }
  }

  // ----- processing -----

  /** What the chain of effects does in one call: frames taken from its input and frames it yields.
      It is held to what it is offered. */
  datatype Effect = Effect(consumed: nat, produced: seq<Frame>)

  function Consumed(fx: Effect, offered: nat): (k: nat)
    ensures k <= offered
  {
    if fx.consumed > offered then offered else fx.consumed
  }

  function Produced(fx: Effect, room: nat): (fs: seq<Frame>)
    ensures |fs| <= room
  {
    if |fx.produced| > room then fx.produced[..room] else fx.produced
  }

  /** Done, or stopped by a read error, or waiting for the next call of the effects. */
  datatype Progress = Done | Failed(code: int) | Waiting

  /** `proc` is what `proc_buf_in` holds, `used` what the effects took in this call, `lost` what a read had copied
      behind `proc` when it failed. */
  datatype ProcessResult = ProcessResult(
    progress: Progress, out: seq<Frame>, used: seq<Frame>, proc: seq<Frame>, lost: seq<Frame>, source: Source,
    effects: seq<Effect>)

  /** Reloads the process buffer to n frames. */
  function Reload(proc: seq<Frame>, s: Source, n: nat): (r: ReadResult)
    requires Flows(s.script)
    ensures Flows(r.source.script)
  {
    if |proc| < n then ReadFrames(s, n - |proc|) else ReadResult(0, [], s)
  }

  /** The loop of `read_and_process_frames` with effects, when `out` has been yielded so far. */
  function ProcessFrames(proc: seq<Frame>, s: Source, effects: seq<Effect>, out: seq<Frame>, n: nat): (p: ProcessResult)
    requires Flows(s.script)
    ensures Flows(p.source.script)
    decreases |effects|
  {
    if |out| >= n then ProcessResult(Done, out, [], proc, [], s, effects)
    else
      var r := Reload(proc, s, n);
      if r.status != 0 then ProcessResult(Failed(r.status), out, [], proc, r.frames, r.source, effects)
      else
        var full := proc + r.frames;
        if effects == [] then ProcessResult(Waiting, out, [], full, [], r.source, effects)
        else
          var k := Consumed(effects[0], |full|);
          var p := ProcessFrames(full[k..], r.source, effects[1..], out + Produced(effects[0], n - |out|), n);
          p.(used := full[..k] + p.used)
  }

  /** The frames that the effects took, followed by what remains in the process buffer, by what a failed read had
      copied, and by what remains in the period buffer, are exactly the frames read; only a call that fails has copied
      frames in vain. */
  lemma {:induction false} ProcessConserves(proc: seq<Frame>, s: Source, effects: seq<Effect>, out: seq<Frame>, n: nat)
    requires Flows(s.script)
    ensures var p := ProcessFrames(proc, s, effects, out, n);
      IsLater(s.script, p.source.script) && (!p.progress.Failed? ==> p.lost == [])
      && p.used + (p.proc + p.lost + p.source.tail) == (proc + s.tail) + Periods(Between(s.script, p.source.script))
    decreases |effects|
  {
    var p := ProcessFrames(proc, s, effects, out, n);
    hide Periods, Between, IsLater, Reload, Consumed, Produced;
    if |out| >= n {
      IsLaterRefl(s.script);
      assert [] + (proc + [] + s.tail) == (proc + s.tail) + [];
    } else {
      var r := Reload(proc, s, n);
      ReloadConserves(proc, s, n);
      var full := proc + r.frames;
      if r.status != 0 || effects == [] {
        assert [] + (proc + r.frames + r.source.tail) == proc + r.frames + r.source.tail;
        assert [] + (full + [] + r.source.tail) == proc + r.frames + r.source.tail;
      } else {
        var k := Consumed(effects[0], |full|);
        var rest := ProcessFrames(full[k..], r.source, effects[1..], out + Produced(effects[0], n - |out|), n);
        ProcessConserves(full[k..], r.source, effects[1..], out + Produced(effects[0], n - |out|), n);
        ProcessStep(proc, s, r, k, rest);
      }
    }
  }

  lemma {:induction false} ProcessStep(proc: seq<Frame>, s: Source, r: ReadResult, k: nat, rest: ProcessResult)
    requires IsLater(s.script, r.source.script) && IsLater(r.source.script, rest.source.script)
    requires proc + r.frames + r.source.tail == (proc + s.tail) + Periods(Between(s.script, r.source.script))
    requires k <= |proc + r.frames|
    requires rest.used + (rest.proc + rest.lost + rest.source.tail)
      == ((proc + r.frames)[k..] + r.source.tail) + Periods(Between(r.source.script, rest.source.script))
    ensures IsLater(s.script, rest.source.script)
    ensures ((proc + r.frames)[..k] + rest.used) + (rest.proc + rest.lost + rest.source.tail)
      == (proc + s.tail) + Periods(Between(s.script, rest.source.script))
  {
    BetweenTrans(s.script, r.source.script, rest.source.script);
    hide IsLater, Between, Periods;
    var full := proc + r.frames;
    var p1, p2 := Periods(Between(s.script, r.source.script)), Periods(Between(r.source.script, rest.source.script));
    assert full[..k] + (full[k..] + r.source.tail) == full + r.source.tail;
    Regroup(full[..k], full[k..] + r.source.tail, proc + s.tail, p1,
            rest.used, rest.proc + rest.lost + rest.source.tail, p2);
  }

  lemma {:induction false} ReloadConserves(proc: seq<Frame>, s: Source, n: nat)
    requires Flows(s.script)
    ensures var r := Reload(proc, s, n);
      IsLater(s.script, r.source.script)
      && proc + r.frames + r.source.tail == (proc + s.tail) + Periods(Between(s.script, r.source.script))
  {
    var r := Reload(proc, s, n);
    if |proc| < n {
      ReadConserves(s, n - |proc|);
      assert proc + r.frames + r.source.tail == proc + (r.frames + r.source.tail);
      var q := Periods(Between(s.script, r.source.script));
      assert proc + s.tail + q == proc + (s.tail + q);
    } else {
      IsLaterRefl(s.script);
      assert proc + [] == proc;
      assert proc + s.tail + [] == proc + s.tail;
    }
  }

  /** A call that is done yields exactly n frames, which begin with those it had. */
  lemma {:induction false} ProcessYields(proc: seq<Frame>, s: Source, effects: seq<Effect>, out: seq<Frame>, n: nat)
    requires Flows(s.script)
    requires |out| <= n
    ensures var p := ProcessFrames(proc, s, effects, out, n);
      out <= p.out && |p.out| <= n && (p.progress.Done? <==> |p.out| == n)
    decreases |effects|
  {
    if |out| < n {
      var r := Reload(proc, s, n);
      if r.status == 0 && effects != [] {
        var full := proc + r.frames;
        ProcessYields(full[Consumed(effects[0], |full|)..], r.source, effects[1..],
                      out + Produced(effects[0], n - |out|), n);
      }
    }
  }

  /** What the effects have produced, all of it. */
  function Yielded(effects: seq<Effect>): seq<Frame> {
    if effects == [] then [] else effects[0].produced + Yielded(effects[1..])
  }

  /** How many frames the effects have asked for. */
  function Asked(effects: seq<Effect>): nat {
    if effects == [] then 0 else effects[0].consumed + Asked(effects[1..])
  }

  /** `left` are the effects that have not been called; the others have been, in order, and what is given, behind what
      there was, is what they have produced, up to n frames. */
  predicate IsGiven(effects: seq<Effect>, left: seq<Effect>, was: seq<Frame>, given: seq<Frame>, n: nat) {
    |left| <= |effects| && left == effects[|effects| - |left|..]
    && (var all := was + Yielded(effects[..|effects| - |left|]); given == if |all| > n then all[..n] else all)
  }

  /** The effects are called in order, once in each turn; what a call gives the client is what they have produced, in
      order, up to the number of frames asked for. */
  lemma {:induction false} ProcessGives(proc: seq<Frame>, s: Source, effects: seq<Effect>, out: seq<Frame>, n: nat)
    requires Flows(s.script) && |out| <= n
    ensures var p := ProcessFrames(proc, s, effects, out, n); IsGiven(effects, p.effects, out, p.out, n)
    decreases |effects|
  {
    var r := Reload(proc, s, n);
    hide IsGiven, Consumed, Reload;
    if |out| >= n || r.status != 0 || effects == [] {
      NothingGiven(effects, out, n);
    } else {
      var full, more := proc + r.frames, Produced(effects[0], n - |out|);
      var rest := ProcessFrames(full[Consumed(effects[0], |full|)..], r.source, effects[1..], out + more, n);
      ProcessGives(full[Consumed(effects[0], |full|)..], r.source, effects[1..], out + more, n);
      GivenMore(effects, rest.effects, out, rest.out, n);
    }
  }

  lemma {:induction false} NothingGiven(effects: seq<Effect>, out: seq<Frame>, n: nat)
    requires |out| <= n
    ensures IsGiven(effects, effects, out, out, n)
  {
    assert effects[..0] == [] && out + [] == out;
  }

  lemma {:induction false} GivenMore(effects: seq<Effect>, left: seq<Effect>, out: seq<Frame>, given: seq<Frame>,
                                     n: nat)
    requires effects != [] && |out| <= n
    requires IsGiven(effects[1..], left, out + Produced(effects[0], n - |out|), given, n)
    ensures IsGiven(effects, left, out, given, n)
  {
    var d := |effects| - |left|;
    YieldedFirst(effects, d);
    hide Yielded;
    YieldedMore(out, effects[0].produced, Yielded(effects[1..][..d - 1]), n);
  }

  lemma {:induction false} YieldedFirst(effects: seq<Effect>, d: nat)
    requires 0 < d <= |effects|
    ensures Yielded(effects[..d]) == effects[0].produced + Yielded(effects[1..][..d - 1])
    ensures effects[1..][d - 1..] == effects[d..]
  {
    assert effects[..d][1..] == effects[1..][..d - 1];
  }

  lemma {:induction false} YieldedMore(out: seq<Frame>, produced: seq<Frame>, rest: seq<Frame>, n: nat)
    requires |out| <= n
    ensures var more := if |produced| > n - |out| then produced[..n - |out|] else produced;
            var all, all' := out + (produced + rest), (out + more) + rest;
            (|all| > n <==> |all'| > n || |all| != |all'|)
            && (if |all| > n then |all'| >= n && all[..n] == all'[..n] else all == all')
  {}

  /** Effects that ask for no more than a call's frames get exactly what they ask for. */
  lemma {:induction false} ProcessTakes(proc: seq<Frame>, s: Source, effects: seq<Effect>, out: seq<Frame>, n: nat,
                                        period: nat, channels: nat)
    requires IsScript(s.script, period, channels) && period > 0 && Flows(s.script)
    requires forall i :: 0 <= i < |effects| ==> effects[i].consumed <= n
    ensures var p := ProcessFrames(proc, s, effects, out, n);
            |p.effects| <= |effects| && |p.used| == Asked(effects[..|effects| - |p.effects|])
    decreases |effects|
  {
    var p := ProcessFrames(proc, s, effects, out, n);
    var r := Reload(proc, s, n);
    if |out| >= n || r.status != 0 || effects == [] {
      assert effects[..0] == [] && Asked([]) == 0;
    } else {
      var full, d := proc + r.frames, |effects| - |p.effects|;
      Reloaded(proc, s, n, period, channels);
      assert Consumed(effects[0], |full|) == effects[0].consumed;
      var out' := out + Produced(effects[0], n - |out|);
      assert p.used == full[..effects[0].consumed]
                       + ProcessFrames(full[effects[0].consumed..], r.source, effects[1..], out', n).used;
      assert forall i :: 0 <= i < |effects| - 1 ==> effects[1..][i] == effects[i + 1];
      hide Reload, Produced, Consumed, IsScript, Asked, Flows;
      ProcessTakes(full[effects[0].consumed..], r.source, effects[1..], out', n, period, channels);
      AskedFirst(effects, d);
    }
  }

  lemma {:induction false} AskedFirst(effects: seq<Effect>, d: nat)
    requires 0 < d <= |effects|
    ensures Asked(effects[..d]) == effects[0].consumed + Asked(effects[1..][..d - 1])
  {
    assert effects[..d][1..] == effects[1..][..d - 1];
  }

  /** A successful reload leaves the frames asked for. */
  lemma {:induction false} Reloaded(proc: seq<Frame>, s: Source, n: nat, period: nat, channels: nat)
    requires IsScript(s.script, period, channels) && period > 0 && Flows(s.script) && Reload(proc, s, n).status == 0
    ensures |proc + Reload(proc, s, n).frames| >= n && IsScript(Reload(proc, s, n).source.script, period, channels)
  {
    if |proc| < n {
      ReadSucceeds(s, n - |proc|, period, channels);
      ReadConserves(s, n - |proc|);
      LaterIsScript(s.script, Reload(proc, s, n).source.script, period, channels);
    }
  }

  /** A call fails with the code of the first error that pcm_read answers in it. */
  lemma {:induction false} ProcessFailsWith(proc: seq<Frame>, s: Source, effects: seq<Effect>, out: seq<Frame>, n: nat,
                                            period: nat, channels: nat)
    requires IsScript(s.script, period, channels) && Flows(s.script)
    ensures var p := ProcessFrames(proc, s, effects, out, n);
            IsLater(s.script, p.source.script)
            && EndsWith(Between(s.script, p.source.script), p.source.script,
                        if p.progress.Failed? then p.progress.code else 0)
    decreases |effects|
  {
    var p := ProcessFrames(proc, s, effects, out, n);
    var r := Reload(proc, s, n);
    if |out| >= n {
      assert Between(s.script, s.script) == [];
    } else {
      if |proc| < n {
        ReadFailsWith(s, n - |proc|, period, channels);
      } else {
        assert Between(s.script, s.script) == [];
      }
      if r.status == 0 && effects != [] {
        LaterIsScript(s.script, r.source.script, period, channels);
        var full := proc + r.frames;
        ProcessFailsWith(full[Consumed(effects[0], |full|)..], r.source, effects[1..],
                         out + Produced(effects[0], n - |out|), n, period, channels);
        hide ProcessFrames, Reload, IsScript, Consumed, Produced;
        MetBoth(s.script, r.source.script, p.source.script, if p.progress.Failed? then p.progress.code else 0);
      }
    }
  }

  lemma {:induction false} MetBoth(script: seq<PcmResult>, middle: seq<PcmResult>, later: seq<PcmResult>, status: int)
    requires IsLater(script, middle) && IsLater(middle, later) && AllPeriods(Between(script, middle))
    requires EndsWith(Between(middle, later), later, status)
    ensures IsLater(script, later) && EndsWith(Between(script, later), later, status)
  {
    BetweenTrans(script, middle, later);
    hide IsLater, Between, Periods, AllPeriods, EndsWith;
    EndsBehind(Between(script, middle), Between(middle, later), later, status);
  }

  datatype Session = Session(finished: bool, chunks: seq<Chunk>, proc: seq<Frame>, source: Source)

  /** Calls with effects, from start on.  A call that is done passes on what the effects took in it; one that fails
      loses that, since nothing of it is returned, and all that was buffered.  A call that waits for good ends the
      session. */
  function ProcessSession(proc: seq<Frame>, s: Source, effects: seq<Effect>, ns: seq<nat>): Session
    requires Flows(s.script)
    decreases |ns|
  {
    if ns == [] then Session(true, [], proc, s)
    else
      var p := ProcessFrames(proc, s, effects, [], ns[0]);
      match p.progress
      case Waiting => Session(false, [], proc, s)
      case Done =>
        var h := ProcessSession(p.proc, p.source, p.effects, ns[1..]);
        h.(chunks := [Passed(p.used)] + h.chunks)
      case Failed(_) =>
        var h := ProcessSession([], Source([], p.source.script), p.effects, ns[1..]);
        h.(chunks := [Lost(p.used + (p.proc + p.lost + p.source.tail))] + h.chunks)
  }

  /** Over any sequence of calls, what the effects took and what was lost, in order, followed by what is still buffered,
      is exactly what was captured. */
  lemma {:induction false} ManyProcessesConserve(proc: seq<Frame>, s: Source, effects: seq<Effect>, ns: seq<nat>)
    requires Flows(s.script)
    ensures var h := ProcessSession(proc, s, effects, ns);
      IsLater(s.script, h.source.script)
      && AllFrames(h.chunks) + (h.proc + h.source.tail)
         == (proc + s.tail) + Periods(Between(s.script, h.source.script))
    decreases |ns|
  {
    hide Periods, Between, IsLater, ProcessFrames;
    var p :=
      if ns == [] then ProcessResult(Waiting, [], [], [], [], s, effects)
      else ProcessFrames(proc, s, effects, [], ns[0]);
    if p.progress.Waiting? {
      IsLaterRefl(s.script);
      assert [] + (proc + s.tail) == (proc + s.tail) + [];
    } else {
      ProcessConserves(proc, s, effects, [], ns[0]);
      var rest, buffered := p.proc + p.lost + p.source.tail, p.proc + p.source.tail;
      var c := if p.progress.Done? then Passed(p.used) else Lost(p.used + rest);
      var t := if p.progress.Done? then buffered else [];
      var h := if p.progress.Done? then ProcessSession(p.proc, p.source, p.effects, ns[1..])
               else ProcessSession([], Source([], p.source.script), p.effects, ns[1..]);
      assert p.progress.Done? ==> rest == buffered;
      assert (p.used + rest) + [] == p.used + rest;
      if p.progress.Done? {
        ManyProcessesConserve(p.proc, p.source, p.effects, ns[1..]);
      } else {
        ManyProcessesConserve([], Source([], p.source.script), p.effects, ns[1..]);
      }
      BetweenTrans(s.script, p.source.script, h.source.script);
      ChunkFirst(c, h.chunks);
      var p1, p2 := Periods(Between(s.script, p.source.script)), Periods(Between(p.source.script, h.source.script));
      Regroup(c.frames, t, proc + s.tail, p1, AllFrames(h.chunks), h.proc + h.source.tail, p2);
    }
  }

  /** Every call that fails finds nothing buffered and no frame before the error. */
  predicate EmptyWhenFailing(proc: seq<Frame>, s: Source, effects: seq<Effect>, ns: seq<nat>)
    requires Flows(s.script)
    decreases |ns|
  {
    ns == [] || (var p := ProcessFrames(proc, s, effects, [], ns[0]);
                 match p.progress
                 case Waiting => true
                 case Done => EmptyWhenFailing(p.proc, p.source, p.effects, ns[1..])
                 case Failed(_) =>
                   proc == [] && Available(s) == 0
                   && EmptyWhenFailing([], Source([], p.source.script), p.effects, ns[1..]))
  }

  /** A call that fails has captured or found nothing exactly when nothing was buffered and the first thing it met was
      the error. */
  lemma {:induction false} FailedProcessLoses(proc: seq<Frame>, s: Source, effects: seq<Effect>, n: nat, period: nat,
                                              channels: nat)
    requires IsScript(s.script, period, channels) && period > 0 && Flows(s.script)
    requires ProcessFrames(proc, s, effects, [], n).progress.Failed?
    ensures var p := ProcessFrames(proc, s, effects, [], n);
      p.used + (p.proc + p.lost + p.source.tail) == [] <==> proc == [] && Available(s) == 0
  {
    var p, r := ProcessFrames(proc, s, effects, [], n), Reload(proc, s, n);
    ProcessConserves(proc, s, effects, [], n);
    if |proc| < n {
      ReadSucceeds(s, n - |proc|, period, channels);
    }
    if proc == [] && Available(s) == 0 {
      assert r.frames == [] && r.source.tail == [];
    } else if proc == [] && s.tail == [] {
      hide IsScript, Available, ReadFrames;
      if r.status != 0 {
        assert p.lost == r.frames != [];
      } else {
        assert |r.frames| == n > 0;
        FirstReloadIsCaptured(proc, s, effects, n);
      }
    }
  }

  /** The frames that a first successful reload has read are among those the call has captured. */
  lemma {:induction false} FirstReloadIsCaptured(proc: seq<Frame>, s: Source, effects: seq<Effect>, n: nat)
    requires Flows(s.script) && n > 0 && Reload(proc, s, n).status == 0 && effects != []
    ensures var p := ProcessFrames(proc, s, effects, [], n);
      |p.used + (p.proc + p.lost + p.source.tail)| >= |proc + Reload(proc, s, n).frames|
  {
    var r := Reload(proc, s, n);
    var full := proc + r.frames;
    var k := Consumed(effects[0], |full|);
    assert [] + Produced(effects[0], n) == Produced(effects[0], n - 0);
    ProcessConserves(full[k..], r.source, effects[1..], Produced(effects[0], n), n);
    hide Reload, Consumed, Produced, IsLater, Periods, Between;
  }

  /** What the effects took, followed by what is still buffered, is all that was captured exactly when every call that
      failed had found nothing. */
  lemma {:induction false} NoProcessLosesExactlyWhen(proc: seq<Frame>, s: Source, effects: seq<Effect>, ns: seq<nat>,
                                                     period: nat, channels: nat)
    requires IsScript(s.script, period, channels) && period > 0 && Flows(s.script)
    ensures var h := ProcessSession(proc, s, effects, ns);
      (NothingLost(h.chunks) <==> EmptyWhenFailing(proc, s, effects, ns))
      && IsLater(s.script, h.source.script)
      && ((PassedFrames(h.chunks) + (h.proc + h.source.tail)
           == (proc + s.tail) + Periods(Between(s.script, h.source.script)))
          <==> EmptyWhenFailing(proc, s, effects, ns))
  {
    var h := ProcessSession(proc, s, effects, ns);
    EmptyLosesNothing(proc, s, effects, ns, period, channels);
    ManyProcessesConserve(proc, s, effects, ns);
    PassedIsAll(h.chunks);
    hide ProcessSession, EmptyWhenFailing, PassedFrames, AllFrames, NothingLost, Periods, Between, IsLater;
    var rest := h.proc + h.source.tail;
    if PassedFrames(h.chunks) + rest == (proc + s.tail) + Periods(Between(s.script, h.source.script)) {
      assert |PassedFrames(h.chunks) + rest| == |AllFrames(h.chunks) + rest|;
    }
  }

  lemma {:induction false} EmptyLosesNothing(proc: seq<Frame>, s: Source, effects: seq<Effect>, ns: seq<nat>,
                                             period: nat, channels: nat)
    requires IsScript(s.script, period, channels) && period > 0 && Flows(s.script)
    ensures NothingLost(ProcessSession(proc, s, effects, ns).chunks) <==> EmptyWhenFailing(proc, s, effects, ns)
    decreases |ns|
  {
    if ns == [] {
    } else {
      var p := ProcessFrames(proc, s, effects, [], ns[0]);
      ProcessConserves(proc, s, effects, [], ns[0]);
      LaterIsScript(s.script, p.source.script, period, channels);
      if p.progress.Failed? {
        FailedProcessLoses(proc, s, effects, ns[0], period, channels);
      }
      hide ProcessFrames, IsLater, Periods, Between, IsScript, Available, NothingLost;
      match p.progress
      case Waiting =>
        NoChunks();
      case Done =>
        EmptyLosesNothing(p.proc, p.source, p.effects, ns[1..], period, channels);
        ChunkFirst(Passed(p.used), ProcessSession(p.proc, p.source, p.effects, ns[1..]).chunks);
      case Failed(_) =>
        EmptyLosesNothing([], Source([], p.source.script), p.effects, ns[1..], period, channels);
        ChunkFirst(Lost(p.used + (p.proc + p.lost + p.source.tail)),
                   ProcessSession([], Source([], p.source.script), p.effects, ns[1..]).chunks);
    }
  }

  lemma {:induction false} NoChunks()
    ensures NothingLost([])
  {}

  /** Keeps the main channels of every frame. */
  function DropChannels(fs: seq<Frame>, dst: nat): (r: seq<Frame>)
    ensures |r| == |fs|
  {
    if fs == [] then [] else [if |fs[0]| <= dst then fs[0] else fs[0][..dst]] + DropChannels(fs[1..], dst)
  }

  lemma {:induction false} DropChannelsAt(fs: seq<Frame>, dst: nat, k: nat)
    requires k < |fs|
    ensures DropChannels(fs, dst)[k] == if |fs[k]| > dst then fs[k][..dst] else fs[k]
  {
    if k > 0 {
      DropChannelsAt(fs[1..], dst, k - 1);
    }
  }
}
