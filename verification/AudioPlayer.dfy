/** class AudioPlayer: the methods with their loops, each proved to do what the value-level player does. */
module AudioPlayerClass {
  import opened Bytes
  import opened Sequences
  import opened Audio

  class AudioPlayer {
    const cf: Config

    // The decoder's own state.
    var decoderPos: nat
    var decodeCalls: nat

    var loopFr: Option<nat>
    var loopTo: Option<nat>
    var status: Status
    var volume: real
    var buffer: Option<Frame>
    var cmd: seq<Command>

    function State(): Player
      reads this
    {
      Player(decoderPos, decodeCalls, loopFr, loopTo, status, volume, buffer, cmd)
    }

    predicate Valid()
      reads this
    {
      Audio.Valid(cf, State())
    }

    constructor (cf: Config)
      requires cf.Valid()
      ensures this.cf == cf && Valid()
      ensures State() == Player(0, 0, None, None, if cf.length > 0 then PLAYING else TERMINATED, 1.0, None, [])
    {
      this.cf := cf;
      decoderPos, decodeCalls := 0, 0;
      loopFr, loopTo := None, None;
      status := if cf.length > 0 then PLAYING else TERMINATED;
      volume := 1.0;
      buffer := None;
      cmd := [];
    }

    predicate IsPlaying()
      reads this
    {
      status == PLAYING
    }

    method Pause()
      modifies `status
      ensures status == if old(status) == PLAYING then PAUSED else old(status)
      ensures old(Valid()) ==> Valid()
    {
      if IsPlaying() {
        status := PAUSED;
      }
    }

    method Unpause()
      modifies `status
      ensures status == if old(status) == PAUSED then PLAYING else old(status)
      ensures old(Valid()) ==> Valid()
    {
      if status == PAUSED {
        status := PLAYING;
      }
    }

    method Terminate()
      modifies `status
      ensures status == TERMINATED && (old(Valid()) ==> Valid())
    {
      status := TERMINATED;
    }

    method SetVolume(vol: real)
      modifies `volume
      ensures volume == vol && (old(Valid()) ==> Valid())
    {
      volume := vol;
    }

    /** False: the window is empty, and the source throws. A window that starts behind the end of the material is taken,
        but a player that is not terminated is not valid then: it has no frame to load, for ever. */
    method SetLoop(a: nat, b: nat) returns (ok: bool)
      requires Valid()
      modifies this
      ensures ok == Audio.SetLoop(old(State()), a, b).Some?
      ensures State() == if ok then Audio.SetLoop(old(State()), a, b).value else old(State())
      ensures Valid() <==> !ok || a < cf.length || status == TERMINATED
    {
      if a >= b {
        return false;
      }
      loopFr, loopTo := Some(a), Some(b);
      var cur := State().Location();
      if cur < a || cur >= b {
        buffer := None;
        decoderPos := a;
      }
      ok := true;
    }

    method SetLoopTimes(n: int)
      requires Valid()
      modifies this
      ensures Valid() && State() == Audio.SetLoopTimes(old(State()), n)
    {
      hide WithoutLoopCounts;
      var i := 0;
      ghost var kept := [];
      assert cmd[0..] == cmd;
      while i < |cmd|
        invariant 0 <= i <= |cmd| && kept == cmd[..i]
        invariant State().(cmd := []) == old(State()).(cmd := [])
        invariant WithoutLoopCounts(old(cmd)) == kept + WithoutLoopCounts(cmd[i..])
        decreases |cmd| - i
      {
        CountsStep(cmd, i);
        if cmd[i].TerminateAfterNLoops? {
          var rest := cmd[i + 1..];
          cmd := cmd[..i] + rest;
          assert cmd[i..] == rest;
        } else {
          Assoc(kept, [cmd[i]], WithoutLoopCounts(cmd[i + 1..]));
          kept := kept + [cmd[i]];
          i := i + 1;
        }
      }
      CountsStep(cmd, i);
      assert cmd == kept;
      var location := State().Location();
      loopFr := Some(State().From());
      loopTo := Some(State().To());
      if n >= 0 {
        cmd := cmd + [TerminateAfterNLoops(location, n)];
      }
    }

    static lemma CountsStep(cmd: seq<Command>, i: nat)
      requires i <= |cmd|
      ensures i == |cmd| ==> WithoutLoopCounts(cmd[i..]) == []
      ensures i < |cmd| ==>
                WithoutLoopCounts(cmd[i..]) ==
                (if cmd[i].TerminateAfterNLoops? then [] else [cmd[i]]) + WithoutLoopCounts(cmd[i + 1..])
    {
      if i < |cmd| { assert cmd[i..][1..] == cmd[i + 1..]; }
    }

    method OnEndOfPlayback()
      modifies this
      ensures State() == Audio.OnEndOfPlayback(old(State()))
    {
      var seekTo := if loopFr.Some? then loopFr.value else NPOS;
      if seekTo != NPOS {
        decoderPos := seekTo;
      } else {
        status := TERMINATED;
      }
    }

    /** AdjustVolume's walk over the samples of a frame. */
    static method FadeSamples(data: seq<real>, startVolume: real, endVolume: real, samples: int, faded: nat)
      returns (r: seq<real>, now: nat)
      ensures r == Fade(data, startVolume, endVolume, samples, faded)
      ensures now == if faded + |data| <= samples then faded + |data| else if faded < samples then samples else faded
    {
      hide Fade, Faded;
      r, now := [], faded;
      FadeStarts(data, startVolume, endVolume, samples, faded);
      var i := 0;
      while i < |data| && now < samples
        invariant 0 <= i <= |data| && now == faded + i
        invariant now <= samples || i == 0
        invariant Fade(data, startVolume, endVolume, samples, faded) ==
                  r + Fade(data[i..], startVolume, endVolume, samples, now)
      {
        var sample := Faded(data[i], startVolume, endVolume, samples, now);
        FadeStep(data, i, startVolume, endVolume, samples, now);
        Assoc(r, [sample], Fade(data[i + 1..], startVolume, endVolume, samples, now + 1));
        r := r + [sample];
        i, now := i + 1, now + 1;
      }
      FadeStops(data[i..], startVolume, endVolume, samples, now);
      r := r + data[i..];
    }

    static lemma FadeStarts(data: seq<real>, startVolume: real, endVolume: real, samples: int, faded: nat)
      ensures Fade(data, startVolume, endVolume, samples, faded) ==
              [] + Fade(data[0..], startVolume, endVolume, samples, faded)
    {
      assert data[0..] == data;
    }

    static lemma FadeStops(data: seq<real>, startVolume: real, endVolume: real, samples: int, faded: nat)
      requires data == [] || faded >= samples
      ensures Fade(data, startVolume, endVolume, samples, faded) == data
    {
    }

    static lemma FadeStep(data: seq<real>, i: nat, startVolume: real, endVolume: real, samples: int, faded: nat)
      requires i < |data| && faded < samples
      ensures Fade(data[i..], startVolume, endVolume, samples, faded) ==
              [Faded(data[i], startVolume, endVolume, samples, faded)]
              + Fade(data[i + 1..], startVolume, endVolume, samples, faded + 1)
    {
      hide Faded;
      assert data[i..][0] == data[i] && data[i..][1..] == data[i + 1..];
    }

    /** ICommand::Execute. */
    method ExecuteCommand(c: Command, f: Frame) returns (next: Command, frame: Frame)
      modifies `status
      ensures (next, frame, status) == Execute(c, f, old(status))
    {
      match c
      case TerminateAfterNLoops(cur, n) =>
        var left := if f.cur < cur then n - 1 else n;
        next, frame := TerminateAfterNLoops(f.cur, left), f;
        if left < 0 {
          frame := Frame([], f.cur);
          status := TERMINATED;
        }
      case AdjustVolume(startVolume, endVolume, samples, faded) =>
        var data, now := FadeSamples(f.data, startVolume, endVolume, samples, faded);
        next, frame := AdjustVolume(startVolume, endVolume, samples, now), f.(data := data);
      case TerminateAfter(remaining) =>
        next, frame := TerminateAfter(remaining - |f.data|), f;
        if IsFinished(next) {
          status := TERMINATED;
        }
    }

    /** The commands in order over one frame. */
    method RunAll(chunk: Frame) returns (frame: Frame)
      modifies `status, `cmd
      ensures Ran(cmd, frame, status) == RunCommands(old(cmd), chunk, old(status))
    {
      frame := chunk;
      var i := 0;
      ghost var result := RunCommands(cmd, chunk, status);
      assert cmd[0..] == cmd;
      while i < |cmd|
        invariant 0 <= i <= |cmd|
        invariant var rest := RunCommands(cmd[i..], frame, status);
                  result == rest.(cmd := cmd[..i] + rest.cmd)
        decreases |cmd| - i
      {
        ghost var (done, rest) := (cmd[..i], cmd[i..][1..]);
        if IsFinished(cmd[i]) {
          cmd := cmd[..i] + cmd[i + 1..];
          assert cmd[..i] == done && cmd[i..] == rest;
          continue;
        }
        var next;
        next, frame := ExecuteCommand(cmd[i], frame);
        if IsFinished(next) {
          cmd := cmd[..i] + cmd[i + 1..];
          assert cmd[..i] == done && cmd[i..] == rest;
        } else {
          cmd := cmd[i := next];
          i := i + 1;
          assert cmd[..i] == done + [next] && cmd[i..] == rest;
          Assoc(done, [next], RunCommands(rest, frame, status).cmd);
        }
      }
      assert cmd[..i] == cmd && cmd[i..] == [];
    }

    method LoadNext() returns (frame: Frame)
      requires Valid()
      modifies this
      ensures (frame, State()) == Audio.LoadNext(cf, old(State()))
    {
      hide RunCommands, Slice, FrameLength, Config.Samples;
      if !IsPlaying() {
        return Frame([], 0);
      }
      if decoderPos >= cf.length {
        return Frame([], 0);
      }
      if decoderPos >= State().To() {
        decoderPos := State().From();
      }
      var cur := decoderPos;
      var n := FrameLength(cf, State());
      var chunk := Slice(cf, cur, cur + n);
      decoderPos, decodeCalls := decoderPos + n, decodeCalls + 1;
      if decoderPos == cf.length {
        OnEndOfPlayback();
      }
      frame := RunAll(Frame(chunk, cur));
    }

    /** None: the request is not positive, and the source throws. */
    method LoadPCM(nsamples: int) returns (r: Option<seq<real>>)
      requires Valid()
      modifies this
      ensures Valid()
      ensures nsamples <= 0 ==> r == None && State() == old(State())
      ensures nsamples > 0 ==> r.Some? && (r.value, State()) == Audio.LoadPCM(cf, old(State()), nsamples)
    {
      hide Pull, Scale, Silence;
      if nsamples <= 0 {
        return None;
      }
      LoadPCMKeepsValid(cf, State(), nsamples);
      var data: seq<real> := [];
      if IsPlaying() {
        if buffer.Some? {
          data := buffer.value.data;
          buffer := None;
        }
        var cur: int := decoderPos;
        PullFacts(cf, State(), data, nsamples, cur);
        data, cur := Gather(data, nsamples, cur);
        data := Scale(data, volume);
        if |data| > nsamples {
          var surplus := data[nsamples..];
          cur := cur - |surplus| / cf.channels;
          buffer := Some(Frame(surplus, cur));
          data := data[..nsamples];
        }
      }
      assert |Silence(cf, 0)| == 0 by { NoSilence(); }
      assert data + Silence(cf, 0) == data;
      assert [] + Silence(cf, nsamples) == Silence(cf, nsamples);
      data := data + Silence(cf, nsamples - |data|);
      r := Some(data);
    }

    lemma NoSilence()
      ensures Silence(cf, 0) == []
    {
    }

    /** The loop of LoadPCM over decoded frames. */
    method Gather(start: seq<real>, nsamples: nat, from: int) returns (data: seq<real>, cur: int)
      requires Valid()
      modifies this
      ensures Pulled(State(), data, cur) == Pull(cf, old(State()), start, nsamples, from)
    {
      hide Audio.LoadNext;
      data, cur := start, from;
      ghost var pulled := Pull(cf, State(), data, nsamples, cur);
      while |data| < nsamples && IsPlaying()
        invariant Valid()
        invariant pulled == Pull(cf, State(), data, nsamples, cur)
        decreases if |data| < nsamples then nsamples - |data| else 0, if status == PLAYING then 1 else 0, Ahead(State())
      {
        LoadNextProgress(cf, State());
        var next := LoadNext();
        if |next.data| == 0 {
          continue;
        }
        next := ClipFrame(cf, State(), next);
        cur := next.cur + |next.data| / cf.channels;
        data := data + next.data;
      }
    }

    /** Asks for no more than that the source returns. */
    method LoadRemain() returns (data: seq<real>)
      requires Valid() && Returns(cf, State().(buffer := None), State().Location())
      modifies this
      ensures (data, State()) == Audio.LoadRemain(cf, old(State()))
    {
      hide GoesOn, Drain, Scale;
      data := [];
      if status == PAUSED {
        return;
      }
      var cur := State().Location();
      ghost var k: nat :| !GoesOn(cf, State().(buffer := None), cur, k);
      RemainIs(cf, State(), k);
      if buffer.Some? {
        data := buffer.value.data;
        buffer := None;
      }
      data := DrainFrames(data, cur, k);
      data := Scale(data, volume);
    }

    /** The loop of LoadRemain. */
    method DrainFrames(start: seq<real>, from: int, ghost k: nat) returns (data: seq<real>)
      requires Valid() && !GoesOn(cf, State(), from, k)
      modifies this
      ensures (data, State()) == Drain(cf, old(State()), start, from, k) && volume == old(volume)
    {
      hide Audio.LoadNext;
      data := start;
      ghost var drained := Drain(cf, State(), start, from, k);
      ghost var rounds := k;
      while true
        invariant Valid() && volume == old(volume) && !GoesOn(cf, State(), from, rounds)
        invariant drained == Drain(cf, State(), data, from, rounds)
        decreases rounds
      {
        LoadsWhilePlaying(cf, State());
        if IsPlaying() {
          LoadNextProgress(cf, State());
        } else {
          NothingLoads(cf, State());
        }
        var next := LoadNext();
        if |next.data| == 0 {
          return;
        }
        if next.cur < from {
          buffer := Some(next);
          return;
        }
        next := ClipFrame(cf, State(), next);
        data := data + next.data;
        rounds := rounds - 1;
      }
    }
  }
}
