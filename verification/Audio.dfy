/** The audio player as a value: what each method of AudioPlayer does to the state. */
module Audio {
  import opened Bytes
  import opened Sequences
  import opened Numbers

  const NPOS := 0x7fff_ffff

  /** What never changes while a player lives: the decoded material, and how the decoder cuts it. `frameLen` says how
      many sample-frames the decoder would like to return at its n-th call from a position; it may be anything. */
  datatype Config = Config(
    source: seq<real>,
    channels: nat,
    length: nat,
    frameLen: (nat, nat) -> nat,
    silence: real)
  {
    predicate Valid() {
      channels > 0 && |source| == Samples(length) && length <= NPOS
    }

    /** Samples in `n` sample-frames. */
    function Samples(n: nat): nat {
      n * channels
    }
  }

  datatype Status = TERMINATED | PAUSED | PLAYING

  datatype Frame = Frame(data: seq<real>, cur: int)

  datatype Command =
    | TerminateAfterNLoops(cur: int, n: int)
    | AdjustVolume(startVolume: real, endVolume: real, samples: int, faded: nat)
    | TerminateAfter(remaining: int)

  datatype Player = Player(
    pos: nat,
    tick: nat,
    loopFr: Option<nat>,
    loopTo: Option<nat>,
    status: Status,
    volume: real,
    buffer: Option<Frame>,
    cmd: seq<Command>)
  {
    function From(): nat {
      if loopFr.Some? then loopFr.value else 0
    }

    function To(): nat {
      if loopTo.Some? then loopTo.value else NPOS
    }

    function Leftover(): seq<real> {
      if buffer.Some? then buffer.value.data else []
    }

    /** PcmLocation. */
    function Location(): int {
      if buffer.Some? then buffer.value.cur else pos
    }
  }

  lemma SamplesAdd(cf: Config, a: nat, b: nat)
    ensures cf.Samples(a + b) == cf.Samples(a) + cf.Samples(b)
  {
  }

  lemma SamplesMonotone(cf: Config, a: nat, b: nat)
    requires cf.channels > 0 && a <= b
    ensures cf.Samples(b) - cf.Samples(a) == cf.Samples(b - a)
    ensures a < b ==> cf.Samples(a) + cf.channels <= cf.Samples(b)
  {
    SamplesAdd(cf, a, b - a);
    if a < b {
      SamplesAdd(cf, b - a - 1, 1);
    }
  }

  lemma SamplesDivide(cf: Config, n: nat)
    requires cf.channels > 0
    ensures cf.Samples(n) / cf.channels == n && cf.Samples(n) % cf.channels == 0
  {
    DivModUnique(cf.Samples(n), cf.channels, n, 0);
  }

  /** A loop window lies in front of the end of the material, else no frame would ever follow the first end; a player
      that is not terminated has material left. */
  predicate Valid(cf: Config, p: Player) {
    cf.Valid() && p.loopFr.Some? == p.loopTo.Some? && p.From() < p.To() &&
    (p.status != TERMINATED ==> p.pos < cf.length && p.From() < cf.length)
  }

  // ------------------------------------------------------------------------------------------ commands

  predicate IsFinished(c: Command) {
    match c
    case TerminateAfterNLoops(_, n) => n < 0
    case AdjustVolume(_, _, samples, faded) => faded >= samples
    case TerminateAfter(remaining) => remaining <= 0
  }

  /** Sample by sample, until the fade is over. */
  function Fade(data: seq<real>, startVolume: real, endVolume: real, samples: int, faded: nat): (r: seq<real>)
    ensures |r| == |data|
  {
    if data == [] || faded >= samples then data
    else
      [Faded(data[0], startVolume, endVolume, samples, faded)]
      + Fade(data[1..], startVolume, endVolume, samples, faded + 1)
  }

  function Faded(sample: real, startVolume: real, endVolume: real, samples: int, faded: nat): real
    requires faded < samples
  {
    var factor := faded as real / samples as real;
    sample * (startVolume + factor * (endVolume - startVolume))
  }

  lemma {:induction false} FadeAt(
      data: seq<real>, startVolume: real, endVolume: real, samples: int, faded: nat, k: nat)
    requires k < |data|
    ensures Fade(data, startVolume, endVolume, samples, faded)[k] ==
            if faded + k < samples then Faded(data[k], startVolume, endVolume, samples, faded + k) else data[k]
    decreases |data|
  {
    hide Faded;
    if k > 0 && faded < samples {
      FadeAt(data[1..], startVolume, endVolume, samples, faded + 1, k - 1);
    }
  }

  /** Is `sample` scaled by the volume that lies `m` of `samples` equal steps on the way from the one to the other? */
  predicate OnLine(scaled: real, sample: real, startVolume: real, endVolume: real, samples: int, m: int) {
    scaled * samples as real == sample * (startVolume * (samples - m) as real + endVolume * m as real)
  }

  /** A fade scales the samples it reaches by a volume that goes from the one to the other in equal steps, one for each
      sample, and leaves the rest alone. */
  lemma FadeIsLinear(data: seq<real>, startVolume: real, endVolume: real, samples: int, faded: nat, k: nat)
    requires k < |data|
    ensures var r := Fade(data, startVolume, endVolume, samples, faded);
            var m := faded + k;
            if m < samples then OnLine(r[k], data[k], startVolume, endVolume, samples, m) else r[k] == data[k]
  {
    FadeAt(data, startVolume, endVolume, samples, faded, k);
    if faded + k < samples {
      hide Fade, Faded, OnLine;
      FadedInSteps(data[k], startVolume, endVolume, samples, faded + k);
    }
  }

  lemma FadedInSteps(sample: real, a: real, b: real, samples: int, m: nat)
    requires m < samples
    ensures OnLine(Faded(sample, a, b, samples, m), sample, a, b, samples, m)
  {
    var (factor, n) := (m as real / samples as real, samples as real);
    TimesDivisor(m as real, n);
    Distributed(sample, a, b, factor, n, m as real);
  }

  lemma TimesDivisor(x: real, n: real)
    requires n != 0.0
    ensures x / n * n == x
  {
  }

  lemma Distributed(sample: real, a: real, b: real, factor: real, n: real, m: real)
    requires factor * n == m
    ensures sample * (a + factor * (b - a)) * n == sample * (a * (n - m) + b * m)
  {
    calc {
      (a + factor * (b - a)) * n;
      a * n + factor * (b - a) * n;
      { assert factor * (b - a) * n == (factor * n) * (b - a); }
      a * n + m * (b - a);
      a * (n - m) + b * m;
    }
    assert sample * (a + factor * (b - a)) * n == sample * ((a + factor * (b - a)) * n);
  }

  /** It does not matter how the samples are cut into frames. */
  lemma FadeSplits(x: seq<real>, y: seq<real>, startVolume: real, endVolume: real, samples: int, faded: nat)
    ensures Fade(x + y, startVolume, endVolume, samples, faded) ==
            Fade(x, startVolume, endVolume, samples, faded) + Fade(y, startVolume, endVolume, samples, faded + |x|)
  {
    hide Fade, Faded;
    forall k | 0 <= k < |x + y|
      ensures Fade(x + y, startVolume, endVolume, samples, faded)[k] ==
              (Fade(x, startVolume, endVolume, samples, faded)
               + Fade(y, startVolume, endVolume, samples, faded + |x|))[k]
    {
      FadeAt(x + y, startVolume, endVolume, samples, faded, k);
      if k < |x| {
        FadeAt(x, startVolume, endVolume, samples, faded, k);
      } else {
        FadeAt(y, startVolume, endVolume, samples, faded + |x|, k - |x|);
      }
    }
  }

  datatype Ran = Ran(cmd: seq<Command>, frame: Frame, status: Status)

  function Execute(c: Command, f: Frame, status: Status): (r: (Command, Frame, Status))
    ensures r.1.cur == f.cur
    ensures |r.1.data| == |f.data| || (r.1.data == [] && r.2 == TERMINATED)
    ensures r.2 == status || r.2 == TERMINATED
  {
    match c
    case TerminateAfterNLoops(cur, n) =>
      var left := if f.cur < cur then n - 1 else n;
      if left < 0 then (TerminateAfterNLoops(f.cur, left), Frame([], f.cur), TERMINATED)
      else (TerminateAfterNLoops(f.cur, left), f, status)
    case AdjustVolume(startVolume, endVolume, samples, faded) =>
      var now := if faded + |f.data| <= samples then faded + |f.data| else if faded < samples then samples else faded;
      (AdjustVolume(startVolume, endVolume, samples, now),
       Frame(Fade(f.data, startVolume, endVolume, samples, faded), f.cur), status)
    case TerminateAfter(remaining) =>
      var left := remaining - |f.data|;
      (TerminateAfter(left), f, if left <= 0 then TERMINATED else status)
  }

  /** The list of commands over one frame; finished ones leave it. */
  function RunCommands(cmd: seq<Command>, f: Frame, status: Status): (r: Ran)
    ensures r.frame.cur == f.cur
    ensures |r.frame.data| == |f.data| || (r.frame.data == [] && r.status == TERMINATED)
    ensures r.status == status || r.status == TERMINATED
  {
    if cmd == [] then Ran([], f, status)
    else if IsFinished(cmd[0]) then RunCommands(cmd[1..], f, status)
    else
      var (c, frame, s) := Execute(cmd[0], f, status);
      var rest := RunCommands(cmd[1..], frame, s);
      if IsFinished(c) then rest else rest.(cmd := [c] + rest.cmd)
  }

  lemma RunNone(f: Frame, status: Status)
    ensures RunCommands([], f, status) == Ran([], f, status)
  {
  }

  /** A fade over one frame and then the next is a fade over both, and what goes on of it is the same. */
  lemma FadeOverFrames(
      startVolume: real, endVolume: real, samples: int, faded: nat, x: seq<real>, y: seq<real>, cur: int, s: Status)
    ensures var c := AdjustVolume(startVolume, endVolume, samples, faded);
            var (c1, f1, s1) := Execute(c, Frame(x, cur), s);
            var (c2, f2, s2) := Execute(c1, Frame(y, cur), s1);
            var (all, f, s3) := Execute(c, Frame(x + y, cur), s);
            c2 == all && f1.data + f2.data == f.data && s2 == s3 == s
  {
    hide Fade;
    FadeSplits(x, y, startVolume, endVolume, samples, faded);
    FadeEnds(y, startVolume, endVolume, samples, faded + |x|);
    FadeEnds(y, startVolume, endVolume, samples, if faded < samples then samples else faded);
  }

  lemma FadeEnds(y: seq<real>, startVolume: real, endVolume: real, samples: int, faded: nat)
    ensures faded >= samples ==> Fade(y, startVolume, endVolume, samples, faded) == y
  {
  }

  /** The count goes down by the samples of each frame, and the playback ends with the frame that brings the last. */
  lemma EndsAfterSamples(remaining: int, x: seq<real>, y: seq<real>, cur: int)
    requires |x| < remaining
    ensures var c := TerminateAfter(remaining);
            var (c1, f1, s1) := Execute(c, Frame(x, cur), PLAYING);
            var (c2, f2, s2) := Execute(c1, Frame(y, cur), s1);
            (f1.data, f2.data, s1) == (x, y, PLAYING) && c2 == Execute(c, Frame(x + y, cur), PLAYING).0 &&
            (s2 == TERMINATED <==> |x| + |y| >= remaining) && (s2 == PLAYING <==> |x| + |y| < remaining)
  {
  }

  /** When a command leaves the list: a fade when all its samples have been faded, a count of samples when all of them
      have come, a count of loops when it is used up. */
  lemma CommandsLeave(c: Command, f: Frame, s: Status)
    ensures RunCommands([c], f, s).cmd == [] <==>
            match c
            case AdjustVolume(_, _, samples, faded) => faded + |f.data| >= samples
            case TerminateAfter(remaining) => |f.data| >= remaining
            case TerminateAfterNLoops(cur, n) => n < 0 || (n == 0 && f.cur < cur)
    ensures !IsFinished(c) || RunCommands([c], f, s) == Ran([], f, s)
  {
    assert [c][1..] == [];
    RunNone(f, s);
    var (c1, f1, s1) := Execute(c, f, s);
    RunNone(f1, s1);
  }

  /** Commands run in the order of the list, each over what those in front of it have made of the frame, and those that
      stay keep their order. */
  lemma {:induction false} CommandsInOrder(a: seq<Command>, b: seq<Command>, f: Frame, s: Status)
    ensures var first := RunCommands(a, f, s);
            var second := RunCommands(b, first.frame, first.status);
            RunCommands(a + b, f, s) == Ran(first.cmd + second.cmd, second.frame, second.status)
    decreases |a|
  {
    hide Execute, IsFinished;
    if a == [] {
      assert a + b == b;
    } else {
      assert (a + b)[1..] == a[1..] + b;
      var (c, frame, status) := Execute(a[0], f, s);
      if IsFinished(a[0]) {
        CommandsInOrder(a[1..], b, f, s);
      } else {
        CommandsInOrder(a[1..], b, frame, status);
        Assoc([c], RunCommands(a[1..], frame, status).cmd,
              RunCommands(b, RunCommands(a[1..], frame, status).frame, RunCommands(a[1..], frame, status).status).cmd);
      }
    }
  }

  // ------------------------------------------------------------------------------------------ frames

  function Slice(cf: Config, a: nat, b: nat): (r: seq<real>)
    requires cf.Valid() && a <= b <= cf.length
    ensures |r| == cf.Samples(b - a)
  {
    SamplesMonotone(cf, a, b);
    SamplesMonotone(cf, b, cf.length);
    cf.source[cf.Samples(a)..cf.Samples(b)]
  }

  lemma SliceAppend(cf: Config, acc: seq<real>, a: nat, b: nat, c: nat)
    requires cf.Valid() && a <= b <= c <= cf.length
    ensures acc + Slice(cf, a, b) + Slice(cf, b, c) == acc + Slice(cf, a, c)
  {
    SamplesMonotone(cf, a, b);
    SamplesMonotone(cf, b, c);
    SamplesMonotone(cf, c, cf.length);
    Stretches(acc, cf.source, cf.Samples(a), cf.Samples(b), cf.Samples(c));
  }

  lemma SliceNothing(cf: Config, acc: seq<real>, a: nat)
    requires cf.Valid() && a <= cf.length
    ensures acc + Slice(cf, a, a) == acc
  {
    assert cf.Samples(0) == 0;
  }

  /** What the decoder returns at most and at least: something, and not more than there is. */
  function FrameLength(cf: Config, p: Player): (n: nat)
    requires p.pos < cf.length
    ensures 1 <= n <= cf.length - p.pos
  {
    var n := cf.frameLen(p.tick, p.pos);
    if n == 0 then 1 else if n > cf.length - p.pos then cf.length - p.pos else n
  }

  function OnEndOfPlayback(p: Player): Player {
    if p.loopFr.Some? && p.loopFr.value != NPOS then p.(pos := p.loopFr.value) else p.(status := TERMINATED)
  }

  /** Where the next frame starts: behind the window the decoder goes back to its front. */
  function Rewound(p: Player): Player {
    if p.pos >= p.To() then p.(pos := p.From()) else p
  }

  function Next(p: Player): nat {
    Rewound(p).pos
  }

  function Decode(cf: Config, p: Player): (r: (Frame, Player))
    requires cf.Valid() && p.pos < cf.length
  {
    var n := FrameLength(cf, p);
    (Frame(Slice(cf, p.pos, p.pos + n), p.pos), p.(pos := p.pos + n, tick := p.tick + 1))
  }

  function LoadNext(cf: Config, p: Player): (r: (Frame, Player))
    requires Valid(cf, p)
  {
    if p.status != PLAYING || p.pos >= cf.length then (Frame([], 0), p)
    else
      var (chunk, p1) := Decode(cf, Rewound(p));
      var p2 := if p1.pos == cf.length then OnEndOfPlayback(p1) else p1;
      var run := RunCommands(p2.cmd, chunk, p2.status);
      (run.frame, p2.(cmd := run.cmd, status := run.status))
  }

  /** A command sees all that the decoder returns, whether it is in the window or not: a count of samples goes down by
      the whole frame. */
  lemma CommandsSeeWholeFrames(cf: Config, p: Player, remaining: int)
    requires Valid(cf, p) && p.status == PLAYING && p.pos < cf.length
    requires p.cmd == [TerminateAfter(remaining)] && remaining > 0
    ensures var (f, q) := LoadNext(cf, p);
            var n := cf.Samples(FrameLength(cf, Rewound(p)));
            n > 0 && |f.data| == n && f.cur == Next(p) &&
            if remaining > n then q.cmd == [TerminateAfter(remaining - n)] else q.cmd == [] && q.status == TERMINATED
  {
    hide FrameLength;
    var (chunk, p1) := Decode(cf, Rewound(p));
    var p2 := if p1.pos == cf.length then OnEndOfPlayback(p1) else p1;
    assert p.cmd[1..] == [];
    assert |chunk.data| >= 1 by {
      SamplesMonotone(cf, 1, FrameLength(cf, Rewound(p)));
      SamplesOfOne(cf);
    }
    var (c1, f1, s1) := Execute(p.cmd[0], chunk, p2.status);
    RunNone(f1, s1);
    assert p2.cmd == p.cmd;
  }

  lemma SamplesOfOne(cf: Config)
    ensures cf.Samples(1) == cf.channels
  {
  }

  lemma NothingLoads(cf: Config, p: Player)
    requires Valid(cf, p) && p.status != PLAYING
    ensures LoadNext(cf, p) == (Frame([], 0), p)
  {
  }

  function Max(a: int, b: int): int {
    if a > b then a else b
  }

  /** The part of a frame that lies in the loop window. */
  function ClipFrame(cf: Config, p: Player, f: Frame): (r: Frame)
    requires cf.channels > 0 && f.cur >= 0 && p.From() < p.To()
    requires |f.data| % cf.channels == 0
  {
    var frameTo := f.cur + |f.data| / cf.channels;
    if frameTo < p.From() || p.To() <= f.cur then f.(data := [])
    else if f.cur < p.From() || p.To() < frameTo then
      var front := Max(0, p.From() - f.cur);
      var back := Max(0, frameTo - p.To());
      ClipFits(cf, |f.data| / cf.channels, front, back, |f.data|);
      Frame(f.data[cf.Samples(front)..|f.data| - cf.Samples(back)], f.cur + front)
    else f
  }

  lemma ClipFits(cf: Config, frames: nat, front: nat, back: nat, size: nat)
    requires cf.channels > 0 && front + back <= frames && size % cf.channels == 0 && frames == size / cf.channels
    ensures cf.Samples(front) + cf.Samples(back) <= size == cf.Samples(frames)
  {
    SamplesAdd(cf, front, back);
    SamplesMonotone(cf, front + back, frames);
  }

  // ------------------------------------------------------------------------------------------ LoadPCM

  /** How far the decoder is from a window it has to reach first. */
  function Ahead(p: Player): nat {
    if p.pos < p.From() then p.From() - p.pos else 0
  }

  /** The state behind a decoded chunk, and the chunk. */
  lemma DecodeFacts(cf: Config, p: Player)
    requires Valid(cf, p) && p.status == PLAYING
    ensures var q := Rewound(p);
            Valid(cf, q) && (p.pos < p.To() ==> q == p) && q.pos < q.To() &&
            var n := FrameLength(cf, q);
            |Decode(cf, q).0.data| == cf.Samples(n) > 0 && cf.Samples(n) % cf.channels == 0 &&
            cf.Samples(n) / cf.channels == n
  {
    hide Slice;
    SamplesDivide(cf, FrameLength(cf, Rewound(p)));
    SamplesMonotone(cf, 0, FrameLength(cf, Rewound(p)));
  }

  lemma EndFacts(cf: Config, p: Player)
    requires cf.Valid() && p.pos <= cf.length && p.From() < p.To() && p.From() < cf.length
    requires p.loopFr.Some? == p.loopTo.Some?
    ensures var q := if p.pos == cf.length then OnEndOfPlayback(p) else p;
            Valid(cf, q) && q.From() == p.From() && q.To() == p.To() && q.pos >= Min(p.pos, p.From())
  {
  }

  function Min(a: int, b: int): int {
    if a < b then a else b
  }

  /** How much of a frame is kept: nothing only if it ends at or before the window, or starts behind it. */
  lemma ClipKeeps(cf: Config, p: Player, f: Frame, m: nat)
    requires cf.channels > 0 && f.cur >= 0 && p.From() < p.To() && |f.data| == cf.Samples(m)
    requires |f.data| % cf.channels == 0 && |f.data| / cf.channels == m > 0
    ensures var g := ClipFrame(cf, p, f);
            var (front, back) := (Max(0, p.From() - f.cur), Max(0, f.cur + m - p.To()));
            if f.cur + m <= p.From() || p.To() <= f.cur then g.data == []
            else
              front + back < m && |g.data| == cf.Samples(m - front - back) > 0 && g.cur == f.cur + front &&
              cf.Samples(front) <= cf.Samples(m - back) <= |f.data| &&
              g.data == f.data[cf.Samples(front)..cf.Samples(m - back)]
  {
    var (front, back) := (Max(0, p.From() - f.cur), Max(0, f.cur + m - p.To()));
    if f.cur + m >= p.From() && p.To() > f.cur {
      SamplesMonotone(cf, back, m);
      SamplesMonotone(cf, front, m - back);
      SamplesMonotone(cf, 0, m - back - front);
    }
  }

  /** A frame brings samples, ends the playback, or brings the decoder nearer to the window. */
  lemma LoadNextProgress(cf: Config, p: Player)
    requires Valid(cf, p) && p.status == PLAYING
    ensures var (f, q) := LoadNext(cf, p);
            Valid(cf, q) && f.cur >= 0 && |f.data| % cf.channels == 0 && (f.data == [] ==> q.status != PLAYING) &&
            q.From() == p.From() && q.To() == p.To() && q.volume == p.volume && q.buffer == p.buffer &&
            (q.status == PLAYING && ClipFrame(cf, q, f).data == [] ==> Ahead(q) < Ahead(p))
  {
    hide Slice, RunCommands, ClipFrame, FrameLength;
    var r := Rewound(p);
    DecodeFacts(cf, p);
    var n := FrameLength(cf, r);
    var (chunk, p1) := Decode(cf, r);
    EndFacts(cf, p1);
    var p2 := if p1.pos == cf.length then OnEndOfPlayback(p1) else p1;
    var run := RunCommands(p2.cmd, chunk, p2.status);
    var q := p2.(cmd := run.cmd, status := run.status);
    assert LoadNext(cf, p) == (run.frame, q);
    if run.frame.data != [] {
      ClipKeeps(cf, q, run.frame, n);
    }
  }

  datatype Pulled = Pulled(player: Player, data: seq<real>, cur: int)

  /** The loop of LoadPCM. */
  function Pull(cf: Config, p: Player, acc: seq<real>, n: nat, cur: int): (r: Pulled)
    requires Valid(cf, p)
    decreases if |acc| < n then n - |acc| else 0, if p.status == PLAYING then 1 else 0, Ahead(p)
  {
    if |acc| >= n || p.status != PLAYING then Pulled(p, acc, cur)
    else
      LoadNextProgress(cf, p);
      var (f, q) := LoadNext(cf, p);
      if f.data == [] then Pull(cf, q, acc, n, cur)
      else
        var g := ClipFrame(cf, q, f);
        Pull(cf, q, acc + g.data, n, g.cur + |g.data| / cf.channels)
  }

  function Scale(data: seq<real>, volume: real): (r: seq<real>)
    ensures |r| == |data|
  {
    seq(|data|, i requires 0 <= i < |data| => data[i] * volume)
  }

  function Silence(cf: Config, n: nat): seq<real> {
    seq(n, _ => cf.silence)
  }

  /** Exactly `n` samples: from the buffer, from the decoder, and silence for what is missing. What was decoded too
      much is kept, already scaled. */
  function LoadPCM(cf: Config, p: Player, n: nat): (r: (seq<real>, Player))
    requires Valid(cf, p) && n > 0
    ensures |r.0| == n
  {
    if p.status != PLAYING then (Silence(cf, n), p)
    else
      var pulled := Pull(cf, p.(buffer := None), p.Leftover(), n, p.pos);
      var data := Scale(pulled.data, p.volume);
      if |data| > n then
        var surplus := data[n..];
        (data[..n], pulled.player.(buffer := Some(Frame(surplus, pulled.cur - |surplus| / cf.channels))))
      else (data + Silence(cf, n - |data|), pulled.player)
  }

  // ------------------------------------------------------------------------------------------ LoadRemain

  /** Do the next `k` rounds of the loop of LoadRemain all go on? Each of them loads a frame from `from` or behind. */
  predicate GoesOn(cf: Config, p: Player, from: int, k: nat)
    requires Valid(cf, p)
    decreases k
  {
    k == 0 ||
    (var (f, q) := LoadNext(cf, p);
     f.data != [] && f.cur >= from && (LoadsWhilePlaying(cf, p); LoadNextProgress(cf, p); GoesOn(cf, q, from, k - 1)))
  }

  lemma LoadsWhilePlaying(cf: Config, p: Player)
    requires Valid(cf, p)
    ensures LoadNext(cf, p).0.data != [] ==> p.status == PLAYING
  {
  }

  /** Does the loop come to an end? */
  ghost predicate Returns(cf: Config, p: Player, from: int)
    requires Valid(cf, p)
  {
    exists k: nat :: !GoesOn(cf, p, from, k)
  }

  /** The loop of LoadRemain, if fewer than `k` rounds go on: up to the end of the playback, or to a frame in front of
      where it began, which is kept. */
  function Drain(cf: Config, p: Player, acc: seq<real>, from: int, k: nat): (seq<real>, Player)
    requires Valid(cf, p) && !GoesOn(cf, p, from, k)
    decreases k
  {
    var (f, q) := LoadNext(cf, p);
    if f.data == [] then (acc, q)
    else if f.cur < from then (acc, q.(buffer := Some(f)))
    else
      LoadsWhilePlaying(cf, p);
      LoadNextProgress(cf, p);
      Drain(cf, q, acc + ClipFrame(cf, q, f).data, from, k - 1)
  }

  /** How many rounds are counted does not matter. */
  lemma {:induction false} DrainRounds(cf: Config, p: Player, acc: seq<real>, from: int, k: nat, m: nat)
    requires Valid(cf, p) && !GoesOn(cf, p, from, k) && !GoesOn(cf, p, from, m)
    ensures Drain(cf, p, acc, from, k) == Drain(cf, p, acc, from, m)
    decreases k
  {
    hide LoadNext, ClipFrame;
    var (f, q) := LoadNext(cf, p);
    if f.data != [] && f.cur >= from {
      LoadsWhilePlaying(cf, p);
      LoadNextProgress(cf, p);
      DrainRounds(cf, q, acc + ClipFrame(cf, q, f).data, from, k - 1, m - 1);
    }
  }

  ghost function LoadRemain(cf: Config, p: Player): (seq<real>, Player)
    requires Valid(cf, p) && Returns(cf, p.(buffer := None), p.Location())
  {
    if p.status == PAUSED then ([], p)
    else
      var k: nat :| !GoesOn(cf, p.(buffer := None), p.Location(), k);
      var (data, q) := Drain(cf, p.(buffer := None), p.Leftover(), p.Location(), k);
      (Scale(data, p.volume), q)
  }

  /** LoadRemain in terms of any number of rounds that is large enough. */
  lemma RemainIs(cf: Config, p: Player, k: nat)
    requires Valid(cf, p) && p.status != PAUSED && !GoesOn(cf, p.(buffer := None), p.Location(), k)
    ensures Returns(cf, p.(buffer := None), p.Location())
    ensures var (data, q) := Drain(cf, p.(buffer := None), p.Leftover(), p.Location(), k);
            LoadRemain(cf, p) == (Scale(data, p.volume), q)
  {
    hide GoesOn, Drain;
    forall m: nat | !GoesOn(cf, p.(buffer := None), p.Location(), m)
      ensures Drain(cf, p.(buffer := None), p.Leftover(), p.Location(), m) ==
              Drain(cf, p.(buffer := None), p.Leftover(), p.Location(), k)
    {
      DrainRounds(cf, p.(buffer := None), p.Leftover(), p.Location(), k, m);
    }
  }

  /** From behind the front of the window, or without one, the frames that start at `from` or later come to an end: the
      decoder moves on to the end of the material, which ends the playback, or back to the front. */
  predicate Drainable(p: Player, from: int) {
    p.loopFr.Some? && p.status == PLAYING ==> p.From() < from
  }

  function DrainMeasure(cf: Config, p: Player, from: int): nat
    requires Valid(cf, p)
  {
    if p.status != PLAYING then 0 else if Next(p) < from then 1 else cf.length - Next(p) + 2
  }

  lemma DrainProgress(cf: Config, p: Player, from: int)
    requires Valid(cf, p) && Drainable(p, from)
    ensures var (f, q) := LoadNext(cf, p);
            f.data != [] && f.cur >= from ==>
              p.status == PLAYING && Valid(cf, q) && Drainable(q, from) && q.loopFr == p.loopFr &&
              DrainMeasure(cf, q, from) < DrainMeasure(cf, p, from)
  {
    hide Slice, RunCommands;
    if p.status == PLAYING {
      LoadNextProgress(cf, p);
      DecodeFacts(cf, p);
    }
  }

  /** So there are only so many rounds. */
  lemma {:induction false} DrainableEnds(cf: Config, p: Player, from: int, k: nat)
    requires Valid(cf, p) && Drainable(p, from) && GoesOn(cf, p, from, k)
    ensures k <= DrainMeasure(cf, p, from)
    decreases k
  {
    hide LoadNext, DrainMeasure;
    if k > 0 {
      DrainProgress(cf, p, from);
      DrainableEnds(cf, LoadNext(cf, p).1, from, k - 1);
    }
  }

  lemma DrainableReturns(cf: Config, p: Player, from: int)
    requires Valid(cf, p) && Drainable(p, from)
    ensures !GoesOn(cf, p, from, DrainMeasure(cf, p, from) + 1) && Returns(cf, p, from)
  {
    hide GoesOn, DrainMeasure;
    var k := DrainMeasure(cf, p, from) + 1;
    if GoesOn(cf, p, from, k) {
      DrainableEnds(cf, p, from, k);
    }
  }

  // ------------------------------------------------------------------------------------------ controls

  /** None: the window is empty, and the source throws. */
  function SetLoop(p: Player, a: nat, b: nat): Option<Player> {
    if a >= b then None else Some(SetLoopImpl(p, a, b))
  }

  function SetLoopImpl(p: Player, a: nat, b: nat): Player {
    var q := p.(loopFr := Some(a), loopTo := Some(b));
    if p.Location() < a || p.Location() >= b then q.(buffer := None, pos := a) else q
  }

  function WithoutLoopCounts(cmd: seq<Command>): seq<Command> {
    if cmd == [] then []
    else if cmd[0].TerminateAfterNLoops? then WithoutLoopCounts(cmd[1..])
    else [cmd[0]] + WithoutLoopCounts(cmd[1..])
  }

  /** A negative count loops for ever. */
  function SetLoopTimes(p: Player, n: int): Player {
    var q := p.(cmd := WithoutLoopCounts(p.cmd), loopFr := Some(p.From()), loopTo := Some(p.To()));
    if n < 0 then q else q.(cmd := q.cmd + [TerminateAfterNLoops(p.Location(), n)])
  }

  // ------------------------------------------------------------------------------------------ runs

  /** A sequence of requests. */
  function Play(cf: Config, p: Player, requests: seq<positive>): (r: (seq<real>, Player))
    requires Valid(cf, p)
    ensures Valid(cf, r.1) && |r.0| == Total(requests)
    decreases |requests|
  {
    if requests == [] then ([], p)
    else
      LoadPCMKeepsValid(cf, p, requests[0]);
      var (first, q) := LoadPCM(cf, p, requests[0]);
      var (rest, end) := Play(cf, q, requests[1..]);
      (first + rest, end)
  }

  function Total(requests: seq<positive>): nat {
    if requests == [] then 0 else requests[0] + Total(requests[1..])
  }

  /** What the loop of LoadPCM leaves behind: enough data or an ended player, with window, volume and buffer kept. */
  lemma {:induction false} PullFacts(cf: Config, p: Player, acc: seq<real>, n: nat, cur: int)
    requires Valid(cf, p)
    ensures var r := Pull(cf, p, acc, n, cur);
            Valid(cf, r.player) && acc <= r.data && (|r.data| >= n || r.player.status != PLAYING) &&
            r.player.From() == p.From() && r.player.To() == p.To() &&
            r.player.volume == p.volume && r.player.buffer == p.buffer
    decreases if |acc| < n then n - |acc| else 0, if p.status == PLAYING then 1 else 0, Ahead(p)
  {
    hide LoadNext, ClipFrame, Valid;
    if |acc| < n && p.status == PLAYING {
      LoadNextProgress(cf, p);
      var (f, q) := LoadNext(cf, p);
      if f.data == [] {
        PullFacts(cf, q, acc, n, cur);
      } else {
        assert q.From() < q.To() && cf.channels > 0 by { WindowFacts(cf, q); }
        var g := ClipFrame(cf, q, f);
        PullFacts(cf, q, acc + g.data, n, g.cur + |g.data| / cf.channels);
      }
    }
  }

  lemma WindowFacts(cf: Config, p: Player)
    requires Valid(cf, p)
    ensures p.From() < p.To() && cf.channels > 0
  {
  }

  lemma LoadPCMKeepsValid(cf: Config, p: Player, n: nat)
    requires Valid(cf, p) && n > 0
    ensures Valid(cf, LoadPCM(cf, p, n).1)
  {
    if p.status == PLAYING {
      PullFacts(cf, p.(buffer := None), p.Leftover(), n, p.pos);
    }
  }

  // ------------------------------------------------------------------------------------------ window and location

  /** Behind SetLoop the player stands in the window: where it stood, with all it had, if that was in the window
      already, else at its front with nothing. */
  lemma SetLoopLocates(p: Player, a: nat, b: nat)
    ensures SetLoop(p, a, b).None? <==> b <= a
    ensures a < b ==>
              var q := SetLoop(p, a, b).value;
              q.From() == a && q.To() == b && a <= q.Location() < b &&
              if a <= p.Location() < b then q.Location() == p.Location() && q.buffer == p.buffer && q.pos == p.pos
              else q.Location() == a && q.buffer == None && q.pos == a
  {
  }

  /** Without a window the player is in the one that SetLoop takes by default. */
  lemma DefaultWindow(p: Player)
    requires p.loopFr.None? && p.loopTo.None?
    ensures p.From() == 0 && p.To() == 2147483647
  {
  }
}
