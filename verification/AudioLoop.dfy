/** Playing in a loop window: the output is a periodic stream, cut off by a loop count. */
module AudioLoop {
  import opened Bytes
  import opened Numbers
  import opened Audio
  import opened AudioPasses

  // ------------------------------------------------------------------------------------------ the stream

  /** The window ends where the material does, if that is earlier. */
  function End(cf: Config, p: Player): nat {
    if p.To() < cf.length then p.To() else cf.length
  }

  function Period(cf: Config, p: Player): int {
    cf.Samples(End(cf, p)) - cf.Samples(p.From())
  }

  /** Where the next frame starts, or the window if that is later. */
  function Start(p: Player): nat {
    if Next(p) < p.From() then p.From() else Next(p)
  }

  /** The samples between the front of the window and the next one to come. */
  function Offset(cf: Config, p: Player): int {
    cf.Samples(Start(p)) - cf.Samples(p.From())
  }

  predicate IsWindow(source: seq<real>, lo: int, period: int) {
    0 <= lo && 0 < period && lo + period <= |source|
  }

  /** The material from `lo` on, repeated every `period` samples. */
  function Repeated(source: seq<real>, lo: int, period: int, i: int): real
    requires IsWindow(source, lo, period)
  {
    source[lo + i % period]
  }

  /** `data` is the repeated material from `offset` on. */
  predicate IsPeriodic(source: seq<real>, lo: int, period: int, offset: int, data: seq<real>) {
    IsWindow(source, lo, period) &&
    forall k :: 0 <= k < |data| ==> data[k] == Repeated(source, lo, period, offset + k)
  }

  lemma ModAdd(a: int, b: int, d: int)
    requires d > 0
    ensures (a % d + b) % d == (a + b) % d
  {
    var (q, s) := ((a % d + b) / d, (a % d + b) % d);
    assert a + b == d * (a / d + q) + s;
    DivModUnique(a + b, d, a / d + q, s);
  }

  lemma RepeatedShift(source: seq<real>, lo: int, period: int, i: int, k: int)
    requires IsWindow(source, lo, period)
    ensures Repeated(source, lo, period, i % period + k) == Repeated(source, lo, period, i + k)
  {
    ModAdd(i, k, period);
  }

  lemma RepeatedOnce(source: seq<real>, lo: int, period: int, i: int)
    requires IsWindow(source, lo, period) && 0 <= i < period
    ensures Repeated(source, lo, period, i) == source[lo + i]
  {
    DivModUnique(i, period, 0, i);
  }

  lemma PeriodicAppend(source: seq<real>, lo: int, period: int, offset: int, x: seq<real>, y: seq<real>)
    requires IsPeriodic(source, lo, period, offset, x)
    requires IsPeriodic(source, lo, period, (offset + |x|) % period, y)
    ensures IsPeriodic(source, lo, period, offset, x + y)
  {
    hide Repeated;
    forall k | 0 <= k < |x + y| ensures (x + y)[k] == Repeated(source, lo, period, offset + k) {
      if k >= |x| {
        RepeatedShift(source, lo, period, offset + |x|, k - |x|);
      }
    }
  }

  /** A stretch that stays inside one period. */
  lemma PeriodicSegment(source: seq<real>, lo: int, period: int, offset: int, data: seq<real>)
    requires IsWindow(source, lo, period) && 0 <= offset && offset + |data| <= period
    requires data == source[lo + offset..lo + offset + |data|]
    ensures IsPeriodic(source, lo, period, offset, data)
    ensures (offset + |data|) % period == if offset + |data| == period then 0 else offset + |data|
  {
    hide Repeated;
    var n := |data|;
    forall k | 0 <= k < n ensures data[k] == Repeated(source, lo, period, offset + k) {
      RepeatedOnce(source, lo, period, offset + k);
    }
    if offset + n == period {
      DivModUnique(offset + n, period, 1, 0);
    } else {
      DivModUnique(offset + n, period, 0, offset + n);
    }
  }

  // ------------------------------------------------------------------------------------------ loop counts

  predicate InLoop(cf: Config, p: Player) {
    Valid(cf, p) && p.status == PLAYING && p.loopFr.Some?
  }

  predicate Counted(p: Player) {
    |p.cmd| == 1 && p.cmd[0].TerminateAfterNLoops?
  }

  /** Playing in a window or in front of it, without commands or with a loop count. */
  predicate Loops(cf: Config, p: Player) {
    InLoop(cf, p) && (p.cmd == [] || (Counted(p) && p.cmd[0].n >= 0))
  }

  /** At full volume. */
  predicate Looping(cf: Config, p: Player) {
    Loops(cf, p) && p.volume == 1.0
  }

  function WindowOf(cf: Config, p: Player): Window {
    Window(cf, p.From(), End(cf, p))
  }

  function SpotOf(p: Player): Spot {
    Spot(Next(p), p.tick)
  }

  lemma SpotInside(cf: Config, p: Player)
    requires InLoop(cf, p)
    ensures Inside(WindowOf(cf, p), SpotOf(p))
  {
  }

  /** What is left of the count; it goes down when a frame starts in front of the last one. */
  function CountLeft(p: Player): int
    requires Counted(p)
  {
    p.cmd[0].n - (if Next(p) < p.cmd[0].cur then 1 else 0)
  }

  /** Does the count end the playback behind `m` passes, the current one included? */
  predicate EndsBehind(cf: Config, p: Player, m: nat)
    requires InLoop(cf, p) && Counted(p)
  {
    SpotInside(cf, p);
    EndsAfter(WindowOf(cf, p), SpotOf(p), CountLeft(p), m)
  }

  function PassesSize(cf: Config, p: Player, m: nat): int {
    if m == 0 then 0 else Period(cf, p) - Offset(cf, p) + (m - 1) * Period(cf, p)
  }

  /** The samples the decoder still delivers before a loop count ends the playback, if one does. */
  ghost function Budget(cf: Config, p: Player): Option<int>
    requires Loops(cf, p)
  {
    if p.cmd != [] && exists m :: EndsBehind(cf, p, m) then
      var m :| EndsBehind(cf, p, m);
      Some(PassesSize(cf, p, m))
    else None
  }

  lemma BudgetIs(cf: Config, p: Player, m: nat)
    requires Loops(cf, p) && Counted(p) && EndsBehind(cf, p, m)
    ensures Budget(cf, p) == Some(PassesSize(cf, p, m))
  {
    SpotInside(cf, p);
    forall k: nat | EndsBehind(cf, p, k) ensures k == m {
      EndsOnce(WindowOf(cf, p), SpotOf(p), CountLeft(p), m, k);
    }
  }

  lemma NoBudget(cf: Config, p: Player)
    requires Loops(cf, p)
    ensures Budget(cf, p) == None <==> p.cmd == [] || forall m :: !EndsBehind(cf, p, m)
  {
  }

  /** Are there `k` samples? */
  predicate Within(budget: Option<int>, k: int) {
    budget.Some? ==> k <= budget.value
  }

  function Less(budget: Option<int>, k: int): Option<int> {
    if budget.Some? then Some(budget.value - k) else None
  }

  lemma WindowSamples(cf: Config, p: Player)
    requires InLoop(cf, p)
    ensures Next(p) <= Start(p) < End(cf, p) <= cf.length && p.From() <= Start(p)
    ensures 0 <= Offset(cf, p) < Period(cf, p) && 0 <= cf.Samples(p.From()) &&
            cf.Samples(p.From()) + Period(cf, p) <= |cf.source|
  {
    SamplesMonotone(cf, p.From(), Start(p));
    SamplesMonotone(cf, Start(p), End(cf, p));
    SamplesMonotone(cf, End(cf, p), cf.length);
    SamplesMonotone(cf, 0, p.From());
  }

  // ------------------------------------------------------------------------------------------ one frame

  /** How many sample-frames of the next frame lie in front of the end of the window. */
  function Kept(cf: Config, p: Player): int
    requires Valid(cf, p) && p.status == PLAYING
  {
    Min(FrameLength(cf, Rewound(p)), End(cf, p) - Next(p))
  }

  /** The player behind one more frame that is not the last. */
  predicate Advanced(cf: Config, p: Player, q: Player)
    requires Valid(cf, p) && p.status == PLAYING
  {
    var to := Next(p) + Kept(cf, p);
    Valid(cf, q) && q.status == PLAYING && q.loopFr == p.loopFr && q.loopTo == p.loopTo &&
    q.volume == p.volume && q.buffer == p.buffer && q.tick == p.tick + 1 &&
    Next(q) == (if to == End(cf, p) then p.From() else to)
  }

  lemma RunCount(c: Command, f: Frame, status: Status)
    requires c.TerminateAfterNLoops? && c.n >= 0
    ensures var left := c.n - (if f.cur < c.cur then 1 else 0);
            RunCommands([c], f, status) ==
            if left < 0 then Ran([], Frame([], f.cur), TERMINATED)
            else Ran([TerminateAfterNLoops(f.cur, left)], f, status)
  {
    assert [c][1..] == [];
    RunNone(f, status);
  }

  /** The decoder moves through the window frame by frame and goes back to its front at the end, by either way. */
  lemma DecodeAdvances(cf: Config, p: Player)
    requires InLoop(cf, p)
    ensures var (chunk, p1) := Decode(cf, Rewound(p));
            var p2 := if p1.pos == cf.length then OnEndOfPlayback(p1) else p1;
            Advanced(cf, p, p2) && p2.cmd == p.cmd && chunk.cur == Next(p) &&
            0 < Kept(cf, p) <= End(cf, p) - Next(p)
  {
    hide Slice, FrameLength;
    WindowSamples(cf, p);
    DecodeFacts(cf, p);
    EndFacts(cf, Decode(cf, Rewound(p)).1);
  }

  /** The part of the next chunk that lies in the window. */
  lemma ClippedChunk(cf: Config, p: Player, q: Player, f: Frame)
    requires InLoop(cf, p)
    requires q.From() == p.From() && q.To() == p.To() && f == Decode(cf, Rewound(p)).0
    ensures f.data != [] && f.cur == Next(p) && |f.data| % cf.channels == 0
    ensures Next(p) <= Start(p) < End(cf, p) <= cf.length && 0 < Kept(cf, p) <= End(cf, p) - Next(p)
    ensures ClipFrame(cf, q, f).data == Slice(cf, Start(p), ChunkEnd(cf, p))
  {
    hide Slice, ClipFrame, FrameLength;
    WindowSamples(cf, p);
    DecodeFacts(cf, p);
    var r := Rewound(p);
    var n := FrameLength(cf, r);
    ClipKeeps(cf, q, f, n);
    if ChunkEnd(cf, p) > Start(p) {
      SliceOfSlice(cf, r.pos, r.pos + n, Start(p), ChunkEnd(cf, p));
    } else {
      SliceNothing(cf, [], Start(p));
    }
  }

  /** Where the part of the next frame ends that lies in the window. */
  function ChunkEnd(cf: Config, p: Player): int
    requires Valid(cf, p) && p.status == PLAYING
  {
    Max(Start(p), Next(p) + Kept(cf, p))
  }

  lemma SliceOfSlice(cf: Config, a: nat, b: nat, l: nat, m: nat)
    requires cf.Valid() && a <= l <= m <= b <= cf.length
    ensures cf.Samples(l - a) <= cf.Samples(m - a) <= |Slice(cf, a, b)|
    ensures Slice(cf, l, m) == Slice(cf, a, b)[cf.Samples(l - a)..cf.Samples(m - a)]
  {
    SamplesMonotone(cf, m, b);
    SamplesMonotone(cf, l, m);
    SamplesMonotone(cf, a, l);
    SamplesMonotone(cf, a, m);
    SamplesMonotone(cf, a, b);
    SamplesMonotone(cf, b, cf.length);
    hide Config.Samples;
    Inner(cf.source, cf.Samples(a), cf.Samples(l), cf.Samples(m), cf.Samples(b));
  }

  lemma Inner<T>(s: seq<T>, i: nat, h: nat, j: nat, k: nat)
    requires i <= h <= j <= k <= |s|
    ensures s[i..k][h - i..j - i] == s[h..j]
  {
    var inner := s[i..k][h - i..j - i];
    forall t | 0 <= t < j - h ensures inner[t] == s[h..j][t] {
      assert inner[t] == s[i..k][h - i + t] == s[h + t];
    }
  }

  /** One frame of a looping player. */
  lemma LoopStep(cf: Config, p: Player)
    requires Loops(cf, p)
    ensures var (f, q) := LoadNext(cf, p);
            if Counted(p) && CountLeft(p) < 0 then f.data == [] && q.status == TERMINATED && Valid(cf, q)
            else
              Advanced(cf, p, q) && f == Decode(cf, Rewound(p)).0 &&
              q.cmd == if p.cmd == [] then [] else [TerminateAfterNLoops(Next(p), CountLeft(p))]
  {
    hide Slice, ClipFrame, FrameLength, RunCommands, Advanced;
    DecodeFacts(cf, p);
    DecodeAdvances(cf, p);
    LoadNextProgress(cf, p);
    var (chunk, p1) := Decode(cf, Rewound(p));
    var p2 := if p1.pos == cf.length then OnEndOfPlayback(p1) else p1;
    if p.cmd == [] {
      RunNone(chunk, p2.status);
    } else {
      assert p.cmd == [p.cmd[0]];
      RunCount(p.cmd[0], chunk, p2.status);
    }
    AdvancedIgnoresCommands(cf, p, p2);
  }

  lemma AdvancedIgnoresCommands(cf: Config, p: Player, q: Player)
    requires Valid(cf, p) && p.status == PLAYING && Advanced(cf, p, q)
    ensures q.status == PLAYING && forall cmd :: Advanced(cf, p, q.(cmd := cmd))
  {
  }

  // ------------------------------------------------------------------------------------------ frames as stream

  /** `q` plays in the window of `p`. */
  predicate SameWindow(cf: Config, p: Player, q: Player) {
    q.From() == p.From() && End(cf, q) == End(cf, p)
  }

  predicate Continues(cf: Config, p: Player, data: seq<real>) {
    IsPeriodic(cf.source, cf.Samples(p.From()), Period(cf, p), Offset(cf, p), data)
  }

  /** `data` is what the stream of `p` brings, and `q` is where it goes on. */
  ghost predicate Streams(cf: Config, p: Player, data: seq<real>, q: Player) {
    Loops(cf, p) && Continues(cf, p, data) && Loops(cf, q) && SameWindow(cf, p, q) && q.buffer == p.buffer &&
    q.volume == p.volume &&
    Offset(cf, q) == (Offset(cf, p) + |data|) % Period(cf, p) &&
    (p.cmd == [] <==> q.cmd == []) && Budget(cf, q) == Less(Budget(cf, p), |data|)
  }

  lemma ChunkContinues(cf: Config, p: Player, data: seq<real>)
    requires InLoop(cf, p)
    requires 0 < Kept(cf, p) <= End(cf, p) - Next(p) && End(cf, p) <= cf.length
    requires Next(p) <= Start(p) < End(cf, p) && data == Slice(cf, Start(p), ChunkEnd(cf, p))
    ensures Continues(cf, p, data)
    ensures var to := ChunkEnd(cf, p);
            var next := if to == End(cf, p) then p.From() else to;
            0 <= cf.Samples(next) - cf.Samples(p.From()) == (Offset(cf, p) + |data|) % Period(cf, p) &&
            Offset(cf, p) + |data| == cf.Samples(to) - cf.Samples(p.From()) &&
            (to == End(cf, p) ==> Offset(cf, p) + |data| == Period(cf, p)) &&
            (to < End(cf, p) ==> Offset(cf, p) + |data| < Period(cf, p))
  {
    WindowSamples(cf, p);
    var to := ChunkEnd(cf, p);
    SamplesMonotone(cf, Start(p), to);
    SamplesMonotone(cf, to, End(cf, p));
    SamplesMonotone(cf, p.From(), to);
    PeriodicSegment(cf.source, cf.Samples(p.From()), Period(cf, p), Offset(cf, p), data);
  }

  lemma KeptIsTaken(cf: Config, p: Player)
    requires InLoop(cf, p)
    ensures Inside(WindowOf(cf, p), SpotOf(p)) && Kept(cf, p) == Taken(WindowOf(cf, p), SpotOf(p))
  {
  }

  /** One frame of a counting player takes its samples off the budget. */
  lemma CountGoesDown(cf: Config, p: Player, q: Player, size: nat)
    requires Loops(cf, p) && Loops(cf, q) && Counted(p) && CountLeft(p) >= 0
    requires SameWindow(cf, p, q) && Advanced(cf, p, q)
    requires q.cmd == [TerminateAfterNLoops(Next(p), CountLeft(p))]
    requires var to := Next(p) + Kept(cf, p);
             if to == End(cf, p) then Offset(cf, p) + size == Period(cf, p) && Offset(cf, q) == 0
             else Offset(cf, q) == Offset(cf, p) + size
    ensures Budget(cf, q) == Less(Budget(cf, p), size)
  {
    hide FrameLength, Budget, Kept;
    var (w, s) := (WindowOf(cf, p), SpotOf(p));
    KeptIsTaken(cf, p);
    assert WindowOf(cf, q) == w && SpotOf(q) == Step(w, s);
    var wraps := s.next + Taken(w, s) == w.end;
    assert CountLeft(q) == if wraps && s.next > w.lo then CountLeft(p) - 1 else CountLeft(p);
    forall m: nat ensures EndsBehind(cf, q, m) <==> EndsBehind(cf, p, if wraps then m + 1 else m) {
      StepEnds(w, s, CountLeft(p), m);
    }
    BudgetsFit(cf, p, q, wraps, size);
  }

  lemma BudgetsFit(cf: Config, p: Player, q: Player, wraps: bool, size: nat)
    requires Loops(cf, p) && Loops(cf, q) && Counted(p) && Counted(q) && CountLeft(p) >= 0 && SameWindow(cf, p, q)
    requires forall m: nat :: EndsBehind(cf, q, m) <==> EndsBehind(cf, p, if wraps then m + 1 else m)
    requires if wraps then Offset(cf, p) + size == Period(cf, p) && Offset(cf, q) == 0
             else Offset(cf, q) == Offset(cf, p) + size
    ensures Budget(cf, q) == Less(Budget(cf, p), size)
  {
    hide Budget, Offset;
    NoBudget(cf, p);
    NoBudget(cf, q);
    assert !EndsBehind(cf, p, 0);
    hide EndsBehind;
    if m: nat :| EndsBehind(cf, p, m) {
      assert m > 0;
      var k: nat := if wraps then m - 1 else m;
      assert EndsBehind(cf, q, k);
      BudgetIs(cf, p, m);
      BudgetIs(cf, q, k);
      PassOff(Period(cf, p), m);
    } else {
      forall k: nat ensures !EndsBehind(cf, q, k) {
      }
    }
  }

  lemma PassOff(period: int, m: nat)
    ensures m > 1 ==> (m - 1) * period == period + (m - 2) * period
  {
  }

  lemma FrameStreams(cf: Config, p: Player)
    requires Loops(cf, p) && (Counted(p) ==> CountLeft(p) >= 0)
    ensures var (f, q) := LoadNext(cf, p);
            f.data != [] && f.cur >= 0 && |f.data| % cf.channels == 0 && cf.channels > 0 && q.From() < q.To() &&
            Streams(cf, p, ClipFrame(cf, q, f).data, q) &&
            (Next(p) >= p.From() ==> ClipFrame(cf, q, f).data != [])
  {
    hide Slice, ClipFrame, FrameLength, LoadNext, Decode, Kept, IsPeriodic, Budget, Offset, Config.Samples, Advanced;
    var (f, q) := LoadNext(cf, p);
    LoopStep(cf, p);
    assert q.From() == p.From() && q.To() == p.To() by { LoadNextProgress(cf, p); }
    ClippedChunk(cf, p, q, f);
    AdvancedTo(cf, p, q);
    var data := ClipFrame(cf, q, f).data;
    ChunkContinues(cf, p, data);
    ChunkNotEmpty(cf, p);
    if Counted(p) {
      CountGoesDown(cf, p, q, |data|);
    } else {
      NoBudget(cf, p);
      NoBudget(cf, q);
    }
  }

  lemma ChunkNotEmpty(cf: Config, p: Player)
    requires InLoop(cf, p) && 0 < Kept(cf, p) <= End(cf, p) - Next(p) && End(cf, p) <= cf.length
    ensures Start(p) <= ChunkEnd(cf, p) <= cf.length
    ensures Next(p) >= p.From() ==> Slice(cf, Start(p), ChunkEnd(cf, p)) != []
  {
    hide Kept;
    if Next(p) >= p.From() {
      SamplesMonotone(cf, 0, Kept(cf, p));
    }
  }

  /** Where the player goes on. */
  lemma AdvancedTo(cf: Config, p: Player, q: Player)
    requires InLoop(cf, p) && Advanced(cf, p, q) && 0 < Kept(cf, p) <= End(cf, p) - Next(p)
    ensures InLoop(cf, q) && SameWindow(cf, p, q) && q.buffer == p.buffer && q.volume == p.volume &&
            q.From() == p.From() && q.To() == p.To() && q.From() < q.To()
    ensures Offset(cf, q) ==
            if ChunkEnd(cf, p) == End(cf, p) then 0 else cf.Samples(ChunkEnd(cf, p)) - cf.Samples(p.From())
    ensures ChunkEnd(cf, p) == End(cf, p) <==> Next(p) + Kept(cf, p) == End(cf, p)
  {
    hide Kept, Config.Samples;
    assert q.From() == p.From() && q.To() == p.To();
    var to := Next(p) + Kept(cf, p);
    assert Next(q) == if to == End(cf, p) then p.From() else to;
    assert Start(q) == if ChunkEnd(cf, p) == End(cf, p) then p.From() else ChunkEnd(cf, p);
  }
}
