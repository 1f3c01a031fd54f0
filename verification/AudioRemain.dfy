/** LoadRemain inside a loop window. */
module AudioRemain {
  import opened Bytes
  import opened Numbers
  import opened Audio
  import opened AudioSplit
  import opened AudioLoop
  import opened AudioLoopRuns

  // ------------------------------------------------------------------------------------------ does it return?

  /** The next frame of a looping player brings samples of the window, or the decoder nearer to it. */
  lemma FrameInLoop(cf: Config, p: Player)
    requires Loops(cf, p)
    ensures var (f, q) := LoadNext(cf, p);
            if Counted(p) && CountLeft(p) < 0 then f.data == []
            else
              f.data != [] && f.cur == Next(p) && Loops(cf, q) && q.From() == p.From() &&
              (Next(q) == p.From() || Next(q) > Next(p)) &&
              (Budget(cf, p) == None ==> Budget(cf, q) == None) &&
              (Budget(cf, p).Some? ==>
                 Budget(cf, q).Some? && Budget(cf, q).value + Ahead(q) < Budget(cf, p).value + Ahead(p))
  {
    hide LoadNext, ClipFrame, Slice, Budget, IsPeriodic;
    LoopStep(cf, p);
    WindowSamples(cf, p);
    LoadNextProgress(cf, p);
    if !(Counted(p) && CountLeft(p) < 0) {
      FrameStreams(cf, p);
      var (f, q) := LoadNext(cf, p);
      ClippedChunk(cf, p, q, f);
    }
  }

  /** Where the loop began at the front of the window or before it, and no frame starts in front of that: every round
      goes on, if no loop count ends the playback. */
  lemma {:induction false} GoesOnForEver(cf: Config, p: Player, from: int, k: nat)
    requires Loops(cf, p) && Budget(cf, p) == None && from <= p.From() && from <= Next(p)
    ensures GoesOn(cf, p, from, k)
    decreases k
  {
    hide LoadNext, Budget;
    if k > 0 {
      FrameInLoop(cf, p);
      if Counted(p) && CountLeft(p) < 0 {
        SpotInside(cf, p);
        BudgetIs(cf, p, 0);
      }
      GoesOnForEver(cf, LoadNext(cf, p).1, from, k - 1);
    }
  }

  /** A loop count does, behind as many rounds as there are samples, and some on the way to the window. */
  lemma {:induction false} CountEndsRounds(cf: Config, p: Player, from: int, k: nat)
    requires Loops(cf, p) && Budget(cf, p).Some? && GoesOn(cf, p, from, k)
    ensures k <= Budget(cf, p).value + Ahead(p)
    decreases k
  {
    hide LoadNext, Budget;
    BudgetNotNegative(cf, p);
    if k > 0 {
      FrameInLoop(cf, p);
      CountEndsRounds(cf, LoadNext(cf, p).1, from, k - 1);
    }
  }

  /** In a window or in front of it, with a buffer or without, at any volume: LoadRemain returns if and only if the
      player is behind the front, or the next frame starts in front of where it is, or a loop count ends it. */
  lemma RemainReturns(cf: Config, p: Player)
    requires Loops(cf, p)
    ensures Valid(cf, p.(buffer := None))
    ensures Returns(cf, p.(buffer := None), p.Location()) <==>
            p.Location() > p.From() || Next(p) < p.Location() || Budget(cf, p).Some?
  {
    hide Budget, GoesOn;
    var (p0, from) := (p.(buffer := None), p.Location());
    WithoutBuffer(cf, p);
    LoopWindow(cf, p0);
    if from > p.From() {
      DrainableReturns(cf, p0, from);
    } else if Next(p) < from {
      AtOnce(cf, p0, from);
    } else if Budget(cf, p).Some? {
      var k: nat := Max(Budget(cf, p).value + Ahead(p) + 1, 0);
      if GoesOn(cf, p0, from, k) {
        CountEndsRounds(cf, p0, from, k);
      }
    } else {
      forall k: nat ensures GoesOn(cf, p0, from, k) {
        GoesOnForEver(cf, p0, from, k);
      }
    }
  }

  lemma AtOnce(cf: Config, p: Player, from: int)
    requires Loops(cf, p) && Next(p) < from
    ensures !GoesOn(cf, p, from, 1)
  {
    hide LoadNext;
    FrameInLoop(cf, p);
  }

  // ------------------------------------------------------------------------------------------ what it brings

  /** Where the frame starts that ends the loop: the next one, if that is in front of where the loop began, else the
      first of the next pass. */
  function KeptFrom(p: Player, from: int): nat {
    if from <= Next(p) then p.From() else Next(p)
  }

  /** That frame, `n` sample-frames long, is kept as it came, and the decoder stands behind it. */
  predicate KeptFrame(cf: Config, p: Player, q: Player, at: nat, n: nat) {
    cf.Valid() && 1 <= n <= cf.length - at && q.buffer == Some(Frame(Slice(cf, at, at + n), at)) &&
    Loops(cf, q) && q.cmd == [] && q.volume == p.volume && SameWindow(cf, p, q) &&
    Next(q) == if at + n >= End(cf, p) then p.From() else at + n
  }

  /** What the decoder would return at its `tick`-th call. */
  predicate IsFrameLength(cf: Config, at: nat, tick: nat, n: nat) {
    at < cf.length && n == Max(1, Min(cf.frameLen(tick, at), cf.length - at))
  }

  lemma KeptHere(cf: Config, p: Player) returns (n: nat, tick: nat)
    requires Loops(cf, p) && p.cmd == []
    ensures var (f, q) := LoadNext(cf, p);
            KeptFrame(cf, p, q.(buffer := Some(f)), Next(p), n) && IsFrameLength(cf, Next(p), tick, n) && f.data != []
  {
    hide LoadNext, Slice, Config.Samples;
    LoopStep(cf, p);
    WindowSamples(cf, p);
    DecodeFacts(cf, p);
    n, tick := FrameLength(cf, Rewound(p)), p.tick;
  }

  lemma {:induction false} DrainPass(cf: Config, p: Player, acc: seq<real>, from: int, k: nat)
    returns (n: nat, tick: nat)
    requires Loops(cf, p) && p.cmd == [] && (p.From() < from || Next(p) < from) && !GoesOn(cf, p, from, k)
    ensures Next(p) < End(cf, p) <= cf.length
    ensures var (data, q) := Drain(cf, p, acc, from, k);
            data == acc + (if from <= Next(p) then Slice(cf, Next(p), End(cf, p)) else []) &&
            KeptFrame(cf, p, q, KeptFrom(p, from), n) && IsFrameLength(cf, KeptFrom(p, from), tick, n)
    decreases k
  {
    hide LoadNext, ClipFrame, Slice, KeptFrame;
    WindowSamples(cf, p);
    LoopStep(cf, p);
    var (f, q) := LoadNext(cf, p);
    ClippedChunk(cf, p, q, f);
    if Next(p) < from {
      n, tick := KeptHere(cf, p);
      assert acc + [] == acc;
    } else {
      var to := Next(p) + Kept(cf, p);
      LoadNextProgress(cf, p);
      n, tick := DrainPass(cf, q, acc + ClipFrame(cf, q, f).data, from, k - 1);
      KeptInSameWindow(cf, p, q, Drain(cf, p, acc, from, k).1, KeptFrom(q, from), n);
      if to == End(cf, p) {
        assert acc + Slice(cf, Next(p), to) + [] == acc + Slice(cf, Next(p), to);
      } else {
        SliceAppend(cf, acc, Next(p), to, End(cf, p));
      }
    }
  }

  lemma KeptInSameWindow(cf: Config, p: Player, q: Player, r: Player, at: nat, n: nat)
    requires SameWindow(cf, p, q) && q.volume == p.volume && KeptFrame(cf, q, r, at, n)
    ensures KeptFrame(cf, p, r, at, n)
  {
  }

  /** Without commands, wherever it returns: LoadRemain emits the buffer and what is left of the pass, nothing if the
      next frame starts in front of the buffer; it keeps one frame, which is not scaled. */
  lemma RemainOfPass(cf: Config, p: Player) returns (n: nat, tick: nat)
    requires Loops(cf, p) && p.cmd == [] && (p.From() < p.Location() || Next(p) < p.Location())
    ensures Valid(cf, p.(buffer := None)) && Returns(cf, p.(buffer := None), p.Location())
    ensures Next(p) < End(cf, p) <= cf.length
    ensures var (data, q) := LoadRemain(cf, p);
            var rest := if p.Location() <= Next(p) then Slice(cf, Next(p), End(cf, p)) else [];
            data == Scale(p.Leftover() + rest, p.volume) &&
            KeptFrame(cf, p, q, KeptFrom(p, p.Location()), n) && IsFrameLength(cf, KeptFrom(p, p.Location()), tick, n)
  {
    hide Drain, Slice, GoesOn, DrainMeasure, KeptFrame;
    var (p0, from) := (p.(buffer := None), p.Location());
    WithoutBuffer(cf, p);
    LoopWindow(cf, p0);
    var k := 1;
    if p.From() < from {
      DrainableReturns(cf, p0, from);
      k := DrainMeasure(cf, p0, from) + 1;
    } else {
      AtOnce(cf, p0, from);
    }
    n, tick := DrainPass(cf, p0, p.Leftover(), from, k);
    KeptInSameWindow(cf, p, p0, Drain(cf, p0, p.Leftover(), from, k).1, KeptFrom(p, from), n);
    RemainIs(cf, p, k);
  }

  // ------------------------------------------------------------------------------------------ what is heard then

  /** Which sample of the material is heard when, behind a kept frame: those of the frame, whether or not they lie in
      the window, then the window from there on. */
  function HeardAt(cf: Config, p: Player, at: nat, n: nat, k: nat): int
    requires Period(cf, p) > 0
  {
    var lo := cf.Samples(p.From());
    if k < cf.Samples(n) then cf.Samples(at) + k
    else
      var next := if at + n >= End(cf, p) then p.From() else Max(p.From(), at + n);
      lo + (cf.Samples(next) - lo + (k - cf.Samples(n))) % Period(cf, p)
  }

  /** Where the stream goes on behind a kept frame. */
  lemma KeptState(cf: Config, p: Player, q: Player, at: nat, n: nat)
    requires KeptFrame(cf, p, q, at, n) && p.volume == 1.0
    ensures at + n <= cf.length && Looping(cf, q) && q.cmd == [] && q.Leftover() == Slice(cf, at, at + n)
    ensures q.From() == p.From() && Period(cf, q) == Period(cf, p)
    ensures var next := if at + n >= End(cf, p) then p.From() else Max(p.From(), at + n);
            Offset(cf, q) == cf.Samples(next) - cf.Samples(p.From())
  {
    hide Config.Samples, Slice;
  }

  lemma KeptExpected(cf: Config, p: Player, q: Player, at: nat, n: nat, k: nat)
    requires KeptFrame(cf, p, q, at, n) && p.volume == 1.0
    ensures Period(cf, p) > 0 && 0 <= HeardAt(cf, p, at, n, k) < |cf.source|
    ensures LoopState(cf, q) && Expected(cf, q, k) == cf.source[HeardAt(cf, p, at, n, k)]
  {
    KeptState(cf, p, q, at, n);
    assert LoopState(cf, q);
    hide Budget, Looping, Slice, Config.Samples, KeptFrame, Offset, Period, Expected;
    AtAnyVolume(cf, q);
    LoopWindow(cf, q);
    NoBudget(cf, q);
    KeptSamples(cf, at, n);
    ExpectedInLoop(cf, q);
  }

  predicate KeptSamplesAre(cf: Config, at: nat, n: nat)
    requires cf.Valid() && at + n <= cf.length
  {
    var frame := Slice(cf, at, at + n);
    cf.Samples(at) + |frame| <= |cf.source| &&
    forall k :: 0 <= k < |frame| ==> frame[k] == cf.source[cf.Samples(at) + k]
  }

  lemma KeptSamples(cf: Config, at: nat, n: nat)
    requires cf.Valid() && at + n <= cf.length
    ensures |Slice(cf, at, at + n)| == cf.Samples(n) && KeptSamplesAre(cf, at, n)
  {
    SamplesMonotone(cf, at, at + n);
    SamplesMonotone(cf, at + n, cf.length);
    SamplesMonotone(cf, 0, at);
  }

  /** Is everything that is heard in the window? */
  ghost predicate HeardInWindow(cf: Config, p: Player, at: nat, n: nat)
    requires Period(cf, p) > 0
  {
    forall k: nat :: cf.Samples(p.From()) <= HeardAt(cf, p, at, n, k) < cf.Samples(End(cf, p))
  }

  /** If and only if the kept frame is. */
  lemma KeptInWindow(cf: Config, p: Player, at: nat, n: nat)
    requires Loops(cf, p) && at < End(cf, p) && 1 <= n <= cf.length - at
    ensures Period(cf, p) > 0
    ensures HeardInWindow(cf, p, at, n) <==> p.From() <= at && at + n <= End(cf, p)
  {
    LoopWindow(cf, p);
    SamplesAdd(cf, at, n);
    SamplesMonotone(cf, 0, n);
    if at < p.From() {
      SamplesMonotone(cf, at, p.From());
      assert HeardAt(cf, p, at, n, 0) == cf.Samples(at);
    } else if at + n <= End(cf, p) {
      SamplesMonotone(cf, p.From(), at);
      SamplesMonotone(cf, at + n, End(cf, p));
    } else {
      SamplesMonotone(cf, at, End(cf, p));
      SamplesMonotone(cf, End(cf, p), at + n);
      var k: nat := cf.Samples(End(cf, p)) - cf.Samples(at);
      assert HeardAt(cf, p, at, n, k) == cf.Samples(End(cf, p));
    }
  }

  /** Whatever is asked for behind LoadRemain: the kept frame is heard whole, no request clips it, and then the window
      from there on. Nothing from outside the window is heard if and only if the frame lies in it. */
  lemma RemainThenRun(cf: Config, p: Player, requests: seq<positive>) returns (n: nat, tick: nat)
    requires Looping(cf, p) && p.cmd == [] && (p.From() < p.Location() || Next(p) < p.Location())
    ensures Valid(cf, p.(buffer := None)) && Returns(cf, p.(buffer := None), p.Location())
    ensures var at := KeptFrom(p, p.Location());
            var q := LoadRemain(cf, p).1;
            Period(cf, p) > 0 && IsFrameLength(cf, at, tick, n) && Valid(cf, q) &&
            (forall k :: 0 <= k < Total(requests) ==>
               0 <= HeardAt(cf, p, at, n, k) < |cf.source| &&
               Play(cf, q, requests).0[k] == cf.source[HeardAt(cf, p, at, n, k)]) &&
            (HeardInWindow(cf, p, at, n) <==> p.From() <= at && at + n <= End(cf, p))
  {
    hide LoadRemain, Play, Expected, KeptFrame, HeardAt, Returns, HeardInWindow;
    n, tick := RemainOfPass(cf, p);
    var at := KeptFrom(p, p.Location());
    var q := LoadRemain(cf, p).1;
    LoopWindow(cf, p);
    KeptExpected(cf, p, q, at, n, 0);
    StateFacts(cf, q);
    RunEmitsExpected(cf, q, requests);
    forall k | 0 <= k < Total(requests)
      ensures 0 <= HeardAt(cf, p, at, n, k) < |cf.source| &&
              Play(cf, q, requests).0[k] == cf.source[HeardAt(cf, p, at, n, k)]
    {
      KeptExpected(cf, p, q, at, n, k);
    }
    assert at < End(cf, p) && n <= cf.length - at by { KeptBounds(cf, p, q, at, n); }
    KeptInWindow(cf, p, at, n);
  }

  lemma KeptBounds(cf: Config, p: Player, q: Player, at: nat, n: nat)
    requires KeptFrame(cf, p, q, at, n)
    ensures 1 <= n <= cf.length - at
  {
  }

  /** Such a frame: the window is the first two of four samples, the decoder returns three. */
  lemma KeptFrameIsNotClipped(cf: Config, p: Player)
    requires cf.Valid() && cf.channels == 1 && cf.length == 4 && cf.source == [0.0, 1.0, 2.0, 3.0]
    requires forall t, pos :: cf.frameLen(t, pos) == 3
    requires p == Player(1, 0, Some(0), Some(2), PLAYING, 1.0, None, [])
    ensures Valid(cf, p) && Returns(cf, p, 1) && LoadRemain(cf, p).0 == [1.0]
    ensures var q := LoadRemain(cf, p).1;
            Valid(cf, q) && LoadPCM(cf, q, 3).0 == [0.0, 1.0, 2.0]
  {
    hide LoadRemain, Returns;
    var n, tick := RemainOfPass(cf, p);
    var q := LoadRemain(cf, p).1;
    assert q.Leftover() == [0.0, 1.0, 2.0];
    assert Pull(cf, q.(buffer := None), q.Leftover(), 3, q.pos).data == q.Leftover();
    ScaleByOne(q.Leftover());
  }
}
