/** Whole runs of requests against a looping player. */
module AudioLoopRuns {
  import opened Bytes
  import opened Numbers
  import opened Audio
  import opened AudioSplit
  import opened AudioLoop

  // ------------------------------------------------------------------------------------------ one request

  lemma StreamsNothing(cf: Config, p: Player)
    requires Loops(cf, p)
    ensures Streams(cf, p, [], p)
  {
    WindowSamples(cf, p);
    DivModUnique(Offset(cf, p), Period(cf, p), 0, Offset(cf, p));
  }

  lemma StreamsAppend(cf: Config, p: Player, x: seq<real>, q: Player, y: seq<real>, r: Player)
    requires Streams(cf, p, x, q) && Streams(cf, q, y, r)
    ensures Streams(cf, p, x + y, r)
  {
    hide Budget, IsPeriodic;
    PeriodicAppend(cf.source, cf.Samples(p.From()), Period(cf, p), Offset(cf, p), x, y);
    PeriodPositive(cf, p, x);
    ModAdd(Offset(cf, p) + |x|, |y|, Period(cf, p));
  }

  lemma PeriodPositive(cf: Config, p: Player, x: seq<real>)
    requires Continues(cf, p, x)
    ensures Period(cf, p) > 0
  {
  }

  /** A loop count that is used up: the stream of `p` ends with `data`. */
  ghost predicate EndsWith(cf: Config, p: Player, data: seq<real>) {
    Loops(cf, p) && Continues(cf, p, data) && Budget(cf, p) == Some(|data|)
  }

  lemma EndsAppend(cf: Config, p: Player, x: seq<real>, q: Player, y: seq<real>)
    requires Streams(cf, p, x, q) && EndsWith(cf, q, y)
    ensures EndsWith(cf, p, x + y)
  {
    hide Budget, IsPeriodic;
    PeriodicAppend(cf.source, cf.Samples(p.From()), Period(cf, p), Offset(cf, p), x, y);
  }

  lemma EndsWithNothing(cf: Config, p: Player)
    requires Loops(cf, p) && Counted(p) && CountLeft(p) < 0
    ensures EndsWith(cf, p, [])
  {
    SpotInside(cf, p);
    BudgetIs(cf, p, 0);
    WindowSamples(cf, p);
  }

  /** The loop of LoadPCM appends to what it has the stream of the player, as much as is asked for, or all that a loop
      count leaves. */
  lemma {:induction false} PullStreams(cf: Config, p: Player, acc: seq<real>, n: nat, cur: int) returns (x: seq<real>)
    requires Loops(cf, p)
    ensures var r := Pull(cf, p, acc, n, cur);
            r.data == acc + x && r.player.buffer == p.buffer && r.player.volume == p.volume &&
            if r.player.status == PLAYING then Streams(cf, p, x, r.player) && |r.data| >= n
            else r.player.status == TERMINATED && Valid(cf, r.player) && EndsWith(cf, p, x) && |r.data| < n
    decreases if |acc| < n then n - |acc| else 0, if p.status == PLAYING then 1 else 0, Ahead(p)
  {
    hide LoadNext, ClipFrame, Streams, EndsWith, CountLeft;
    if |acc| >= n {
      StreamsNothing(cf, p);
      return [];
    }
    LoadNextProgress(cf, p);
    var (f, q) := LoadNext(cf, p);
    if Counted(p) && CountLeft(p) < 0 {
      LoopStep(cf, p);
      EndsWithNothing(cf, p);
      PullStops(cf, q, acc, n, cur);
      return [];
    }
    FrameStreams(cf, p);
    var g := ClipFrame(cf, q, f);
    StreamsLooping(cf, p, g.data, q);
    var y := PullStreams(cf, q, acc + g.data, n, g.cur + |g.data| / cf.channels);
    x := g.data + y;
    assert acc + g.data + y == acc + x;
    if Pull(cf, p, acc, n, cur).player.status == PLAYING {
      StreamsAppend(cf, p, g.data, q, y, Pull(cf, p, acc, n, cur).player);
    } else {
      EndsAppend(cf, p, g.data, q, y);
    }
  }

  lemma StreamsLooping(cf: Config, p: Player, data: seq<real>, q: Player)
    requires Streams(cf, p, data, q)
    ensures Loops(cf, q) && q.buffer == p.buffer && q.volume == p.volume
  {
  }

  // ------------------------------------------------------------------------------------------ what will be heard

  ghost predicate LoopState(cf: Config, p: Player) {
    Looping(cf, p) || (p.status == TERMINATED && Valid(cf, p))
  }

  lemma LoopWindow(cf: Config, p: Player)
    requires Loops(cf, p)
    ensures IsWindow(cf.source, cf.Samples(p.From()), Period(cf, p)) && 0 <= Offset(cf, p) < Period(cf, p)
    ensures (p.cmd == [] || Counted(p)) && p.status == PLAYING && Valid(cf, p) && Loops(cf, p)
  {
    WindowSamples(cf, p);
  }

  /** All samples still to come, the buffer included, if a loop count ends the playback. */
  ghost function ToCome(cf: Config, p: Player): Option<int>
    requires Looping(cf, p)
  {
    Less(Budget(cf, p), -|p.Leftover()|)
  }

  /** The k-th sample from now on: the buffer, then the material of the window over and over, then silence from the
      moment a loop count is used up. */
  ghost function Expected(cf: Config, p: Player, k: nat): real
    requires LoopState(cf, p)
  {
    if p.status != PLAYING then cf.silence
    else if k < |p.Leftover()| then p.Leftover()[k]
    else
      LoopWindow(cf, p);
      if !Within(ToCome(cf, p), k + 1) then cf.silence
      else Repeated(cf.source, cf.Samples(p.From()), Period(cf, p), Offset(cf, p) + (k - |p.Leftover()|))
  }

  lemma BudgetNotNegative(cf: Config, p: Player)
    requires Loops(cf, p)
    ensures Budget(cf, p).Some? ==> Budget(cf, p).value >= 0
  {
    LoopWindow(cf, p);
    NoBudget(cf, p);
    if m: nat :| p.cmd != [] && EndsBehind(cf, p, m) {
      BudgetIs(cf, p, m);
      if m > 0 {
        assert (m - 1) * Period(cf, p) >= 0;
      }
    }
  }

  /** The buffer has no part in what the decoder delivers. */
  lemma WithoutBuffer(cf: Config, p: Player)
    requires Loops(cf, p)
    ensures var q := p.(buffer := None);
            Loops(cf, q) && InLoop(cf, q) && InLoop(cf, p) && SameWindow(cf, p, q) &&
            Offset(cf, q) == Offset(cf, p) && Period(cf, q) == Period(cf, p) && Budget(cf, q) == Budget(cf, p)
  {
    hide Budget;
    var q := p.(buffer := None);
    assert p.cmd != [] ==> forall m: nat :: EndsBehind(cf, q, m) <==> EndsBehind(cf, p, m);
    NoBudget(cf, p);
    NoBudget(cf, q);
    hide EndsBehind;
    if m: nat :| p.cmd != [] && EndsBehind(cf, p, m) {
      BudgetIs(cf, p, m);
      BudgetIs(cf, q, m);
    }
  }

  /** What is to come goes down by what was emitted. */
  lemma ToComeBehind(cf: Config, p: Player, x: seq<real>, q: Player, n: nat)
    requires Looping(cf, p) && Streams(cf, p.(buffer := None), x, q.(buffer := None)) && Looping(cf, q)
    requires n <= |p.Leftover() + x| && q.Leftover() == (p.Leftover() + x)[n..]
    ensures ToCome(cf, q) == Less(ToCome(cf, p), n)
    ensures Within(ToCome(cf, p), |p.Leftover() + x|)
  {
    hide Budget, Looping, IsPeriodic;
    WithoutBuffer(cf, p);
    WithoutBuffer(cf, q);
    BudgetNotNegative(cf, q);
  }

  /** The data of one request, sample by sample, and what is expected behind it. */
  lemma ExpectedFromStream(cf: Config, p: Player, x: seq<real>, q: Player, n: nat, k: nat)
    requires Looping(cf, p) && Streams(cf, p.(buffer := None), x, q.(buffer := None)) && Looping(cf, q)
    requires n <= |p.Leftover() + x| && q.Leftover() == (p.Leftover() + x)[n..]
    ensures k < |p.Leftover() + x| ==> Expected(cf, p, k) == (p.Leftover() + x)[k]
    ensures Expected(cf, q, k) == Expected(cf, p, n + k)
  {
    var data := p.Leftover() + x;
    ExpectedInStream(cf, p, x, q, n, k);
    if n + k < |data| {
      ExpectedInStream(cf, p, x, q, n, n + k);
      assert Expected(cf, q, k) == q.Leftover()[k];
    } else {
      ExpectedBehindStream(cf, p, x, q, n, k);
    }
  }

  lemma ExpectedInStream(cf: Config, p: Player, x: seq<real>, q: Player, n: nat, k: nat)
    requires Looping(cf, p) && Streams(cf, p.(buffer := None), x, q.(buffer := None)) && Looping(cf, q)
    requires n <= |p.Leftover() + x| && q.Leftover() == (p.Leftover() + x)[n..]
    ensures k < |p.Leftover() + x| ==> Expected(cf, p, k) == (p.Leftover() + x)[k]
  {
    hide Repeated, ToCome, Budget, Looping;
    WithoutBuffer(cf, p);
    LoopWindow(cf, p);
    ToComeBehind(cf, p, x, q, n);
  }

  lemma ExpectedBehindStream(cf: Config, p: Player, x: seq<real>, q: Player, n: nat, k: nat)
    requires Looping(cf, p) && Streams(cf, p.(buffer := None), x, q.(buffer := None)) && Looping(cf, q)
    requires n <= |p.Leftover() + x| <= n + k && q.Leftover() == (p.Leftover() + x)[n..]
    ensures Expected(cf, q, k) == Expected(cf, p, n + k)
  {
    hide Repeated, ToCome, Budget, Looping, Offset;
    WithoutBuffer(cf, p);
    WithoutBuffer(cf, q);
    LoopWindow(cf, p);
    LoopWindow(cf, q);
    ToComeBehind(cf, p, x, q, n);
    RepeatedShift(cf.source, cf.Samples(p.From()), Period(cf, p), Offset(cf, p) + |x|, n + k - |p.Leftover() + x|);
  }

  lemma RequestWhilePlaying(cf: Config, p: Player, n: nat)
    requires Looping(cf, p) && n > 0
    ensures var (out, q) := LoadPCM(cf, p, n);
            LoopState(cf, q) &&
            (forall k :: 0 <= k < n ==> out[k] == Expected(cf, p, k)) &&
            (forall k: nat :: Expected(cf, q, k) == Expected(cf, p, n + k)) &&
            (q.status == PLAYING <==> Within(ToCome(cf, p), n)) &&
            (q.status == PLAYING ==> ToCome(cf, q) == Less(ToCome(cf, p), n))
  {
    hide LoadPCM, Pull, Budget, Expected, IsPeriodic, CountLeft;
    var p0 := p.(buffer := None);
    WithoutBuffer(cf, p);
    LoopWindow(cf, p);
    LoadPCMAtFullVolume(cf, p, n);
    var x := PullStreams(cf, p0, p.Leftover(), n, p.pos);
    var r := Pull(cf, p0, p.Leftover(), n, p.pos);
    var (out, q) := LoadPCM(cf, p, n);
    assert r.data == p.Leftover() + x && q.(buffer := None) == r.player;
    if r.player.status == PLAYING {
      StateWithoutBuffer(cf, q);
      BudgetNotNegative(cf, r.player);
      assert q.Leftover() == r.data[n..];
      ToComeBehind(cf, p, x, q, n);
      forall k: nat ensures Expected(cf, q, k) == Expected(cf, p, n + k) && (k < n ==> out[k] == Expected(cf, p, k)) {
        ExpectedFromStream(cf, p, x, q, n, k);
      }
    } else {
      LoadPCMKeepsValid(cf, p, n);
      forall k: nat ensures Expected(cf, q, k) == Expected(cf, p, n + k) && (k < n ==> out[k] == Expected(cf, p, k)) {
        ExpectedAtTheEnd(cf, p, x, n, k);
        ExpectedAtTheEnd(cf, p, x, n, n + k);
        ExpectedTerminated(cf, q, k);
      }
    }
  }

  lemma StateWithoutBuffer(cf: Config, q: Player)
    requires Looping(cf, q.(buffer := None))
    ensures Looping(cf, q)
  {
  }

  lemma ExpectedAtTheEnd(cf: Config, p: Player, x: seq<real>, n: nat, k: nat)
    requires Looping(cf, p) && EndsWith(cf, p.(buffer := None), x) && |p.Leftover() + x| < n
    ensures !Within(ToCome(cf, p), n)
    ensures Expected(cf, p, k) == if k < |p.Leftover() + x| then (p.Leftover() + x)[k] else cf.silence
  {
    hide Repeated, CountLeft, Budget;
    WithoutBuffer(cf, p);
    hide Looping;
  }

  lemma ExpectedTerminated(cf: Config, q: Player, k: nat)
    requires q.status == TERMINATED && Valid(cf, q)
    ensures LoopState(cf, q) && Expected(cf, q, k) == cf.silence
  {
  }

  // ------------------------------------------------------------------------------------------ runs

  /** Whatever the requests and the frame sizes, a run emits the expected samples in order. */
  lemma {:induction false} RunEmitsExpected(cf: Config, p: Player, requests: seq<positive>)
    requires LoopState(cf, p)
    ensures var (out, q) := Play(cf, p, requests);
            LoopState(cf, q) &&
            (forall k :: 0 <= k < |out| ==> out[k] == Expected(cf, p, k)) &&
            (q.status == PLAYING <==> p.status == PLAYING && Within(ToCome(cf, p), |out|))
    decreases |requests|
  {
    hide LoadPCM, Expected, Budget, Looping;
    if requests == [] {
      StateFacts(cf, p);
    } else {
      var n := requests[0];
      RequestExpected(cf, p, n);
      var (first, q) := LoadPCM(cf, p, n);
      StateFacts(cf, q);
      RunEmitsExpected(cf, q, requests[1..]);
      var (rest, _) := Play(cf, q, requests[1..]);
      forall k | n <= k < n + |rest| ensures (first + rest)[k] == Expected(cf, p, k) {
        assert rest[k - n] == Expected(cf, q, k - n);
        assert Expected(cf, q, k - n) == Expected(cf, p, n + (k - n));
      }
    }
  }

  lemma StateFacts(cf: Config, p: Player)
    requires LoopState(cf, p)
    ensures p.status == PLAYING ==> Looping(cf, p) && Within(ToCome(cf, p), 0)
    ensures (p.status != PLAYING ==> p.status == TERMINATED) && Valid(cf, p)
  {
    if Looping(cf, p) { BudgetNotNegative(cf, p); }
  }

  lemma RequestExpected(cf: Config, p: Player, n: nat)
    requires LoopState(cf, p) && n > 0
    ensures Valid(cf, p)
    ensures var (out, q) := LoadPCM(cf, p, n);
            LoopState(cf, q) &&
            (forall k :: 0 <= k < n ==> out[k] == Expected(cf, p, k)) &&
            (forall k: nat :: Expected(cf, q, k) == Expected(cf, p, n + k)) &&
            (q.status == PLAYING <==> p.status == PLAYING && Looping(cf, p) && Within(ToCome(cf, p), n)) &&
            (q.status == PLAYING ==> Looping(cf, q) && ToCome(cf, q) == Less(ToCome(cf, p), n))
  {
    if p.status == PLAYING {
      RequestWhilePlaying(cf, p, n);
    }
  }

  /** A loop without a count: behind what is buffered, all output is the periodic stream of the window, from where the
      decoder stands in it or from its front, for every sequence of requests and of frame sizes, and it never ends. */
  lemma PeriodicPlayback(cf: Config, p: Player, requests: seq<positive>)
    requires Looping(cf, p) && p.cmd == []
    ensures var (lo, hi) := (cf.Samples(p.From()), cf.Samples(End(cf, p)));
            var start := if p.From() <= p.pos < p.To() then cf.Samples(p.pos) else lo;
            var (out, q) := Play(cf, p, requests);
            var left := p.Leftover();
            0 <= lo < hi <= |cf.source| && q.status == PLAYING && |out| == Total(requests) &&
            forall k :: 0 <= k < |out| ==>
              out[k] == if k < |left| then left[k] else cf.source[lo + (start - lo + (k - |left|)) % (hi - lo)]
  {
    hide Play, Looping, Expected, ToCome, Budget, Offset, Period, End, Config.Samples;
    AtAnyVolume(cf, p);
    LoopWindow(cf, p);
    StartIs(cf, p);
    NoBudget(cf, p);
    RunEmitsExpected(cf, p, requests);
    ExpectedInLoop(cf, p);
  }

  lemma StartIs(cf: Config, p: Player)
    requires Loops(cf, p)
    ensures Period(cf, p) == cf.Samples(End(cf, p)) - cf.Samples(p.From())
    ensures Offset(cf, p) == if p.From() <= p.pos < p.To() then cf.Samples(p.pos) - cf.Samples(p.From()) else 0
  {
    hide Config.Samples;
  }

  lemma AtAnyVolume(cf: Config, p: Player)
    requires Looping(cf, p)
    ensures Loops(cf, p)
  {
  }

  lemma ExpectedInLoop(cf: Config, p: Player)
    requires Looping(cf, p)
    ensures IsWindow(cf.source, cf.Samples(p.From()), Period(cf, p))
    ensures p.Leftover() == [] ==> ToCome(cf, p) == Budget(cf, p)
    ensures Budget(cf, p) == None ==> ToCome(cf, p) == None
    ensures forall k: nat :: Expected(cf, p, k) ==
              if k < |p.Leftover()| then p.Leftover()[k]
              else if !Within(ToCome(cf, p), k + 1) then cf.silence
              else Repeated(cf.source, cf.Samples(p.From()), Period(cf, p), Offset(cf, p) + (k - |p.Leftover()|))
  {
    hide Budget;
    LoopWindow(cf, p);
  }
}
