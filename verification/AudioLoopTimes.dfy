/** SetLoopTimes: what is played, and when the playback ends. */
module AudioLoopTimes {
  import opened Bytes
  import opened Numbers
  import opened Audio
  import opened AudioSplit
  import opened AudioPasses
  import opened AudioLoop
  import opened AudioLoopRuns

  /** What SetLoopTimes finds: playing, in a window or without one. */
  predicate ReadyToLoop(cf: Config, p: Player) {
    Valid(cf, p) && p.status == PLAYING && WithoutLoopCounts(p.cmd) == []
  }

  /** Is there anything of the current pass that is not decoded yet? */
  predicate MidPass(p: Player) {
    Next(p) != p.From() || p.Location() <= p.From()
  }

  /** Does the next frame start in front of what is buffered, but not at the front of the window? The count takes that
      for a new pass. It needs a window that was set when the decoder had gone back to the front of another one. */
  predicate CutsIn(p: Player) {
    Next(p) != p.From() && Next(p) < p.Location()
  }

  predicate EndsAtOnce(p: Player, n: nat) {
    CutsIn(p) && n == 0
  }

  /** What is left of the pass that the decoder is in. */
  function RestOfPass(cf: Config, p: Player): int {
    if MidPass(p) then cf.Samples(End(cf, p)) - cf.Samples(Start(p)) else 0
  }

  lemma ReadyInside(cf: Config, p: Player)
    requires ReadyToLoop(cf, p)
    ensures Inside(WindowOf(cf, p), SpotOf(p))
  {
  }

  /** The front of the window behind the rest of the pass. */
  function Front(cf: Config, p: Player): Spot
    requires ReadyToLoop(cf, p)
  {
    ReadyInside(cf, p);
    if MidPass(p) then EndOfPass(WindowOf(cf, p), SpotOf(p)) else SpotOf(p)
  }

  /** Is there a rest of the pass that is not counted? From the front that is one frame; from in front of the window,
      one whose last frame starts at the front or before it. */
  predicate StartsUncounted(cf: Config, p: Player)
    requires ReadyToLoop(cf, p)
  {
    ReadyInside(cf, p);
    MidPass(p) && Uncounted(WindowOf(cf, p), SpotOf(p))
  }

  /** How many of the `m` passes behind the rest of the current one are not one frame. */
  function FullPassesCounting(cf: Config, p: Player, m: nat): (n: nat)
    requires ReadyToLoop(cf, p)
    ensures n <= m
  {
    ReadyInside(cf, p);
    Counting(WindowOf(cf, p), Front(cf, p), m)
  }

  /** How many of them it takes. */
  function Needed(cf: Config, p: Player, n: nat): int
    requires ReadyToLoop(cf, p)
  {
    n + (if StartsUncounted(cf, p) then 1 else 0) - (if CutsIn(p) then 1 else 0)
  }

  /** Are exactly `m` full passes played behind the rest of the current one? The first passes that hold as many counted
      ones as it takes. */
  predicate PlaysPasses(cf: Config, p: Player, n: nat, m: nat)
    requires ReadyToLoop(cf, p)
  {
    !EndsAtOnce(p, n) &&
    FullPassesCounting(cf, p, m) == Needed(cf, p, n) &&
    (m > 0 ==> FullPassesCounting(cf, p, m - 1) == Needed(cf, p, n) - 1)
  }

  lemma LoopTimesState(cf: Config, p: Player, n: nat, m: nat)
    requires ReadyToLoop(cf, p) && p.volume == 1.0
    ensures var q := SetLoopTimes(p, n);
            Looping(cf, q) && Counted(q) && Offset(cf, q) == Offset(cf, p) && Period(cf, q) == Period(cf, p) &&
            q.From() == p.From() && q.Leftover() == p.Leftover() &&
            (EndsAtOnce(p, n) ==> EndsBehind(cf, q, 0) && !PlaysPasses(cf, p, n, m)) &&
            (!EndsAtOnce(p, n) ==>
               (PlaysPasses(cf, p, n, m) <==> EndsBehind(cf, q, if MidPass(p) then m + 1 else m))) &&
            PassesSize(cf, q, if MidPass(p) then m + 1 else m) == RestOfPass(cf, p) + m * Period(cf, p)
  {
    hide EndOfPass, Taken;
    var q := SetLoopTimes(p, n);
    assert q.cmd == [TerminateAfterNLoops(p.Location(), n)];
    ReadyInside(cf, p);
    assert WindowOf(cf, q) == WindowOf(cf, p) && SpotOf(q) == SpotOf(p);
    if !EndsAtOnce(p, n) {
      EndsWhenCounted(WindowOf(cf, p), Front(cf, p), Needed(cf, p, n) - 1, m);
    }
    PassOff(Period(cf, p), m + 1);
  }

  /** The samples that SetLoopTimes lets through, if they are limited at all. */
  lemma LoopTimesBudget(cf: Config, p: Player, n: nat)
    requires ReadyToLoop(cf, p) && p.volume == 1.0
    ensures var q := SetLoopTimes(p, n);
            Looping(cf, q) &&
            (forall m: nat :: PlaysPasses(cf, p, n, m) ==>
               Budget(cf, q) == Some(RestOfPass(cf, p) + m * Period(cf, p))) &&
            if EndsAtOnce(p, n) then Budget(cf, q) == Some(0)
            else (forall m: nat :: !PlaysPasses(cf, p, n, m)) <==> Budget(cf, q) == None
  {
    hide PlaysPasses, EndsBehind, Budget, PassesSize, Looping;
    var q := SetLoopTimes(p, n);
    LoopTimesState(cf, p, n, 0);
    NoBudget(cf, q);
    forall m: nat | PlaysPasses(cf, p, n, m) ensures Budget(cf, q) == Some(RestOfPass(cf, p) + m * Period(cf, p)) {
      LoopTimesState(cf, p, n, m);
      BudgetIs(cf, q, if MidPass(p) then m + 1 else m);
    }
    if EndsAtOnce(p, n) {
      BudgetIs(cf, q, 0);
      NoPasses(cf, q);
    } else if k: nat :| EndsBehind(cf, q, k) {
      if MidPass(p) { NotAtOnce(cf, p, n); }
      LoopTimesState(cf, p, n, if MidPass(p) then k - 1 else k);
    }
  }

  lemma NoPasses(cf: Config, p: Player)
    ensures PassesSize(cf, p, 0) == 0
  {
  }

  lemma NotAtOnce(cf: Config, p: Player, n: nat)
    requires ReadyToLoop(cf, p) && MidPass(p) && !EndsAtOnce(p, n)
    ensures var q := SetLoopTimes(p, n);
            InLoop(cf, q) && Counted(q) && !EndsBehind(cf, q, 0)
  {
  }

  /** What is buffered, the window repeated up to `total` samples, if there is such a limit, and silence behind them. */
  ghost predicate PlaysUpTo(cf: Config, p: Player, total: Option<int>, out: seq<real>, end: Status) {
    var (lo, period, left) := (cf.Samples(p.From()), Period(cf, p), p.Leftover());
    IsWindow(cf.source, lo, period) &&
    (forall k :: 0 <= k < |out| ==>
       out[k] == if k < |left| then left[k]
                 else if !Within(total, k - |left| + 1) then cf.silence
                 else Repeated(cf.source, lo, period, Offset(cf, p) + (k - |left|))) &&
    end == if Within(total, |out| - |left|) then PLAYING else TERMINATED
  }

  lemma LoopTimesRun(cf: Config, p: Player, n: nat, requests: seq<positive>)
    requires ReadyToLoop(cf, p) && p.volume == 1.0
    ensures var q := SetLoopTimes(p, n);
            Looping(cf, q) && var (out, end) := Play(cf, q, requests);
            |out| == Total(requests) && PlaysUpTo(cf, p, Budget(cf, q), out, end.status)
  {
    hide Play, Looping, Budget, Repeated, PlaysPasses, EndsBehind;
    LoopTimesState(cf, p, n, 0);
    var q := SetLoopTimes(p, n);
    LoopWindow(cf, q);
    RunEmitsExpected(cf, q, requests);
    StateFacts(cf, Play(cf, q, requests).1);
    ExpectedInLoop(cf, q);
  }

  /** SetLoopTimes(n), for every decoder: the player emits what is buffered, the rest of the current pass and the first
      passes among which `n` are not a single frame from the front of the window, then silence, and is terminated as
      soon as more than that has been asked for. If there are not so many such passes, it goes on for ever. One more is
      needed where the rest of the current pass is not counted, one fewer where the next frame cuts in; then a count of
      none ends the playback at once. */
  lemma LoopTimesPlayback(cf: Config, p: Player, n: nat, requests: seq<positive>)
    requires ReadyToLoop(cf, p) && p.volume == 1.0
    ensures Valid(cf, SetLoopTimes(p, n))
    ensures var (out, end) := Play(cf, SetLoopTimes(p, n), requests);
            |out| == Total(requests) &&
            (forall m: nat :: PlaysPasses(cf, p, n, m) ==>
               PlaysUpTo(cf, p, Some(RestOfPass(cf, p) + m * Period(cf, p)), out, end.status)) &&
            ((forall m: nat :: !PlaysPasses(cf, p, n, m)) ==>
               PlaysUpTo(cf, p, if EndsAtOnce(p, n) then Some(0) else None, out, end.status))
  {
    hide Play, Looping, Budget, PlaysPasses, PlaysUpTo;
    LoopTimesRun(cf, p, n, requests);
    LoopTimesBudget(cf, p, n);
    assert Valid(cf, SetLoopTimes(p, n)) by { StateFacts(cf, SetLoopTimes(p, n)); }
  }

  /** Whatever is asked for, `total` samples behind what is buffered. */
  ghost predicate AlwaysPlays(cf: Config, p: Player, n: nat, total: Option<int>)
    requires ReadyToLoop(cf, p) && Valid(cf, SetLoopTimes(p, n))
  {
    forall requests: seq<positive> ::
      var (out, end) := Play(cf, SetLoopTimes(p, n), requests);
      PlaysUpTo(cf, p, total, out, end.status)
  }

  lemma LoopTimesAlways(cf: Config, p: Player, n: nat)
    requires ReadyToLoop(cf, p) && p.volume == 1.0
    ensures Valid(cf, SetLoopTimes(p, n))
    ensures forall m: nat :: PlaysPasses(cf, p, n, m) ==>
              AlwaysPlays(cf, p, n, Some(RestOfPass(cf, p) + m * Period(cf, p)))
    ensures (forall m: nat :: !PlaysPasses(cf, p, n, m)) ==>
              AlwaysPlays(cf, p, n, if EndsAtOnce(p, n) then Some(0) else None)
  {
    hide Play, PlaysPasses, PlaysUpTo, RestOfPass, Period, CutsIn;
    LoopTimesPlayback(cf, p, n, []);
    forall requests: seq<positive>
      ensures var (out, end) := Play(cf, SetLoopTimes(p, n), requests);
              (forall m: nat :: PlaysPasses(cf, p, n, m) ==>
                 PlaysUpTo(cf, p, Some(RestOfPass(cf, p) + m * Period(cf, p)), out, end.status)) &&
              ((forall m: nat :: !PlaysPasses(cf, p, n, m)) ==>
                 PlaysUpTo(cf, p, if EndsAtOnce(p, n) then Some(0) else None, out, end.status))
    {
      LoopTimesPlayback(cf, p, n, requests);
    }
  }

  /** What SetLoopTimes promises: the rest of the current pass and exactly `n` more, whatever is asked for. */
  ghost predicate PromiseKept(cf: Config, p: Player, n: nat)
    requires ReadyToLoop(cf, p) && Valid(cf, SetLoopTimes(p, n))
  {
    AlwaysPlays(cf, p, n, Some(RestOfPass(cf, p) + n * Period(cf, p)))
  }

  /** The promise is kept if and only if all passes are counted, the current one included; where the next frame cuts in,
      exactly one of them is not, and it is not the last. */
  lemma LoopTimesPromise(cf: Config, p: Player, n: nat)
    requires ReadyToLoop(cf, p) && p.volume == 1.0
    ensures Valid(cf, SetLoopTimes(p, n))
    ensures PromiseKept(cf, p, n) <==>
            if CutsIn(p) && !StartsUncounted(cf, p) then
              n > 0 && FullPassesCounting(cf, p, n) == n - 1 && FullPassesCounting(cf, p, n - 1) == n - 2
            else
              (CutsIn(p) <==> StartsUncounted(cf, p)) && FullPassesCounting(cf, p, n) == n && !EndsAtOnce(p, n)
  {
    hide AlwaysPlays, FullPassesCounting;
    LoopTimesAlways(cf, p, n);
    PassesOf(cf, p, n);
    if !PlaysPasses(cf, p, n, n) { PromiseBroken(cf, p, n); }
  }

  /** When exactly as many full passes are played as were asked for. */
  lemma PassesOf(cf: Config, p: Player, n: nat)
    requires ReadyToLoop(cf, p)
    ensures PlaysPasses(cf, p, n, n) <==>
            if CutsIn(p) && !StartsUncounted(cf, p) then
              n > 0 && FullPassesCounting(cf, p, n) == n - 1 && FullPassesCounting(cf, p, n - 1) == n - 2
            else
              (CutsIn(p) <==> StartsUncounted(cf, p)) && FullPassesCounting(cf, p, n) == n && !EndsAtOnce(p, n)
  {
    ReadyInside(cf, p);
    if n > 0 { CountingGrows(WindowOf(cf, p), Front(cf, p), n - 1); }
  }

  lemma PromiseBroken(cf: Config, p: Player, n: nat)
    requires ReadyToLoop(cf, p) && p.volume == 1.0 && Valid(cf, SetLoopTimes(p, n)) && !PlaysPasses(cf, p, n, n)
    ensures !PromiseKept(cf, p, n)
  {
    hide AlwaysPlays, PlaysPasses, Period, RestOfPass;
    var promised := RestOfPass(cf, p) + n * Period(cf, p);
    RestNotNegative(cf, p, n);
    LoopTimesAlways(cf, p, n);
    if m: nat :| PlaysPasses(cf, p, n, m) {
      RestNotNegative(cf, p, m);
      MorePasses(Period(cf, p), n, m);
      MorePasses(Period(cf, p), m, n);
      TotalsDiffer(cf, p, n, promised, Some(RestOfPass(cf, p) + m * Period(cf, p)));
    } else {
      TotalsDiffer(cf, p, n, promised, if EndsAtOnce(p, n) then Some(0) else None);
    }
  }

  /** A run that asks for one sample more than one of two limits and not for more than the other shows which it is. */
  lemma TotalsDiffer(cf: Config, p: Player, n: nat, promised: int, total: Option<int>)
    requires ReadyToLoop(cf, p) && p.volume == 1.0 && Valid(cf, SetLoopTimes(p, n))
    requires promised >= 0 && total != Some(promised) && (total.Some? ==> total.value >= 0)
    requires AlwaysPlays(cf, p, n, total)
    ensures !AlwaysPlays(cf, p, n, Some(promised))
  {
    hide Play, PlaysUpTo;
    var least := if total.Some? && total.value < promised then total.value else promised;
    var requests: seq<positive> := [|p.Leftover()| + least + 1];
    assert Total(requests) == |p.Leftover()| + least + 1 by { assert requests[1..] == []; }
    var (out, end) := Play(cf, SetLoopTimes(p, n), requests);
    StatusUpTo(cf, p, total, out, end.status);
    if AlwaysPlays(cf, p, n, Some(promised)) {
      StatusUpTo(cf, p, Some(promised), out, end.status);
    }
  }

  lemma MorePasses(period: int, n: nat, m: nat)
    requires period > 0
    ensures m > n ==> m * period >= n * period + period
  {
    if m > n {
      MulGrows(period, m - n);
      assert m * period == n * period + period * (m - n);
    }
  }

  lemma RestNotNegative(cf: Config, p: Player, n: nat)
    requires ReadyToLoop(cf, p)
    ensures RestOfPass(cf, p) >= 0 && Period(cf, p) > 0 && n * Period(cf, p) >= 0
    ensures CutsIn(p) ==> RestOfPass(cf, p) > 0
  {
    ReadyInside(cf, p);
    SamplesMonotone(cf, p.From(), End(cf, p));
    SamplesMonotone(cf, Start(p), End(cf, p));
  }

  /** A frame that cuts in: the end of the window [2, 10) is buffered, the decoder is back at its front, and the window
      becomes [1, 9). A count of none stops it at once. */
  lemma NextFrameCutsIn(cf: Config, p: Player, a: real, b: real)
    requires cf.Valid() && cf.channels == 1 && cf.length == 10
    requires p == Player(2, 0, Some(2), Some(10), PLAYING, 1.0, Some(Frame([a, b], 8)), [])
    ensures var q := SetLoop(p, 1, 9).value;
            ReadyToLoop(cf, q) && CutsIn(q) && Valid(cf, SetLoopTimes(q, 0)) && !PromiseKept(cf, q, 0) &&
            LoadPCM(cf, SetLoopTimes(q, 0), 3).0 == [a, b, cf.silence]
  {
    hide AlwaysPlays, LoadPCM, PlaysPasses;
    var q := SetLoop(p, 1, 9).value;
    LoopTimesPromise(cf, q, 0);
    var requests: seq<positive> := [3];
    LoopTimesPlayback(cf, q, 0, requests);
    assert requests[1..] == [];
    var (out, end) := LoadPCM(cf, SetLoopTimes(q, 0), 3);
    assert Play(cf, SetLoopTimes(q, 0), requests) == (out + [], end);
    assert out + [] == out;
    NonePlayed(cf, q, 0);
  }

  /** Where the decoder cuts all frames from the front of the window alike, this can be told from one of them: a frame
      from the front must not reach the end of the window, unless only the rest of a pass is asked for, and the next
      frame must not cut in, unless the rest of the pass is not counted. */
  lemma LoopTimesSteady(cf: Config, p: Player, n: nat)
    requires ReadyToLoop(cf, p) && p.volume == 1.0 && (Steady(WindowOf(cf, p)) || NoneOneFrame(WindowOf(cf, p)))
    ensures Valid(cf, SetLoopTimes(p, n))
    ensures PromiseKept(cf, p, n) <==>
            if n == 0 then !CutsIn(p) && !StartsUncounted(cf, p)
            else (CutsIn(p) <==> StartsUncounted(cf, p)) && NoneOneFrame(WindowOf(cf, p))
  {
    hide PromiseKept, Steady, NoneOneFrame;
    LoopTimesPromise(cf, p, n);
    ReadyInside(cf, p);
    SteadyCounting(WindowOf(cf, p), Front(cf, p), n);
    if n > 0 { SteadyCounting(WindowOf(cf, p), Front(cf, p), n - 1); }
  }

  ghost predicate NeverEnds(cf: Config, p: Player)
    requires Valid(cf, p)
  {
    forall requests: seq<positive> :: Play(cf, p, requests).1.status == PLAYING
  }

  lemma NeverEndsAtFullVolume(cf: Config, p: Player, n: nat)
    requires ReadyToLoop(cf, p) && p.volume == 1.0
    ensures Valid(cf, SetLoopTimes(p, n))
    ensures NeverEnds(cf, SetLoopTimes(p, n)) <==>
            forall m: nat :: FullPassesCounting(cf, p, m) < Needed(cf, p, n)
  {
    hide Play, PlaysPasses, FullPassesCounting, PlaysUpTo, AlwaysPlays, RestOfPass, Period;
    LoopTimesAlways(cf, p, n);
    if !EndsAtOnce(p, n) {
      EndsIfEnough(cf, p, n);
    } else {
      NonePlayed(cf, p, n);
    }
    if m: nat :| PlaysPasses(cf, p, n, m) {
      RestNotNegative(cf, p, m);
      EndsBehindPasses(cf, p, n, RestOfPass(cf, p) + m * Period(cf, p));
    } else if EndsAtOnce(p, n) {
      assert FullPassesCounting(cf, p, 0) >= Needed(cf, p, n);
      EndsBehindPasses(cf, p, n, 0);
    } else {
      AlwaysPlaysOn(cf, p, n);
    }
  }

  lemma NonePlayed(cf: Config, p: Player, n: nat)
    requires ReadyToLoop(cf, p) && EndsAtOnce(p, n)
    ensures forall m: nat :: !PlaysPasses(cf, p, n, m)
  {
    hide FullPassesCounting;
  }

  lemma AlwaysPlaysOn(cf: Config, p: Player, n: nat)
    requires ReadyToLoop(cf, p) && Valid(cf, SetLoopTimes(p, n)) && AlwaysPlays(cf, p, n, None)
    ensures NeverEnds(cf, SetLoopTimes(p, n))
  {
    hide Play, PlaysUpTo;
    forall requests: seq<positive> ensures Play(cf, SetLoopTimes(p, n), requests).1.status == PLAYING {
      var (out, end) := Play(cf, SetLoopTimes(p, n), requests);
      StatusUpTo(cf, p, None, out, end.status);
    }
  }

  lemma StatusUpTo(cf: Config, p: Player, total: Option<int>, out: seq<real>, end: Status)
    requires PlaysUpTo(cf, p, total, out, end)
    ensures end == if Within(total, |out| - |p.Leftover()|) then PLAYING else TERMINATED
  {
  }

  lemma EndsIfEnough(cf: Config, p: Player, n: nat)
    requires ReadyToLoop(cf, p) && !EndsAtOnce(p, n)
    ensures (exists m: nat :: PlaysPasses(cf, p, n, m)) <==>
            exists m: nat :: FullPassesCounting(cf, p, m) >= Needed(cf, p, n)
  {
    hide Counting, EndsAfter, StartsUncounted;
    ReadyInside(cf, p);
    var (w, s, left) := (WindowOf(cf, p), Front(cf, p), Needed(cf, p, n) - 1);
    if m: nat :| PlaysPasses(cf, p, n, m) {
      assert FullPassesCounting(cf, p, m) >= Needed(cf, p, n);
    }
    if m: nat :| FullPassesCounting(cf, p, m) >= Needed(cf, p, n) {
      assert Counting(w, s, m) > left;
      var k := EndsBy(w, s, left, m);
      EndsWhenCounted(w, s, left, k);
      assert PlaysPasses(cf, p, n, k);
    }
  }

  lemma EndsBehindPasses(cf: Config, p: Player, n: nat, total: nat)
    requires ReadyToLoop(cf, p) && Valid(cf, SetLoopTimes(p, n)) && AlwaysPlays(cf, p, n, Some(total))
    ensures !NeverEnds(cf, SetLoopTimes(p, n))
  {
    hide Play, PlaysUpTo;
    var requests: seq<positive> := [|p.Leftover()| + total + 1];
    assert Total(requests) == |p.Leftover()| + total + 1 by { assert requests[1..] == []; }
    var (out, end) := Play(cf, SetLoopTimes(p, n), requests);
    StatusUpTo(cf, p, Some(total), out, end.status);
    assert Play(cf, SetLoopTimes(p, n), requests).1.status != PLAYING;
  }

  // ------------------------------------------------------------------------------------------ any volume

  lemma LoadNextIgnoresVolume(cf: Config, p: Player, v: real)
    requires Valid(cf, p)
    ensures var (f, q) := LoadNext(cf, p);
            Valid(cf, p.(volume := v)) && LoadNext(cf, p.(volume := v)) == (f, q.(volume := v))
  {
    hide Slice, RunCommands;
  }

  lemma {:induction false} PullIgnoresVolume(cf: Config, p: Player, v: real, acc: seq<real>, n: nat, cur: int)
    requires Valid(cf, p)
    ensures var r := Pull(cf, p, acc, n, cur);
            Valid(cf, p.(volume := v)) && Pull(cf, p.(volume := v), acc, n, cur) == r.(player := r.player.(volume := v))
    decreases if |acc| < n then n - |acc| else 0, if p.status == PLAYING then 1 else 0, Ahead(p)
  {
    hide LoadNext, ClipFrame, Valid;
    LoadNextIgnoresVolume(cf, p, v);
    if |acc| < n && p.status == PLAYING {
      LoadNextProgress(cf, p);
      var (f, q) := LoadNext(cf, p);
      if f.data == [] {
        PullIgnoresVolume(cf, q, v, acc, n, cur);
      } else {
        WindowFacts(cf, q);
        var g := ClipFrame(cf, q, f);
        assert ClipFrame(cf, q.(volume := v), f) == g by { ClipIgnoresVolume(cf, q, v, f); }
        PullIgnoresVolume(cf, q, v, acc + g.data, n, g.cur + |g.data| / cf.channels);
      }
    }
  }

  lemma ClipIgnoresVolume(cf: Config, p: Player, v: real, f: Frame)
    requires cf.channels > 0 && f.cur >= 0 && p.From() < p.To() && |f.data| % cf.channels == 0
    ensures ClipFrame(cf, p.(volume := v), f) == ClipFrame(cf, p, f)
  {
  }

  /** Two players that differ in nothing but the volume and the samples in their buffers. */
  predicate AlikeButForVolume(p: Player, q: Player) {
    q.(buffer := None, volume := p.volume) == p.(buffer := None) && |q.Leftover()| == |p.Leftover()|
  }

  lemma RequestIgnoresVolume(cf: Config, p: Player, q: Player, n: nat)
    requires Valid(cf, p) && Valid(cf, q) && AlikeButForVolume(p, q) && n > 0
    ensures AlikeButForVolume(LoadPCM(cf, p, n).1, LoadPCM(cf, q, n).1)
  {
    hide Pull, Valid, LoadPCM;
    if p.status == PLAYING {
      var (p0, q0) := (p.(buffer := None), q.(buffer := None));
      LoadPCMByLoop(cf, p, n);
      LoadPCMByLoop(cf, q, n);
      BufferIrrelevant(cf, p);
      PullIgnoresVolume(cf, p0, q.volume, q.Leftover(), n, q.pos);
      PullAdds(cf, p0, p.Leftover(), n, p.pos, q.Leftover(), n, q.pos);
    } else {
      NotPlaying(cf, p, n);
      NotPlaying(cf, q, n);
    }
  }

  lemma NotPlaying(cf: Config, p: Player, n: nat)
    requires Valid(cf, p) && p.status != PLAYING && n > 0
    ensures LoadPCM(cf, p, n).1 == p
  {
  }

  lemma {:induction false} RunIgnoresVolume(cf: Config, p: Player, q: Player, requests: seq<positive>)
    requires Valid(cf, p) && Valid(cf, q) && AlikeButForVolume(p, q)
    ensures Play(cf, q, requests).1.status == Play(cf, p, requests).1.status
    decreases |requests|
  {
    hide LoadPCM, Valid;
    if requests != [] {
      RequestIgnoresVolume(cf, p, q, requests[0]);
      LoadPCMKeepsValid(cf, p, requests[0]);
      LoadPCMKeepsValid(cf, q, requests[0]);
      RunIgnoresVolume(cf, LoadPCM(cf, p, requests[0]).1, LoadPCM(cf, q, requests[0]).1, requests[1..]);
    }
  }

  /** At any volume: the playback never ends if and only if the decoder goes on for ever with fewer counted passes than
      it takes. */
  lemma LoopTimesNeverEnds(cf: Config, p: Player, n: nat)
    requires ReadyToLoop(cf, p)
    ensures Valid(cf, SetLoopTimes(p, n))
    ensures NeverEnds(cf, SetLoopTimes(p, n)) <==>
            forall m: nat :: FullPassesCounting(cf, p, m) < Needed(cf, p, n)
  {
    hide Play, FullPassesCounting, Needed, Valid, NeverEnds;
    var p1 := p.(volume := 1.0);
    SameAtFullVolume(cf, p, n);
    NeverEndsAtFullVolume(cf, p1, n);
    NeverEndsAlike(cf, SetLoopTimes(p1, n), SetLoopTimes(p, n));
    NeverEndsAlike(cf, SetLoopTimes(p, n), SetLoopTimes(p1, n));
  }

  lemma NeverEndsAlike(cf: Config, p: Player, q: Player)
    requires Valid(cf, p) && Valid(cf, q) && AlikeButForVolume(p, q)
    ensures NeverEnds(cf, p) ==> NeverEnds(cf, q)
  {
    hide Play, Valid;
    if NeverEnds(cf, p) {
      forall requests: seq<positive> ensures Play(cf, q, requests).1.status == PLAYING {
        RunIgnoresVolume(cf, p, q, requests);
      }
    }
  }

  lemma SameAtFullVolume(cf: Config, p: Player, n: nat)
    requires ReadyToLoop(cf, p)
    ensures var p1 := p.(volume := 1.0);
            ReadyToLoop(cf, p1) && Valid(cf, SetLoopTimes(p, n)) &&
            AlikeButForVolume(SetLoopTimes(p1, n), SetLoopTimes(p, n)) &&
            Needed(cf, p, n) == Needed(cf, p1, n) &&
            forall m: nat :: FullPassesCounting(cf, p, m) == FullPassesCounting(cf, p1, m)
  {
    hide EndOfPass;
    var p1 := p.(volume := 1.0);
    ReadyInside(cf, p);
    ReadyInside(cf, p1);
    assert WindowOf(cf, p1) == WindowOf(cf, p) && SpotOf(p1) == SpotOf(p);
    assert Front(cf, p1) == Front(cf, p);
  }
}
