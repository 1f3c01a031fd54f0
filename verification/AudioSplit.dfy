/** One request or two: when the sum of two requests emits what the two emit. */
module AudioSplit {
  import opened Bytes
  import opened Audio

  /** Asking for less first makes no difference to the loop. */
  lemma {:induction false} PullSplit(cf: Config, p: Player, acc: seq<real>, a: nat, n: nat, cur: int)
    requires Valid(cf, p) && a <= n
    ensures var r := Pull(cf, p, acc, a, cur);
            Valid(cf, r.player) && Pull(cf, p, acc, n, cur) == Pull(cf, r.player, r.data, n, r.cur)
    decreases if |acc| < a then a - |acc| else 0, if p.status == PLAYING then 1 else 0, Ahead(p)
  {
    hide LoadNext, ClipFrame, Valid;
    if |acc| < a && p.status == PLAYING {
      LoadNextProgress(cf, p);
      var (f, q) := LoadNext(cf, p);
      if f.data == [] {
        PullSplit(cf, q, acc, a, n, cur);
      } else {
        WindowFacts(cf, q);
        var g := ClipFrame(cf, q, f);
        PullSplit(cf, q, acc + g.data, a, n, g.cur + |g.data| / cf.channels);
      }
    }
  }

  /** What the loop adds depends on how much is missing, not on what is there already. */
  lemma {:induction false} PullAdds(
      cf: Config, p: Player, x: seq<real>, n: nat, cur: int, y: seq<real>, m: nat, cur': int)
    requires Valid(cf, p) && n - |x| == m - |y|
    ensures var (r, s) := (Pull(cf, p, x, n, cur), Pull(cf, p, y, m, cur'));
            s.player == r.player && x <= r.data && y <= s.data && s.data[|y|..] == r.data[|x|..]
    decreases if |x| < n then n - |x| else 0, if p.status == PLAYING then 1 else 0, Ahead(p)
  {
    hide LoadNext, ClipFrame, Valid;
    if |x| < n && p.status == PLAYING {
      LoadNextProgress(cf, p);
      var (f, q) := LoadNext(cf, p);
      if f.data == [] {
        PullAdds(cf, q, x, n, cur, y, m, cur');
      } else {
        WindowFacts(cf, q);
        var g := ClipFrame(cf, q, f);
        var now := g.cur + |g.data| / cf.channels;
        PullAdds(cf, q, x + g.data, n, now, y + g.data, m, now);
        SameTail(x, y, g.data, Pull(cf, p, x, n, cur).data, Pull(cf, p, y, m, cur').data);
      }
    }
  }

  lemma SameTail(x: seq<real>, y: seq<real>, g: seq<real>, r: seq<real>, s: seq<real>)
    requires x + g <= r && y + g <= s && s[|y + g|..] == r[|x + g|..]
    ensures x <= r && y <= s && s[|y|..] == r[|x|..]
  {
    assert r[|x|..] == g + r[|x + g|..];
    assert s[|y|..] == g + s[|y + g|..];
    assert r[..|x|] == (x + g)[..|x|] == x;
    assert s[..|y|] == (y + g)[..|y|] == y;
  }

  lemma ScaleByOne(data: seq<real>)
    ensures Scale(data, 1.0) == data
  {
  }

  lemma ScaleAppend(x: seq<real>, y: seq<real>, volume: real)
    ensures Scale(x + y, volume) == Scale(x, volume) + Scale(y, volume)
  {
    var (whole, front, back) := (Scale(x + y, volume), Scale(x, volume), Scale(y, volume));
    forall k | 0 <= k < |whole| ensures whole[k] == (front + back)[k] {
      assert whole[k] == (x + y)[k] * volume;
    }
  }

  /** Two players that will play the same; only the bookkeeping of the buffered position may differ. */
  predicate SamePlayback(p: Player, q: Player) {
    p.(buffer := None) == q.(buffer := None) && p.Leftover() == q.Leftover()
  }

  /** What is there at the end of a request for `n`, and what is kept of it. */
  function Padded(cf: Config, data: seq<real>, n: nat): (r: seq<real>)
    ensures |r| == n
  {
    (data + Silence(cf, n))[..n]
  }

  function Surplus(data: seq<real>, n: nat): seq<real> {
    if |data| > n then data[n..] else []
  }

  /** LoadPCM in terms of the loop. */
  lemma LoadPCMByLoop(cf: Config, p: Player, n: nat)
    requires Valid(cf, p) && n > 0 && p.status == PLAYING
    ensures var r := Pull(cf, p.(buffer := None), p.Leftover(), n, p.pos);
            var (out, q) := LoadPCM(cf, p, n);
            Valid(cf, r.player) && q.(buffer := None) == r.player && q.volume == p.volume &&
            (|r.data| >= n || r.player.status != PLAYING) && p.Leftover() <= r.data &&
            out == Padded(cf, Scale(r.data, p.volume), n) &&
            q.Leftover() == Surplus(Scale(r.data, p.volume), n)
  {
    hide Pull, Valid, Scale;
    BufferIrrelevant(cf, p);
    var r := Pull(cf, p.(buffer := None), p.Leftover(), n, p.pos);
    PullFacts(cf, p.(buffer := None), p.Leftover(), n, p.pos);
    SilencePads(cf, Scale(r.data, p.volume), n);
  }

  lemma LoadPCMAtFullVolume(cf: Config, p: Player, n: nat)
    requires Valid(cf, p) && n > 0 && p.status == PLAYING && p.volume == 1.0
    ensures var r := Pull(cf, p.(buffer := None), p.Leftover(), n, p.pos);
            var (out, q) := LoadPCM(cf, p, n);
            Valid(cf, r.player) && q.(buffer := None) == r.player && r.player.volume == 1.0 &&
            (|r.data| >= n || r.player.status != PLAYING) &&
            out == (r.data + Silence(cf, n))[..n] &&
            q.Leftover() == if |r.data| > n then r.data[n..] else []
  {
    hide Pull, Valid, LoadPCM;
    BufferIrrelevant(cf, p);
    LoadPCMByLoop(cf, p, n);
    ScaleByOne(Pull(cf, p.(buffer := None), p.Leftover(), n, p.pos).data);
  }

  lemma BufferIrrelevant(cf: Config, p: Player)
    requires Valid(cf, p)
    ensures Valid(cf, p.(buffer := None))
  {
  }

  lemma SilencePads(cf: Config, data: seq<real>, n: nat)
    ensures |data| >= n ==> Padded(cf, data, n) == data[..n]
    ensures |data| <= n ==> Padded(cf, data, n) == data + Silence(cf, n - |data|)
  {
    if |data| <= n {
      assert Silence(cf, n)[..n - |data|] == Silence(cf, n - |data|);
    }
  }

  // ------------------------------------------------------------------------------------------ the two ways

  /** Is what a player keeps in its buffer, as far as a request of `n` would reach, silence? */
  predicate SilentLeftover(cf: Config, left: seq<real>, n: nat) {
    forall k :: 0 <= k < n && k < |left| ==> left[k] == cf.silence
  }

  /** Does scaling make no difference to the samples from `from` to `to`? */
  predicate Unscaled(left: seq<real>, volume: real, from: nat, to: nat) {
    forall k :: from <= k < to && k < |left| ==> left[k] * volume == left[k]
  }

  /** Whatever the volume, the frame sizes and the pending commands: one request for `a + b` samples emits what
      requests for `a` and for `b` emit, if and only if the player was not playing at all, or is still playing after
      the first one and scaling what it has kept once more makes no difference, or has ended and kept nothing but
      silence. */
  lemma SplitRequest(cf: Config, p: Player, a: nat, b: nat)
    requires Valid(cf, p) && a > 0 && b > 0
    ensures var (first, q) := LoadPCM(cf, p, a);
            Valid(cf, q) &&
            var (second, _) := LoadPCM(cf, q, b);
            LoadPCM(cf, p, a + b).0 == first + second <==>
            p.status != PLAYING ||
            (if q.status == PLAYING then Unscaled(q.Leftover(), p.volume, 0, b)
             else SilentLeftover(cf, q.Leftover(), b))
  {
    hide LoadPCM, Valid, Unscaled, SilentLeftover;
    LoadPCMKeepsValid(cf, p, a);
    if p.status != PLAYING {
      SilentRequests(cf, p, a, b);
    } else if LoadPCM(cf, p, a).1.status == PLAYING {
      SplitWhilePlaying(cf, p, a, b);
    } else {
      SplitAtTheEnd(cf, p, a, b);
    }
  }

  lemma SilentRequests(cf: Config, p: Player, a: nat, b: nat)
    requires Valid(cf, p) && a > 0 && b > 0 && p.status != PLAYING
    ensures LoadPCM(cf, p, a) == (Silence(cf, a), p) && LoadPCM(cf, p, b) == (Silence(cf, b), p)
    ensures LoadPCM(cf, p, a + b).0 == Silence(cf, a) + Silence(cf, b)
  {
  }

  /** `second` is what `whole` holds from `a` on, except that the samples of `left` are scaled once more. */
  predicate LeftoverScaledAgain(second: seq<real>, whole: seq<real>, left: seq<real>, a: nat, v: real) {
    |whole| == a + |second| &&
    forall k :: 0 <= k < |second| ==>
      if k < |left| then whole[a + k] == left[k] && second[k] == left[k] * v else second[k] == whole[a + k]
  }

  /** The same, with all of `left` in it. */
  predicate AllScaledAgain(second: seq<real>, whole: seq<real>, left: seq<real>, a: nat, v: real) {
    |left| <= |second| && LeftoverScaledAgain(second, whole, left, a, v)
  }

  /** While the player plays on, the second request emits what the single one does, except that what was left over is
      scaled a second time. The samples are the same if and only if that makes no difference to those the request
      reaches, and the players go on alike if and only if it makes none to the others. */
  lemma SplitWhilePlaying(cf: Config, p: Player, a: nat, b: nat)
    requires Valid(cf, p) && a > 0 && b > 0
    requires p.status == PLAYING && LoadPCM(cf, p, a).1.status == PLAYING
    ensures var (first, q) := LoadPCM(cf, p, a);
            Valid(cf, q) &&
            var (second, end) := LoadPCM(cf, q, b);
            var (whole, end') := LoadPCM(cf, p, a + b);
            var left := q.Leftover();
            whole[..a] == first &&
            LeftoverScaledAgain(second, whole, left, a, p.volume) &&
            (whole == first + second <==> Unscaled(left, p.volume, 0, b)) &&
            (SamePlayback(end, end') <==> Unscaled(left, p.volume, b, |left|))
  {
    hide LoadPCM, Pull, Valid, Scale, Padded, Surplus, Unscaled, LeftoverScaledAgain;
    LoadPCMKeepsValid(cf, p, a);
    var p0 := p.(buffer := None);
    BufferIrrelevant(cf, p);
    var q := LoadPCM(cf, p, a).1;
    var r := Pull(cf, p0, p.Leftover(), a, p.pos);
    LoadPCMByLoop(cf, p, a);
    LoadPCMByLoop(cf, q, b);
    LoadPCMByLoop(cf, p, a + b);
    PullSplit(cf, p0, p.Leftover(), a, a + b, p.pos);
    var left := q.Leftover();
    LeftoverSize(r.data, a, p.volume);
    PullAdds(cf, r.player, r.data, a + b, r.cur, left, b, q.pos);
    var (w, s) := (Pull(cf, r.player, r.data, a + b, r.cur).data, Pull(cf, r.player, left, b, q.pos).data);
    ScaledSplit(cf, r.data, w, s, a, b, p.volume);
  }

  lemma LeftoverSize(data: seq<real>, n: nat, volume: real)
    requires |data| >= n
    ensures |Surplus(Scale(data, volume), n)| == |data| - n
  {
  }

  /** `r` is what the first request found, `w` and `s` are what the single and the second one find. */
  lemma ScaledSplit(cf: Config, r: seq<real>, w: seq<real>, s: seq<real>, a: nat, b: nat, v: real)
    requires |r| >= a && r <= w
    requires var left := Surplus(Scale(r, v), a);
             |left| == |r| - a && left <= s && s[|left|..] == w[|r|..]
    ensures var left := Surplus(Scale(r, v), a);
            var (first, second) := (Padded(cf, Scale(r, v), a), Padded(cf, Scale(s, v), b));
            var whole := Padded(cf, Scale(w, v), a + b);
            whole[..a] == first &&
            LeftoverScaledAgain(second, whole, left, a, v) &&
            (whole == first + second <==> Unscaled(left, v, 0, b)) &&
            (Surplus(Scale(s, v), b) == Surplus(Scale(w, v), a + b) <==> Unscaled(left, v, b, |left|))
  {
    var left := Surplus(Scale(r, v), a);
    var (x, y) := (Scale(w, v), Scale(s, v));
    ScaledSamples(r, w, s, a, left, v);
    SameTails(x, y, left, a, b, v);
    PaddedSamples(cf, Scale(r, v), x, y, left, a, b, v);
    hide Scale, Surplus, Unscaled, Padded, AllScaledAgain, LeftoverScaledAgain;
    OneOrTwo(Padded(cf, Scale(r, v), a), Padded(cf, y, b), Padded(cf, x, a + b), left, v);
  }

  lemma PaddedSamples(
      cf: Config, r: seq<real>, x: seq<real>, y: seq<real>, left: seq<real>, a: nat, b: nat, v: real)
    requires |r| >= a && r <= x && |x| == a + |y|
    requires AllScaledAgain(y, x, left, a, v)
    ensures var (first, second, whole) := (Padded(cf, r, a), Padded(cf, y, b), Padded(cf, x, a + b));
            whole[..a] == first && LeftoverScaledAgain(second, whole, left, a, v)
  {
    PaddedAt(cf, r, a);
    PaddedAt(cf, x, a + b);
    PaddedAt(cf, y, b);
    hide Padded;
    assert Padded(cf, x, a + b)[..a] == Padded(cf, r, a);
  }

  lemma OneOrTwo(first: seq<real>, second: seq<real>, whole: seq<real>, left: seq<real>, v: real)
    requires |whole| == |first| + |second| && whole[..|first|] == first
    requires LeftoverScaledAgain(second, whole, left, |first|, v)
    ensures whole == first + second <==> Unscaled(left, v, 0, |second|)
  {
    var n := |first|;
    assert whole == whole[..n] + whole[n..];
    assert whole == first + second <==> whole[n..] == second;
    forall k | 0 <= k < |second| ensures whole[n..][k] == second[k] <==> (k < |left| ==> left[k] * v == left[k]) {
      assert whole[n..][k] == whole[n + k];
    }
    if whole[n..] == second {
      forall k | 0 <= k < |second| && k < |left| ensures left[k] * v == left[k] {
        assert whole[n..][k] == second[k];
      }
    }
  }

  lemma ScaledSamples(r: seq<real>, w: seq<real>, s: seq<real>, a: nat, left: seq<real>, v: real)
    requires |r| >= a && r <= w && left == Surplus(Scale(r, v), a) && |left| == |r| - a
    requires left <= s && s[|left|..] == w[|r|..]
    ensures |w| == a + |s| && Scale(r, v) <= Scale(w, v)
    ensures AllScaledAgain(Scale(s, v), Scale(w, v), left, a, v)
  {
    var t := w[|r|..];
    assert w == r + t && s == left + t;
    ScaleAppend(r, t, v);
    ScaleAppend(left, t, v);
    ScaledOnce(left, v);
    SamplesJoined(Scale(r, v), Scale(left, v), Scale(t, v), left, a, v);
  }

  lemma SamplesJoined(front: seq<real>, again: seq<real>, tail: seq<real>, left: seq<real>, a: nat, v: real)
    requires |front| == a + |left| && front[a..] == left
    requires |again| == |left| && forall k :: 0 <= k < |left| ==> again[k] == left[k] * v
    ensures AllScaledAgain(again + tail, front + tail, left, a, v)
  {
    var (whole, second) := (front + tail, again + tail);
    forall k | 0 <= k < |second|
      ensures if k < |left| then whole[a + k] == left[k] && second[k] == left[k] * v else second[k] == whole[a + k]
    {
      if k < |left| {
        assert whole[a + k] == front[a + k] == front[a..][k];
        assert second[k] == again[k];
      } else {
        assert whole[a + k] == tail[k - |left|] == second[k];
      }
    }
  }

  lemma ScaledOnce(data: seq<real>, v: real)
    ensures forall k :: 0 <= k < |data| ==> Scale(data, v)[k] == data[k] * v
  {
  }

  lemma PaddedAt(cf: Config, data: seq<real>, n: nat)
    ensures forall k :: 0 <= k < n ==> Padded(cf, data, n)[k] == if k < |data| then data[k] else cf.silence
  {
  }

  lemma SameTails(x: seq<real>, y: seq<real>, left: seq<real>, a: nat, b: nat, v: real)
    requires |x| == a + |y|
    requires AllScaledAgain(y, x, left, a, v)
    ensures Surplus(y, b) == Surplus(x, a + b) <==> Unscaled(left, v, b, |left|)
  {
    if |y| > b {
      var (s, t) := (y[b..], x[a + b..]);
      assert |s| == |t| && forall k :: 0 <= k < |s| ==> s[k] == y[b + k] && t[k] == x[a + b + k];
      if Surplus(y, b) == Surplus(x, a + b) {
        forall k | b <= k < |left| ensures left[k] * v == left[k] {
          assert s[k - b] == t[k - b];
        }
      }
    }
  }

  /** The last frame ended the playback: the second request finds the player terminated, and what is left in the
      buffer stays there. */
  lemma SplitAtTheEnd(cf: Config, p: Player, a: nat, b: nat)
    requires Valid(cf, p) && a > 0 && b > 0
    requires p.status == PLAYING && LoadPCM(cf, p, a).1.status != PLAYING
    ensures var (first, q) := LoadPCM(cf, p, a);
            Valid(cf, q) &&
            LoadPCM(cf, q, b).0 == Silence(cf, b) &&
            LoadPCM(cf, p, a + b).0 == first + Padded(cf, q.Leftover(), b) &&
            (LoadPCM(cf, p, a + b).0 == first + Silence(cf, b) <==> SilentLeftover(cf, q.Leftover(), b))
  {
    hide LoadPCM, Pull, Valid, SilentLeftover, Scale;
    LoadPCMKeepsValid(cf, p, a);
    var p0 := p.(buffer := None);
    BufferIrrelevant(cf, p);
    var (first, q) := LoadPCM(cf, p, a);
    var r := Pull(cf, p0, p.Leftover(), a, p.pos);
    LoadPCMByLoop(cf, p, a);
    LoadPCMByLoop(cf, p, a + b);
    SilentRequests(cf, q, b, b);
    PullSplit(cf, p0, p.Leftover(), a, a + b, p.pos);
    PullStops(cf, r.player, r.data, a + b, r.cur);
    PaddedEnd(cf, Scale(r.data, p.volume), a, b, q.Leftover());
  }

  lemma PullStops(cf: Config, p: Player, acc: seq<real>, n: nat, cur: int)
    requires Valid(cf, p) && p.status != PLAYING
    ensures Pull(cf, p, acc, n, cur) == Pulled(p, acc, cur)
  {
  }

  lemma PaddedEnd(cf: Config, data: seq<real>, a: nat, b: nat, left: seq<real>)
    requires left == Surplus(data, a)
    ensures var (first, whole) := (Padded(cf, data, a), Padded(cf, data, a + b));
            whole == first + Padded(cf, left, b) &&
            (whole == first + Silence(cf, b) <==> SilentLeftover(cf, left, b))
  {
    var (first, tail, whole) := (Padded(cf, data, a), Padded(cf, left, b), Padded(cf, data, a + b));
    assert whole == first + tail;
    assert whole[a..] == tail;
    assert (first + Silence(cf, b))[a..] == Silence(cf, b);
    assert tail == Silence(cf, b) <==> forall k :: 0 <= k < b ==> tail[k] == cf.silence;
    assert forall k :: 0 <= k < b && k < |left| ==> tail[k] == left[k];
  }

  /** The two scalings heard: a constant source at half volume. */
  lemma LeftoverIsScaledTwice(cf: Config, p: Player)
    requires cf.Valid() && cf.channels == 1 && cf.length == 4 && cf.source == [1.0, 1.0, 1.0, 1.0]
    requires forall t, pos :: cf.frameLen(t, pos) == 2
    requires p == Player(0, 0, None, None, PLAYING, 0.5, None, [])
    ensures Valid(cf, p)
    ensures var (first, q) := LoadPCM(cf, p, 1);
            first == [0.5] && Valid(cf, q) && q.status == PLAYING &&
            LoadPCM(cf, q, 1).0 == [0.25] && LoadPCM(cf, p, 2).0 == [0.5, 0.5]
  {
    var p0 := p.(buffer := None);
    var (f, p1) := LoadNext(cf, p0);
    assert f == Frame([1.0, 1.0], 0) && p1 == p0.(pos := 2, tick := 1);
    assert ClipFrame(cf, p1, f) == f;
    LoadNextProgress(cf, p0);
    assert Pull(cf, p0, [], 1, 0).data == [1.0, 1.0];
    assert Pull(cf, p0, [], 2, 0).data == [1.0, 1.0];
  }
}
