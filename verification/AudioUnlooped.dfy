/** Playing from front to end, without a window and without commands. */
module AudioUnlooped {
  import opened Bytes
  import opened Sequences
  import opened Numbers
  import opened Audio
  import opened AudioSplit

  predicate Unlooped(cf: Config, p: Player) {
    Valid(cf, p) && p.loopFr.None? && p.cmd == []
  }

  /** The status that goes with a position. */
  predicate StatusFits(cf: Config, p: Player) {
    p.pos <= cf.length && p.status == if p.pos == cf.length then TERMINATED else PLAYING
  }

  lemma UnloopedStep(cf: Config, p: Player)
    requires Unlooped(cf, p) && p.status == PLAYING
    ensures var (f, q) := LoadNext(cf, p);
            Unlooped(cf, q) && StatusFits(cf, q) && q.pos > p.pos && q.buffer == p.buffer && q.volume == p.volume &&
            f.data != [] && f == Frame(Slice(cf, p.pos, q.pos), p.pos) && |f.data| % cf.channels == 0 &&
            ClipFrame(cf, q, f) == f && f.cur + |f.data| / cf.channels == q.pos
  {
    hide Slice, RunCommands;
    DecodeFacts(cf, p);
    RunNone(Decode(cf, p).0, PLAYING);
    RunNone(Decode(cf, p).0, TERMINATED);
  }

  lemma {:induction false} UnloopedPull(cf: Config, p: Player, acc: seq<real>, n: nat, cur: int)
    requires Unlooped(cf, p) && StatusFits(cf, p) && cur == p.pos
    ensures var r := Pull(cf, p, acc, n, cur);
            Unlooped(cf, r.player) && StatusFits(cf, r.player) && p.pos <= r.player.pos && r.cur == r.player.pos &&
            r.player.buffer == p.buffer && r.player.volume == p.volume &&
            r.data == acc + Slice(cf, p.pos, r.player.pos)
    decreases if |acc| < n then n - |acc| else 0, if p.status == PLAYING then 1 else 0, Ahead(p)
  {
    hide LoadNext, ClipFrame, Slice;
    if |acc| < n && p.status == PLAYING {
      UnloopedStep(cf, p);
      LoadNextProgress(cf, p);
      var (f, q) := LoadNext(cf, p);
      UnloopedPull(cf, q, acc + f.data, n, q.pos);
      var end := Pull(cf, p, acc, n, cur).player.pos;
      SliceAppend(cf, acc, p.pos, q.pos, end);
    } else {
      SliceNothing(cf, acc, p.pos);
    }
  }

  /** The buffered position and the buffered samples add up to the position of the decoder. */
  predicate LocationExact(cf: Config, p: Player)
    requires cf.channels > 0
  {
    p.Location() + |p.Leftover()| / cf.channels == p.pos
  }

  /** One request: the material in order, silence when it ends, the surplus in the buffer, its position exact. */
  lemma UnloopedRequest(cf: Config, p: Player, n: nat)
    requires Unlooped(cf, p) && p.status == PLAYING && n > 0
    ensures var (out, q) := LoadPCM(cf, p, n);
            Unlooped(cf, q) && StatusFits(cf, q) && p.pos <= q.pos && LocationExact(cf, q) && q.volume == p.volume &&
            var data := Scale(p.Leftover() + Slice(cf, p.pos, q.pos), p.volume);
            out == Padded(cf, data, n) && q.Leftover() == Surplus(data, n) && (q.status == PLAYING ==> |data| >= n)
  {
    hide Pull, Slice, LoadPCM, Scale, Padded, Surplus;
    UnloopedPull(cf, p.(buffer := None), p.Leftover(), n, p.pos);
    LoadPCMByLoop(cf, p, n);
    RequestLocation(cf, p, n);
  }

  lemma RequestLocation(cf: Config, p: Player, n: nat)
    requires Unlooped(cf, p) && p.status == PLAYING && n > 0
    ensures LocationExact(cf, LoadPCM(cf, p, n).1)
  {
    hide Pull, Slice;
    UnloopedPull(cf, p.(buffer := None), p.Leftover(), n, p.pos);
  }

  // ------------------------------------------------------------------------------------------ runs

  /** Requests that ask for whole sample-frames. */
  predicate Aligned(cf: Config, requests: seq<positive>)
    requires cf.channels > 0
  {
    forall n <- requests :: n % cf.channels == 0
  }

  /** How many samples have been heard when `p` has become `q`: what it had and what was decoded, except what it keeps.
      Nothing of it is silence. */
  function Heard(cf: Config, p: Player, q: Player): int
    requires p.pos <= q.pos
  {
    |p.Leftover()| + cf.Samples(q.pos - p.pos) - |q.Leftover()|
  }

  /** `out` is what `p` had and what was decoded up to `q`, except what `q` has, and silence behind it. */
  predicate HeardInOrder(cf: Config, p: Player, q: Player, out: seq<real>)
    requires cf.Valid() && p.pos <= q.pos <= cf.length
  {
    0 <= Heard(cf, p, q) <= |out| &&
    out[..Heard(cf, p, q)] + q.Leftover() == p.Leftover() + Slice(cf, p.pos, q.pos) &&
    out[Heard(cf, p, q)..] == Silence(cf, |out| - Heard(cf, p, q))
  }

  /** Every run, whether or not it gets to the end. The location moves on by what was heard, and stays exact, at every
      volume. At full volume nothing is lost, repeated or reordered, and what was not heard when the playback ended is
      still in the buffer. As long as the player plays, all of the output has been heard. */
  lemma {:induction false} UnloopedRun(cf: Config, p: Player, requests: seq<positive>)
    requires Unlooped(cf, p) && StatusFits(cf, p) && LocationExact(cf, p)
    ensures var (out, q) := Play(cf, p, requests);
            Unlooped(cf, q) && StatusFits(cf, q) && p.pos <= q.pos && LocationExact(cf, q) && q.volume == p.volume &&
            0 <= Heard(cf, p, q) <= |out| && (q.status == PLAYING ==> Heard(cf, p, q) == |out|) &&
            (p.volume == 1.0 ==> HeardInOrder(cf, p, q, out)) &&
            (Aligned(cf, requests) && |p.Leftover()| % cf.channels == 0 ==>
               |q.Leftover()| % cf.channels == 0 && q.Location() == p.Location() + Heard(cf, p, q) / cf.channels)
    decreases |requests|
  {
    hide LoadPCM, Slice, HeardInOrder, LocationExact, Aligned, Config.Samples, Heard, Unlooped, Scale, Padded, Surplus;
    UnloopedFacts(cf, p);
    if requests == [] || p.status != PLAYING {
      NothingHeard(cf, p, requests);
      TerminatedStays(cf, p, requests);
    } else {
      var n := requests[0];
      UnloopedRequest(cf, p, n);
      var (first, q) := LoadPCM(cf, p, n);
      RequestHeard(cf, p, n);
      UnloopedFacts(cf, q);
      UnloopedRun(cf, q, requests[1..]);
      var (rest, end) := Play(cf, q, requests[1..]);
      if q.status != PLAYING { TerminatedStays(cf, q, requests[1..]); }
      SamplesAdd(cf, q.pos - p.pos, end.pos - q.pos);
      HeardTogether(cf, p, q, end, first, rest);
      if Aligned(cf, requests) && |p.Leftover()| % cf.channels == 0 {
        AlignedTail(cf, requests);
        AlignedRequest(cf, p, n);
        RequestMovesLocation(cf, p, end);
      }
    }
  }

  lemma UnloopedFacts(cf: Config, p: Player)
    requires Unlooped(cf, p)
    ensures Valid(cf, p) && cf.Valid()
  {
  }

  lemma NothingHeard(cf: Config, p: Player, requests: seq<positive>)
    requires cf.Valid() && p.pos <= cf.length
    ensures Heard(cf, p, p) == 0 && HeardInOrder(cf, p, p, Silence(cf, Total(requests)))
    ensures requests == [] ==> Total(requests) == 0 && Silence(cf, 0) == []
  {
    SliceNothing(cf, p.Leftover(), p.pos);
    assert cf.Samples(0) == 0;
    var out := Silence(cf, Total(requests));
    assert out[..0] + p.Leftover() == p.Leftover();
  }

  lemma RequestHeard(cf: Config, p: Player, n: nat)
    requires Unlooped(cf, p) && p.status == PLAYING && n > 0
    ensures var (out, q) := LoadPCM(cf, p, n);
            p.pos <= q.pos <= cf.length && 0 <= Heard(cf, p, q) <= n &&
            (q.status == PLAYING ==> Heard(cf, p, q) == n) &&
            (p.volume == 1.0 ==> HeardInOrder(cf, p, q, out))
  {
    hide LoadPCM, Slice, Scale, Config.Samples;
    UnloopedRequest(cf, p, n);
    var (out, q) := LoadPCM(cf, p, n);
    var data := Scale(p.Leftover() + Slice(cf, p.pos, q.pos), p.volume);
    assert |data| == |p.Leftover()| + cf.Samples(q.pos - p.pos);
    PaddedParts(cf, data, n);
    if p.volume == 1.0 {
      ScaleByOne(p.Leftover() + Slice(cf, p.pos, q.pos));
    }
  }

  lemma AlignedRequest(cf: Config, p: Player, n: nat)
    requires Unlooped(cf, p) && p.status == PLAYING && n > 0
    requires n % cf.channels == 0 && |p.Leftover()| % cf.channels == 0
    ensures |LoadPCM(cf, p, n).1.Leftover()| % cf.channels == 0
  {
    hide LoadPCM, Slice, Scale;
    UnloopedRequest(cf, p, n);
    var q := LoadPCM(cf, p, n).1;
    SamplesDivide(cf, q.pos - p.pos);
    DivideSum(|p.Leftover()|, cf.Samples(q.pos - p.pos), cf.channels);
    if |q.Leftover()| > 0 { DivideSum(n, |q.Leftover()|, cf.channels); }
  }

  lemma PaddedParts(cf: Config, data: seq<real>, n: nat)
    ensures var h := |data| - |Surplus(data, n)|;
            0 <= h <= n && Padded(cf, data, n)[..h] + Surplus(data, n) == data &&
            Padded(cf, data, n)[h..] == Silence(cf, n - h)
  {
  }

  lemma HeardTogether(cf: Config, p: Player, q: Player, end: Player, first: seq<real>, rest: seq<real>)
    requires cf.Valid() && p.pos <= q.pos <= end.pos <= cf.length
    requires cf.Samples(end.pos - p.pos) == cf.Samples(q.pos - p.pos) + cf.Samples(end.pos - q.pos)
    ensures Heard(cf, p, end) == Heard(cf, p, q) + Heard(cf, q, end)
    ensures HeardInOrder(cf, p, q, first) && HeardInOrder(cf, q, end, rest) &&
            (Heard(cf, p, q) == |first| || (end == q && rest == Silence(cf, |rest|))) ==>
              HeardInOrder(cf, p, end, first + rest)
  {
    hide Slice, Config.Samples;
    if HeardInOrder(cf, p, q, first) && HeardInOrder(cf, q, end, rest) {
      var (h, k) := (Heard(cf, p, q), Heard(cf, q, end));
      SliceAppend(cf, p.Leftover(), p.pos, q.pos, end.pos);
      if h == |first| {
        assert (first + rest)[..h + k] == first + rest[..k];
        assert (first + rest)[h + k..] == rest[k..];
        JoinRun(first, q.Leftover(), Slice(cf, q.pos, end.pos), rest[..k], end.Leftover());
      } else if end == q && rest == Silence(cf, |rest|) {
        assert k == 0 by { assert cf.Samples(0) == 0; }
        assert (first + rest)[..h] == first[..h];
        assert (first + rest)[h..] == first[h..] + rest;
      }
    }
  }

  lemma JoinRun(first: seq<real>, left: seq<real>, x: seq<real>, rest: seq<real>, left': seq<real>)
    requires rest + left' == left + x
    ensures first + rest + left' == first + left + x
  {
    assert first + rest + left' == first + (rest + left');
    assert first + left + x == first + (left + x);
  }

  lemma AlignedTail(cf: Config, requests: seq<positive>)
    requires cf.channels > 0 && requests != [] && Aligned(cf, requests)
    ensures requests[0] % cf.channels == 0 && Aligned(cf, requests[1..])
  {
    assert requests[0] in requests;
    forall n | n in requests[1..] ensures n % cf.channels == 0 {
      assert n in requests;
    }
  }

  lemma {:induction false} TerminatedStays(cf: Config, p: Player, requests: seq<positive>)
    requires Valid(cf, p)
    ensures p.status != PLAYING ==>
              Play(cf, p, requests).1 == p && Play(cf, p, requests).0 == Silence(cf, Total(requests))
    decreases |requests|
  {
    if requests != [] && p.status != PLAYING {
      TerminatedStays(cf, p, requests[1..]);
      assert Silence(cf, requests[0]) + Silence(cf, Total(requests[1..])) == Silence(cf, Total(requests));
    }
  }

  lemma DivideSum(a: nat, b: nat, d: nat)
    requires d > 0 && a % d == 0
    ensures (a + b) / d == a / d + b / d && (a + b) % d == b % d
  {
    assert a + b == d * (a / d + b / d) + b % d;
    DivModUnique(a + b, d, a / d + b / d, b % d);
  }

  /** The location moves by what was heard. */
  lemma RequestMovesLocation(cf: Config, p: Player, q: Player)
    requires cf.Valid() && p.pos <= q.pos <= cf.length && LocationExact(cf, p) && LocationExact(cf, q)
    requires |p.Leftover()| % cf.channels == 0 && |q.Leftover()| % cf.channels == 0 && Heard(cf, p, q) >= 0
    ensures q.Location() == p.Location() + Heard(cf, p, q) / cf.channels
  {
    SamplesDivide(cf, q.pos - p.pos);
    DivideSum(|p.Leftover()|, cf.Samples(q.pos - p.pos), cf.channels);
    DivideSum(|q.Leftover()|, Heard(cf, p, q), cf.channels);
  }

  // ------------------------------------------------------------------------------------------ the whole material

  lemma {:induction false} DrainAll(cf: Config, p: Player, acc: seq<real>, from: int, k: nat)
    requires Unlooped(cf, p) && StatusFits(cf, p) && from <= p.pos && !GoesOn(cf, p, from, k)
    ensures var (data, q) := Drain(cf, p, acc, from, k);
            data == acc + Slice(cf, p.pos, cf.length) && q.status == TERMINATED
    decreases k
  {
    hide LoadNext, ClipFrame, Slice;
    if p.status == PLAYING {
      UnloopedStep(cf, p);
      LoadNextProgress(cf, p);
      var (f, q) := LoadNext(cf, p);
      DrainAll(cf, q, acc + f.data, from, k - 1);
      SliceAppend(cf, acc, p.pos, q.pos, cf.length);
    } else {
      NothingLoads(cf, p);
      SliceNothing(cf, acc, p.pos);
    }
  }

  lemma RemainAll(cf: Config, p: Player)
    requires Unlooped(cf, p) && StatusFits(cf, p) && LocationExact(cf, p)
    ensures Returns(cf, p.(buffer := None), p.Location())
    ensures var (rest, q) := LoadRemain(cf, p);
            rest == Scale(p.Leftover() + Slice(cf, p.pos, cf.length), p.volume) && q.status == TERMINATED
  {
    hide Drain, Slice, GoesOn, DrainMeasure, Scale;
    var p0 := p.(buffer := None);
    DrainableReturns(cf, p0, p.Location());
    var k := DrainMeasure(cf, p0, p.Location()) + 1;
    DrainAll(cf, p0, p.Leftover(), p.Location(), k);
    RemainIs(cf, p, k);
  }

  /** What was heard in a run and what LoadRemain brings then are together the material, exactly once, wherever the run
      ended. What a terminated player has kept only LoadRemain brings out. */
  lemma RunAndRemain(cf: Config, p: Player, requests: seq<positive>)
    requires Unlooped(cf, p) && StatusFits(cf, p) && LocationExact(cf, p) && p.volume == 1.0
    ensures var (out, q) := Play(cf, p, requests);
            p.pos <= q.pos && 0 <= Heard(cf, p, q) <= |out| && Returns(cf, q.(buffer := None), q.Location()) &&
            out[..Heard(cf, p, q)] + LoadRemain(cf, q).0 == p.Leftover() + Slice(cf, p.pos, cf.length)
  {
    hide Slice, LoadRemain, Play, Config.Samples, Heard, Scale, Returns;
    UnloopedRun(cf, p, requests);
    var (out, q) := Play(cf, p, requests);
    RemainAll(cf, q);
    ScaleByOne(q.Leftover() + Slice(cf, q.pos, cf.length));
    Assoc(out[..Heard(cf, p, q)], q.Leftover(), Slice(cf, q.pos, cf.length));
    SliceAppend(cf, p.Leftover(), p.pos, q.pos, cf.length);
  }

  lemma RequestAllHeard(cf: Config, p: Player, n: nat)
    requires Unlooped(cf, p) && p.status == PLAYING && 0 < n <= |p.Leftover()| + cf.Samples(cf.length - p.pos)
    ensures var q := LoadPCM(cf, p, n).1;
            p.pos <= q.pos <= cf.length && Heard(cf, p, q) == n
  {
    hide LoadPCM, Slice, Config.Samples, LocationExact, Padded;
    UnloopedRequest(cf, p, n);
  }

  /** As long as no more is asked for than there is, all of the output is heard. */
  lemma {:induction false} AllHeard(cf: Config, p: Player, requests: seq<positive>)
    requires Unlooped(cf, p) && p.status == PLAYING && LocationExact(cf, p) && requests != []
    requires Play(cf, p, requests[..|requests| - 1]).1.status == PLAYING
    requires Total(requests) <= |p.Leftover()| + cf.Samples(cf.length - p.pos)
    ensures var (out, q) := Play(cf, p, requests);
            p.pos <= q.pos && Heard(cf, p, q) == |out|
    decreases |requests|
  {
    hide LoadPCM, Slice, Config.Samples, HeardInOrder, LocationExact, Unlooped, Scale, Padded, Surplus;
    UnloopedFacts(cf, p);
    var (out, end) := Play(cf, p, requests);
    UnloopedRun(cf, p, requests);
    var n := requests[0];
    RequestAllHeard(cf, p, n);
    UnloopedRequest(cf, p, n);
    var q := LoadPCM(cf, p, n).1;
    UnloopedFacts(cf, q);
    if |requests| > 1 {
      var tail := requests[1..];
      PlayedFirst(cf, p, requests[..|requests| - 1]);
      assert requests[..|requests| - 1][1..] == tail[..|tail| - 1];
      TerminatedStays(cf, q, tail[..|tail| - 1]);
      SamplesAdd(cf, q.pos - p.pos, cf.length - q.pos);
      AllHeard(cf, q, tail);
      SamplesAdd(cf, q.pos - p.pos, end.pos - q.pos);
    } else {
      assert requests[1..] == [];
    }
  }

  lemma PlayedFirst(cf: Config, p: Player, requests: seq<positive>)
    requires Valid(cf, p) && requests != []
    ensures var q := LoadPCM(cf, p, requests[0]).1;
            Valid(cf, q) && Play(cf, p, requests).1 == Play(cf, q, requests[1..]).1
  {
    hide LoadPCM;
    LoadPCMKeepsValid(cf, p, requests[0]);
  }
}
