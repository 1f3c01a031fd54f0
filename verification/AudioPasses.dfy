/** How the decoder goes through a loop window pass by pass, and when a loop count is used up. A pass whose last frame
    does not start behind the front of the window, as one frame from the front to the end, is not counted. */
module AudioPasses {
  import opened Audio

  datatype Window = Window(cf: Config, lo: nat, end: nat)

  /** Where the next frame starts, and how often the decoder has been called. */
  datatype Spot = Spot(next: nat, tick: nat)

  /** In the window, or still in front of it. */
  predicate Inside(w: Window, s: Spot) {
    w.lo < w.end && s.next < w.end
  }

  /** How much of the next frame lies in front of the end of the window. */
  function Taken(w: Window, s: Spot): (n: nat)
    requires Inside(w, s)
    ensures 1 <= n <= w.end - s.next
  {
    var n := w.cf.frameLen(s.tick, s.next);
    if n == 0 then 1 else if n > w.end - s.next then w.end - s.next else n
  }

  function Step(w: Window, s: Spot): (r: Spot)
    requires Inside(w, s)
    ensures Inside(w, r)
  {
    var to := s.next + Taken(w, s);
    Spot(if to == w.end then w.lo else to, s.tick + 1)
  }

  /** Back at the front, behind the current pass. */
  function EndOfPass(w: Window, s: Spot): (r: Spot)
    requires Inside(w, s)
    ensures Inside(w, r) && r.next == w.lo
    decreases w.end - s.next
  {
    if s.next + Taken(w, s) == w.end then Step(w, s) else EndOfPass(w, Step(w, s))
  }

  /** Does the last frame of the pass start at the front of the window or before it? */
  predicate Uncounted(w: Window, s: Spot)
    requires Inside(w, s)
    decreases w.end - s.next
  {
    if s.next + Taken(w, s) == w.end then s.next <= w.lo else Uncounted(w, Step(w, s))
  }

  predicate OneFrame(w: Window, s: Spot)
    requires Inside(w, s)
  {
    s.next == w.lo && Taken(w, s) == w.end - w.lo
  }

  /** From the front on that is one frame, from behind it none. */
  lemma {:induction false} UncountedPass(w: Window, s: Spot)
    requires Inside(w, s) && s.next >= w.lo
    ensures Uncounted(w, s) <==> OneFrame(w, s)
    decreases w.end - s.next
  {
    if s.next + Taken(w, s) < w.end {
      UncountedPass(w, Step(w, s));
    }
  }

  /** How many of the next `m` passes, the current one first, are counted. */
  function Counting(w: Window, s: Spot, m: nat): (n: nat)
    requires Inside(w, s)
    ensures n <= m
    decreases m
  {
    if m == 0 then 0 else (if Uncounted(w, s) then 0 else 1) + Counting(w, EndOfPass(w, s), m - 1)
  }

  /** With `left` counts to go, does the playback end behind exactly `m` more passes? */
  predicate EndsAfter(w: Window, s: Spot, left: int, m: nat)
    requires Inside(w, s)
    decreases m
  {
    if left < 0 then m == 0
    else m > 0 && EndsAfter(w, EndOfPass(w, s), if Uncounted(w, s) then left else left - 1, m - 1)
  }

  lemma {:induction false} EndsOnce(w: Window, s: Spot, left: int, m: nat, k: nat)
    requires Inside(w, s) && EndsAfter(w, s, left, m) && EndsAfter(w, s, left, k)
    ensures m == k
    decreases m
  {
    if left >= 0 {
      EndsOnce(w, EndOfPass(w, s), if Uncounted(w, s) then left else left - 1, m - 1, k - 1);
    }
  }

  /** A frame that does not reach the end of the window leaves the pass what it is; one that does ends it. */
  lemma StepEnds(w: Window, s: Spot, left: int, m: nat)
    requires Inside(w, s) && left >= 0
    ensures s.next + Taken(w, s) < w.end ==> (EndsAfter(w, Step(w, s), left, m) <==> EndsAfter(w, s, left, m))
    ensures s.next + Taken(w, s) == w.end ==>
              (EndsAfter(w, Step(w, s), if s.next <= w.lo then left else left - 1, m) <==> EndsAfter(w, s, left, m + 1))
  {
  }

  /** The playback ends behind the first passes among which there are as many counted ones as it takes. */
  lemma {:induction false} EndsWhenCounted(w: Window, s: Spot, left: int, m: nat)
    requires Inside(w, s) && left >= -1
    ensures EndsAfter(w, s, left, m) <==> Counting(w, s, m) == left + 1 && (m > 0 ==> Counting(w, s, m - 1) == left)
    decreases m
  {
    hide EndOfPass, Uncounted;
    if left >= 0 && m > 0 {
      EndsWhenCounted(w, EndOfPass(w, s), if Uncounted(w, s) then left else left - 1, m - 1);
    }
  }

  /** It ends at all if there are enough counted passes. */
  lemma {:induction false} EndsBy(w: Window, s: Spot, left: int, m: nat) returns (k: nat)
    requires Inside(w, s) && left >= -1 && Counting(w, s, m) > left
    ensures EndsAfter(w, s, left, k)
    decreases m
  {
    if left < 0 {
      return 0;
    }
    k := EndsBy(w, EndOfPass(w, s), if Uncounted(w, s) then left else left - 1, m - 1);
    k := k + 1;
  }

  lemma {:induction false} CountingGrows(w: Window, s: Spot, m: nat)
    requires Inside(w, s)
    ensures Counting(w, s, m) <= Counting(w, s, m + 1) <= Counting(w, s, m) + 1
    decreases m
  {
    if m > 0 {
      CountingGrows(w, EndOfPass(w, s), m - 1);
    }
  }

  /** Does no frame from the front of the window reach its end? */
  ghost predicate NoneOneFrame(w: Window) {
    w.end - w.lo >= 2 && forall t :: w.cf.frameLen(t, w.lo) < w.end - w.lo
  }

  ghost predicate Steady(w: Window) {
    forall t, u :: w.cf.frameLen(t, w.lo) == w.cf.frameLen(u, w.lo)
  }

  /** Where all frames from the front are alike, all full passes count or none does. */
  lemma {:induction false} SteadyCounting(w: Window, s: Spot, m: nat)
    requires Inside(w, s) && s.next == w.lo && (Steady(w) || NoneOneFrame(w))
    ensures OneFrame(w, s) <==> !NoneOneFrame(w)
    ensures Counting(w, s, m) == if NoneOneFrame(w) then m else 0
    decreases m
  {
    UncountedPass(w, s);
    assert w.cf.frameLen(s.tick, w.lo) == w.cf.frameLen(s.tick, w.lo);
    if !NoneOneFrame(w) && w.end - w.lo >= 2 {
      var t :| w.cf.frameLen(t, w.lo) >= w.end - w.lo;
      assert w.cf.frameLen(s.tick, w.lo) == w.cf.frameLen(t, w.lo);
    }
    if m > 0 {
      SteadyCounting(w, EndOfPass(w, s), m - 1);
    }
  }
}
