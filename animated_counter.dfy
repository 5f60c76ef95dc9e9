/**
 * The animated counter: once its element scrolls into view, it counts from
 * `from` to `to` over `duration` seconds, one animation frame at a time, and
 * then never animates again.
 */
module AnimatedCounter {

  lemma MulLeReal(a: real, b: real, c: real)
    requires 0.0 <= c && a <= b
    ensures a * c <= b * c
  {
  }

  /** The fraction of the animation elapsed at `timestamp`, capped at 1. */
  function Progress(timestamp: real, start: real, duration: real): (p: real)
    requires duration > 0.0
    ensures p <= 1.0
    ensures start <= timestamp ==> 0.0 <= p
    ensures p == 1.0 <==> duration * 1000.0 <= timestamp - start
    ensures p < 1.0 ==> p * (duration * 1000.0) == timestamp - start
  {
    var elapsed := (timestamp - start) / (duration * 1000.0);
    if elapsed < 1.0 then elapsed else 1.0
  }

  lemma NegTimesPos(x: real, d: real)
    requires d > 0.0
    ensures x < 0.0 ==> x * d < 0.0
  {
  }

  /** Dividing by a positive number keeps the order. */
  lemma DivMono(a: real, b: real, d: real)
    requires d > 0.0 && a <= b
    ensures a / d <= b / d
  {
    var e := (b - a) / d;
    assert e * d == b - a;
    NegTimesPos(e, d);
    assert b / d - a / d == e;
  }

  /** Progress grows with the timestamp. */
  lemma ProgressMonotone(t1: real, t2: real, start: real, duration: real)
    requires duration > 0.0 && t1 <= t2
    ensures Progress(t1, start, duration) <= Progress(t2, start, duration)
  {
    DivMono(t1 - start, t2 - start, duration * 1000.0);
  }

  /** The value shown for a progress `p`: `floor(p * (to - from) + from)`. */
  function CurrentCount(p: real, from: int, to: int): (c: int)
    ensures p == 0.0 ==> c == from
    ensures p == 1.0 ==> c == to
    ensures 0.0 <= p <= 1.0 && from <= to ==> from <= c <= to
    ensures 0.0 <= p <= 1.0 && to <= from ==> to <= c <= from
  {
    var span := (to - from) as real;
    CountBounds(p, span);
    (p * span + from as real).Floor
  }

  /** For p in [0, 1] the offset `p * span` lies between 0 and `span`. */
  lemma CountBounds(p: real, span: real)
    ensures 0.0 <= p <= 1.0 && 0.0 <= span ==> 0.0 <= p * span <= span
    ensures 0.0 <= p <= 1.0 && span <= 0.0 ==> span <= p * span <= 0.0
  {
    if 0.0 <= p <= 1.0 {
      if 0.0 <= span {
        MulLeReal(0.0, p, span);
        MulLeReal(p, 1.0, span);
      } else {
        MulLeReal(0.0, p, -span);
        MulLeReal(p, 1.0, -span);
      }
    }
  }

  lemma FloorMono(x: real, y: real)
    requires x <= y
    ensures x.Floor <= y.Floor
  {
  }

  /** Counting up, a later progress never shows a smaller number. */
  lemma CountMonotone(p1: real, p2: real, from: int, to: int)
    requires p1 <= p2 && from <= to
    ensures CurrentCount(p1, from, to) <= CurrentCount(p2, from, to)
  {
    var span := (to - from) as real;
    MulLeReal(p1, p2, span);
    FloorMono(p1 * span + from as real, p2 * span + from as real);
  }

  /** The counter component's state. `startTime == 0.0` stands for the
      effect's `startTime` not yet captured: like the component's falsy test,
      a frame at timestamp 0 leaves it uncaptured. `scheduled` says whether an
      animation frame is pending. */
  class Counter {
    const from: int
    const to: int
    const duration: real
    var count: int
    var hasAnimated: bool
    var scheduled: bool
    var startTime: real

    ghost predicate Valid()
      reads this
    {
      && duration > 0.0
      && (hasAnimated ==> count == to)
      && (hasAnimated ==> !scheduled)
    }

    /** A mounted counter shows `from` and has not animated. */
    constructor(from: int, to: int, duration: real)
      requires duration > 0.0
      ensures Valid()
      ensures this.from == from && this.to == to && this.duration == duration
      ensures count == from && !hasAnimated && !scheduled && startTime == 0.0
    {
      this.from := from;
      this.to := to;
      this.duration := duration;
      count := from;
      hasAnimated := false;
      scheduled := false;
      startTime := 0.0;
    }

    /** The effect, run when the element's visibility or `hasAnimated`
        changes: the previous run's pending frame is cancelled, and a new
        animation is started only when the element is in view and has not
        animated yet. */
    method Effect(isInView: bool)
      requires Valid()
      modifies this
      ensures Valid()
      ensures count == old(count) && hasAnimated == old(hasAnimated)
      ensures scheduled <==> isInView && !hasAnimated
      ensures scheduled ==> startTime == 0.0
      ensures !scheduled ==> startTime == old(startTime)
    {
      scheduled := false;
      if !isInView || hasAnimated {
        return;
      }
      startTime := 0.0;
      scheduled := true;
    }

    /** One animation frame at `timestamp`: capture the start time on the
        first frame, show the count for the progress so far, and either ask
        for another frame or finish. */
    method Step(timestamp: real)
      requires Valid() && scheduled
      modifies this
      ensures Valid()
      ensures startTime == if old(startTime) == 0.0 then timestamp else old(startTime)
      ensures count == CurrentCount(Progress(timestamp, startTime, duration), from, to)
      ensures scheduled <==> Progress(timestamp, startTime, duration) < 1.0
      ensures hasAnimated <==> Progress(timestamp, startTime, duration) == 1.0
    {
      if startTime == 0.0 {
        startTime := timestamp;
      }
      var progress := Progress(timestamp, startTime, duration);
      count := CurrentCount(progress, from, to);
      if progress < 1.0 {
        scheduled := true;
      } else {
        hasAnimated := true;
        scheduled := false;
      }
    }

    /** Runs frames at the given timestamps for as long as the animation asks
        for them; `used` is how many it consumed. The animation ends showing
        `to`, and it ends within the frames given as soon as one of them is at
        least `duration` seconds after a non-zero first one. */
    method Play(frames: seq<real>) returns (used: nat)
      requires Valid() && scheduled && startTime == 0.0
      modifies this
      ensures Valid()
      ensures used <= |frames|
      ensures !scheduled <==> hasAnimated
      ensures hasAnimated ==> count == to
      ensures (exists k :: 0 <= k < |frames| && 0.0 < frames[0] &&
                duration * 1000.0 <= frames[k] - frames[0]) ==> hasAnimated
    {
      used := 0;
      while used < |frames| && scheduled
        invariant Valid()
        invariant used <= |frames|
        invariant !scheduled <==> hasAnimated
        invariant used == 0 ==> scheduled && startTime == 0.0
        invariant 0 < used && 0.0 < frames[0] ==> startTime == frames[0]
        invariant scheduled && 0 < |frames| && 0.0 < frames[0] ==>
                    forall k :: 0 <= k < used ==> frames[k] - frames[0] < duration * 1000.0
        decreases |frames| - used
      {
        Step(frames[used]);
        used := used + 1;
      }
    }
  }
}
