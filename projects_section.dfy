/**
 * The featured-project carousel of the projects section: the project list,
 * its split into the carousel (featured) and the grid (the others), and the
 * carousel's `activeIndex`/`direction` state with its next, previous and
 * dot-click handlers.
 */
module ProjectsSection {

  /** A project card; description, image, tags and links are presentational. */
  datatype Project = Project(id: nat, title: string, featured: bool)

  /** The portfolio's project list, in display order. */
  const Projects: seq<Project> := [
    Project(1, "AI Vision Analytics", true),
    Project(2, "NLP Sentiment Engine", true),
    Project(3, "Smart IoT Dashboard", true),
    Project(4, "Reinforcement Learning Game AI", false),
    Project(5, "Blockchain Data Analytics", false),
    Project(6, "Autonomous Drone Navigation", false)
  ]

  // ---------------------------------------------------------------------
  // Filtering
  // ---------------------------------------------------------------------

  /** The projects of `ps` whose `featured` flag equals `featured`, in order. */
  function Filter(ps: seq<Project>, featured: bool): (r: seq<Project>)
    ensures |r| <= |ps|
    ensures forall k :: 0 <= k < |r| ==> r[k].featured == featured
  {
    if ps == [] then []
    else (if ps[0].featured == featured then [ps[0]] else []) + Filter(ps[1..], featured)
  }

  /** The carousel's list. */
  function FeaturedProjects(ps: seq<Project>): seq<Project>
  {
    Filter(ps, true)
  }

  /** The grid's list. */
  function OtherProjects(ps: seq<Project>): seq<Project>
  {
    Filter(ps, false)
  }

  /** Filtering a concatenation filters each part and keeps them in order. */
  lemma {:induction false} FilterAppend(a: seq<Project>, b: seq<Project>, featured: bool)
    ensures Filter(a + b, featured) == Filter(a, featured) + Filter(b, featured)
  {
    if a != [] {
      assert (a + b)[0] == a[0];
      assert (a + b)[1..] == a[1..] + b;
      FilterAppend(a[1..], b, featured);
    } else {
      assert a + b == b;
    }
  }

  /** Each project occurs in the filtered list exactly as often as in the
      whole list when its flag matches, and not at all otherwise. */
  lemma {:induction false} FilterCount(ps: seq<Project>, featured: bool, p: Project)
    ensures multiset(Filter(ps, featured))[p] ==
            if p.featured == featured then multiset(ps)[p] else 0
  {
    if ps != [] {
      var head := if ps[0].featured == featured then [ps[0]] else [];
      assert Filter(ps, featured) == head + Filter(ps[1..], featured);
      FilterCount(ps[1..], featured, p);
      assert ps == [ps[0]] + ps[1..];
      assert multiset(ps) == multiset{ps[0]} + multiset(ps[1..]);
      assert multiset(Filter(ps, featured)) == multiset(head) + multiset(Filter(ps[1..], featured));
    }
  }

  /** The carousel and the grid together hold every project exactly once
      each time it occurs in the list, and share none. */
  lemma Partition(ps: seq<Project>)
    ensures multiset(FeaturedProjects(ps)) + multiset(OtherProjects(ps)) == multiset(ps)
    ensures forall p :: p in FeaturedProjects(ps) ==> p !in OtherProjects(ps)
  {
    forall p
      ensures (multiset(FeaturedProjects(ps)) + multiset(OtherProjects(ps)))[p] == multiset(ps)[p]
    {
      FilterCount(ps, true, p);
      FilterCount(ps, false, p);
    }
    forall p | p in FeaturedProjects(ps)
      ensures p !in OtherProjects(ps)
    {
      FilterCount(ps, false, p);
      assert p.featured;
    }
  }

  /** A list whose projects all match keeps every one of them; one with no
      match yields nothing. */
  lemma {:induction false} FilterUniform(ps: seq<Project>, featured: bool)
    ensures (forall k :: 0 <= k < |ps| ==> ps[k].featured == featured) ==> Filter(ps, featured) == ps
    ensures (forall k :: 0 <= k < |ps| ==> ps[k].featured != featured) ==> Filter(ps, featured) == []
  {
    if ps != [] {
      FilterUniform(ps[1..], featured);
      assert forall k :: 1 <= k < |ps| ==> ps[1..][k - 1] == ps[k];
      if ps[0].featured == featured {
        assert ps == [ps[0]] + ps[1..];
      }
    }
  }

  /** On the portfolio's list the carousel shows the first three projects and
      the grid the last three. */
  lemma SiteLists()
    ensures FeaturedProjects(Projects) == Projects[..3]
    ensures OtherProjects(Projects) == Projects[3..]
    ensures |FeaturedProjects(Projects)| == 3
  {
  }

  // ---------------------------------------------------------------------
  // Index arithmetic
  // ---------------------------------------------------------------------

  lemma MulMono(a: int, b: int, n: int)
    requires n > 0 && a <= b
    ensures a * n <= b * n
  {
  }

  /** The Euclidean remainder is the only `r` in [0, n) with x == q * n + r. */
  lemma ModUnique(x: int, n: int, q: int, r: int)
    requires n > 0 && 0 <= r < n && x == q * n + r
    ensures x % n == r
  {
    var q', r' := x / n, x % n;
    assert x == q' * n + r';
    if q > q' {
      MulMono(q' + 1, q, n);
    } else if q < q' {
      MulMono(q + 1, q', n);
    }
  }

  lemma ModSmall(a: int, n: int)
    requires n > 0 && 0 <= a
    ensures a < n ==> a % n == a
    ensures n <= a < 2 * n ==> a % n == a - n
  {
    if a < n {
      ModUnique(a, n, 0, a);
    } else if a < 2 * n {
      ModUnique(a, n, 1, a - n);
    }
  }

  /** JavaScript's `%`: the remainder takes the sign of the dividend, so a
      small negative dividend is returned as it is. */
  function JsRem(a: int, n: int): (r: int)
    requires n > 0
    ensures -n < r < n
    ensures 0 <= a ==> 0 <= r
    ensures a < 0 ==> r <= 0
    ensures -n < a < n ==> r == a
    ensures n <= a < 2 * n ==> r == a - n
  {
    if 0 <= a then
      ModSmall(a, n);
      a % n
    else
      ModSmall(-a, n);
      -((-a) % n)
  }

  /** `nextProject`'s index update: `(prev + 1) % n`. */
  function NextIndex(prev: int, n: int): (r: int)
    requires n > 0
    ensures 0 <= prev < n ==> 0 <= r < n && r == (if prev == n - 1 then 0 else prev + 1)
  {
    JsRem(prev + 1, n)
  }

  /** `prevProject`'s index update: `(prev - 1 + n) % n`. */
  function PrevIndex(prev: int, n: int): (r: int)
    requires n > 0
    ensures 0 <= prev < n ==> 0 <= r < n && r == (if prev == 0 then n - 1 else prev - 1)
  {
    JsRem(prev - 1 + n, n)
  }

  /** Next then previous, or previous then next, restores the index. */
  lemma NextPrevInverse(i: int, n: int)
    requires n > 0 && 0 <= i < n
    ensures PrevIndex(NextIndex(i, n), n) == i
    ensures NextIndex(PrevIndex(i, n), n) == i
  {
  }

  /** Adding one to a non-negative number moves its remainder one place
      round the cycle. */
  lemma ModNext(x: int, n: int)
    requires n > 0 && 0 <= x
    ensures (x + 1) % n == NextIndex(x % n, n)
  {
    var q, m := x / n, x % n;
    assert x == q * n + m;
    if m == n - 1 {
      assert x + 1 == (q + 1) * n + 0;
      ModUnique(x + 1, n, q + 1, 0);
    } else {
      ModUnique(x + 1, n, q, m + 1);
    }
  }

  /** The index after `k` presses of the next button. */
  function Advance(i: int, k: nat, n: int): int
    requires n > 0
  {
    if k == 0 then i else NextIndex(Advance(i, k - 1, n), n)
  }

  /** `k` presses of next move the index `k` places round the cycle. */
  lemma {:induction false} AdvanceShift(i: int, k: nat, n: int)
    requires n > 0 && 0 <= i < n
    ensures Advance(i, k, n) == (i + k) % n
  {
    if k > 0 {
      AdvanceShift(i, k - 1, n);
      ModNext(i + k - 1, n);
    }
  }

  /** `n` presses of next bring the carousel back where it started. */
  lemma FullCycle(i: int, n: int)
    requires n > 0 && 0 <= i < n
    ensures Advance(i, n, n) == i
  {
    AdvanceShift(i, n, n);
    ModUnique(i + n, n, 1, i);
  }

  /** The direction a dot click at `index` sets. */
  function DotDirection(index: int, active: int): (d: int)
    ensures d == 1 || d == -1
    ensures d == 1 <==> active < index
  {
    if index > active then 1 else -1
  }

  // ---------------------------------------------------------------------
  // The carousel state
  // ---------------------------------------------------------------------

  /** The component state behind the featured-project carousel. */
  class Carousel {
    const featured: seq<Project>
    var activeIndex: int
    var direction: int

    ghost predicate Valid()
      reads this
    {
      && |featured| > 0
      && (forall k :: 0 <= k < |featured| ==> featured[k].featured)
      && 0 <= activeIndex < |featured|
      && -1 <= direction <= 1
    }

    /** A freshly mounted section shows the first featured project, with no
        direction yet. */
    constructor()
      ensures Valid()
      ensures featured == FeaturedProjects(Projects) && |featured| == 3
      ensures activeIndex == 0 && direction == 0
    {
      SiteLists();
      featured := FeaturedProjects(Projects);
      activeIndex := 0;
      direction := 0;
    }

    /** The project on display. */
    function Active(): (p: Project)
      reads this
      requires Valid()
      ensures p in featured && p.featured
    {
      featured[activeIndex]
    }

    /** The right-arrow handler. */
    method Next()
      requires Valid()
      modifies this
      ensures Valid()
      ensures direction == 1
      ensures activeIndex == NextIndex(old(activeIndex), |featured|)
    {
      direction := 1;
      activeIndex := NextIndex(activeIndex, |featured|);
    }

    /** The left-arrow handler. */
    method Prev()
      requires Valid()
      modifies this
      ensures Valid()
      ensures direction == -1
      ensures activeIndex == PrevIndex(old(activeIndex), |featured|)
    {
      direction := -1;
      activeIndex := PrevIndex(activeIndex, |featured|);
    }

    /** The pagination-dot handler for the dot at `index`. */
    method GoTo(index: int)
      requires Valid() && 0 <= index < |featured|
      modifies this
      ensures Valid()
      ensures direction == DotDirection(index, old(activeIndex))
      ensures activeIndex == index
    {
      direction := DotDirection(index, activeIndex);
      activeIndex := index;
    }
  }

  /** Pressing next and then previous shows the same project again, heading left. */
  method NextThenPrev(c: Carousel)
    requires c.Valid()
    modifies c
    ensures c.Valid()
    ensures c.activeIndex == old(c.activeIndex) && c.direction == -1
  {
    var before := c.activeIndex;
    c.Next();
    c.Prev();
    NextPrevInverse(before, |c.featured|);
  }
}
