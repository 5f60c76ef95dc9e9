/** The particle field drawn behind the portfolio page: a set of drifting
    particles that wrap at the canvas edges, are pushed away from the pointer
    while it hovers, and are joined by faint lines when two of them are close.

    Positions and alphas are exact reals.  Random draws are inputs in [0, 1),
    and the square root the source takes of a squared distance is an input
    function `sqrt` constrained by `IsSqrt`. */
module ParticleField {

  /** One particle.  `x`, `y` and `alpha` are rewritten every frame; the
      other fields are fixed when the particle is created. */
  datatype Particle = Particle(
    x: real, y: real,
    size: real,
    speedX: real, speedY: real,
    color: string,
    alpha: real,
    originalAlpha: real)

  /** The six uniform draws one particle consumes, in the order they are made. */
  datatype Draws = Draws(size: real, alpha: real, x: real, y: real, speedX: real, speedY: real)

  /** A connection line between particles `i` and `j`, with its stroke opacity. */
  datatype Link = Link(i: nat, j: nat, opacity: real)

  const White := "#ffffff"
  /** Pointer distance within which particles are pushed and brightened. */
  const InteractionRadius: real := 200.0
  /** Particle distance below which a connection line is drawn. */
  const LinkRadius: real := 100.0

  function ParticleCount(isMobile: bool): nat
  {
    if isMobile then 50 else 150
  }

  predicate Unit(r: real)
  {
    0.0 <= r < 1.0
  }

  predicate ValidDraws(d: Draws)
  {
    Unit(d.size) && Unit(d.alpha) && Unit(d.x) && Unit(d.y) && Unit(d.speedX) && Unit(d.speedY)
  }

  /** `sqrt` returns the non-negative square root of every non-negative real. */
  ghost predicate IsSqrt(sqrt: real -> real)
  {
    forall s :: 0.0 <= s ==> 0.0 <= sqrt(s) && sqrt(s) * sqrt(s) == s
  }

  /** The fields a particle keeps for its whole life lie in their creation ranges. */
  predicate Created(p: Particle)
  {
    && 1.0 <= p.size < 3.0
    && -0.15 <= p.speedX < 0.15
    && -0.15 <= p.speedY < 0.15
    && 0.1 <= p.originalAlpha < 0.6
    && p.color == White
  }

  /** The field invariant: fixed fields in range, and the alpha is either the
      original one or exactly twice it (never clamped to 1). */
  predicate WellFormed(p: Particle)
  {
    Created(p) && (p.alpha == p.originalAlpha || p.alpha == 2.0 * p.originalAlpha)
  }

  /** Only `x`, `y` and `alpha` differ between `p` and `q`. */
  predicate SameFixedFields(p: Particle, q: Particle)
  {
    && q.size == p.size
    && q.speedX == p.speedX && q.speedY == p.speedY
    && q.color == p.color
    && q.originalAlpha == p.originalAlpha
  }

  /** The squared Euclidean distance between (ax, ay) and (bx, bY). */
  function SqDist(ax: real, ay: real, bx: real, bY: real): (r: real)
    ensures 0.0 <= r
  {
    (ax - bx) * (ax - bx) + (ay - bY) * (ay - bY)
  }

  lemma MulLe(a: real, b: real, c: real)
    requires 0.0 <= a && b <= c
    ensures a * b <= a * c
  {
  }

  lemma MulLt(a: real, b: real, c: real)
    requires 0.0 < a && b < c
    ensures a * b < a * c
  {
  }

  /** A root below a positive bound is the same as a square below the bound's square. */
  lemma RootBelow(d: real, s: real, bound: real)
    requires 0.0 <= d && d * d == s && 0.0 < bound
    ensures d < bound <==> s < bound * bound
  {
    if d < bound {
      calc {
        s;
      ==
        d * d;
      <= { MulLe(d, d, bound); }
        d * bound;
      ==
        bound * d;
      < { MulLt(bound, d, bound); }
        bound * bound;
      }
    } else {
      MulLe(bound, bound, d);
      MulLe(d, bound, d);
      assert bound * d == d * bound;
    }
  }

  /** The only non-negative root of a square `r * r` (with `r >= 0`) is `r`. */
  lemma RootOfSquare(sqrt: real -> real, r: real)
    requires IsSqrt(sqrt) && 0.0 <= r
    ensures sqrt(r * r) == r
  {
    var d := sqrt(r * r);
    assert d * d == r * r;
    if d < r {
      calc {
        d * d;
      <= { MulLe(d, d, r); }
        d * r;
      ==
        r * d;
      < { MulLt(r, d, r); }
        r * r;
      }
    } else if r < d {
      calc {
        r * r;
      <= { MulLe(r, r, d); }
        r * d;
      ==
        d * r;
      < { MulLt(d, r, d); }
        d * d;
      }
    }
  }

  /** A particle made from one set of draws on a `width` by `height` canvas:
      the size, speed and alpha ranges of the design, the position on the
      canvas, and the alpha starting at its original value. */
  function NewParticle(d: Draws, width: real, height: real): (p: Particle)
    requires ValidDraws(d) && 0.0 <= width && 0.0 <= height
    ensures Created(p) && p.alpha == p.originalAlpha
    ensures 0.0 <= p.x <= width && (0.0 < width ==> p.x < width)
    ensures 0.0 <= p.y <= height && (0.0 < height ==> p.y < height)
  {
    var x := Scale(d.x, width);
    var y := Scale(d.y, height);
    var size := d.size * 2.0 + 1.0;
    var alpha := d.alpha * 0.5 + 0.1;
    Particle(
      x, y,
      size,
      (d.speedX - 0.5) * 0.3, (d.speedY - 0.5) * 0.3,
      White,
      alpha, alpha)
  }

  /** A draw from [0, 1) scaled to [0, w): lands in [0, w], and below `w` when `w` is positive. */
  function Scale(r: real, w: real): (v: real)
    requires Unit(r) && 0.0 <= w
    ensures 0.0 <= v <= w && (0.0 < w ==> v < w)
  {
    ScaleBounds(r, w);
    r * w
  }

  lemma ScaleBounds(r: real, w: real)
    requires Unit(r) && 0.0 <= w
    ensures 0.0 <= r * w <= w && (0.0 < w ==> r * w < w)
  {
    MulLe(w, 0.0, r);
    MulLe(w, r, 1.0);
    if 0.0 < w {
      MulLt(w, r, 1.0);
    }
    assert w * r == r * w;
  }

  /** The boundary rule on one axis: a coordinate past the far edge restarts
      at 0, one below 0 restarts at the far edge, any other stays. */
  function Wrap(v: real, bound: real): (r: real)
    ensures r == v || r == 0.0 || r == bound
    ensures 0.0 <= v <= bound ==> r == v
    ensures 0.0 <= bound ==> 0.0 <= r <= bound
    ensures bound < v ==> r == 0.0
    ensures v < 0.0 && v <= bound ==> r == bound
  {
    if v > bound then 0.0
    else if v < 0.0 then bound
    else v
  }

  /** Advance a particle by its speed and wrap it onto the canvas. */
  function Drift(p: Particle, width: real, height: real): (q: Particle)
    ensures SameFixedFields(p, q) && q.alpha == p.alpha
    ensures q.x == Wrap(p.x + p.speedX, width) && q.y == Wrap(p.y + p.speedY, height)
    ensures 0.0 <= width ==> 0.0 <= q.x <= width
    ensures 0.0 <= height ==> 0.0 <= q.y <= height
  {
    p.(x := Wrap(p.x + p.speedX, width), y := Wrap(p.y + p.speedY, height))
  }

  /** The pointer is within the interaction radius of (x, y), compared on
      squared distances. */
  predicate Near(x: real, y: real, pointerX: real, pointerY: real)
  {
    SqDist(x, y, pointerX, pointerY) < InteractionRadius * InteractionRadius
  }

  /** The fraction of the pointer offset added to a position at distance `d`. */
  function Force(d: real): (f: real)
    requires 0.0 <= d < InteractionRadius
    ensures 0.0 < f <= 0.2
    ensures d == 0.0 ==> f == 0.2
  {
    (1.0 - d / InteractionRadius) * 0.2
  }

  /** The pointer interaction for one particle, with the pointer at
      (pointerX, pointerY) in canvas pixels. */
  function Interact(p: Particle, pointerX: real, pointerY: real, hovering: bool,
                    sqrt: real -> real): (q: Particle)
    requires IsSqrt(sqrt)
    ensures SameFixedFields(p, q)
    ensures q.alpha == if hovering && Near(p.x, p.y, pointerX, pointerY)
                       then 2.0 * p.originalAlpha else p.originalAlpha
    ensures !(hovering && Near(p.x, p.y, pointerX, pointerY)) ==> q.x == p.x && q.y == p.y
  {
    if hovering then
      var dx := p.x - pointerX;
      var dy := p.y - pointerY;
      var distance := sqrt(SqDist(p.x, p.y, pointerX, pointerY));
      RootBelow(distance, SqDist(p.x, p.y, pointerX, pointerY), InteractionRadius);
      if distance < InteractionRadius then
        var force := Force(distance);
        p.(x := p.x + dx * force, y := p.y + dy * force, alpha := p.originalAlpha * 2.0)
      else
        p.(alpha := p.originalAlpha)
    else
      p.(alpha := p.originalAlpha)
  }

  lemma ScaleSquares(k: real, dx: real, dy: real)
    ensures (k * dx) * (k * dx) + (k * dy) * (k * dy) == k * k * (dx * dx + dy * dy)
  {
  }

  lemma NudgeBounds(f: real, s: real)
    requires 0.0 < f <= 0.2 && 0.0 <= s
    ensures s <= (1.0 + f) * (1.0 + f) * s
    ensures f * f * s <= 0.04 * s
  {
    calc {
      f * f;
    <= { MulLe(f, f, 0.2); }
      f * 0.2;
    <=
      0.04;
    }
    MulLe(s, f * f, 0.04);
    assert s * (f * f) == f * f * s;
    MulLe(1.0 + f, 1.0, 1.0 + f);
    MulLe(s, 1.0, (1.0 + f) * (1.0 + f));
    assert s * ((1.0 + f) * (1.0 + f)) == (1.0 + f) * (1.0 + f) * s;
  }

  /** Adding the fraction `f` of the offset from (px, py) to (x, y) does not
      bring the point closer to (px, py), and moves it by at most 0.2 of the offset. */
  lemma NudgeAlgebra(x: real, y: real, px: real, py: real, f: real, qx: real, qy: real)
    requires 0.0 < f <= 0.2
    requires qx == x + (x - px) * f && qy == y + (y - py) * f
    ensures SqDist(x, y, px, py) <= SqDist(qx, qy, px, py)
    ensures SqDist(qx, qy, x, y) <= 0.04 * SqDist(x, y, px, py)
  {
    var dx, dy := x - px, y - py;
    var s := dx * dx + dy * dy;
    assert SqDist(x, y, px, py) == s;
    assert qx - px == (1.0 + f) * dx && qy - py == (1.0 + f) * dy;
    assert qx - x == f * dx && qy - y == f * dy;
    ScaleSquares(1.0 + f, dx, dy);
    ScaleSquares(f, dx, dy);
    assert SqDist(qx, qy, px, py) == (1.0 + f) * (1.0 + f) * s;
    assert SqDist(qx, qy, x, y) == f * f * s;
    NudgeBounds(f, s);
    assert SqDist(qx, qy, x, y) <= 0.04 * s;
    assert SqDist(x, y, px, py) <= SqDist(qx, qy, px, py);
  }

  /** Inside the radius, the nudge adds the fraction `Force(d)` of the
      particle-minus-pointer offset to the position, `d` being the distance
      to the pointer. */
  lemma NudgeShape(p: Particle, pointerX: real, pointerY: real, sqrt: real -> real)
    requires IsSqrt(sqrt)
    requires Near(p.x, p.y, pointerX, pointerY)
    ensures var q := Interact(p, pointerX, pointerY, true, sqrt);
            var d := sqrt(SqDist(p.x, p.y, pointerX, pointerY));
            && 0.0 <= d < InteractionRadius
            && q.x == p.x + (p.x - pointerX) * Force(d)
            && q.y == p.y + (p.y - pointerY) * Force(d)
  {
    var s := SqDist(p.x, p.y, pointerX, pointerY);
    RootBelow(sqrt(s), s, InteractionRadius);
  }

  /** The nudge moves a particle away from the pointer (never closer), and by
      at most a fifth of its distance to it. */
  lemma NudgeMovesAway(p: Particle, pointerX: real, pointerY: real, sqrt: real -> real)
    requires IsSqrt(sqrt)
    requires Near(p.x, p.y, pointerX, pointerY)
    ensures var q := Interact(p, pointerX, pointerY, true, sqrt);
            && SqDist(p.x, p.y, pointerX, pointerY) <= SqDist(q.x, q.y, pointerX, pointerY)
            && SqDist(q.x, q.y, p.x, p.y) <= 0.04 * SqDist(p.x, p.y, pointerX, pointerY)
  {
    var q := Interact(p, pointerX, pointerY, true, sqrt);
    NudgeShape(p, pointerX, pointerY, sqrt);
    var f := Force(sqrt(SqDist(p.x, p.y, pointerX, pointerY)));
    NudgeAlgebra(p.x, p.y, pointerX, pointerY, f, q.x, q.y);
  }

  /** One particle's whole frame update: drift, wrap, then the pointer interaction. */
  function StepParticle(p: Particle, width: real, height: real, mouseX: real, mouseY: real,
                        hovering: bool, sqrt: real -> real): (q: Particle)
    requires IsSqrt(sqrt)
    ensures SameFixedFields(p, q)
    ensures WellFormed(p) ==> WellFormed(q)
    ensures !hovering ==> q.alpha == p.originalAlpha
    ensures var w := Drift(p, width, height);
            var near := Near(w.x, w.y, mouseX * width, mouseY * height);
            && q.alpha == (if hovering && near then 2.0 * p.originalAlpha else p.originalAlpha)
            && (!(hovering && near) ==> q.x == w.x && q.y == w.y)
            && (hovering && near ==> q == Interact(w, mouseX * width, mouseY * height, true, sqrt))
  {
    Interact(Drift(p, width, height), mouseX * width, mouseY * height, hovering, sqrt)
  }

  /** `n` frames of one particle on a canvas of fixed size, with a fixed pointer. */
  function Run(p: Particle, n: nat, width: real, height: real, mouseX: real, mouseY: real,
               hovering: bool, sqrt: real -> real): Particle
    requires IsSqrt(sqrt)
  {
    if n == 0 then p
    else StepParticle(Run(p, n - 1, width, height, mouseX, mouseY, hovering, sqrt),
                      width, height, mouseX, mouseY, hovering, sqrt)
  }

  /** A particle at (5, 300) drifting left at 0.15 per frame on an 800 by 600
      canvas, without hover: after `k <= 33` frames it is at 5 - 0.15 k. */
  lemma {:induction false} DriftLeft(p: Particle, k: nat, mouseX: real, mouseY: real, sqrt: real -> real)
    requires IsSqrt(sqrt)
    requires p.x == 5.0 && p.y == 300.0 && p.speedX == -0.15 && p.speedY == 0.0
    requires k <= 33
    ensures var q := Run(p, k, 800.0, 600.0, mouseX, mouseY, false, sqrt);
            q.x == 5.0 - 0.15 * (k as real) && q.y == 300.0 && SameFixedFields(p, q)
  {
    if k > 0 {
      DriftLeft(p, k - 1, mouseX, mouseY, sqrt);
    }
  }

  /** The same particle reaches x = 0.05 after 33 frames; the 34th frame takes
      it to -0.1, which the wrap sends to exactly the canvas width, 800. */
  lemma WrapToFarEdge(p: Particle, mouseX: real, mouseY: real, sqrt: real -> real)
    requires IsSqrt(sqrt)
    requires p.x == 5.0 && p.y == 300.0 && p.speedX == -0.15 && p.speedY == 0.0
    ensures Run(p, 33, 800.0, 600.0, mouseX, mouseY, false, sqrt).x == 0.05
    ensures Run(p, 34, 800.0, 600.0, mouseX, mouseY, false, sqrt).x == 800.0
  {
    DriftLeft(p, 33, mouseX, mouseY, sqrt);
  }

  // ---------------------------------------------------------------------------
  // Connections

  /** Particles `i` and `j` are closer than the link radius, compared on squares. */
  predicate Close(ps: seq<Particle>, i: nat, j: nat)
    requires i < |ps| && j < |ps|
  {
    SqDist(ps[i].x, ps[i].y, ps[j].x, ps[j].y) < LinkRadius * LinkRadius
  }

  /** The stroke opacity of a line between particles at distance `d`. */
  function LineOpacity(d: real): (o: real)
    ensures 0.0 <= d < LinkRadius ==> 0.0 < o <= 0.2
    ensures d == 0.0 ==> o == 0.2
  {
    (1.0 - d / LinkRadius) * 0.2
  }

  /** The link the pass emits for the pair (i, j), if any. */
  function PairLink(ps: seq<Particle>, i: nat, j: nat, sqrt: real -> real): seq<Link>
    requires i < j < |ps|
  {
    var distance := sqrt(SqDist(ps[i].x, ps[i].y, ps[j].x, ps[j].y));
    if distance < LinkRadius then [Link(i, j, LineOpacity(distance))] else []
  }

  /** Links for the pairs (i, j') with i < j' < j, in the order the inner loop visits them. */
  function RowLinks(ps: seq<Particle>, i: nat, j: nat, sqrt: real -> real): seq<Link>
    requires i < j <= |ps|
    decreases j
  {
    if j == i + 1 then []
    else RowLinks(ps, i, j - 1, sqrt) + PairLink(ps, i, j - 1, sqrt)
  }

  /** Links for every pair whose first index is below `i`. */
  function LinksBelow(ps: seq<Particle>, i: nat, sqrt: real -> real): seq<Link>
    requires i <= |ps|
  {
    if i == 0 then []
    else LinksBelow(ps, i - 1, sqrt) + RowLinks(ps, i - 1, |ps|, sqrt)
  }

  /** Every link the connection pass emits for the particles `ps`, in emission order. */
  function Links(ps: seq<Particle>, sqrt: real -> real): seq<Link>
  {
    LinksBelow(ps, |ps|, sqrt)
  }

  /** A link joins two distinct particles in index order, they are close, and
      its opacity is the line opacity of their distance. */
  predicate LinkOk(ps: seq<Particle>, l: Link, sqrt: real -> real)
  {
    && l.i < l.j < |ps|
    && Close(ps, l.i, l.j)
    && var d := sqrt(SqDist(ps[l.i].x, ps[l.i].y, ps[l.j].x, ps[l.j].y));
       0.0 <= d < LinkRadius && l.opacity == LineOpacity(d)
  }

  /** Every link in `r` joins `i` to some `j'` with i < j' < j. */
  predicate InRow(r: seq<Link>, i: nat, j: nat)
  {
    forall k :: 0 <= k < |r| ==> r[k].i == i && i < r[k].j < j
  }

  /** Every link in `r` starts below `i` and joins two distinct particles of `n`, in index order. */
  predicate FirstBelow(r: seq<Link>, i: nat, n: nat)
  {
    forall k :: 0 <= k < |r| ==> r[k].i < i && r[k].i < r[k].j < n
  }

  predicate AllOk(ps: seq<Particle>, r: seq<Link>, sqrt: real -> real)
  {
    forall k :: 0 <= k < |r| ==> LinkOk(ps, r[k], sqrt)
  }

  predicate HasLink(links: seq<Link>, i: nat, j: nat)
  {
    exists k :: 0 <= k < |links| && links[k].i == i && links[k].j == j
  }

  /** Link `a` comes strictly before link `b` in (i, j) lexicographic order. */
  predicate Before(a: Link, b: Link)
  {
    a.i < b.i || (a.i == b.i && a.j < b.j)
  }

  predicate StrictlyOrdered(links: seq<Link>)
  {
    forall k1, k2 :: 0 <= k1 < k2 < |links| ==> Before(links[k1], links[k2])
  }

  /** Two ordered runs, every link of the first before every link of the
      second, make an ordered run. */
  lemma OrderedAppend(a: seq<Link>, b: seq<Link>)
    requires StrictlyOrdered(a) && StrictlyOrdered(b)
    requires forall k1, k2 :: 0 <= k1 < |a| && 0 <= k2 < |b| ==> Before(a[k1], b[k2])
    ensures StrictlyOrdered(a + b)
  {
    forall k1, k2 | 0 <= k1 < k2 < |a + b|
      ensures Before((a + b)[k1], (a + b)[k2])
    {
      if k2 < |a| {
        assert (a + b)[k1] == a[k1] && (a + b)[k2] == a[k2];
      } else if k1 < |a| {
        assert (a + b)[k1] == a[k1] && (a + b)[k2] == b[k2 - |a|];
      } else {
        assert (a + b)[k1] == b[k1 - |a|] && (a + b)[k2] == b[k2 - |a|];
      }
    }
  }

  /** Appending a row `i` to ordered links that all start below `i` keeps the order. */
  lemma RowAfterRows(x: seq<Link>, y: seq<Link>, i: nat, n: nat, z: seq<Link>)
    requires StrictlyOrdered(x) && StrictlyOrdered(y)
    requires FirstBelow(x, i, n) && InRow(y, i, n) && z == x + y
    ensures StrictlyOrdered(z)
  {
    OrderedAppend(x, y);
  }

  /** Appending row `i` to links that start below `i` gives links that start below `i + 1`. */
  lemma RowAfterRowsIndices(x: seq<Link>, y: seq<Link>, i: nat, n: nat, z: seq<Link>)
    requires FirstBelow(x, i, n) && InRow(y, i, n) && z == x + y
    ensures FirstBelow(z, i + 1, n)
  {
    forall k | 0 <= k < |z|
      ensures z[k].i < i + 1 && z[k].i < z[k].j < n
    {
      if k < |x| {
        assert z[k] == x[k];
      } else {
        assert z[k] == y[k - |x|];
      }
    }
  }

  lemma AllOkAppend(ps: seq<Particle>, x: seq<Link>, y: seq<Link>, z: seq<Link>, sqrt: real -> real)
    requires AllOk(ps, x, sqrt) && AllOk(ps, y, sqrt) && z == x + y
    ensures AllOk(ps, z, sqrt)
  {
    forall k | 0 <= k < |z|
      ensures LinkOk(ps, z[k], sqrt)
    {
      if k < |x| {
        assert z[k] == x[k];
      } else {
        assert z[k] == y[k - |x|];
      }
    }
  }

  lemma HasLinkAppend(a: seq<Link>, b: seq<Link>, i: nat, j: nat)
    ensures HasLink(a + b, i, j) <==> HasLink(a, i, j) || HasLink(b, i, j)
  {
    if HasLink(a, i, j) {
      var k :| 0 <= k < |a| && a[k].i == i && a[k].j == j;
      assert (a + b)[k] == a[k];
    }
    if HasLink(b, i, j) {
      var k :| 0 <= k < |b| && b[k].i == i && b[k].j == j;
      assert (a + b)[|a| + k] == b[k];
    }
    if HasLink(a + b, i, j) {
      var k :| 0 <= k < |a + b| && (a + b)[k].i == i && (a + b)[k].j == j;
      if k >= |a| {
        assert b[k - |a|] == (a + b)[k];
      } else {
        assert a[k] == (a + b)[k];
      }
    }
  }

  lemma PairLinkIndices(ps: seq<Particle>, i: nat, j: nat, sqrt: real -> real)
    requires i < j < |ps|
    ensures forall k :: 0 <= k < |PairLink(ps, i, j, sqrt)| ==>
              PairLink(ps, i, j, sqrt)[k].i == i && PairLink(ps, i, j, sqrt)[k].j == j
  {
  }

  lemma PairLinkFacts(ps: seq<Particle>, i: nat, j: nat, sqrt: real -> real)
    requires IsSqrt(sqrt) && i < j < |ps|
    ensures forall k :: 0 <= k < |PairLink(ps, i, j, sqrt)| ==>
              var l := PairLink(ps, i, j, sqrt)[k]; l.i == i && l.j == j && LinkOk(ps, l, sqrt)
    ensures HasLink(PairLink(ps, i, j, sqrt), i, j) <==> Close(ps, i, j)
  {
    var s := SqDist(ps[i].x, ps[i].y, ps[j].x, ps[j].y);
    RootBelow(sqrt(s), s, LinkRadius);
    if Close(ps, i, j) {
      assert PairLink(ps, i, j, sqrt)[0].i == i;
    }
  }

  /** The links of row `i` below `j` all join `i` to some `j'` with i < j' < j. */
  lemma {:induction false} RowLinksIndices(ps: seq<Particle>, i: nat, j: nat, sqrt: real -> real)
    requires i < j <= |ps|
    ensures InRow(RowLinks(ps, i, j, sqrt), i, j)
  {
    if j > i + 1 {
      RowLinksIndices(ps, i, j - 1, sqrt);
      PairLinkIndices(ps, i, j - 1, sqrt);
      assert RowLinks(ps, i, j, sqrt) == RowLinks(ps, i, j - 1, sqrt) + PairLink(ps, i, j - 1, sqrt);
    }
  }

  /** Every link of row `i` below `j` joins close particles with the right opacity. */
  lemma {:induction false} RowLinksOk(ps: seq<Particle>, i: nat, j: nat, sqrt: real -> real)
    requires IsSqrt(sqrt) && i < j <= |ps|
    ensures AllOk(ps, RowLinks(ps, i, j, sqrt), sqrt)
  {
    if j > i + 1 {
      RowLinksOk(ps, i, j - 1, sqrt);
      PairLinkFacts(ps, i, j - 1, sqrt);
      assert RowLinks(ps, i, j, sqrt) == RowLinks(ps, i, j - 1, sqrt) + PairLink(ps, i, j - 1, sqrt);
    }
  }

  /** Row `i` below `j` links (i, b) exactly when the two are close. */
  lemma {:induction false} RowLinksExact(ps: seq<Particle>, i: nat, j: nat, sqrt: real -> real)
    requires IsSqrt(sqrt) && i < j <= |ps|
    ensures forall b: nat :: i < b < j ==> (HasLink(RowLinks(ps, i, j, sqrt), i, b) <==> Close(ps, i, b))
  {
    if j > i + 1 {
      RowLinksExact(ps, i, j - 1, sqrt);
      RowLinksIndices(ps, i, j - 1, sqrt);
      PairLinkFacts(ps, i, j - 1, sqrt);
      var a, c := RowLinks(ps, i, j - 1, sqrt), PairLink(ps, i, j - 1, sqrt);
      assert RowLinks(ps, i, j, sqrt) == a + c;
      forall b: nat | i < b < j
        ensures HasLink(a + c, i, b) <==> Close(ps, i, b)
      {
        HasLinkAppend(a, c, i, b);
        if b < j - 1 {
          assert !HasLink(c, i, b);
        } else {
          assert !HasLink(a, i, b);
        }
      }
    }
  }

  /** Row `i` lists its links in increasing second index. */
  lemma {:induction false} RowLinksOrdered(ps: seq<Particle>, i: nat, j: nat, sqrt: real -> real)
    requires i < j <= |ps|
    ensures StrictlyOrdered(RowLinks(ps, i, j, sqrt))
  {
    if j > i + 1 {
      RowLinksOrdered(ps, i, j - 1, sqrt);
      RowLinksIndices(ps, i, j - 1, sqrt);
      PairLinkIndices(ps, i, j - 1, sqrt);
      var a, c := RowLinks(ps, i, j - 1, sqrt), PairLink(ps, i, j - 1, sqrt);
      assert RowLinks(ps, i, j, sqrt) == a + c;
      OrderedAppend(a, c);
    }
  }

  /** The links of the pairs whose first index is below `i` all have such a
      first index, and a larger second one. */
  lemma {:induction false} LinksBelowIndices(ps: seq<Particle>, i: nat, sqrt: real -> real)
    requires i <= |ps|
    ensures FirstBelow(LinksBelow(ps, i, sqrt), i, |ps|)
  {
    if i > 0 {
      var x, y := LinksBelow(ps, i - 1, sqrt), RowLinks(ps, i - 1, |ps|, sqrt);
      assert LinksBelow(ps, i, sqrt) == x + y;
      LinksBelowIndices(ps, i - 1, sqrt);
      RowLinksIndices(ps, i - 1, |ps|, sqrt);
      RowAfterRowsIndices(x, y, i - 1, |ps|, LinksBelow(ps, i, sqrt));
    }
  }

  lemma {:induction false} LinksBelowOk(ps: seq<Particle>, i: nat, sqrt: real -> real)
    requires IsSqrt(sqrt) && i <= |ps|
    ensures AllOk(ps, LinksBelow(ps, i, sqrt), sqrt)
  {
    if i > 0 {
      var x, y := LinksBelow(ps, i - 1, sqrt), RowLinks(ps, i - 1, |ps|, sqrt);
      assert LinksBelow(ps, i, sqrt) == x + y;
      LinksBelowOk(ps, i - 1, sqrt);
      RowLinksOk(ps, i - 1, |ps|, sqrt);
      AllOkAppend(ps, x, y, LinksBelow(ps, i, sqrt), sqrt);
    }
  }

  /** A pair (a, b) with a < i and a < b is linked exactly when close. */
  lemma {:induction false} LinksBelowExact(ps: seq<Particle>, i: nat, sqrt: real -> real)
    requires IsSqrt(sqrt) && i <= |ps|
    ensures forall a: nat, b: nat :: a < i && a < b < |ps| ==>
              (HasLink(LinksBelow(ps, i, sqrt), a, b) <==> Close(ps, a, b))
  {
    if i > 0 {
      LinksBelowExact(ps, i - 1, sqrt);
      LinksBelowIndices(ps, i - 1, sqrt);
      RowLinksExact(ps, i - 1, |ps|, sqrt);
      RowLinksIndices(ps, i - 1, |ps|, sqrt);
      var x, y := LinksBelow(ps, i - 1, sqrt), RowLinks(ps, i - 1, |ps|, sqrt);
      assert LinksBelow(ps, i, sqrt) == x + y;
      forall a: nat, b: nat | a < i && a < b < |ps|
        ensures HasLink(x + y, a, b) <==> Close(ps, a, b)
      {
        HasLinkAppend(x, y, a, b);
        if a < i - 1 {
          assert !HasLink(y, a, b);
        } else {
          assert !HasLink(x, a, b);
        }
      }
    }
  }

  /** The pass emits links in strictly increasing (i, j) order. */
  lemma {:induction false} LinksBelowOrdered(ps: seq<Particle>, i: nat, sqrt: real -> real)
    requires i <= |ps|
    ensures StrictlyOrdered(LinksBelow(ps, i, sqrt))
  {
    if i > 0 {
      var x, y := LinksBelow(ps, i - 1, sqrt), RowLinks(ps, i - 1, |ps|, sqrt);
      assert LinksBelow(ps, i, sqrt) == x + y;
      LinksBelowOrdered(ps, i - 1, sqrt);
      LinksBelowIndices(ps, i - 1, sqrt);
      RowLinksOrdered(ps, i - 1, |ps|, sqrt);
      RowLinksIndices(ps, i - 1, |ps|, sqrt);
      RowAfterRows(x, y, i - 1, |ps|, LinksBelow(ps, i, sqrt));
    }
  }

  /** The connection pass: pair (i, j) is linked exactly when i < j and the two
      particles are closer than 100, never as (j, i) or (i, i), once at most,
      with an opacity in (0, 0.2] given by their distance. */
  lemma ConnectionPairs(ps: seq<Particle>, sqrt: real -> real)
    requires IsSqrt(sqrt)
    ensures var r := Links(ps, sqrt);
            && (forall k :: 0 <= k < |r| ==> LinkOk(ps, r[k], sqrt) && 0.0 < r[k].opacity <= 0.2)
            && (forall a: nat, b: nat :: a < b < |ps| ==> (HasLink(r, a, b) <==> Close(ps, a, b)))
            && (forall a: nat, b: nat :: b <= a ==> !HasLink(r, a, b))
            && StrictlyOrdered(r)
  {
    LinksBelowIndices(ps, |ps|, sqrt);
    LinksBelowOk(ps, |ps|, sqrt);
    LinksBelowExact(ps, |ps|, sqrt);
    LinksBelowOrdered(ps, |ps|, sqrt);
  }

  /** Two particles 50 apart get one link, of opacity 0.1. */
  lemma TwoParticlesLink(p: Particle, q: Particle, sqrt: real -> real)
    requires IsSqrt(sqrt)
    requires p.x == 0.0 && p.y == 0.0 && q.x == 50.0 && q.y == 0.0
    ensures Links([p, q], sqrt) == [Link(0, 1, 0.1)]
  {
    var ps := [p, q];
    RootOfSquare(sqrt, 50.0);
    assert SqDist(ps[0].x, ps[0].y, ps[1].x, ps[1].y) == 50.0 * 50.0;
    assert LineOpacity(50.0) == 0.1;
    assert PairLink(ps, 0, 1, sqrt) == [Link(0, 1, 0.1)];
    assert RowLinks(ps, 0, 2, sqrt) == [Link(0, 1, 0.1)];
    assert RowLinks(ps, 1, 2, sqrt) == [];
    assert LinksBelow(ps, 1, sqrt) == [Link(0, 1, 0.1)];
  }

  /** The opacity every connection line is actually stroked with.  The pass
      only sets the opacity and extends one shared path per link; the single
      stroke after the loop then draws all of them with the opacity in effect
      at that moment: the last selected link's, or `before` (the opacity left
      by the particle drawing) when no link was selected. */
  function StrokeOpacity(links: seq<Link>, before: real): (o: real)
    ensures links == [] ==> o == before
    ensures links != [] ==> o == links[|links| - 1].opacity
  {
    if links == [] then before else links[|links| - 1].opacity
  }

  /** Emitting a link sets the stroke opacity to that link's. */
  lemma StrokeAfterLink(links: seq<Link>, l: Link, before: real)
    ensures StrokeOpacity(links + [l], before) == l.opacity
  {
    assert (links + [l])[|links + [l]| - 1] == l;
  }

  /** As written, once two selected links differ in opacity, some line is
      stroked with an opacity other than its own. */
  lemma SharedStrokeLosesOpacity(links: seq<Link>, before: real)
    requires exists a, b :: 0 <= a < b < |links| && links[a].opacity != links[b].opacity
    ensures exists k :: 0 <= k < |links| && links[k].opacity != StrokeOpacity(links, before)
  {
    var a, b :| 0 <= a < b < |links| && links[a].opacity != links[b].opacity;
    if links[a].opacity == StrokeOpacity(links, before) {
      assert links[b].opacity != StrokeOpacity(links, before);
    }
  }

  /** Particles at (0, 0), (50, 0) and (0, 90): the pairs (0, 1) and (0, 2)
      are linked with opacities 0.1 and 0.02, the pair (1, 2) is about 103
      apart and is not, and both lines are stroked at 0.02. */
  lemma ThreeParticleStroke(p: Particle, q: Particle, r: Particle, before: real, sqrt: real -> real)
    requires IsSqrt(sqrt)
    requires p.x == 0.0 && p.y == 0.0 && q.x == 50.0 && q.y == 0.0 && r.x == 0.0 && r.y == 90.0
    ensures Links([p, q, r], sqrt) == [Link(0, 1, 0.1), Link(0, 2, 0.02)]
    ensures StrokeOpacity(Links([p, q, r], sqrt), before) == 0.02
  {
    var ps := [p, q, r];
    RootOfSquare(sqrt, 50.0);
    RootOfSquare(sqrt, 90.0);
    assert SqDist(ps[0].x, ps[0].y, ps[1].x, ps[1].y) == 50.0 * 50.0;
    assert SqDist(ps[0].x, ps[0].y, ps[2].x, ps[2].y) == 90.0 * 90.0;
    var s12 := SqDist(ps[1].x, ps[1].y, ps[2].x, ps[2].y);
    assert s12 == 10600.0;
    RootBelow(sqrt(s12), s12, LinkRadius);
    assert LineOpacity(50.0) == 0.1;
    assert LineOpacity(90.0) == 0.02;
    assert PairLink(ps, 0, 1, sqrt) == [Link(0, 1, 0.1)];
    assert PairLink(ps, 0, 2, sqrt) == [Link(0, 2, 0.02)];
    assert PairLink(ps, 1, 2, sqrt) == [];
    assert RowLinks(ps, 0, 3, sqrt) == [Link(0, 1, 0.1), Link(0, 2, 0.02)];
    assert RowLinks(ps, 1, 3, sqrt) == [];
    assert RowLinks(ps, 2, 3, sqrt) == [];
    assert LinksBelow(ps, 1, sqrt) == [Link(0, 1, 0.1), Link(0, 2, 0.02)];
    assert LinksBelow(ps, 2, sqrt) == [Link(0, 1, 0.1), Link(0, 2, 0.02)];
  }

  // ---------------------------------------------------------------------------
  // The canvas component

  /** The canvas with its particles.  `width` and `height` are the canvas
      dimensions in pixels. */
  class Field {
    var width: nat
    var height: nat
    var particles: array<Particle>

    ghost predicate Valid()
      reads this, particles
    {
      forall i :: 0 <= i < particles.Length ==> WellFormed(particles[i])
    }

    /** A field before the first initialisation: no particles. */
    constructor ()
      ensures Valid() && particles.Length == 0 && width == 0 && height == 0
    {
      width, height := 0, 0;
      particles := new Particle[0];
    }

    /** Follows a viewport resize: the canvas takes the viewport's size; no
        particle moves. */
    method Resize(viewportWidth: nat, viewportHeight: nat)
      modifies this`width, this`height
      ensures width == viewportWidth && height == viewportHeight
      ensures particles == old(particles) && particles[..] == old(particles[..])
    {
      width, height := viewportWidth, viewportHeight;
    }

    /** The initialisation effect.  Without a drawing surface it does nothing;
        otherwise it sizes the canvas to the viewport and replaces the particles
        by a fresh set of 50 (mobile) or 150, particle `i` made from `draws[i]`. */
    method Init(surfaceReady: bool, viewportWidth: nat, viewportHeight: nat,
                isMobile: bool, draws: seq<Draws>)
      requires Valid()
      requires |draws| == ParticleCount(isMobile)
      requires forall i :: 0 <= i < |draws| ==> ValidDraws(draws[i])
      modifies this
      ensures Valid()
      ensures !surfaceReady ==> width == old(width) && height == old(height) && particles == old(particles)
      ensures surfaceReady ==>
                && width == viewportWidth && height == viewportHeight
                && fresh(particles)
                && particles.Length == (if isMobile then 50 else 150)
                && (forall i :: 0 <= i < particles.Length ==>
                      particles[i] == NewParticle(draws[i], width as real, height as real))
    {
      if !surfaceReady {
        return;
      }
      var w, h := viewportWidth as real, viewportHeight as real;
      var created := new Particle[ParticleCount(isMobile)];
      for i := 0 to created.Length
        invariant forall k :: 0 <= k < i ==> created[k] == NewParticle(draws[k], w, h)
      {
        created[i] := NewParticle(draws[i], w, h);
      }
      width, height := viewportWidth, viewportHeight;
      particles := created;
    }

    /** The update half of one animation frame: every particle, in order,
        takes one `StepParticle` on the current canvas size and pointer. */
    method Tick(mouseX: real, mouseY: real, hovering: bool, sqrt: real -> real)
      requires Valid() && IsSqrt(sqrt)
      modifies particles
      ensures Valid()
      ensures forall i :: 0 <= i < particles.Length ==>
                particles[i] == StepParticle(old(particles[i]), width as real, height as real,
                                             mouseX, mouseY, hovering, sqrt)
    {
      for i := 0 to particles.Length
        invariant forall k :: 0 <= k < i ==>
                    particles[k] == StepParticle(old(particles[k]), width as real, height as real,
                                                 mouseX, mouseY, hovering, sqrt)
        invariant forall k :: i <= k < particles.Length ==> particles[k] == old(particles[k])
      {
        particles[i] := StepParticle(particles[i], width as real, height as real,
                                     mouseX, mouseY, hovering, sqrt);
      }
    }

    /** The connection half of one frame: the nested pair loop over the
        current particles, emitting a link for each close pair.  `before` is
        the canvas opacity when the pass starts, and `strokeAlpha` the one in
        effect when the pass ends, set for every emitted link. */
    method Connections(sqrt: real -> real, ghost before: real)
      returns (links: seq<Link>, ghost strokeAlpha: real)
      requires IsSqrt(sqrt)
      ensures links == Links(particles[..], sqrt)
      ensures strokeAlpha == StrokeOpacity(links, before)
    {
      ghost var ps := particles[..];
      var n := particles.Length;
      links := [];
      strokeAlpha := before;
      for i := 0 to n
        invariant links == LinksBelow(ps, i, sqrt)
        invariant strokeAlpha == StrokeOpacity(links, before)
      {
        links, strokeAlpha := ConnectRow(sqrt, i, links, before, strokeAlpha);
        assert LinksBelow(ps, i + 1, sqrt) == LinksBelow(ps, i, sqrt) + RowLinks(ps, i, n, sqrt);
      }
    }

    /** The inner loop of the connection pass for particle `i`: appends to
        `links0` a link (i, j) for each later particle `j` close to it, and
        sets the stroke opacity for each. */
    method ConnectRow(sqrt: real -> real, i: nat, links0: seq<Link>, ghost before: real,
                      ghost alpha0: real)
      returns (links: seq<Link>, ghost strokeAlpha: real)
      requires IsSqrt(sqrt) && i < particles.Length
      requires alpha0 == StrokeOpacity(links0, before)
      ensures links == links0 + RowLinks(particles[..], i, particles.Length, sqrt)
      ensures strokeAlpha == StrokeOpacity(links, before)
    {
      ghost var ps := particles[..];
      var n := particles.Length;
      links, strokeAlpha := links0, alpha0;
      for j := i + 1 to n
        invariant links == links0 + RowLinks(ps, i, j, sqrt)
        invariant strokeAlpha == StrokeOpacity(links, before)
      {
        assert particles[i] == ps[i] && particles[j] == ps[j];
        var distance := sqrt(SqDist(particles[i].x, particles[i].y, particles[j].x, particles[j].y));
        ghost var row := RowLinks(ps, i, j, sqrt);
        assert RowLinks(ps, i, j + 1, sqrt) == row + PairLink(ps, i, j, sqrt);
        if distance < LinkRadius {
          var link := Link(i, j, LineOpacity(distance));
          assert PairLink(ps, i, j, sqrt) == [link];
          assert (links0 + row) + [link] == links0 + (row + [link]);
          StrokeAfterLink(links, link, before);
          strokeAlpha := link.opacity;
          links := links + [link];
        } else {
          assert PairLink(ps, i, j, sqrt) == [];
          assert row + [] == row;
        }
      }
    }

    /** One animation frame: update every particle, then compute the links
        between the updated particles. */
    method Animate(mouseX: real, mouseY: real, hovering: bool, sqrt: real -> real, ghost before: real)
      returns (links: seq<Link>, ghost strokeAlpha: real)
      requires Valid() && IsSqrt(sqrt)
      modifies particles
      ensures Valid()
      ensures forall i :: 0 <= i < particles.Length ==>
                particles[i] == StepParticle(old(particles[i]), width as real, height as real,
                                             mouseX, mouseY, hovering, sqrt)
      ensures links == Links(particles[..], sqrt)
      ensures strokeAlpha == StrokeOpacity(links, before)
    {
      Tick(mouseX, mouseY, hovering, sqrt);
      links, strokeAlpha := Connections(sqrt, before);
    }
  }
}
