/** The path of a drag (the interpolation in internal/capture/mouse.go). */
module Drag {
  import opened Common

  const MAX_STEPS := 256

  datatype Point = Point(col: int, row: int)

  /** The distance a drag covers on its longer axis. */
  function Reach(c0: int, r0: int, c1: int, r1: int): int {
    Max(Abs(c1 - c0), Abs(r1 - r0))
  }

  function Along(d: int, steps: nat, i: nat): int {
    if steps == 0 then 0 else TruncDiv(d * i, steps)
  }

  function Path(c0: int, r0: int, c1: int, r1: int): (path: seq<Point>)
    ensures |path| == Min(Reach(c0, r0, c1, r1), MAX_STEPS) + 1
  {
    var steps := Min(Reach(c0, r0, c1, r1), MAX_STEPS);
    seq(steps + 1, i requires i >= 0 => Point(c0 + Along(c1 - c0, steps, i), r0 + Along(r1 - r0, steps, i)))
  }

  method Interpolate(c0: int, r0: int, c1: int, r1: int) returns (out: seq<Point>)
    ensures out == Path(c0, r0, c1, r1)
  {
    hide TruncDiv;
    var dc, dr := c1 - c0, r1 - r0;
    var steps := Max(Abs(dc), Abs(dr));
    if steps == 0 {
      return [Point(c0, r0)];
    }
    if steps > MAX_STEPS {
      steps := MAX_STEPS;
    }
    out := [];
    for i := 0 to steps + 1
      invariant out == Path(c0, r0, c1, r1)[..i]
    {
      out := out + [Point(c0 + TruncDiv(dc * i, steps), r0 + TruncDiv(dr * i, steps))];
    }
  }

  // ---------------------------------------------------------------------------
  // Properties

  lemma QuotientAtLeast(x: int, s: int, q: int)
    requires s > 0 && s * q <= x
    ensures q <= x / s
  {
    if x / s < q {
      Times(s, x / s + 1, q);
    }
  }

  lemma QuotientBelow(x: int, s: int, q: int)
    requires s > 0 && x < s * q
    ensures x / s < q
  {
    if q <= x / s {
      Times(s, q, x / s);
    }
  }

  /** Adding between k and c divisors moves a quotient by between k and c. */
  lemma QuotientStep(x: int, a: int, s: int, k: int, c: int)
    requires s > 0 && s * k <= a <= s * c
    ensures x / s + k <= (x + a) / s <= x / s + c
  {
    var q := x / s;
    assert s * (q + k) == s * q + s * k;
    QuotientAtLeast(x + a, s, q + k);
    assert s * (q + c + 1) == s * q + s * c + s;
    QuotientBelow(x + a, s, q + c + 1);
  }

  /** The signed distance between the two ends of one step, towards the target. */
  function Toward(d: int, move: int): int {
    if d < 0 then -move else move
  }

  lemma AlongAbs(d: int, steps: nat, i: nat)
    requires steps > 0
    ensures Along(d, steps, i) == Toward(d, (Abs(d) * i) / steps) && Abs(d) * i >= 0
  {
    if d >= 0 {
      Times(i, 0, d);
    } else {
      Times(i, 0, -d);
      assert -(d * i) == (-d) * i;
      if d * i == 0 {
        assert (-d) * i == 0;
      }
    }
  }

  /** One step moves an axis toward its target by at least k and at most c cells. */
  lemma AlongStep(d: int, steps: nat, i: nat, k: nat, c: nat)
    requires steps > 0 && steps * k <= Abs(d) <= steps * c
    ensures k <= Toward(d, Along(d, steps, i + 1) - Along(d, steps, i)) <= c
  {
    AlongAbs(d, steps, i);
    AlongAbs(d, steps, i + 1);
    assert Abs(d) * (i + 1) == Abs(d) * i + Abs(d);
    QuotientStep(Abs(d) * i, Abs(d), steps, k, c);
  }

  lemma AlongEnds(d: int, steps: nat)
    requires steps == 0 ==> d == 0
    ensures Along(d, steps, 0) == 0 && Along(d, steps, steps) == d
  {
    if steps > 0 {
      AlongAbs(d, steps, 0);
      AlongAbs(d, steps, steps);
      QuotientAtLeast(Abs(d) * steps, steps, Abs(d));
      QuotientBelow(Abs(d) * steps, steps, Abs(d) + 1);
    }
  }

  /** A drag starts and ends exactly where it was asked to. */
  lemma PathEnds(c0: int, r0: int, c1: int, r1: int)
    ensures var path := Path(c0, r0, c1, r1);
            path[0] == Point(c0, r0) && path[|path| - 1] == Point(c1, r1)
  {
    var steps := Min(Reach(c0, r0, c1, r1), MAX_STEPS);
    AlongEnds(c1 - c0, steps);
    AlongEnds(r1 - r0, steps);
  }

  /** The number of cells one step may cover: 1, unless the path is capped. */
  function Stride(c0: int, r0: int, c1: int, r1: int): (n: int)
    ensures Reach(c0, r0, c1, r1) <= MAX_STEPS ==> n <= 1
  {
    (Reach(c0, r0, c1, r1) + MAX_STEPS - 1) / MAX_STEPS
  }

  /** Neighbouring points differ, by at most the stride on each axis, always toward the target. */
  lemma PathStep(c0: int, r0: int, c1: int, r1: int, i: nat)
    requires i + 1 < |Path(c0, r0, c1, r1)|
    ensures var p, q := Path(c0, r0, c1, r1)[i], Path(c0, r0, c1, r1)[i + 1];
            && p != q
            && 0 <= Toward(c1 - c0, q.col - p.col) <= Stride(c0, r0, c1, r1)
            && 0 <= Toward(r1 - r0, q.row - p.row) <= Stride(c0, r0, c1, r1)
  {
    hide Along;
    var reach := Reach(c0, r0, c1, r1);
    var steps, n := Min(reach, MAX_STEPS), Stride(c0, r0, c1, r1);
    assert steps > 0 && reach <= steps * n by {
      if reach <= MAX_STEPS {
        assert n == 1;
      }
    }
    var moves := (d: int) => if Abs(d) == reach then 1 else 0;
    assert steps * 0 == 0 && steps * 1 == steps <= reach;
    AlongStep(c1 - c0, steps, i, moves(c1 - c0), n);
    AlongStep(r1 - r0, steps, i, moves(r1 - r0), n);
  }

  /** Both axes are monotone along the whole path. */
  lemma {:induction false} PathMonotone(c0: int, r0: int, c1: int, r1: int, i: nat, j: nat)
    requires i <= j < |Path(c0, r0, c1, r1)|
    ensures var p, q := Path(c0, r0, c1, r1)[i], Path(c0, r0, c1, r1)[j];
            0 <= Toward(c1 - c0, q.col - p.col) && 0 <= Toward(r1 - r0, q.row - p.row)
    decreases j - i
  {
    if i < j {
      PathStep(c0, r0, c1, r1, i);
      PathMonotone(c0, r0, c1, r1, i + 1, j);
    }
  }

  /** No point leaves the rectangle that the two ends span. */
  lemma PathInside(c0: int, r0: int, c1: int, r1: int, i: nat)
    requires i < |Path(c0, r0, c1, r1)|
    ensures var p := Path(c0, r0, c1, r1)[i];
            && Min(c0, c1) <= p.col <= Max(c0, c1)
            && Min(r0, r1) <= p.row <= Max(r0, r1)
  {
    PathEnds(c0, r0, c1, r1);
    PathMonotone(c0, r0, c1, r1, 0, i);
    PathMonotone(c0, r0, c1, r1, i, |Path(c0, r0, c1, r1)| - 1);
  }

  /** A path has a point for each cell of the longer axis, both ends included, but at most 257. */
  lemma PathLength(c0: int, r0: int, c1: int, r1: int)
    ensures |Path(c0, r0, c1, r1)| == 1 + Min(Max(Abs(c1 - c0), Abs(r1 - r0)), 256)
  {
  }

  /** `q` is the whole part of `i / n` of the distance `d`. */
  predicate IsPart(q: int, d: nat, i: nat, n: nat) {
    n * q <= d * i < n * q + n
  }

  lemma QuotientIsPart(d: nat, i: nat, n: nat)
    requires n > 0
    ensures d * i >= 0 && IsPart(d * i / n, d, i, n)
  {
  }

  lemma AlongIsPart(d: int, steps: nat, i: nat)
    requires steps > 0
    ensures IsPart(Toward(d, Along(d, steps, i)), Abs(d), i, steps)
  {
    AlongAbs(d, steps, i);
    hide Along, IsPart;
    QuotientIsPart(Abs(d), i, steps);
  }

  /** Where a step stands: the part of the way that it has of the steps, cut off to whole cells. */
  lemma PathPoint(c0: int, r0: int, c1: int, r1: int, i: nat)
    requires i < |Path(c0, r0, c1, r1)| && |Path(c0, r0, c1, r1)| > 1
    ensures var steps, p := |Path(c0, r0, c1, r1)| - 1, Path(c0, r0, c1, r1)[i];
            && IsPart(Toward(c1 - c0, p.col - c0), Abs(c1 - c0), i, steps)
            && IsPart(Toward(r1 - r0, p.row - r0), Abs(r1 - r0), i, steps)
  {
    hide Along, IsPart;
    var steps := |Path(c0, r0, c1, r1)| - 1;
    AlongIsPart(c1 - c0, steps, i);
    AlongIsPart(r1 - r0, steps, i);
  }
}
