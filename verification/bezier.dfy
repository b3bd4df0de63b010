/**
 * Bézier curve evaluation by Miller's method ("Quick and Simple Bézier
 * Curve Drawing", Graphics Gems V, pages 206-209): control points are
 * pre-multiplied by binomial weights once, and each evaluation then needs
 * only running powers of t and 1 - t.
 */
module Bezier {

  /** A point in the plane. */
  datatype Point = Point(x: real, y: real)

  /** One curve entry: a scratch point overwritten by evaluation, and the weighted control point. */
  datatype CurvePoint = CurvePoint(point: Point, control: Point)

  type Curve = seq<CurvePoint>

  const Origin := Point(0.0, 0.0)

  function Scale(p: Point, k: real): Point {
    Point(p.x * k, p.y * k)
  }

  function Plus(p: Point, q: Point): Point {
    Point(p.x + q.x, p.y + q.y)
  }

  function Pow(x: real, n: nat): real {
    if n == 0 then 1.0 else x * Pow(x, n - 1)
  }

  /** The binomial coefficient "n choose k", by Pascal's rule. */
  function Binomial(n: nat, k: nat): nat {
    if k == 0 then 1 else if n == 0 then 0 else Binomial(n - 1, k - 1) + Binomial(n - 1, k)
  }

  /** The weighted control points of a curve. */
  function Controls(c: Curve): seq<Point> {
    seq(|c|, i requires 0 <= i < |c| => c[i].control)
  }

  lemma {:induction false} BinomialBeyond(n: nat, k: nat)
    requires k > n
    ensures Binomial(n, k) == 0
  {
    if n > 0 {
      BinomialBeyond(n - 1, k - 1);
      BinomialBeyond(n - 1, k);
    }
  }

  lemma {:induction false} BinomialAll(n: nat)
    ensures Binomial(n, n) == 1
  {
    if n > 0 {
      BinomialAll(n - 1);
      BinomialBeyond(n - 1, n);
    }
  }

  /** Absorption: k·C(m, k) = m·C(m-1, k-1). */
  lemma {:induction false} Absorption(m: nat, k: nat)
    requires m >= 1 && k >= 1
    ensures k * Binomial(m, k) == m * Binomial(m - 1, k - 1)
  {
    if m == 1 {
      if k >= 2 {
        BinomialBeyond(0, k - 1);
        BinomialBeyond(1, k);
      }
    } else if k == 1 {
      OneLess(m - 1);
    } else {
      Absorption(m - 1, k);
      Absorption(m - 1, k - 1);
      AbsorptionAlgebra(k, m, Binomial(m - 1, k - 1), Binomial(m - 1, k), Binomial(m - 2, k - 2), Binomial(m - 2, k - 1));
    }
  }

  lemma {:induction false} OneLess(n: nat)
    ensures Binomial(n, 1) == n
  {
    if n > 0 {
      OneLess(n - 1);
    }
  }

  /** The integer step of Absorption: from the two smaller instances and Pascal's rule. */
  lemma AbsorptionAlgebra(k: int, m: int, a: int, b: int, d: int, e: int)
    requires k * b == (m - 1) * e
    requires (k - 1) * a == (m - 1) * d
    requires a == d + e
    ensures k * (a + b) == m * a
  {
    assert k * (a + b) == k * a + k * b;
    assert k * a == (k - 1) * a + a;
    assert (m - 1) * d + (m - 1) * e == (m - 1) * a;
    assert m * a == (m - 1) * a + a;
  }

  /**
   * The multiplicative recurrence of the weights: i·C(m, i) = (m-i+1)·C(m, i-1),
   * so C(m, i) = C(m, i-1)·(m-i+1)/i.
   */
  lemma BinomialStep(m: nat, i: nat)
    requires 2 <= i <= m
    ensures i * Binomial(m, i) == (m - i + 1) * Binomial(m, i - 1)
  {
    Absorption(m, i);
    Absorption(m, i - 1);
    StepAlgebra(m, i, Binomial(m, i - 1), Binomial(m - 1, i - 2), Binomial(m - 1, i - 1));
  }

  lemma StepAlgebra(m: int, i: int, a: int, c: int, d: int)
    requires (i - 1) * a == m * c
    requires a == c + d
    ensures (m - i + 1) * a == m * d
  {
    assert (m - i + 1) * a == m * a - (i - 1) * a;
    assert m * a == m * c + m * d;
  }

  /** The real form of BinomialStep, as the weight loop uses it. */
  lemma WeightStep(m: nat, i: nat)
    requires 2 <= i <= m
    ensures (Binomial(m, i - 1) as real) * (((m + 1 - i) as real) / (i as real)) == Binomial(m, i) as real
  {
    BinomialStep(m, i);
    RealStep(Binomial(m, i - 1) as real, Binomial(m, i) as real, i as real, (m + 1 - i) as real);
  }

  lemma RealStep(a: real, b: real, i: real, k: real)
    requires i > 0.0
    requires i * b == k * a
    ensures a * (k / i) == b
  {
    assert a * (k / i) == (k * a) / i;
    assert (i * b) / i == b;
  }

  lemma Regroup(x: real, w: real, a: real, b: real)
    ensures (x * w) * (a * b) == x * (w * a * b)
  {
    MulAssoc(x, w, a * b);
    MulAssoc(w, a, b);
  }

  lemma MulAssoc(a: real, b: real, d: real)
    ensures (a * b) * d == a * (b * d)
  {
  }

  /**
   * New: no control points give the nil curve; otherwise each entry keeps
   * its control point as the scratch point and holds it weighted by the
   * binomial coefficient C(n-1, i), the weights running 1, n-1, and then
   * each the previous times (n-i)/i.
   */
  method New(cp: seq<Point>) returns (c: Curve)
    ensures |c| == |cp|
    ensures forall i :: 0 <= i < |c| ==> c[i].point == cp[i]
    ensures forall i :: 0 <= i < |c| ==> c[i].control == Weighted(cp, i)
  {
    if |cp| == 0 {
      return [];
    }
    var n := |cp|;
    c := seq(n, i requires 0 <= i < n => CurvePoint(cp[i], Origin));
    var w: real := 0.0;
    var i := 0;
    while i < n
      invariant 0 <= i <= n && |c| == n
      invariant forall j :: 0 <= j < n ==> c[j].point == cp[j]
      invariant forall j :: 0 <= j < i ==> c[j].control == Weighted(cp, j)
      invariant i > 0 ==> w == Binomial(n - 1, i - 1) as real
    {
      var p := c[i];
      w := StepWeight(w, n, i);
      c := c[i := CurvePoint(p.point, Scale(p.point, w))];
      i := i + 1;
    }
  }

  /** Control point i weighted by C(n-1, i). */
  function Weighted(cp: seq<Point>, i: nat): Point
    requires i < |cp|
  {
    Scale(cp[i], Binomial(|cp| - 1, i) as real)
  }

  /**
   * The weight of entry i of an n-point curve from the weight of entry i-1:
   * 1 for the first, n-1 for the second, and then the previous times (n-i)/i.
   */
  function StepWeight(w: real, n: nat, i: nat): (w': real)
    requires i < n && (i > 0 ==> w == Binomial(n - 1, i - 1) as real)
    ensures w' == Binomial(n - 1, i) as real
  {
    if i == 0 then 1.0
    else if i == 1 then OneLess(n - 1); (n as real) - 1.0
    else NextWeight(w, n, i)
  }

  /** One step of the weight recurrence: the previous weight times (n-i)/i. */
  function NextWeight(w: real, n: nat, i: nat): (w': real)
    requires 2 <= i < n && w == Binomial(n - 1, i - 1) as real
    ensures w' == Binomial(n - 1, i) as real
  {
    WeightStep(n - 1, i);
    assert n - 1 + 1 - i == n - i;
    w * (((n - i) as real) / (i as real))
  }

  /** The term of entry i: its weighted control point times t^i (1-t)^(n-1-i). */
  function Term(ctrl: seq<Point>, t: real, i: nat): Point
    requires i < |ctrl|
  {
    Scale(ctrl[i], Pow(t, i) * Pow(1.0 - t, |ctrl| - 1 - i))
  }

  /** The sum of the terms of entries lo..n-1. */
  function TermSum(ctrl: seq<Point>, t: real, lo: nat): Point
    decreases |ctrl| - lo
  {
    if lo >= |ctrl| then Origin else Plus(Term(ctrl, t, lo), TermSum(ctrl, t, lo + 1))
  }

  /** The running power of the first loop of Curve.Point: x^n times x. */
  function NextPow(u: real, x: real, n: nat): (u': real)
    requires u == Pow(x, n)
    ensures u' == Pow(x, n + 1)
  {
    PowStep(x, n);
    u * x
  }

  lemma PowStep(x: real, n: nat)
    ensures Pow(x, n) * x == Pow(x, n + 1)
  {
  }

  /** Adding the term of entry k to the sum of the later entries gives the sum from k. */
  lemma HornerStep(ctrl: seq<Point>, t: real, k: nat, p: Point, sc: Point, tt: real)
    requires k < |ctrl|
    requires p == TermSum(ctrl, t, k + 1)
    requires sc == Scale(ctrl[k], Pow(t, k))
    requires tt == Pow(1.0 - t, |ctrl| - 1 - k)
    ensures Point(p.x + sc.x * tt, p.y + sc.y * tt) == TermSum(ctrl, t, k)
  {
    var pk := Pow(t, k);
    var term := Term(ctrl, t, k);
    assert term == Scale(ctrl[k], pk * tt);
    assert TermSum(ctrl, t, k) == Plus(term, p);
    MulAssoc(ctrl[k].x, pk, tt);
    MulAssoc(ctrl[k].y, pk, tt);
    assert sc.x * tt == term.x && sc.y * tt == term.y;
  }

  /**
   * Curve.Point: the point at t, the sum over the entries of the weighted
   * control point times t^i (1-t)^(n-1-i). Only the scratch points change
   * (to the weighted controls times t^i); the controls are untouched, so
   * evaluating the returned curve again at t gives the same point.
   */
  method PointAt(c: Curve, t: real) returns (p: Point, c': Curve)
    requires |c| >= 1
    ensures |c'| == |c|
    ensures forall i :: 0 <= i < |c| ==> c'[i].control == c[i].control
    ensures forall i :: 0 <= i < |c| ==> c'[i].point == Scale(c[i].control, Pow(t, i))
    ensures p == TermSum(Controls(c), t, 0) && p == TermSum(Controls(c'), t, 0)
  {
    var n := |c|;
    c' := c[0 := CurvePoint(c[0].control, c[0].control)];
    var u := t;
    var i := 0;
    while i < n - 1
      invariant 0 <= i <= n - 1 && |c'| == n
      invariant forall j :: 0 <= j < n ==> c'[j].control == c[j].control
      invariant forall j :: 0 <= j <= i ==> c'[j].point == Scale(c[j].control, Pow(t, j))
      invariant u == Pow(t, i + 1)
    {
      var q := c'[i + 1];
      assert q.control == c[i + 1].control;
      var scratch := Scale(q.control, u);
      c' := c'[i + 1 := CurvePoint(scratch, q.control)];
      u := NextPow(u, t, i + 1);
      i := i + 1;
    }
    p := Horner(c', Controls(c), t);
    assert Controls(c') == Controls(c);
  }

  /** The second loop of Curve.Point: the scratch points summed from the last entry down. */
  method Horner(c: Curve, ctrl: seq<Point>, t: real) returns (p: Point)
    requires |c| == |ctrl| >= 1
    requires forall i :: 0 <= i < |c| ==> c[i].point == Scale(ctrl[i], Pow(t, i))
    ensures p == TermSum(ctrl, t, 0)
  {
    var n := |c|;
    var t1 := 1.0 - t;
    var tt := t1;
    p := c[n - 1].point;
    assert p == TermSum(ctrl, t, n - 1);
    var k := n - 2;
    while k >= 0
      invariant -1 <= k <= n - 2
      invariant tt == Pow(t1, n - 1 - k)
      invariant p == TermSum(ctrl, t, k + 1)
    {
      HornerStep(ctrl, t, k, p, c[k].point, tt);
      p := Point(p.x + c[k].point.x * tt, p.y + c[k].point.y * tt);
      tt := NextPow(tt, t1, n - 1 - k);
      k := k - 1;
    }
  }

  /**
   * Curve.Curve: fills `p` with equally spaced points of the curve, the
   * i-th at t = i/(len(p)-1), keeping its length; the controls are untouched.
   */
  method FillCurve(c: Curve, p: seq<Point>) returns (pts: seq<Point>, c': Curve)
    requires |p| == 0 || (|p| >= 2 && |c| >= 1)
    ensures |pts| == |p| && |c'| == |c|
    ensures Controls(c') == Controls(c)
    ensures forall i :: 0 <= i < |p| ==> pts[i] == TermSum(Controls(c), (i as real) / ((|p| - 1) as real), 0)
    ensures |p| >= 2 ==> pts[0] == TermSum(Controls(c), 0.0, 0) && pts[|p| - 1] == TermSum(Controls(c), 1.0, 0)
  {
    pts := p;
    c' := c;
    if |p| == 0 {
      return;
    }
    var nf := (|p| - 1) as real;
    var i := 0;
    while i < |p|
      invariant 0 <= i <= |p| && |pts| == |p| && |c'| == |c|
      invariant Controls(c') == Controls(c)
      invariant forall j :: 0 <= j < i ==> pts[j] == TermSum(Controls(c), (j as real) / nf, 0)
    {
      var q, next := PointAt(c', (i as real) / nf);
      assert Controls(next) == Controls(c');
      pts := pts[i := q];
      c' := next;
      i := i + 1;
    }
    assert (0 as real) / nf == 0.0;
    assert ((|p| - 1) as real) / nf == 1.0;
  }

  /** The Bernstein sum of entries lo..n-1 of the control points `cp`, C(n-1, i) t^i (1-t)^(n-1-i) cp_i. */
  function BernsteinSum(cp: seq<Point>, t: real, lo: nat): Point
    decreases |cp| - lo
  {
    if lo >= |cp| then Origin else Plus(BernsteinTerm(cp, t, lo), BernsteinSum(cp, t, lo + 1))
  }

  /** The i-th Bernstein term, C(n-1, i) t^i (1-t)^(n-1-i) cp_i. */
  function BernsteinTerm(cp: seq<Point>, t: real, i: nat): Point
    requires i < |cp|
  {
    Scale(cp[i], (Binomial(|cp| - 1, i) as real) * Pow(t, i) * Pow(1.0 - t, |cp| - 1 - i))
  }

  /** The point of the curve with control points `cp` at t, in Bernstein form. */
  function Bernstein(cp: seq<Point>, t: real): Point {
    BernsteinSum(cp, t, 0)
  }

  /**
   * With the controls New computes, the sum PointAt evaluates is the
   * Bernstein form of the original control points.
   */
  lemma {:induction false} WeightedSumIsBernstein(cp: seq<Point>, ctrl: seq<Point>, t: real, lo: nat)
    requires |ctrl| == |cp|
    requires forall i :: 0 <= i < |cp| ==> ctrl[i] == Weighted(cp, i)
    ensures TermSum(ctrl, t, lo) == BernsteinSum(cp, t, lo)
    decreases |cp| - lo
  {
    if lo < |cp| {
      WeightedSumIsBernstein(cp, ctrl, t, lo + 1);
      WeightedTerm(cp, ctrl, t, lo);
    }
  }

  /** The term of entry i of the weighted controls is the i-th Bernstein term. */
  lemma WeightedTerm(cp: seq<Point>, ctrl: seq<Point>, t: real, i: nat)
    requires |ctrl| == |cp| && i < |cp|
    requires ctrl[i] == Weighted(cp, i)
    ensures Term(ctrl, t, i) == BernsteinTerm(cp, t, i)
  {
    var w, a, b := Binomial(|cp| - 1, i) as real, Pow(t, i), Pow(1.0 - t, |cp| - 1 - i);
    var x, k := cp[i], w * a * b;
    assert Term(ctrl, t, i) == Point((x.x * w) * (a * b), (x.y * w) * (a * b));
    Regroup(x.x, w, a, b);
    Regroup(x.y, w, a, b);
    assert BernsteinTerm(cp, t, i) == Point(x.x * k, x.y * k);
  }

  lemma {:induction false} PowOne(n: nat)
    ensures Pow(1.0, n) == 1.0
  {
    if n > 0 {
      PowOne(n - 1);
    }
  }

  lemma PowZero(n: nat)
    requires n > 0
    ensures Pow(0.0, n) == 0.0
  {
  }

  /** At t = 0 every entry after lo contributes nothing. */
  lemma {:induction false} BernsteinTailAtZero(cp: seq<Point>, lo: nat)
    requires lo >= 1
    ensures BernsteinSum(cp, 0.0, lo) == Origin
    decreases |cp| - lo
  {
    if lo < |cp| {
      BernsteinTailAtZero(cp, lo + 1);
      PowZero(lo);
    }
  }

  /** At t = 1 the entries lo..n-1 sum to the last control point. */
  lemma {:induction false} BernsteinTailAtOne(cp: seq<Point>, lo: nat)
    requires lo < |cp|
    ensures BernsteinSum(cp, 1.0, lo) == cp[|cp| - 1]
    decreases |cp| - lo
  {
    PowOne(lo);
    if lo == |cp| - 1 {
      BinomialAll(|cp| - 1);
    } else {
      BernsteinTailAtOne(cp, lo + 1);
      PowZero(|cp| - 1 - lo);
    }
  }

  /**
   * The curve interpolates its end control points: it starts at the first
   * at t = 0 and ends at the last at t = 1; a one-point curve is constant.
   */
  lemma Endpoints(cp: seq<Point>, t: real)
    requires |cp| >= 1
    ensures Bernstein(cp, 0.0) == cp[0]
    ensures Bernstein(cp, 1.0) == cp[|cp| - 1]
    ensures |cp| == 1 ==> Bernstein(cp, t) == cp[0]
  {
    BernsteinTailAtZero(cp, 1);
    PowOne(|cp| - 1);
    BernsteinTailAtOne(cp, 0);
    if |cp| == 1 {
      assert Bernstein(cp, t) == Plus(Scale(cp[0], 1.0 * 1.0 * 1.0), BernsteinSum(cp, t, 1));
    }
  }

  /**
   * A curve made by New from `cp` and evaluated by PointAt starts at the
   * first control point at t = 0 and ends at the last at t = 1.
   */
  lemma CurveEndpoints(cp: seq<Point>, c: Curve)
    requires |c| == |cp| >= 1
    requires forall i :: 0 <= i < |c| ==> c[i].control == Weighted(cp, i)
    ensures TermSum(Controls(c), 0.0, 0) == cp[0]
    ensures TermSum(Controls(c), 1.0, 0) == cp[|cp| - 1]
  {
    WeightedSumIsBernstein(cp, Controls(c), 0.0, 0);
    WeightedSumIsBernstein(cp, Controls(c), 1.0, 0);
    Endpoints(cp, 0.0);
  }
}
