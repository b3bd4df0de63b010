/**
 * Axis: the radial scale of a ring — grid arcs, the axis line, ticks with
 * their labels, and the axis label — drawn against a score range
 * [min, max] mapped linearly onto the radii [inner, outer].
 */
module Axis {
  import opened Wrappers
  import opened Geometry
  import opened Canvas
  import opened Features

  /** A tick mark of the plotting library; a tick without a label is a minor tick. */
  datatype Tick = Tick(value: real, text: string) {
    predicate IsMinor() {
      text == ""
    }
  }

  /** Text rotation and alignment. */
  datatype Placement = Placement(rot: Angle, xalign: real, yalign: real)

  /** A placement policy: the placement of text written at an angle. */
  type TextPlacement = Angle -> Placement

  /** The default placement policy; not part of this model. */
  const DefaultPlacement: TextPlacement

  datatype AxisLabel = AxisLabel(text: string, style: TextStyle, placement: Option<TextPlacement>)

  /** The tick configuration; `marker` gives the ticks for a score range. */
  datatype TickConfig = TickConfig(
    labelStyle: TextStyle,
    lineStyle: LineStyle,
    placement: Option<TextPlacement>,
    length: real,
    marker: (real, real) -> seq<Tick>)

  /** An axis at angle `angle`. */
  datatype Axis = Axis(angle: Angle, axisLabel: AxisLabel, lineStyle: LineStyle, tick: TickConfig, grid: LineStyle)

  /** The placement a policy gives at `angle`, the default policy when none is set. */
  function Place(p: Option<TextPlacement>, angle: Angle): Placement {
    if p.None? then DefaultPlacement(angle) else p.value(angle)
  }

  /**
   * The radius of score `v`: the score range [min, max] mapped linearly
   * onto [inner, outer], with min going to inner and max to outer. When
   * min < max and inner <= outer a score in range lands between the radii.
   */
  function MarkRadius(v: real, min: real, max: real, inner: real, outer: real): (radius: real)
    requires min != max
    ensures v == min ==> radius == inner
    ensures v == max ==> radius == outer
    ensures min < max && inner <= outer && min <= v <= max ==> inner <= radius <= outer
  {
    var scale := (outer - inner) / (max - min);
    (v - min) * scale + inner
  }

  /** The score to radius map is monotone when both ranges are increasing. */
  lemma MarkRadiusMonotone(v: real, w: real, min: real, max: real, inner: real, outer: real)
    requires min < max && inner <= outer && v <= w
    ensures MarkRadius(v, min, max, inner, outer) <= MarkRadius(w, min, max, inner, outer)
  {
    var scale := (outer - inner) / (max - min);
    assert scale >= 0.0;
    assert (w - min) * scale - (v - min) * scale == (w - v) * scale;
  }

  /** A tick is drawn only when its value lies within [min, max]. */
  predicate InRange(m: Tick, min: real, max: real) {
    !(m.value < min || m.value > max)
  }

  /**
   * The marks within [min, max], in their original order: every mark in
   * range is kept as often as it occurs, every other is dropped.
   */
  function InRangeMarks(marks: seq<Tick>, min: real, max: real): (ms: seq<Tick>)
    ensures |ms| <= |marks|
    ensures forall k :: 0 <= k < |ms| ==> ms[k] in marks && InRange(ms[k], min, max)
    ensures forall m :: m in marks && InRange(m, min, max) ==> m in ms
  {
    if |marks| == 0 then [] else (if InRange(marks[0], min, max) then [marks[0]] else []) + InRangeMarks(marks[1..], min, max)
  }

  /** Each mark in range is kept as many times as it occurs; no other mark is kept. */
  lemma {:induction false} InRangeMarksMultiplicity(marks: seq<Tick>, min: real, max: real)
    ensures forall m :: multiset(InRangeMarks(marks, min, max))[m] == if InRange(m, min, max) then multiset(marks)[m] else 0
  {
    if |marks| > 0 {
      InRangeMarksMultiplicity(marks[1..], min, max);
      assert marks == [marks[0]] + marks[1..];
      assert multiset(marks) == multiset([marks[0]]) + multiset(marks[1..]);
    }
  }

  /** Filtering a concatenation filters each part, keeping their order. */
  lemma {:induction false} InRangeMarksAppend(a: seq<Tick>, b: seq<Tick>, min: real, max: real)
    ensures InRangeMarks(a + b, min, max) == InRangeMarks(a, min, max) + InRangeMarks(b, min, max)
  {
    if |a| == 0 {
      assert a + b == b;
    } else {
      assert (a + b)[0] == a[0];
      assert (a + b)[1..] == a[1..] + b;
      InRangeMarksAppend(a[1..], b, min, max);
    }
  }

  /** A single mark is kept exactly when it is in range. */
  lemma InRangeMarksSingle(m: Tick, min: real, max: real)
    ensures InRangeMarks([m], min, max) == if InRange(m, min, max) then [m] else []
  {
    assert [m][1..] == [];
  }

  /** The number of major ticks among `ms`. */
  function MajorCount(ms: seq<Tick>): nat {
    if |ms| == 0 then 0 else (if ms[0].IsMinor() then 0 else 1) + MajorCount(ms[1..])
  }

  /** The grid arc at `radius` across `arc`. */
  function GridPath(cen: Point, arc: Arc, radius: real): Path {
    [Move(Add(cen, Rectangular(arc.theta, radius))), ArcSeg(cen, radius, arc.theta, arc.phi)]
  }

  /**
   * The grid strokes for one location: one arc per mark in range, in mark
   * order, each at the mark's radius; marks out of range are skipped.
   */
  function GridMarks(cen: Point, arc: Arc, marks: seq<Tick>, inner: real, outer: real, min: real, max: real): (acts: seq<Action>)
    requires min != max
    ensures |acts| == |InRangeMarks(marks, min, max)|
    ensures forall k :: 0 <= k < |acts| ==>
      acts[k] == Stroke(GridPath(cen, arc, MarkRadius(InRangeMarks(marks, min, max)[k].value, min, max, inner, outer)))
  {
    if |marks| == 0 then
      []
    else
      var rest := GridMarks(cen, arc, marks[1..], inner, outer, min, max);
      if marks[0].value < min || marks[0].value > max then
        assert InRangeMarks(marks, min, max) == InRangeMarks(marks[1..], min, max);
        rest
      else
        assert InRangeMarks(marks, min, max) == [marks[0]] + InRangeMarks(marks[1..], min, max);
        var radius := MarkRadius(marks[0].value, min, max, inner, outer);
        [Stroke(GridPath(cen, arc, radius))] + rest
  }

  /** The locations of `fs`, each once, in order of first appearance. */
  function DistinctLocations(fs: seq<Feature>): (locs: seq<Option<Feature>>)
    ensures forall i :: 0 <= i < |fs| ==> fs[i].location in locs
    ensures forall k :: 0 <= k < |locs| ==> exists i :: 0 <= i < |fs| && fs[i].location == locs[k]
    ensures forall j, k :: 0 <= j < k < |locs| ==> locs[j] != locs[k]
  {
    if |fs| == 0 then
      []
    else
      var d := DistinctLocations(fs[..|fs| - 1]);
      var loc := fs[|fs| - 1].location;
      assert forall i :: 0 <= i < |fs| - 1 ==> fs[i] == fs[..|fs| - 1][i];
      if loc in d then d else d + [loc]
  }

  /**
   * The grid pass over `locs`: per location, its arc, the grid line style,
   * then its grid arcs. A location without an arc is fatal.
   */
  function GridLocations(r: Axis, cen: Point, locs: seq<Option<Feature>>, base: ArcOfer, marks: seq<Tick>,
                         inner: real, outer: real, min: real, max: real): (t: Trace<Error>)
    requires min != max
    ensures t.Done? <==> forall k :: 0 <= k < |locs| ==> Features.ArcOf(base, locs[k], None).Success?
    ensures t.Panic? ==> exists k :: 0 <= k < |locs| && Features.ArcOf(base, locs[k], None) == Failure(t.cause)
  {
    if |locs| == 0 then
      Done([])
    else
      assert forall k :: 1 <= k < |locs| ==> locs[k] == locs[1..][k - 1];
      match Features.ArcOf(base, locs[0], None)
      case Failure(e) => Panic([], e)
      case Success(arc) =>
        var head := [SetLineStyle(r.grid)] + GridMarks(cen, arc, marks, inner, outer, min, max);
        Prepend(head, GridLocations(r, cen, locs[1..], base, marks, inner, outer, min, max))
  }

  /**
   * One location: a lookup failure is fatal before anything is drawn;
   * otherwise the grid style, then the grid arcs over that location's arc.
   */
  lemma GridLocationsSingle(r: Axis, cen: Point, loc: Option<Feature>, base: ArcOfer, marks: seq<Tick>,
                            inner: real, outer: real, min: real, max: real)
    requires min != max
    ensures GridLocations(r, cen, [loc], base, marks, inner, outer, min, max) ==
      if Features.ArcOf(base, loc, None).Failure? then Panic([], Features.ArcOf(base, loc, None).error)
      else Done([SetLineStyle(r.grid)] + GridMarks(cen, Features.ArcOf(base, loc, None).value, marks, inner, outer, min, max))
  {
    assert [loc][1..] == [];
  }

  /**
   * Locations are drawn strictly in order: the grid over a + b is the grid
   * over a and then, if that completed, the grid over b.
   */
  lemma {:induction false} GridLocationsAppend(r: Axis, cen: Point, a: seq<Option<Feature>>, b: seq<Option<Feature>>, base: ArcOfer,
                                               marks: seq<Tick>, inner: real, outer: real, min: real, max: real)
    requires min != max
    ensures GridLocations(r, cen, a + b, base, marks, inner, outer, min, max) ==
      if GridLocations(r, cen, a, base, marks, inner, outer, min, max).Done?
      then Prepend(GridLocations(r, cen, a, base, marks, inner, outer, min, max).actions,
                   GridLocations(r, cen, b, base, marks, inner, outer, min, max))
      else GridLocations(r, cen, a, base, marks, inner, outer, min, max)
  {
    if |a| == 0 {
      assert a + b == b;
    } else {
      assert (a + b)[0] == a[0];
      assert (a + b)[1..] == a[1..] + b;
      GridLocationsAppend(r, cen, a[1..], b, base, marks, inner, outer, min, max);
      if Features.ArcOf(base, a[0], None).Success? {
        var head := [SetLineStyle(r.grid)] + GridMarks(cen, Features.ArcOf(base, a[0], None).value, marks, inner, outer, min, max);
        var tail := GridLocations(r, cen, a[1..], base, marks, inner, outer, min, max);
        assert GridLocations(r, cen, a, base, marks, inner, outer, min, max) == Prepend(head, tail);
        if tail.Done? {
          PrependPrepend(head, tail.actions, GridLocations(r, cen, b, base, marks, inner, outer, min, max));
        }
      }
    }
  }

  /** A completed grid pass strokes one grid arc per location per mark in range. */
  lemma {:induction false} GridLocationsStrokes(r: Axis, cen: Point, locs: seq<Option<Feature>>, base: ArcOfer, marks: seq<Tick>,
                                                inner: real, outer: real, min: real, max: real)
    requires min != max
    ensures GridLocations(r, cen, locs, base, marks, inner, outer, min, max).Done? ==>
      Count(GridLocations(r, cen, locs, base, marks, inner, outer, min, max).actions, IsStroke)
        == |locs| * |InRangeMarks(marks, min, max)|
    decreases |locs|
  {
    var t := GridLocations(r, cen, locs, base, marks, inner, outer, min, max);
    if |locs| > 0 && t.Done? {
      var arc := Features.ArcOf(base, locs[0], None).value;
      var strokes := GridMarks(cen, arc, marks, inner, outer, min, max);
      var head := [SetLineStyle(r.grid)] + strokes;
      var rest := GridLocations(r, cen, locs[1..], base, marks, inner, outer, min, max);
      GridLocationsStrokes(r, cen, locs[1..], base, marks, inner, outer, min, max);
      GridLocationStrokes(r.grid, strokes, |InRangeMarks(marks, min, max)|);
      CountAppend(head, rest.Performed(), IsStroke);
      assert (|locs| - 1) * |strokes| + |strokes| == |locs| * |strokes|;
    }
  }

  lemma GridLocationStrokes(grid: LineStyle, strokes: seq<Action>, n: nat)
    requires |strokes| == n && forall k :: 0 <= k < |strokes| ==> strokes[k].Stroke?
    ensures Count([SetLineStyle(grid)] + strokes, IsStroke) == n
  {
    AllStrokes(strokes);
    CountSingle(SetLineStyle(grid), IsStroke);
    CountAppend([SetLineStyle(grid)], strokes, IsStroke);
  }

  lemma {:induction false} AllStrokes(acts: seq<Action>)
    requires forall k :: 0 <= k < |acts| ==> acts[k].Stroke?
    ensures Count(acts, IsStroke) == |acts|
  {
    if |acts| > 0 {
      AllStrokes(acts[1..]);
    }
  }

  /**
   * The grid pass: nothing unless the grid style is visible; then one grid
   * arc per distinct feature location per mark in range.
   */
  function GridPass(r: Axis, cen: Point, fs: seq<Feature>, base: ArcOfer, inner: real, outer: real, min: real, max: real): (t: Trace<Error>)
    requires min != max
    ensures !Visible(r.grid) ==> t == Done([])
    ensures Visible(r.grid) ==>
      (t.Done? <==> forall i :: 0 <= i < |fs| ==> Features.ArcOf(base, fs[i].location, None).Success?)
    ensures Visible(r.grid) && t.Done? ==>
      Count(t.actions, IsStroke) == |DistinctLocations(fs)| * |InRangeMarks(r.tick.marker(min, max), min, max)|
    ensures Visible(r.grid) ==>
      t == GridLocations(r, cen, DistinctLocations(fs), base, r.tick.marker(min, max), inner, outer, min, max)
  {
    GridLocationsStrokes(r, cen, DistinctLocations(fs), base, r.tick.marker(min, max), inner, outer, min, max);
    if r.grid.color != Nil && r.grid.width != 0.0 then
      GridLocations(r, cen, DistinctLocations(fs), base, r.tick.marker(min, max), inner, outer, min, max)
    else
      Done([])
  }

  /** The axis line: a radial segment at the axis angle from the inner to the outer radius. */
  function AxisLine(r: Axis, cen: Point, inner: real, outer: real): (acts: seq<Action>)
    ensures Count(acts, IsStroke) == (if Visible(r.lineStyle) then 1 else 0)
    ensures !Visible(r.lineStyle) ==> acts == []
    ensures Visible(r.lineStyle) ==>
      acts == [SetLineStyle(r.lineStyle), Stroke([Move(Add(cen, Rectangular(r.angle, inner))), Line(Add(cen, Rectangular(r.angle, outer)))])]
    ensures Count(acts, IsFillText) == 0
  {
    var pa := [Move(Add(cen, Rectangular(r.angle, inner))), Line(Add(cen, Rectangular(r.angle, outer)))];
    Pair(r.lineStyle.color != Nil && r.lineStyle.width != 0.0, SetLineStyle(r.lineStyle), Stroke(pa))
  }

  /**
   * Text written at (x, y) with a placement: a rotated text is wrapped in a
   * save, a rotation about (x, y) and a restore; unrotated text is written
   * directly. Exactly one text is written either way.
   */
  function PlacedText(style: TextStyle, x: real, y: real, pl: Placement, text: string): (acts: seq<Action>)
    ensures Count(acts, IsFillText) == 1 && Count(acts, IsStroke) == 0
    ensures pl.rot != 0.0 <==> |acts| == 6
    ensures pl.rot != 0.0 ==> acts[0] == Push && acts[1] == Translate(x, y) && acts[2] == Rotate(pl.rot) &&
                              acts[3] == Translate(-x, -y) && acts[5] == Pop
    ensures acts[|acts| - (if pl.rot != 0.0 then 2 else 1)] == FillText(style, x, y, pl.xalign, pl.yalign, text)
    ensures pl.rot == 0.0 ==> acts == [FillText(style, x, y, pl.xalign, pl.yalign, text)]
  {
    var ft := FillText(style, x, y, pl.xalign, pl.yalign, text);
    if pl.rot != 0.0 then
      var a, b, c := [Push, Translate(x, y)], [Rotate(pl.rot), Translate(-x, -y)], [ft, Pop];
      CountPair(Push, Translate(x, y), IsFillText);
      CountPair(Push, Translate(x, y), IsStroke);
      CountPair(Rotate(pl.rot), Translate(-x, -y), IsFillText);
      CountPair(Rotate(pl.rot), Translate(-x, -y), IsStroke);
      CountPair(ft, Pop, IsFillText);
      CountPair(ft, Pop, IsStroke);
      CountAppend(a, b, IsFillText);
      CountAppend(a, b, IsStroke);
      CountAppend(a + b, c, IsFillText);
      CountAppend(a + b, c, IsStroke);
      a + b + c
    else
      CountSingle(ft, IsFillText);
      CountSingle(ft, IsStroke);
      [ft]
  }

  /** The length of a tick: the configured length for a major tick, half of it for a minor one. */
  function TickLength(r: Axis, m: Tick): real {
    if m.IsMinor() then r.tick.length / 2.0 else r.tick.length
  }

  /**
   * One tick at `radius`: a stroke from the axis point at that radius along
   * the perpendicular offset of the tick's length, then, for a major tick
   * with a label colour, its label at twice the offset.
   */
  function TickActions(r: Axis, cen: Point, m: Tick, radius: real): (acts: seq<Action>)
    ensures |acts| >= 1 && Count(acts, IsStroke) == 1
    ensures acts[0] == Stroke([
      Move(Add(cen, Rectangular(r.angle, radius))),
      Line(Add(cen, Add(Rectangular(r.angle, radius), Rectangular(r.angle + Complete / 4.0, TickLength(r, m)))))])
    ensures Count(acts, IsFillText) == (if !m.IsMinor() && r.tick.labelStyle.color != Nil then 1 else 0)
    ensures m.IsMinor() || r.tick.labelStyle.color == Nil ==> |acts| == 1
    ensures !m.IsMinor() && r.tick.labelStyle.color != Nil ==>
      var e := Rectangular(r.angle, radius);
      var off := Rectangular(r.angle + Complete / 4.0, TickLength(r, m));
      acts[1..] == PlacedText(r.tick.labelStyle, e.x + off.x * 2.0 + cen.x, e.y + off.y * 2.0 + cen.y,
                              Place(r.tick.placement, r.angle), m.text)
  {
    var length := if m.IsMinor() then r.tick.length / 2.0 else r.tick.length;
    var off := Rectangular(r.angle + Complete / 4.0, length);
    var e := Rectangular(r.angle, radius);
    var stroke := Stroke([Move(Point(cen.x + e.x, cen.y + e.y)), Line(Point(cen.x + (e.x + off.x), cen.y + (e.y + off.y)))]);
    if m.IsMinor() || r.tick.labelStyle.color == Nil then
      assert [stroke][1..] == [];
      [stroke]
    else
      var x := e.x + off.x * 2.0 + cen.x;
      var y := e.y + off.y * 2.0 + cen.y;
      var text := PlacedText(r.tick.labelStyle, x, y, Place(r.tick.placement, r.angle), m.text);
      assert ([stroke] + text)[1..] == text;
      [stroke] + text
  }

  /** The ticks for `marks`, in order, skipping those out of range. */
  function TickMarks(r: Axis, cen: Point, marks: seq<Tick>, inner: real, outer: real, min: real, max: real): (acts: seq<Action>)
    requires min != max
    ensures Count(acts, IsStroke) == |InRangeMarks(marks, min, max)|
    ensures Count(acts, IsFillText) == (if r.tick.labelStyle.color != Nil then MajorCount(InRangeMarks(marks, min, max)) else 0)
  {
    if |marks| == 0 then
      []
    else
      var rest := TickMarks(r, cen, marks[1..], inner, outer, min, max);
      var kept := InRangeMarks(marks[1..], min, max);
      if marks[0].value < min || marks[0].value > max then
        assert InRangeMarks(marks, min, max) == kept;
        rest
      else
        var head := TickActions(r, cen, marks[0], MarkRadius(marks[0].value, min, max, inner, outer));
        assert InRangeMarks(marks, min, max) == [marks[0]] + kept;
        assert ([marks[0]] + kept)[1..] == kept;
        CountAppend(head, rest, IsStroke);
        CountAppend(head, rest, IsFillText);
        head + rest
  }

  /** Skipping marks out of range is the same as drawing only the marks in range. */
  lemma {:induction false} TickMarksSkipsOutOfRange(r: Axis, cen: Point, marks: seq<Tick>, inner: real, outer: real, min: real, max: real)
    requires min != max
    ensures TickMarks(r, cen, marks, inner, outer, min, max) == TickMarks(r, cen, InRangeMarks(marks, min, max), inner, outer, min, max)
  {
    if |marks| > 0 {
      TickMarksSkipsOutOfRange(r, cen, marks[1..], inner, outer, min, max);
      var kept := InRangeMarks(marks[1..], min, max);
      if InRange(marks[0], min, max) {
        assert InRangeMarks(marks, min, max) == [marks[0]] + kept;
        assert ([marks[0]] + kept)[0] == marks[0];
        assert ([marks[0]] + kept)[1..] == kept;
      } else {
        assert InRangeMarks(marks, min, max) == kept;
      }
    }
  }

  /** One mark draws its tick at its own radius when in range, and nothing otherwise. */
  lemma TickMarksSingle(r: Axis, cen: Point, m: Tick, inner: real, outer: real, min: real, max: real)
    requires min != max
    ensures TickMarks(r, cen, [m], inner, outer, min, max) ==
      if InRange(m, min, max) then TickActions(r, cen, m, MarkRadius(m.value, min, max, inner, outer)) else []
  {
    assert [m][1..] == [];
  }

  /** The ticks of a concatenation of marks are the ticks of each part, in order. */
  lemma {:induction false} TickMarksAppend(r: Axis, cen: Point, a: seq<Tick>, b: seq<Tick>, inner: real, outer: real, min: real, max: real)
    requires min != max
    ensures TickMarks(r, cen, a + b, inner, outer, min, max) ==
      TickMarks(r, cen, a, inner, outer, min, max) + TickMarks(r, cen, b, inner, outer, min, max)
  {
    if |a| == 0 {
      assert a + b == b;
    } else {
      assert (a + b)[0] == a[0];
      assert (a + b)[1..] == a[1..] + b;
      TickMarksAppend(r, cen, a[1..], b, inner, outer, min, max);
    }
  }

  /**
   * The tick pass: nothing unless the tick style is visible and the tick
   * length non-zero; then the tick line style and one stroke per mark in
   * range, with a label for each major mark when the label has a colour.
   */
  function TickPass(r: Axis, cen: Point, inner: real, outer: real, min: real, max: real): (acts: seq<Action>)
    requires min != max
    ensures !(Visible(r.tick.lineStyle) && r.tick.length != 0.0) ==> acts == []
    ensures Visible(r.tick.lineStyle) && r.tick.length != 0.0 ==> |acts| > 0 && acts[0] == SetLineStyle(r.tick.lineStyle)
    ensures Visible(r.tick.lineStyle) && r.tick.length != 0.0 ==>
      acts == [SetLineStyle(r.tick.lineStyle)] + TickMarks(r, cen, r.tick.marker(min, max), inner, outer, min, max)
    ensures Count(acts, IsStroke) ==
      (if Visible(r.tick.lineStyle) && r.tick.length != 0.0 then |InRangeMarks(r.tick.marker(min, max), min, max)| else 0)
    ensures Count(acts, IsFillText) ==
      (if Visible(r.tick.lineStyle) && r.tick.length != 0.0 && r.tick.labelStyle.color != Nil
       then MajorCount(InRangeMarks(r.tick.marker(min, max), min, max)) else 0)
  {
    if r.tick.lineStyle.color != Nil && r.tick.lineStyle.width != 0.0 && r.tick.length != 0.0 then
      var marks := TickMarks(r, cen, r.tick.marker(min, max), inner, outer, min, max);
      CountAppend([SetLineStyle(r.tick.lineStyle)], marks, IsStroke);
      CountAppend([SetLineStyle(r.tick.lineStyle)], marks, IsFillText);
      [SetLineStyle(r.tick.lineStyle)] + marks
    else
      []
  }

  /**
   * The axis label: written only when it has text and a colour, anchored
   * at the axis angle halfway between the inner and outer radii.
   */
  function LabelPass(r: Axis, cen: Point, inner: real, outer: real): (acts: seq<Action>)
    ensures Count(acts, IsFillText) == (if r.axisLabel.text != "" && r.axisLabel.style.color != Nil then 1 else 0)
    ensures Count(acts, IsStroke) == 0
    ensures !(r.axisLabel.text != "" && r.axisLabel.style.color != Nil) ==> acts == []
    ensures r.axisLabel.text != "" && r.axisLabel.style.color != Nil ==>
      var e := Rectangular(r.angle, (inner + outer) / 2.0);
      acts == PlacedText(r.axisLabel.style, e.x + cen.x, e.y + cen.y, Place(r.axisLabel.placement, r.angle), r.axisLabel.text)
  {
    if r.axisLabel.text != "" && r.axisLabel.style.color != Nil then
      var e := Rectangular(r.angle, (inner + outer) / 2.0);
      PlacedText(r.axisLabel.style, e.x + cen.x, e.y + cen.y, Place(r.axisLabel.placement, r.angle), r.axisLabel.text)
    else
      []
  }

  /**
   * Axis.drawAt: the grid pass, then the axis line, the tick pass and the
   * label. Only the grid pass can fail, fatally, on a location without an
   * arc, and then nothing after it is drawn.
   */
  function DrawAt(r: Axis, cen: Point, fs: seq<Feature>, base: ArcOfer, inner: real, outer: real, min: real, max: real): (t: Trace<Error>)
    requires min != max
    ensures t.Done? <==>
      !Visible(r.grid) || forall i :: 0 <= i < |fs| ==> Features.ArcOf(base, fs[i].location, None).Success?
    ensures t.Done? ==> (Count(t.actions, IsStroke) ==
      (if Visible(r.grid) then |DistinctLocations(fs)| * |InRangeMarks(r.tick.marker(min, max), min, max)| else 0)
      + (if Visible(r.lineStyle) then 1 else 0)
      + (if Visible(r.tick.lineStyle) && r.tick.length != 0.0 then |InRangeMarks(r.tick.marker(min, max), min, max)| else 0))
    ensures t.Done? ==> (Count(t.actions, IsFillText) ==
      (if Visible(r.tick.lineStyle) && r.tick.length != 0.0 && r.tick.labelStyle.color != Nil
       then MajorCount(InRangeMarks(r.tick.marker(min, max), min, max)) else 0)
      + (if r.axisLabel.text != "" && r.axisLabel.style.color != Nil then 1 else 0))
    ensures t.Done? ==> (t.actions == GridPass(r, cen, fs, base, inner, outer, min, max).actions
      + AxisLine(r, cen, inner, outer) + TickPass(r, cen, inner, outer, min, max) + LabelPass(r, cen, inner, outer))
    ensures t.Panic? ==> t == GridPass(r, cen, fs, base, inner, outer, min, max)
  {
    match GridPass(r, cen, fs, base, inner, outer, min, max)
    case Panic(emitted, e) => Panic(emitted, e)
    case Done(grid) =>
      var line := AxisLine(r, cen, inner, outer);
      var ticks := TickPass(r, cen, inner, outer, min, max);
      var lbl := LabelPass(r, cen, inner, outer);
      GridFillTextFree(r, cen, DistinctLocations(fs), base, r.tick.marker(min, max), inner, outer, min, max);
      CountAppend(grid, line, IsStroke);
      CountAppend(grid + line, ticks, IsStroke);
      CountAppend(grid + line + ticks, lbl, IsStroke);
      CountAppend(grid, line, IsFillText);
      CountAppend(grid + line, ticks, IsFillText);
      CountAppend(grid + line + ticks, lbl, IsFillText);
      Done(grid + line + ticks + lbl)
  }

  /** The grid pass writes no text. */
  lemma {:induction false} GridFillTextFree(r: Axis, cen: Point, locs: seq<Option<Feature>>, base: ArcOfer, marks: seq<Tick>,
                                            inner: real, outer: real, min: real, max: real)
    requires min != max
    ensures Count(GridLocations(r, cen, locs, base, marks, inner, outer, min, max).Performed(), IsFillText) == 0
  {
    if |locs| > 0 {
      GridFillTextFree(r, cen, locs[1..], base, marks, inner, outer, min, max);
      match Features.ArcOf(base, locs[0], None)
      case Failure(_) =>
      case Success(arc) =>
        var strokes := GridMarks(cen, arc, marks, inner, outer, min, max);
        NoFillTextInStrokes(strokes);
        CountAppend([SetLineStyle(r.grid)], strokes, IsFillText);
        CountAppend([SetLineStyle(r.grid)] + strokes, GridLocations(r, cen, locs[1..], base, marks, inner, outer, min, max).Performed(), IsFillText);
    }
  }

  lemma {:induction false} NoFillTextInStrokes(acts: seq<Action>)
    requires forall k :: 0 <= k < |acts| ==> acts[k].Stroke?
    ensures Count(acts, IsFillText) == 0
  {
    if |acts| > 0 {
      NoFillTextInStrokes(acts[1..]);
    }
  }
}
