/**
 * Highlight: one coloured annular band over a fixed arc.
 */
module Highlight {
  import opened Geometry
  import opened Canvas

  /** A Highlight. `x`, `y` are its plot position. */
  datatype Highlight = Highlight(
    base: Arc,
    color: Color,
    lineStyle: LineStyle,
    inner: real,
    outer: real,
    x: real,
    y: real)
  {
    /** The arc of the highlight. */
    function Arc(): Geometry.Arc {
      base
    }
  }

  /**
   * NewHighlight never fails: it keeps the colour, arc and radii as given,
   * with the zero line style, and it does not compare the radii.
   */
  function NewHighlight(col: Color, base: Arc, inner: real, outer: real): (h: Highlight)
    ensures h.color == col && h.base == base && h.inner == inner && h.outer == outer
    ensures h.lineStyle == ZeroLineStyle && !Visible(h.lineStyle)
    ensures h.x == 0.0 && h.y == 0.0
  {
    Highlight(base, col, ZeroLineStyle, inner, outer, 0.0, 0.0)
  }

  /** The arc a highlight reports is the arc it was made with. */
  lemma NewHighlightArc(col: Color, base: Arc, inner: real, outer: real)
    ensures NewHighlight(col, base, inner, outer).Arc() == base
  {
  }

  /**
   * The outline of the band: a move to the inner radius at the start
   * angle, the inner arc forward, the outer arc back, closed. For a whole
   * turn a move to the start of the outer arc is inserted so that the ring
   * closes without a straight seam between the two arcs.
   */
  function BandPath(cen: Point, a: Arc, inner: real, outer: real): (pa: Path)
    ensures |pa| == (if IsFullTurn(a.phi) then 5 else 4)
    ensures pa[0] == Move(Add(cen, Rectangular(a.theta, inner)))
    ensures pa[1] == ArcSeg(cen, inner, a.theta, a.phi)
    ensures pa[|pa| - 2] == ArcSeg(cen, outer, a.theta + a.phi, -a.phi)
    ensures pa[|pa| - 1] == Close
    ensures IsFullTurn(a.phi) <==> exists k :: 1 <= k < |pa| && pa[k].Move?
  {
    var start := [Move(Add(cen, Rectangular(a.theta, inner))), ArcSeg(cen, inner, a.theta, a.phi)];
    var reanchor :=
      if a.phi == Clockwise * Complete || a.phi == CounterClockwise * Complete
      then [Move(Add(cen, Rectangular(a.theta + a.phi, outer)))]
      else [];
    var pa := start + reanchor + [ArcSeg(cen, outer, a.theta + a.phi, -a.phi), Close];
    if IsFullTurn(a.phi) then
      assert pa[2].Move?;
      pa
    else
      assert pa == [start[0], start[1], ArcSeg(cen, outer, a.theta + a.phi, -a.phi), Close];
      pa
  }

  /** The point at which an arc component begins. */
  function ArcStart(c: PathComp): Point
    requires c.ArcSeg?
  {
    Add(c.center, Rectangular(c.start, c.radius))
  }

  /**
   * For a whole turn the outer arc starts exactly where the path was moved
   * to, so no connecting straight segment is implied before it.
   */
  lemma FullTurnHasNoSeam(cen: Point, a: Arc, inner: real, outer: real)
    requires IsFullTurn(a.phi)
    ensures BandPath(cen, a, inner, outer)[2].Move?
    ensures BandPath(cen, a, inner, outer)[3].ArcSeg?
    ensures ArcStart(BandPath(cen, a, inner, outer)[3]) == BandPath(cen, a, inner, outer)[2].to
  {
  }

  /**
   * Highlight.DrawAt: nothing when there is neither a fill colour nor a
   * visible line style; otherwise the band is filled when there is a
   * colour and stroked when the line style is visible, fill first.
   */
  function DrawAt(r: Highlight, cen: Point): (acts: seq<Action>)
    ensures acts == [] <==> r.color == Nil && !Visible(r.lineStyle)
    ensures Count(acts, IsFill) == (if r.color != Nil then 1 else 0)
    ensures Count(acts, IsStroke) == (if Visible(r.lineStyle) then 1 else 0)
    ensures |acts| == 2 * (Count(acts, IsFill) + Count(acts, IsStroke))
    ensures forall k :: 0 <= k < |acts| && (acts[k].Fill? || acts[k].Stroke?) ==>
      acts[k].path == BandPath(cen, r.base, r.inner, r.outer)
    ensures r.color != Nil ==> acts[0] == SetColor(r.color) && acts[1].Fill?
    ensures Visible(r.lineStyle) ==> acts[|acts| - 2] == SetLineStyle(r.lineStyle) && acts[|acts| - 1].Stroke?
  {
    if r.color == Nil && (r.lineStyle.color == Nil || r.lineStyle.width == 0.0) then
      []
    else
      var pa := BandPath(cen, r.base, r.inner, r.outer);
      var fill := Pair(r.color != Nil, SetColor(r.color), Fill(pa));
      var stroke := Pair(r.lineStyle.color != Nil && r.lineStyle.width != 0.0, SetLineStyle(r.lineStyle), Stroke(pa));
      CountAppend(fill, stroke, IsFill);
      CountAppend(fill, stroke, IsStroke);
      fill + stroke
  }

  /** The glyph box of a highlight: one square of side 2·outer centred on its position. */
  function GlyphBoxes(r: Highlight, normX: real -> real, normY: real -> real): (boxes: seq<GlyphBox>)
    ensures |boxes| == 1 && boxes[0].x == normX(r.x) && boxes[0].y == normY(r.y)
    ensures forall p :: InRect(boxes[0].rect, p) <==> -r.outer <= p.x <= r.outer && -r.outer <= p.y <= r.outer
  {
    LiberalGlyphBoxes(r.x, r.y, r.outer, normX, normY)
  }
}
