/**
 * The drawing vocabulary of the rings package: colours, line and text
 * styles, path components and the canvas actions a draw routine emits.
 * A draw routine is modelled as a pure function returning the sequence of
 * actions it would perform on its drawing area, in order.
 */
module Canvas {
  import opened Geometry

  /** A colour interface value; `Nil` is the nil colour that disables fills and strokes. */
  datatype Color = Nil | Col(id: nat)

  /** A line style: colour, width, dash pattern and dash offset. */
  datatype LineStyle = LineStyle(color: Color, width: real, dashes: seq<real>, dashOffs: real)

  /** The zero line style: nil colour and zero width, so nothing is stroked with it. */
  const ZeroLineStyle := LineStyle(Nil, 0.0, [], 0.0)

  /** A line style is used for stroking only when it has a colour and a non-zero width. */
  predicate Visible(sty: LineStyle) {
    sty.color != Nil && sty.width != 0.0
  }

  datatype Font = Font(name: string, size: real)

  /** A text style: colour and font. */
  datatype TextStyle = TextStyle(color: Color, font: Font)

  /** One component of a vector path. */
  datatype PathComp =
    | Move(to: Point)
    | Line(to: Point)
    | ArcSeg(center: Point, radius: real, start: Angle, angle: Angle)
    | Close

  type Path = seq<PathComp>

  /** One call on the drawing area. */
  datatype Action =
    | SetColor(color: Color)
    | Fill(path: Path)
    | SetLineStyle(style: LineStyle)
    | Stroke(path: Path)
    | Push
    | Translate(dx: real, dy: real)
    | Rotate(angle: Angle)
    | FillText(textStyle: TextStyle, x: real, y: real, xalign: real, yalign: real, text: string)
    | Pop

  /**
   * What a draw routine does: either it completes, having emitted `actions`,
   * or it panics after emitting `emitted`, with `cause` as the reason.
   */
  datatype Trace<E> = Done(actions: seq<Action>) | Panic(emitted: seq<Action>, cause: E) {
    /** The actions performed before the routine returned or panicked. */
    function Performed(): seq<Action> {
      if Done? then actions else emitted
    }
  }

  /** `acts` performed first, then the trace `t`. */
  function Prepend<E>(acts: seq<Action>, t: Trace<E>): (r: Trace<E>)
    ensures r.Done? == t.Done?
    ensures r.Performed() == acts + t.Performed()
    ensures r.Panic? ==> r.cause == t.cause
  {
    match t
    case Done(a) => Done(acts + a)
    case Panic(a, e) => Panic(acts + a, e)
  }

  lemma PrependPrepend<E>(a: seq<Action>, b: seq<Action>, t: Trace<E>)
    ensures Prepend(a, Prepend(b, t)) == Prepend(a + b, t)
  {
    assert a + (b + t.Performed()) == (a + b) + t.Performed();
  }

  /** The number of actions in `acts` that satisfy `p`. */
  function Count(acts: seq<Action>, p: Action -> bool): nat
    ensures Count(acts, p) <= |acts|
  {
    if |acts| == 0 then 0 else (if p(acts[0]) then 1 else 0) + Count(acts[1..], p)
  }

  lemma {:induction false} CountAppend(a: seq<Action>, b: seq<Action>, p: Action -> bool)
    ensures Count(a + b, p) == Count(a, p) + Count(b, p)
  {
    if |a| == 0 {
      assert a + b == b;
    } else {
      assert (a + b)[1..] == a[1..] + b;
      CountAppend(a[1..], b, p);
    }
  }

  lemma CountSingle(a: Action, p: Action -> bool)
    ensures Count([a], p) == (if p(a) then 1 else 0)
  {
    assert [a][1..] == [];
  }

  lemma CountPair(a: Action, b: Action, p: Action -> bool)
    ensures Count([a, b], p) == (if p(a) then 1 else 0) + (if p(b) then 1 else 0)
  {
    assert [a, b][1..] == [b];
    assert [b][1..] == [];
  }

  /** The two actions `a`, `b` (a style change and its use) when `when` holds, else nothing. */
  function Pair(when: bool, a: Action, b: Action): (acts: seq<Action>)
    ensures forall p: Action -> bool :: Count(acts, p) == if when then (if p(a) then 1 else 0) + (if p(b) then 1 else 0) else 0
  {
    if when then
      assert forall p: Action -> bool :: Count([a, b], p) == (if p(a) then 1 else 0) + (if p(b) then 1 else 0) by {
        forall p: Action -> bool { CountPair(a, b, p); }
      }
      [a, b]
    else
      []
  }

  predicate IsFill(a: Action) { a.Fill? }
  predicate IsStroke(a: Action) { a.Stroke? }
  predicate IsFillText(a: Action) { a.FillText? }

  /** A plot rectangle given by its minimum corner and its size. */
  datatype Rect = Rect(min: Point, size: Point)

  /** A glyph box: a rectangle in drawing units around a normalised plot position. */
  datatype GlyphBox = GlyphBox(x: real, y: real, rect: Rect)

  predicate InRect(rect: Rect, p: Point) {
    rect.min.x <= p.x <= rect.min.x + rect.size.x && rect.min.y <= p.y <= rect.min.y + rect.size.y
  }

  /**
   * The single glyph box shared by the ring primitives: at the normalised
   * position of (x, y), covering exactly the square of half-side `outer`
   * centred on the drawing position. `normX` and `normY` are the plot's axis
   * normalisations, which are not part of this model.
   */
  function LiberalGlyphBoxes(x: real, y: real, outer: real, normX: real -> real, normY: real -> real): (boxes: seq<GlyphBox>)
    ensures |boxes| == 1
    ensures boxes[0].x == normX(x) && boxes[0].y == normY(y)
    ensures forall p :: InRect(boxes[0].rect, p) <==> -outer <= p.x <= outer && -outer <= p.y <= outer
  {
    [GlyphBox(normX(x), normY(y), Rect(Point(-outer, -outer), Point(2.0 * outer, 2.0 * outer)))]
  }
}
