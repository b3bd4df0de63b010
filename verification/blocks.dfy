/**
 * Blocks: each feature of a set rendered as an annular sector between an
 * inner and an outer radius, over the arc the base lookup gives it.
 */
module Blocks {
  import opened Wrappers
  import opened Geometry
  import opened Canvas
  import opened Features

  /** A Blocks ring. `x`, `y` are its plot position; a Blocks made by NewBlocks has them zero. */
  datatype Blocks = Blocks(
    features: seq<Feature>,
    base: ArcOfer,
    color: Color,
    lineStyle: LineStyle,
    inner: real,
    outer: real,
    x: real,
    y: real)
  {
    /** The base arc of the ring. */
    function Arc(): Geometry.Arc {
      base.arc
    }

    /** The arc of `loc` (or of `f` within it), as the base lookup answers it. */
    function ArcOf(loc: Option<Feature>, f: Option<Feature>): Result<Geometry.Arc, Error> {
      Features.ArcOf(base, loc, f)
    }
  }

  const ErrInnerOuter := Error("rings: inner radius greater than outer radius")
  const ErrInverted := Error("rings: inverted feature")
  const ErrOutOfRange := Error("rings: feature out of range")

  /** The feature's start lies within its parent location, if it has one. Its end is not checked. */
  predicate StartInLocation(f: Feature) {
    f.location.Some? ==> f.location.value.start <= f.start <= f.location.value.end
  }

  /** A feature that NewBlocks accepts against `base`. */
  predicate Renderable(base: ArcOfer, f: Feature) {
    && f.start <= f.end
    && StartInLocation(f)
    && Features.ArcOf(base, Some(f), None).Success?
  }

  /**
   * The checks NewBlocks applies to one feature, in the order it applies
   * them: inversion, then the start against the parent location, then the
   * lookup, whose error is passed on unchanged.
   */
  function CheckFeature(base: ArcOfer, f: Feature): (r: Option<Error>)
    ensures r.None? <==> Renderable(base, f)
    ensures f.end < f.start ==> r == Some(ErrInverted)
    ensures f.start <= f.end && !StartInLocation(f) ==> r == Some(ErrOutOfRange)
    ensures f.start <= f.end && StartInLocation(f) && Features.ArcOf(base, Some(f), None).Failure? ==>
      r == Some(Features.ArcOf(base, Some(f), None).error)
  {
    if f.end < f.start then
      Some(ErrInverted)
    else if f.location.Some? && (f.start < f.location.value.start || f.start > f.location.value.end) then
      Some(ErrOutOfRange)
    else
      match Features.ArcOf(base, Some(f), None)
      case Failure(e) => Some(e)
      case Success(_) => None
  }

  /** The scan of NewBlocks over `fs`: the error of the first feature that fails, if any. */
  function FirstError(base: ArcOfer, fs: seq<Feature>): (r: Option<Error>)
    ensures r.None? <==> forall i :: 0 <= i < |fs| ==> Renderable(base, fs[i])
    ensures r.Some? ==> exists i :: 0 <= i < |fs| && CheckFeature(base, fs[i]) == r &&
                                (forall j :: 0 <= j < i ==> Renderable(base, fs[j]))
  {
    if |fs| == 0 then
      None
    else
      match CheckFeature(base, fs[0])
      case Some(e) => Some(e)
      case None =>
        var rest := FirstError(base, fs[1..]);
        assert forall i :: 1 <= i < |fs| ==> fs[i] == fs[1..][i - 1];
        rest
  }

  /**
   * NewBlocks: the radii are checked before any feature; then the features
   * are checked in order and the first failure is returned; on success the
   * ring holds exactly the arguments, no fill colour and the zero line style.
   */
  function NewBlocks(fs: seq<Feature>, base: ArcOfer, inner: real, outer: real): (r: Result<Blocks, Error>)
    ensures inner > outer ==> r == Failure(ErrInnerOuter)
    ensures r.Success? <==> inner <= outer && forall i :: 0 <= i < |fs| ==> Renderable(base, fs[i])
    ensures r.Success? ==> r.value == Blocks(fs, base, Nil, ZeroLineStyle, inner, outer, 0.0, 0.0)
    ensures r.Failure? && inner <= outer ==>
      exists i :: 0 <= i < |fs| && CheckFeature(base, fs[i]) == Some(r.error) &&
        forall j :: 0 <= j < i ==> Renderable(base, fs[j])
  {
    if inner > outer then
      Failure(ErrInnerOuter)
    else
      match FirstError(base, fs)
      case Some(e) => Failure(e)
      case None => Success(Blocks(fs, base, Nil, ZeroLineStyle, inner, outer, 0.0, 0.0))
  }

  /** Every feature of `fs` has an arc in `o` when asked for on its own. */
  predicate ResolvesAll(o: ArcOfer, fs: seq<Feature>) {
    forall i | 0 <= i < |fs| :: Features.ArcOf(o, Some(fs[i]), None).Success?
  }

  /**
   * The lookup NewGappedBlocks builds on: a supplied lookup is kept exactly
   * when every feature resolves through it; otherwise, and for a plain arc
   * source, a gapped layout of the features over the base is substituted.
   */
  function ChooseArcOfer(base: Arcer, fs: seq<Feature>, gap: real): (b: ArcOfer)
    ensures base.OfArcer? && ResolvesAll(base.ofer, fs) ==> b == base.ofer
    ensures !(base.OfArcer? && ResolvesAll(base.ofer, fs)) ==> b == NewGappedArcs(base, fs, gap)
  {
    match base
    case OfArcer(o) => if ResolvesAll(o, fs) then o else NewGappedArcs(base, fs, gap)
    case PlainArcer(_, _) => NewGappedArcs(base, fs, gap)
  }

  /** NewGappedBlocks: NewBlocks over the lookup chosen by ChooseArcOfer. */
  function NewGappedBlocks(fs: seq<Feature>, base: Arcer, inner: real, outer: real, gap: real): (r: Result<Blocks, Error>)
    ensures inner > outer ==> r == Failure(ErrInnerOuter)
    ensures r.Success? <==> inner <= outer && forall i :: 0 <= i < |fs| ==> Renderable(ChooseArcOfer(base, fs, gap), fs[i])
    ensures r.Success? && base.OfArcer? && ResolvesAll(base.ofer, fs) ==> r.value.base == base.ofer
    ensures r.Success? && !(base.OfArcer? && ResolvesAll(base.ofer, fs)) ==> r.value.base == NewGappedArcs(base, fs, gap)
  {
    if inner > outer then
      Failure(ErrInnerOuter)
    else
      NewBlocks(fs, ChooseArcOfer(base, fs, gap), inner, outer)
  }

  /**
   * The early radius check of NewGappedBlocks is the one NewBlocks makes
   * first anyway, so NewGappedBlocks is NewBlocks over the chosen lookup;
   * in particular a lookup through which every feature resolves gives the
   * same result as calling NewBlocks with it directly.
   */
  lemma NewGappedBlocksIsNewBlocks(fs: seq<Feature>, base: Arcer, inner: real, outer: real, gap: real)
    ensures NewGappedBlocks(fs, base, inner, outer, gap) == NewBlocks(fs, ChooseArcOfer(base, fs, gap), inner, outer)
    ensures base.OfArcer? && ResolvesAll(base.ofer, fs) ==>
      NewGappedBlocks(fs, base, inner, outer, gap) == NewBlocks(fs, base.ofer, inner, outer)
  {
  }

  /**
   * A ring made by NewBlocks answers its arc queries through its base: its
   * arc is the base arc, and every feature it holds has an arc when asked
   * for on its own.
   */
  lemma NewBlocksDelegates(fs: seq<Feature>, base: ArcOfer, inner: real, outer: real)
    requires NewBlocks(fs, base, inner, outer).Success?
    ensures NewBlocks(fs, base, inner, outer).value.Arc() == base.arc
    ensures forall loc, f :: NewBlocks(fs, base, inner, outer).value.ArcOf(loc, f) == Features.ArcOf(base, loc, f)
    ensures forall i :: 0 <= i < |fs| ==> NewBlocks(fs, base, inner, outer).value.ArcOf(Some(fs[i]), None).Success?
  {
  }

  /** The closed outline of the block over `arc`: inner arc forward, outer arc back. */
  function SectorPath(cen: Point, arc: Geometry.Arc, inner: real, outer: real): Path {
    [ Move(Add(cen, Rectangular(arc.theta, inner))),
      ArcSeg(cen, inner, arc.theta, arc.phi),
      ArcSeg(cen, outer, arc.theta + arc.phi, -arc.phi),
      Close ]
  }

  /** Whether the block of `f` is filled: by its own fill colour if it has one, else by the ring colour. */
  predicate Filled(r: Blocks, f: Feature) {
    f.fillColor.Some? || r.color != Nil
  }

  /** The line style the block of `f` is stroked with: its own if it has one, else the ring's. */
  function StrokeStyle(r: Blocks, f: Feature): LineStyle {
    f.lineStyle.GetOr(r.lineStyle)
  }

  /** The fill part of a block: the resolved colour, then the fill, or nothing. */
  function FillActions(r: Blocks, f: Feature, pa: Path): (acts: seq<Action>)
    ensures Count(acts, IsFill) == (if Filled(r, f) then 1 else 0)
    ensures Count(acts, IsStroke) == 0
    ensures |acts| == 2 * Count(acts, IsFill)
    ensures Filled(r, f) ==> acts == [SetColor(if f.fillColor.Some? then f.fillColor.value else r.color), Fill(pa)]
  {
    if f.fillColor.Some? then Pair(true, SetColor(f.fillColor.value), Fill(pa))
    else Pair(r.color != Nil, SetColor(r.color), Fill(pa))
  }

  /** The stroke part of a block: the resolved line style, then the stroke, or nothing. */
  function StrokeActions(r: Blocks, f: Feature, pa: Path): (acts: seq<Action>)
    ensures Count(acts, IsStroke) == (if Visible(StrokeStyle(r, f)) then 1 else 0)
    ensures Count(acts, IsFill) == 0
    ensures |acts| == 2 * Count(acts, IsStroke)
    ensures Visible(StrokeStyle(r, f)) ==> acts == [SetLineStyle(StrokeStyle(r, f)), Stroke(pa)]
  {
    var sty := if f.lineStyle.Some? then f.lineStyle.value else r.lineStyle;
    Pair(sty.color != Nil && sty.width != 0.0, SetLineStyle(sty), Stroke(pa))
  }

  /**
   * The actions that draw one feature over its arc: the sector is filled
   * when the feature or the ring has a fill colour (the feature's wins),
   * then stroked when the feature's line style, or the ring's if the feature
   * has none, is visible. Nothing else is emitted.
   */
  function FeatureActions(r: Blocks, cen: Point, f: Feature, arc: Geometry.Arc): (acts: seq<Action>)
    ensures Count(acts, IsFill) == (if Filled(r, f) then 1 else 0)
    ensures Count(acts, IsStroke) == (if Visible(StrokeStyle(r, f)) then 1 else 0)
    ensures |acts| == 2 * (Count(acts, IsFill) + Count(acts, IsStroke))
    ensures forall k :: 0 <= k < |acts| && acts[k].Fill? ==>
      && acts[k].path == SectorPath(cen, arc, r.inner, r.outer)
      && 0 < k && acts[k - 1] == SetColor(if f.fillColor.Some? then f.fillColor.value else r.color)
    ensures forall k :: 0 <= k < |acts| && acts[k].Stroke? ==>
      && acts[k].path == SectorPath(cen, arc, r.inner, r.outer)
      && 0 < k && acts[k - 1] == SetLineStyle(StrokeStyle(r, f))
    ensures forall i, j :: 0 <= i < |acts| && 0 <= j < |acts| && acts[i].Fill? && acts[j].Stroke? ==> i < j
  {
    var pa := SectorPath(cen, arc, r.inner, r.outer);
    var fill := FillActions(r, f, pa);
    var stroke := StrokeActions(r, f, pa);
    CountAppend(fill, stroke, IsFill);
    CountAppend(fill, stroke, IsStroke);
    fill + stroke
  }

  /** The number of features of `fs` whose blocks are filled. */
  function FilledCount(r: Blocks, fs: seq<Feature>): nat {
    if |fs| == 0 then 0 else (if Filled(r, fs[0]) then 1 else 0) + FilledCount(r, fs[1..])
  }

  /** The number of features of `fs` whose blocks are stroked. */
  function StrokedCount(r: Blocks, fs: seq<Feature>): nat {
    if |fs| == 0 then 0 else (if Visible(StrokeStyle(r, fs[0])) then 1 else 0) + StrokedCount(r, fs[1..])
  }

  /** The arc the drawing loop asks for: the feature within its own location. */
  function DrawArc(r: Blocks, f: Feature): Result<Geometry.Arc, Error> {
    Features.ArcOf(r.base, f.location, Some(f))
  }

  /**
   * The drawing loop over `fs`, in order. It panics at the first feature
   * whose arc cannot be found, after drawing the features before it.
   */
  function DrawFeatures(r: Blocks, cen: Point, fs: seq<Feature>): (t: Trace<Error>)
    ensures t.Done? <==> forall i :: 0 <= i < |fs| ==> DrawArc(r, fs[i]).Success?
    ensures t.Panic? ==> exists i :: 0 <= i < |fs| && DrawArc(r, fs[i]) == Failure(t.cause) &&
                                 (forall j :: 0 <= j < i ==> DrawArc(r, fs[j]).Success?)
  {
    if |fs| == 0 then
      Done([])
    else
      assert forall i :: 1 <= i < |fs| ==> fs[i] == fs[1..][i - 1];
      match DrawArc(r, fs[0])
      case Failure(e) => Panic([], e)
      case Success(arc) =>
        var head := FeatureActions(r, cen, fs[0], arc);
        Prepend(head, DrawFeatures(r, cen, fs[1..]))
  }

  /**
   * A completed drawing loop fills one block per filled feature and strokes
   * one outline per stroked feature.
   */
  lemma {:induction false} DrawFeaturesCounts(r: Blocks, cen: Point, fs: seq<Feature>)
    ensures DrawFeatures(r, cen, fs).Done? ==>
      Count(DrawFeatures(r, cen, fs).actions, IsFill) == FilledCount(r, fs) &&
      Count(DrawFeatures(r, cen, fs).actions, IsStroke) == StrokedCount(r, fs)
    decreases |fs|
  {
    if |fs| > 0 && DrawArc(r, fs[0]).Success? {
      var head := FeatureActions(r, cen, fs[0], DrawArc(r, fs[0]).value);
      var rest := DrawFeatures(r, cen, fs[1..]);
      DrawFeaturesCounts(r, cen, fs[1..]);
      CountAppend(head, rest.Performed(), IsFill);
      CountAppend(head, rest.Performed(), IsStroke);
    }
  }

  /**
   * One feature: a failed lookup of its arc within its location panics
   * before anything is drawn; otherwise its block is drawn over that arc.
   */
  lemma DrawFeaturesSingle(r: Blocks, cen: Point, f: Feature)
    ensures DrawFeatures(r, cen, [f]) ==
      if DrawArc(r, f).Failure? then Panic([], DrawArc(r, f).error)
      else Done(FeatureActions(r, cen, f, DrawArc(r, f).value))
  {
    assert [f][1..] == [];
    assert DrawFeatures(r, cen, []) == Done([]);
  }

  /**
   * Blocks.DrawAt: nothing for an empty set; otherwise every feature in set
   * order, each as the sector over the arc of the feature within its
   * location, filled and stroked as FeatureActions resolves. A feature
   * without an arc is fatal.
   */
  function DrawAt(r: Blocks, cen: Point): (t: Trace<Error>)
    ensures |r.features| == 0 ==> t == Done([])
    ensures |r.features| > 0 ==> t == DrawFeatures(r, cen, r.features)
    ensures t.Done? <==> forall i :: 0 <= i < |r.features| ==> DrawArc(r, r.features[i]).Success?
    ensures t.Panic? ==> exists i :: 0 <= i < |r.features| && DrawArc(r, r.features[i]) == Failure(t.cause)
    ensures t.Done? ==> Count(t.actions, IsFill) == FilledCount(r, r.features)
    ensures t.Done? ==> Count(t.actions, IsStroke) == StrokedCount(r, r.features)
  {
    DrawFeaturesCounts(r, cen, r.features);
    if |r.features| == 0 then Done([]) else DrawFeatures(r, cen, r.features)
  }

  /**
   * Drawing a concatenation of feature sets draws the first set and then,
   * if that completed, the second: features are drawn strictly in order.
   */
  lemma {:induction false} DrawFeaturesAppend(r: Blocks, cen: Point, a: seq<Feature>, b: seq<Feature>)
    ensures DrawFeatures(r, cen, a + b) ==
      if DrawFeatures(r, cen, a).Done?
      then Prepend(DrawFeatures(r, cen, a).actions, DrawFeatures(r, cen, b))
      else DrawFeatures(r, cen, a)
  {
    if |a| == 0 {
      assert a + b == b;
    } else {
      assert (a + b)[0] == a[0];
      assert (a + b)[1..] == a[1..] + b;
      DrawFeaturesAppend(r, cen, a[1..], b);
      if DrawArc(r, a[0]).Success? {
        var head := FeatureActions(r, cen, a[0], DrawArc(r, a[0]).value);
        var tail := DrawFeatures(r, cen, a[1..]);
        assert DrawFeatures(r, cen, a) == Prepend(head, tail);
        assert DrawFeatures(r, cen, a + b) == Prepend(head, DrawFeatures(r, cen, a[1..] + b));
        if tail.Done? {
          PrependPrepend(head, tail.actions, DrawFeatures(r, cen, b));
        }
      }
    }
  }

  /** The glyph box of a Blocks ring: one square of side 2·outer centred on its position. */
  function GlyphBoxes(r: Blocks, normX: real -> real, normY: real -> real): (boxes: seq<GlyphBox>)
    ensures |boxes| == 1 && boxes[0].x == normX(r.x) && boxes[0].y == normY(r.y)
    ensures forall p :: InRect(boxes[0].rect, p) <==> -r.outer <= p.x <= r.outer && -r.outer <= p.y <= r.outer
  {
    LiberalGlyphBoxes(r.x, r.y, r.outer, normX, normY)
  }

  /** Whether the location of `f` can report an orientation. */
  predicate LocationOrients(f: Feature) {
    f.location.Some? && f.location.value.orientation.Some?
  }

  /**
   * globalOrientation: the feature's orientation times that of its
   * location, recursively, stopping below the first ancestor that does not
   * report an orientation. With unit orientations the result is a unit.
   */
  function GlobalOrientation(f: Feature): (o: int)
    requires f.orientation.Some?
    ensures o == 0 <==> 0 in OrientationChain(f)
    ensures (forall k :: 0 <= k < |OrientationChain(f)| ==> OrientationChain(f)[k] in {-1, 1}) ==> o in {-1, 1}
  {
    if LocationOrients(f) then
      var c := OrientationChain(f);
      var up := GlobalOrientation(f.location.value);
      assert c[0] == f.orientation.value;
      assert c[1..] == OrientationChain(f.location.value);
      assert (forall k :: 0 <= k < |c| ==> c[k] in {-1, 1}) ==>
        (forall k :: 0 <= k < |c[1..]| ==> c[1..][k] in {-1, 1}) && c[0] in {-1, 1};
      up * f.orientation.value
    else
      assert OrientationChain(f)[0] == f.orientation.value;
      f.orientation.value
  }

  /** The orientations of `f` and of its ancestors, up to the first that does not report one. */
  function OrientationChain(f: Feature): (c: seq<int>)
    requires f.orientation.Some?
  {
    [f.orientation.value] + (if LocationOrients(f) then OrientationChain(f.location.value) else [])
  }

  function Product(s: seq<int>): int {
    if |s| == 0 then 1 else s[0] * Product(s[1..])
  }

  /** The global orientation is the product of the orientation chain. */
  lemma {:induction false} GlobalOrientationIsChainProduct(f: Feature)
    requires f.orientation.Some?
    ensures GlobalOrientation(f) == Product(OrientationChain(f))
  {
    var c := OrientationChain(f);
    if LocationOrients(f) {
      GlobalOrientationIsChainProduct(f.location.value);
      assert c[1..] == OrientationChain(f.location.value);
    } else {
      assert c == [f.orientation.value];
    }
  }
}
