/**
 * The collaborators the rings primitives consume: features with their
 * parent locations and optional capabilities, and the arc lookup
 * capabilities (`Arcer`, `ArcOfer`). The lookup itself and the gapped
 * layout constructor are outside this model and appear as fixed but
 * unknown functions.
 */
module Features {
  import opened Wrappers
  import opened Geometry
  import opened Canvas

  /**
   * A feature: its identity, linear `start`/`end`, the optional parent
   * location (itself a feature), and the optional capabilities it offers:
   * an orientation, a fill colour and a line style. A capability that is
   * offered may still hold a nil colour.
   */
  datatype Feature = Feature(
    id: nat,
    start: int,
    end: int,
    location: Option<Feature>,
    orientation: Option<int>,
    fillColor: Option<Color>,
    lineStyle: Option<LineStyle>)

  /** An error value as returned by a constructor or by an arc lookup. */
  datatype Error = Error(msg: string)

  /** An arc lookup object, identified by `id`, whose whole-ring arc is `arc`. */
  datatype ArcOfer = ArcOfer(id: nat, arc: Arc)

  /** Something that yields one arc: either a plain arc source or a full arc lookup. */
  datatype Arcer = PlainArcer(id: nat, arc: Arc) | OfArcer(ofer: ArcOfer)

  /** The answers of every lookup object to `ArcOf(location, feature)`; not part of this model. */
  const ArcOfTable: (ArcOfer, Option<Feature>, Option<Feature>) -> Result<Arc, Error>

  /** The gapped layout constructor `NewGappedArcs(base, features, gap)`; not part of this model. */
  const NewGappedArcs: (Arcer, seq<Feature>, real) -> ArcOfer

  /** The arc `base` assigns to `loc`, or to feature `f` within it when `f` is given. */
  function ArcOf(base: ArcOfer, loc: Option<Feature>, f: Option<Feature>): Result<Arc, Error> {
    ArcOfTable(base, loc, f)
  }
}
