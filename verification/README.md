# biogo graphics core, modelled in Dafny

This project models three parts of the biogo graphics packages and proves properties about them.

- **Ring primitives** (`rings`):
  - the constructors `NewBlocks`, `NewGappedBlocks` and `NewHighlight`;
  - the recursive `globalOrientation`;
  - the draw routines `Blocks.DrawAt`, `Highlight.DrawAt` and `Axis.drawAt`;
  - the `Arc`/`ArcOf` delegation;
  - the liberal glyph boxes.
- **Brewer palettes** (`brewer`): `GetPalette` with its error precedence, `DivergingPalette.CriticalValue`, and `Colors`.
- **Bézier curves** (`bezier`): Miller's method as `New`, `Curve.Point` and `Curve.Curve`. It is proved against the Bernstein form of the curve.

Each draw routine is a pure function. It returns the sequence of calls it would make on its drawing area: set colour, fill, set line style, stroke, push, translate, rotate, fill text and pop. Each path is a sequence of move, line, arc and close components. A routine that can panic returns a `Trace`, which is either `Done(actions)` or `Panic(actions emitted so far, cause)`.

The collaborators this core consumes are fixed but unknown constants (a `const` without a value). These are:

- the trigonometry behind `Rectangular`;
- the value of a complete turn;
- the arc lookup `ArcOfer.ArcOf`;
- the gapped layout constructor `NewGappedArcs`;
- `DefaultPlacement`;
- the generated Brewer tables.

No property proved here depends on their values.

Modules, one per file:

- `Wrappers`: `Option` and `Result`.
- `Geometry`: angles, arcs and `Rectangular`.
- `Canvas`: colours, styles, paths, actions, traces, counting and glyph boxes.
- `Features`: features, the arc lookup types, and the uninterpreted lookup.
- `Blocks`, `Highlight` and `Axis`: the three ring primitives.
- `Brewer` and `Bezier`.

Behaviour worth noting:

- `NewHighlight` never returns an error and does not compare the radii. Its doc comment (rings/highlight.go:32-33) nonetheless promises that the features are checked and an error returned.
- `NewBlocks` checks only a feature's start against its parent location, not its end.
- `NewBlocks` validates each feature with the query `ArcOf(f, nil)`. `Blocks.DrawAt` asks a different question, `ArcOf(f.Location(), f)`. So a ring that was built successfully can still panic while drawing, and `Blocks.DrawAt`'s contract says exactly when.
- Errors are the code's error values (`Features.Error` with the exact messages of `NewBlocks`, and `Brewer.PaletteError`), not a typed error taxonomy.

## Model

| member | source | states |
|---|---|---|
| Blocks.CheckFeature | rings/blocks.go:49-59 | A feature passes exactly when it is renderable. An inverted feature gives "inverted feature" before anything else is checked. A start outside the parent location gives "feature out of range". A failing lookup passes its error on unchanged. |
| Blocks.FirstError | rings/blocks.go:48-60 | There is no error exactly when every feature is renderable. Otherwise the error belongs to a feature all of whose predecessors are renderable. |
| Blocks.NewBlocks | rings/blocks.go:44-67 | inner > outer fails before any feature is looked at. Success happens exactly when the radii are ordered and every feature is renderable. The result then holds exactly fs, base and the radii, with no colour and the zero line style. Otherwise the error is that of the first failing feature. |
| Blocks.ChooseArcOfer | rings/blocks.go:76-88 | A supplied lookup is kept exactly when every feature resolves through it. Otherwise, and for a plain arc source, the gapped layout of the features is used. |
| Blocks.NewGappedBlocks | rings/blocks.go:72-90 | It makes its own radius check first. It succeeds exactly when every feature is renderable through the chosen lookup, and the ring's base is that lookup. |
| Blocks.NewGappedBlocksIsNewBlocks | rings/blocks.go:72-89 | NewGappedBlocks equals NewBlocks over the chosen lookup. With a lookup through which every feature resolves, it equals NewBlocks with that lookup. |
| Blocks.NewBlocksDelegates | rings/blocks.go:139-143 | A constructed ring's Arc is the base arc, and its ArcOf answers exactly as the base does. Every feature it holds resolves on its own. |
| Blocks.FillActions | rings/blocks.go:114-120 | A block is filled at most once: exactly when the feature has a fill colour or the ring has a colour. The feature's colour wins, and the colour is set just before the fill. |
| Blocks.StrokeActions | rings/blocks.go:122-131 | A block is stroked at most once: exactly when the resolved style (the feature's own, else the ring's) is visible. That style is set just before the stroke. |
| Blocks.FeatureActions | rings/blocks.go:99-131 | Fill and stroke counts are as resolved, with nothing else emitted. Each fill or stroke draws the sector (move to inner at theta, inner arc, outer arc back, close), is preceded by its colour or style, and every fill comes before every stroke. |
| Blocks.DrawFeatures | rings/blocks.go:100-106 | The loop completes exactly when every feature's arc within its location resolves. A panic's cause is the failure of a feature whose predecessors all resolved. |
| Blocks.DrawFeaturesCounts | rings/blocks.go:100-132 | A completed drawing fills exactly as many blocks as there are filled features, and strokes exactly as many as there are stroked features. |
| Blocks.DrawAt | rings/blocks.go:94-133 | An empty set draws nothing. Otherwise it is the drawing loop over the set at the given centre, so each block is drawn in set order over its own looked-up arc, and a panic comes from the first failing feature after the blocks before it. Completion happens exactly when every feature resolves, a panic names a failing feature, and the fill and stroke totals are as above. |
| Blocks.DrawFeaturesAppend | rings/blocks.go:100-132 | Features are drawn strictly in order: drawing a + b is drawing a and then, if that completed, b. |
| Blocks.DrawFeaturesSingle | rings/blocks.go:101-131 | For one feature, a failed lookup of its arc within its location panics before anything is drawn. Otherwise its block is drawn over exactly the arc that lookup returns. |
| Blocks.GlyphBoxes | rings/blocks.go:165-174 | There is one box at the normalised position, and it covers exactly the square [-outer, outer]². |
| Blocks.GlobalOrientation | rings/blocks.go:151-156 | The result is zero exactly when some orientation in the ancestor chain is zero. With unit orientations throughout, the result is a unit. |
| Blocks.GlobalOrientationIsChainProduct | rings/blocks.go:151-156 | The global orientation is the product of the orientations of the feature and its ancestors, up to the first ancestor that reports none. |
| Highlight.NewHighlight | rings/highlight.go:34-41 | It never fails and keeps colour, arc and radii as given, with the invisible zero line style and the zero plot position. |
| Highlight.NewHighlightArc | rings/highlight.go:76 | A highlight's Arc is the arc it was made with. |
| Highlight.BandPath | rings/highlight.go:50-60 | The band has 5 components for a whole turn and 4 otherwise: move, inner arc forward, then outer arc back, then close. A later move appears exactly when the arc is a whole turn in either direction. |
| Highlight.FullTurnHasNoSeam | rings/highlight.go:55-59 | For a whole turn, the outer arc starts exactly at the point the path was moved to. |
| Highlight.DrawAt | rings/highlight.go:45-70 | Nothing is drawn exactly when there is no colour and the line style is invisible. It fills once when there is a colour and strokes once when the style is visible, both over the band, fill first. |
| Highlight.GlyphBoxes | rings/highlight.go:85-94 | There is one box at the normalised position, and it covers exactly the square [-outer, outer]². |
| Axis.MarkRadius | rings/axis.go:101 | min maps to inner and max to outer. With increasing ranges, an in-range score lands within [inner, outer]. |
| Axis.MarkRadiusMonotone | rings/axis.go:135 | With increasing ranges, the score-to-radius map is monotone. |
| Axis.InRangeMarks | rings/axis.go:95-98 | Every kept mark is in range and comes from the marks, and every in-range mark is kept. |
| Axis.InRangeMarksMultiplicity | rings/axis.go:95-98 | Each in-range mark is kept as many times as it occurs, and an out-of-range mark never is. |
| Axis.InRangeMarksAppend | rings/axis.go:95-98 | Filtering a concatenation filters each part and keeps their order. |
| Axis.InRangeMarksSingle | rings/axis.go:96-98 | A single mark is kept exactly when it lies within [min, max]. |
| Axis.GridMarks | rings/axis.go:95-108 | There is one grid arc per in-range mark, in mark order, each stroked at that mark's radius across the location's arc. |
| Axis.DistinctLocations | rings/axis.go:83-85 | It lists every feature location, each exactly once, and nothing else. |
| Axis.GridLocations | rings/axis.go:87-109 | The grid completes exactly when every location's arc resolves. A panic's cause is a location's lookup failure. |
| Axis.GridLocationsSingle | rings/axis.go:88-108 | For one location, a failed lookup panics before anything is drawn. Otherwise the grid style is set, then the grid arcs over that location's own arc follow. |
| Axis.GridLocationsAppend | rings/axis.go:87-109 | Locations are drawn strictly in order: the grid over a + b is the grid over a and then, if that completed, over b. |
| Axis.GridLocationsStrokes | rings/axis.go:87-109 | A completed grid strokes (number of locations) × (number of in-range marks) arcs. |
| Axis.GridPass | rings/axis.go:86-110 | An invisible grid draws nothing. Otherwise it is the grid over the distinct feature locations with the marker's ticks. It completes exactly when every feature's location resolves, with one arc per distinct location per in-range mark. |
| Axis.AxisLine | rings/axis.go:112-122 | A visible style gives exactly that style and one stroke from the inner to the outer radius along the axis angle. Otherwise nothing is drawn. |
| Axis.PlacedText | rings/axis.go:166-175 | Exactly one text is written. A non-zero rotation wraps it as push, translate to the anchor, rotate, translate back, text, pop. With no rotation, the text is the only action. |
| Axis.TickActions | rings/axis.go:133-175 | There is one stroke of the tick's length (half for a minor tick) perpendicular to the axis. A major tick with a label colour is followed by its label text, placed by the tick placement (the default when none is set). The label is anchored at the axis point plus twice the offset. Otherwise the stroke is alone. |
| Axis.TickMarks | rings/axis.go:129-176 | It strokes one tick per in-range mark and labels one per major in-range mark when labels have a colour. |
| Axis.TickMarksSkipsOutOfRange | rings/axis.go:130-132 | Drawing all marks is the same as drawing only the in-range marks. |
| Axis.TickMarksSingle | rings/axis.go:130-135 | A single mark draws its tick at its own radius when it is in range, and nothing otherwise. |
| Axis.TickMarksAppend | rings/axis.go:129-176 | The ticks of a concatenation of marks are the ticks of each part, in order. |
| Axis.TickPass | rings/axis.go:124-177 | Nothing is drawn unless the tick style is visible and the length is non-zero. Otherwise the pass is the tick style followed by the ticks of the marker's marks over the score range, at their radii between inner and outer. It has one stroke per in-range mark and one label per major in-range mark when labels have a colour. |
| Axis.LabelPass | rings/axis.go:179-202 | The label is written exactly when it has text and a colour, with no strokes. It is placed text anchored halfway between the radii on the axis angle, with the label's placement or the default, and wrapped when rotated. Otherwise nothing is written. |
| Axis.DrawAt | rings/axis.go:72-203 | Only the grid can fail, exactly when the grid is visible and some location has no arc, and the failure is the grid pass's own. A completed drawing is the grid pass, then the axis line, then the ticks, then the label. Its totals are grid + axis line + tick strokes, and tick labels + axis label texts. |
| Axis.GridFillTextFree | rings/axis.go:86-110 | The grid pass writes no text. |
| Brewer.CriticalValue | brewer/brewer.go:41 | The critical value is equally far from the first and last index. It is the middle index for an odd count, and it lies within the index range. |
| Brewer.GetPalette | brewer/brewer.go:89-146 | Errors come in this order: fewer than three colours, unknown type, unknown name, unsupported count. Success happens exactly when none applies, and the result is that table's palette of that count. |
| Brewer.GetPaletteTyped | brewer/brewer.go:115-145 | A typed lookup returns the stored colours of that type's table, and the palette is diverging exactly for the diverging type. |
| Brewer.NameErrorPrecedesCount | brewer/brewer.go:139-144 | An unknown name gives the same error whatever count is asked for. |
| Bezier.BinomialStep | bezier/bezier.go:39 | i·C(m, i) = (m-i+1)·C(m, i-1), the recurrence the weight loop relies on. |
| Bezier.StepWeight | bezier/bezier.go:34-40 | The weight recurrence 1, n-1, w·(n-i)/i yields C(n-1, i) at every step. |
| Bezier.New | bezier/bezier.go:23-46 | The curve has one entry per control point. It keeps each point as the scratch point and each control weighted by C(n-1, i). No points give the empty curve. |
| Bezier.PointAt | bezier/bezier.go:49-70 | It returns the sum of control_i·t^i·(1-t)^(n-1-i). Only the scratch points change, to control_i·t^i, so evaluating again gives the same point. |
| Bezier.Horner | bezier/bezier.go:57-67 | The backward loop over the scratch points sums the terms with running powers of 1-t. |
| Bezier.FillCurve | bezier/bezier.go:75-80 | The slice keeps its length, and entry i is the curve at i/(len-1): the first is the curve at 0 and the last at 1. The controls are untouched. |
| Bezier.WeightedSumIsBernstein | bezier/bezier.go:49-70 | Over controls weighted as New weights them, the evaluated sum is the Bernstein form of the original control points. |
| Bezier.Endpoints | bezier/bezier.go:49-70 | The Bernstein form is the first control point at 0 and the last at 1. A one-point curve is constant. |
| Bezier.CurveEndpoints | bezier/bezier.go:23-70 | A curve built by New and evaluated by Point starts at the first control point and ends at the last. |

## Left out

- The trigonometry in `Rectangular`, the numeric value of `Complete`, and the geometry of a path's arc segments are uninterpreted. Arcs are recorded as components, not flattened.
- The gapped layout (`NewGappedArcs`, `GappedArcs.ArcOf`) and every `ArcOfer.ArcOf` answer are a fixed but unknown function. They are not part of this model, so nothing is proved about layout or gaps.
- `DefaultPlacement` is an uninterpreted placement policy.
- `Plot` and `XY` are left out. The plot's transforms and axis normalisation are passed to `GlyphBoxes` as the functions `normX`/`normY`. The plotting library itself is not part of this model.
- `Tick.IsMinor` comes from the plotting library. It is modelled as "the tick has an empty label".
- Axis.DrawAt: the tick marker is a total pure function of the range. In the source it is a function value that may be nil, and calling a nil marker panics when the grid or the ticks are visible (rings/axis.go:94, 127). That panic is not modelled.
- Axis.GridPass: the source calls the marker once per grid location and possibly again for the ticks. A marker with state could answer differently each time. The model gives every call the same ticks.
- Feature capabilities (orienter, fill colourer, line styler) are optional fields of one feature type, not dynamic type assertions. The orientation is an unbounded integer, not an 8-bit value.
- Axis.DistinctLocations: the grid pass iterates a map, whose order is unspecified. The model visits locations in order of first appearance. The counts proved do not depend on the order, but the order of the grid arcs is this model's choice.
- Axis.MarkRadius: requires min != max. With min == max the source divides by zero in floating point, and IEEE infinities and NaN are not modelled.
- All arithmetic is over unbounded reals and integers. Floating-point rounding is not modelled.
- Bezier.PointAt: requires a non-empty curve. On the empty curve the source indexes the first entry and the runtime panics, and that panic is not modelled.
- Bezier.FillCurve: requires either no output points, or at least two output points and a non-empty curve. An empty slice is accepted with any curve, since the loop then never runs. For one point the source divides zero by zero and the documentation leaves the result undefined. An empty curve with output points is excluded for the reason given for PointAt.
- Brewer: the generated colour tables are fixed but unknown maps. The combined table for `TypeAny` is independent of the three typed tables. brewer/generate_palletes.go, the code generator, is not part of this model.
- Brewer.GetPalette: the errors are structured values carrying the offending type, name and count, not formatted strings. The `TypeAny` branch's "unexpected type" panic cannot occur, because the combined table holds only the three scheme kinds.
- Brewer.Colors carries no contract of its own. That it returns the stored colours is stated by Brewer.GetPaletteTyped.
- The palette package's colour conversions and their tests are not part of this model. The test recording canvas is reflected only in the action vocabulary.
