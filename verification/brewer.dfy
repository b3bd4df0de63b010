/**
 * Brewer palettes: lookup of a diverging, qualitative or sequential colour
 * scheme by name and number of colours. The generated colour tables are
 * not part of this model; they are fixed but unknown maps.
 */
module Brewer {
  import opened Wrappers

  /** A palette colour: its letter and its red, green and blue components. */
  datatype Color = Color(letter: char, r: nat, g: nat, b: nat)

  /** A palette returned by a lookup; the kind records which table it came from. */
  datatype Palette = DivergingPalette(colors: seq<Color>) | NonDivergingPalette(colors: seq<Color>)

  /** The colours of a palette of either kind, as stored. */
  function Colors(p: Palette): seq<Color> {
    p.colors
  }

  /**
   * The index of the critical (lightest, middle) colour of a diverging
   * palette of `n` colours: equally far from the first and the last index,
   * and a whole index exactly when `n` is odd.
   */
  function CriticalValue(d: seq<Color>): (v: real)
    ensures v - 0.0 == (|d| - 1) as real - v
    ensures |d| % 2 == 1 ==> v == (|d| / 2) as real
    ensures |d| >= 1 ==> 0.0 <= v <= (|d| - 1) as real
  {
    ((|d| + 1) as real) / 2.0 - 1.0
  }

  /** A scheme: the palettes of one name, by number of colours, tagged with the scheme kind. */
  datatype Scheme =
    | Diverging(byCount: map<int, seq<Color>>)
    | Qualitative(byCount: map<int, seq<Color>>)
    | Sequential(byCount: map<int, seq<Color>>)

  /** The generated tables; not part of this model. `AllPalettes` holds every scheme of every kind. */
  const DivergingPalettes: map<string, map<int, seq<Color>>>
  const QualitativePalettes: map<string, map<int, seq<Color>>>
  const SequentialPalettes: map<string, map<int, seq<Color>>>
  const AllPalettes: map<string, Scheme>

  /** Palette types of a request. */
  const TypeAny := 0
  const TypeDiverging := 1
  const TypeQualitative := 2
  const TypeSequential := 3

  datatype PaletteError =
    | TooFewColors
    | TypeNotKnown(typ: int)
    | NameNotKnown(name: string)
    | CountNotSupported(name: string, colors: int)

  predicate KnownType(typ: int) {
    typ == TypeAny || typ == TypeDiverging || typ == TypeQualitative || typ == TypeSequential
  }

  /** The palette of `colors` colours in a scheme, of the scheme's kind, if it has one. */
  function PaletteOf(s: Scheme, colors: int): Option<Palette> {
    if colors !in s.byCount then None
    else if s.Diverging? then Some(DivergingPalette(s.byCount[colors]))
    else Some(NonDivergingPalette(s.byCount[colors]))
  }

  /**
   * The schemes a request of type `typ` can reach, by name: the combined
   * table for TypeAny, otherwise the table of that type, each entry tagged
   * with its kind.
   */
  function SchemesFor(typ: int): map<string, Scheme>
    requires KnownType(typ)
  {
    if typ == TypeAny then AllPalettes
    else if typ == TypeDiverging then map n | n in DivergingPalettes :: Diverging(DivergingPalettes[n])
    else if typ == TypeQualitative then map n | n in QualitativePalettes :: Qualitative(QualitativePalettes[n])
    else map n | n in SequentialPalettes :: Sequential(SequentialPalettes[n])
  }

  /** The switch of GetPalette: whether the name is in the table of `typ`, and the palette found. */
  function Find(typ: int, name: string, colors: int): (found: (bool, Option<Palette>))
    requires KnownType(typ)
  {
    if typ == TypeAny then
      if name !in AllPalettes then (false, None)
      else
        match AllPalettes[name]
        case Diverging(m) => (true, if colors in m then Some(DivergingPalette(m[colors])) else None)
        case Qualitative(m) => (true, if colors in m then Some(NonDivergingPalette(m[colors])) else None)
        case Sequential(m) => (true, if colors in m then Some(NonDivergingPalette(m[colors])) else None)
    else if typ == TypeDiverging then
      if name !in DivergingPalettes then (false, None)
      else (true, if colors in DivergingPalettes[name] then Some(DivergingPalette(DivergingPalettes[name][colors])) else None)
    else if typ == TypeQualitative then
      if name !in QualitativePalettes then (false, None)
      else (true, if colors in QualitativePalettes[name] then Some(NonDivergingPalette(QualitativePalettes[name][colors])) else None)
    else
      if name !in SequentialPalettes then (false, None)
      else (true, if colors in SequentialPalettes[name] then Some(NonDivergingPalette(SequentialPalettes[name][colors])) else None)
  }

  /**
   * GetPalette. Errors in order of precedence: fewer than three colours
   * (before anything else is looked at), an unknown type, an unknown name,
   * and a name whose scheme lacks the count. Otherwise the palette of that
   * count from the table the type selects.
   */
  function GetPalette(typ: int, name: string, colors: int): (r: Result<Palette, PaletteError>)
    ensures colors < 3 ==> r == Failure(TooFewColors)
    ensures colors >= 3 && !KnownType(typ) ==> r == Failure(TypeNotKnown(typ))
    ensures colors >= 3 && KnownType(typ) && name !in SchemesFor(typ) ==> r == Failure(NameNotKnown(name))
    ensures colors >= 3 && KnownType(typ) && name in SchemesFor(typ) && PaletteOf(SchemesFor(typ)[name], colors).None? ==>
      r == Failure(CountNotSupported(name, colors))
    ensures r.Success? <==>
      colors >= 3 && KnownType(typ) && name in SchemesFor(typ) && PaletteOf(SchemesFor(typ)[name], colors).Some?
    ensures r.Success? ==> r.value == PaletteOf(SchemesFor(typ)[name], colors).value
  {
    if colors < 3 then
      Failure(TooFewColors)
    else if !KnownType(typ) then
      Failure(TypeNotKnown(typ))
    else
      var (nameOk, p) := Find(typ, name, colors);
      if !nameOk then Failure(NameNotKnown(name))
      else if p.None? then Failure(CountNotSupported(name, colors))
      else Success(p.value)
  }

  /**
   * A successful lookup of a typed request yields the colours stored for
   * that name and count in the table of that type, as a palette of that
   * type's kind; the colours of a palette are the stored ones.
   */
  lemma GetPaletteTyped(typ: int, name: string, colors: int)
    requires typ == TypeDiverging || typ == TypeQualitative || typ == TypeSequential
    requires GetPalette(typ, name, colors).Success?
    ensures typ == TypeDiverging ==> (name in DivergingPalettes && colors in DivergingPalettes[name] &&
      GetPalette(typ, name, colors) == Success(DivergingPalette(DivergingPalettes[name][colors])))
    ensures typ == TypeQualitative ==> (name in QualitativePalettes && colors in QualitativePalettes[name] &&
      Colors(GetPalette(typ, name, colors).value) == QualitativePalettes[name][colors])
    ensures typ == TypeSequential ==> (name in SequentialPalettes && colors in SequentialPalettes[name] &&
      Colors(GetPalette(typ, name, colors).value) == SequentialPalettes[name][colors])
    ensures GetPalette(typ, name, colors).value.DivergingPalette? <==> typ == TypeDiverging
  {
  }

  /**
   * The name check comes before the count check: for an unknown name the
   * error is the same whatever count (of at least three) is asked for.
   */
  lemma NameErrorPrecedesCount(typ: int, name: string, c1: int, c2: int)
    requires KnownType(typ) && c1 >= 3 && c2 >= 3
    requires GetPalette(typ, name, c1) == Failure(NameNotKnown(name))
    ensures GetPalette(typ, name, c2) == Failure(NameNotKnown(name))
  {
  }
}
