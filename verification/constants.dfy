/** Grid size, cooldown and palettes (src/constants/canvas.ts). */
module CanvasConstants {

  const CANVAS_WIDTH: int := 100
  const CANVAS_HEIGHT: int := 100

  /** Seconds between two cooldown-governed placements of one actor. */
  const COOLDOWN_TIME: int := 10

  /** The same window in milliseconds: `(now - last) / 1000 < COOLDOWN_TIME`
      holds exactly when `now - last < COOLDOWN_MS`. */
  const COOLDOWN_MS: int := COOLDOWN_TIME * 1000

  /** The source's test `(now - last) / 1000 < COOLDOWN_TIME`, taken in exact
      arithmetic, is the integer test `now - last < COOLDOWN_MS`. */
  lemma CooldownInMilliseconds(now: int, last: int)
    ensures ((now - last) as real) / 1000.0 < COOLDOWN_TIME as real <==> now - last < COOLDOWN_MS
  {
    assert ((now - last) as real) / 1000.0 * 1000.0 == (now - last) as real;
  }

  /** The standard sixteen-colour palette; its first entry is every new
      actor's selected colour. */
  const COLOR_PALETTE: seq<string> := [
    "#FFFFFF", "#E4E4E4", "#888888", "#222222", "#FFA7D1", "#E50000", "#E59500", "#A06A42",
    "#E5D900", "#94E044", "#02BE01", "#00D3DD", "#0083C7", "#0000EA", "#CF6EE4", "#820080"
  ]

  /** The palette unlocked by the keyword, in the source's nine colour groups.
      The comment above it in the source says 48 colours; the literal lists 70. */
  const PREMIUM_GRADIENT_PALETTE: seq<string> :=
    REDS_AND_PINKS
      + ORANGES_AND_YELLOWS
      + GREENS
      + BLUES_AND_CYANS
      + PURPLES_AND_MAGENTAS
      + NEON
      + PASTELS
      + METALLICS
      + ADDITIONAL

  const REDS_AND_PINKS: seq<string> := ["#FF6B6B", "#FF4757", "#FF3838", "#FF1744", "#F50057", "#E91E63", "#C2185B"]
  const ORANGES_AND_YELLOWS: seq<string> := ["#FFA726", "#FF9800", "#FF8F00", "#FF6F00", "#FF5722", "#FF3D00", "#FFC107", "#FFB300"]
  const GREENS: seq<string> := ["#4CAF50", "#8BC34A", "#CDDC39", "#9CCC65", "#7CB342", "#689F38", "#66BB6A", "#43A047"]
  const BLUES_AND_CYANS: seq<string> := ["#2196F3", "#03A9F4", "#00BCD4", "#0097A7", "#00ACC1", "#26C6DA", "#4FC3F7", "#29B6F6"]
  const PURPLES_AND_MAGENTAS: seq<string> := ["#9C27B0", "#673AB7", "#3F51B5", "#5C6BC0", "#7986CB", "#9FA8DA", "#C5CAE9", "#E8EAF6"]
  const NEON: seq<string> := ["#FF00FF", "#00FFFF", "#FFFF00", "#FF0080", "#8000FF", "#00FF80", "#FF8000", "#0080FF"]
  const PASTELS: seq<string> := ["#FFB3BA", "#BAFFC9", "#BAE1FF", "#FFFFBA", "#FFB3F7", "#B3F7FF", "#F7B3FF", "#B3FFF7"]
  const METALLICS: seq<string> := ["#FFD700", "#C0C0C0", "#CD7F32", "#B8860B", "#DAA520", "#F4A460", "#DEB887", "#D2B48C"]
  const ADDITIONAL: seq<string> := ["#FF1493", "#00CED1", "#32CD32", "#FF4500", "#8A2BE2", "#FF69B4", "#00FA9A"]

  predicate IsUpperHexDigit(c: char) {
    ('0' <= c <= '9') || ('A' <= c <= 'F')
  }

  /** A colour literal: '#' followed by six digits 0-9 or A-F. */
  predicate IsHexColor(s: string) {
    |s| == 7 && s[0] == '#' && forall i | 1 <= i < 7 :: IsUpperHexDigit(s[i])
  }

  /** Every standard-palette literal is a well-formed colour. */
  lemma StandardPaletteWellFormed()
    ensures |COLOR_PALETTE| == 16
    ensures COLOR_PALETTE[0] == "#FFFFFF"
    ensures forall i | 0 <= i < |COLOR_PALETTE| :: IsHexColor(COLOR_PALETTE[i])
  {
  }

  /** Every entry of `s` is a well-formed colour literal. */
  ghost predicate AllHexColors(s: seq<string>) {
    forall i | 0 <= i < |s| :: IsHexColor(s[i])
  }

  lemma AllHexColorsConcat(a: seq<string>, b: seq<string>)
    requires AllHexColors(a) && AllHexColors(b)
    ensures AllHexColors(a + b)
  {
  }

  /** Each colour group of the premium palette holds well-formed literals. */
  lemma RedsAndPinksWellFormed() ensures AllHexColors(REDS_AND_PINKS) {}
  lemma OrangesAndYellowsWellFormed() ensures AllHexColors(ORANGES_AND_YELLOWS) {}
  lemma GreensWellFormed() ensures AllHexColors(GREENS) {}
  lemma BluesAndCyansWellFormed() ensures AllHexColors(BLUES_AND_CYANS) {}
  lemma PurplesAndMagentasWellFormed() ensures AllHexColors(PURPLES_AND_MAGENTAS) {}
  lemma NeonWellFormed() ensures AllHexColors(NEON) {}
  lemma PastelsWellFormed() ensures AllHexColors(PASTELS) {}
  lemma MetallicsWellFormed() ensures AllHexColors(METALLICS) {}
  lemma AdditionalWellFormed() ensures AllHexColors(ADDITIONAL) {}

  /** Every premium-palette literal is a well-formed colour, and there are 70. */
  lemma PremiumPaletteWellFormed()
    ensures |PREMIUM_GRADIENT_PALETTE| == 70
    ensures AllHexColors(PREMIUM_GRADIENT_PALETTE)
  {
    RedsAndPinksWellFormed();
    OrangesAndYellowsWellFormed();
    GreensWellFormed();
    BluesAndCyansWellFormed();
    PurplesAndMagentasWellFormed();
    NeonWellFormed();
    PastelsWellFormed();
    MetallicsWellFormed();
    AdditionalWellFormed();
    AllHexColorsConcat(REDS_AND_PINKS, ORANGES_AND_YELLOWS);
    AllHexColorsConcat(REDS_AND_PINKS + ORANGES_AND_YELLOWS, GREENS);
    AllHexColorsConcat(REDS_AND_PINKS + ORANGES_AND_YELLOWS + GREENS, BLUES_AND_CYANS);
    AllHexColorsConcat(REDS_AND_PINKS + ORANGES_AND_YELLOWS + GREENS + BLUES_AND_CYANS, PURPLES_AND_MAGENTAS);
    AllHexColorsConcat(REDS_AND_PINKS + ORANGES_AND_YELLOWS + GREENS + BLUES_AND_CYANS + PURPLES_AND_MAGENTAS, NEON);
    AllHexColorsConcat(REDS_AND_PINKS + ORANGES_AND_YELLOWS + GREENS + BLUES_AND_CYANS + PURPLES_AND_MAGENTAS + NEON, PASTELS);
    AllHexColorsConcat(REDS_AND_PINKS + ORANGES_AND_YELLOWS + GREENS + BLUES_AND_CYANS + PURPLES_AND_MAGENTAS + NEON + PASTELS, METALLICS);
    AllHexColorsConcat(REDS_AND_PINKS + ORANGES_AND_YELLOWS + GREENS + BLUES_AND_CYANS + PURPLES_AND_MAGENTAS + NEON + PASTELS + METALLICS, ADDITIONAL);
  }
}
