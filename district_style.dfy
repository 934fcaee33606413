/**
 * How js/district-map.js presents a district: its palette colour (`getDistrictColor`), its
 * polygon style and hover behaviour, its label class and its popup. District 8, the
 * campaign's district, is singled out everywhere by comparing the id with the string "8".
 */
module DistrictStyle {
  import opened JsText

  /** The eight greys of `getDistrictColor`, in source order. */
  const Palette: seq<string> := [
    "#f7f7f7", "#e8e8e8", "#f0f0f0", "#fafafa",
    "#f5f5f5", "#ebebeb", "#f2f2f2", "#fcfcfc"
  ]

  /** The id the map highlights. */
  const HighlightId: string := "8"

  /** Fill colour of the highlighted district. */
  const HighlightFill: string := "#C41E3A"

  /** The `district === '8'` test: exact string equality, so "08" or " 8" are not highlighted. */
  predicate IsDistrict8(district: string) {
    district == HighlightId
  }

  /**
   * The array index that `colors[parseInt(district) % colors.length]` reads, or None when it reads
   * `undefined`. JavaScript's `%` keeps the sign of the dividend: NaN stays NaN, a negative value
   * gives a negative remainder, except that a negative multiple of 8 gives -0, which indexes like 0.
   */
  function PaletteIndex(district: string): (r: Option<nat>)
    ensures r.Some? ==> r.value < |Palette|
  {
    match ParseInt(district)
    case None => None
    case Some(v) =>
      if v >= 0 then Some(v % |Palette|)
      else if v % |Palette| == 0 then Some(0)
      else None
  }

  /** `getDistrictColor(district)`; None is `undefined`. */
  function DistrictColor(district: string): Option<string> {
    match PaletteIndex(district)
    case None => None
    case Some(k) => Some(Palette[k])
  }

  /** For an id that parses to a non-negative integer, the colour is the palette entry at that integer mod 8. */
  lemma ColorOfNonNegative(district: string, v: int)
    requires ParseInt(district) == Some(v) && v >= 0
    ensures 0 <= v % 8 < 8
    ensures DistrictColor(district) == Some(Palette[v % 8])
    ensures DistrictColor(district).value in Palette
  {
  }

  /** Every colour `getDistrictColor` returns comes from the palette, and none is the highlight fill. */
  lemma ColorFromPalette(district: string)
    ensures DistrictColor(district).Some? ==> DistrictColor(district).value in Palette
    ensures DistrictColor(district) != Some(HighlightFill)
  {
  }

  /** Ids whose non-negative values differ by a multiple of 8 get the same colour. */
  lemma ColorPeriodic(a: string, b: string, x: int, y: int)
    requires ParseInt(a) == Some(x) && ParseInt(b) == Some(y) && x >= 0 && y >= 0
    requires (x - y) % 8 == 0
    ensures DistrictColor(a) == DistrictColor(b)
  {
    var q := (x - y) / 8;
    assert x - y == 8 * q;
    if q >= 0 {
      ModPeriod(y, q);
    } else {
      ModPeriod(x, -q);
    }
  }

  lemma {:induction false} ModPeriod(x: int, k: nat)
    ensures (x + 8 * k) % 8 == x % 8
  {
    if k > 0 {
      ModPeriod(x, k - 1);
      assert x + 8 * k == (x + 8 * (k - 1)) + 8;
    }
  }

  /** The colour of the id `String(n)`, the form the table's ids take. */
  lemma ColorOfDecimalId(n: nat)
    ensures DistrictColor(DecimalString(n)) == Some(Palette[n % 8])
  {
    ParseIntOfDecimal(n);
  }

  /** The colour of an id with a negative value: `undefined`, unless the value is a multiple of 8. */
  lemma ColorOfNegative(district: string, v: int)
    requires ParseInt(district) == Some(v) && v < 0
    ensures DistrictColor(district) == if v % 8 == 0 then Some(Palette[0]) else None
  {
  }

  /** The Leaflet path options the `style` callback returns; `fillColor` None is `undefined`. */
  datatype PathStyle = PathStyle(fillColor: Option<string>, fillOpacity: real, color: string, weight: real, opacity: real)

  /** The `style` callback of the district layer. */
  function StyleFor(district: string): PathStyle {
    var hl := IsDistrict8(district);
    PathStyle(
      if hl then Some(HighlightFill) else DistrictColor(district),
      if hl then 0.6 else 0.25,
      "#333",
      if hl then 3.0 else 1.5,
      1.0)
  }

  /** The `mouseover` handler: every district but 8 gets opacity 0.5 and weight 2; other options stay. */
  function MouseOver(district: string, current: PathStyle): PathStyle {
    if IsDistrict8(district) then current else current.(fillOpacity := 0.5, weight := 2.0)
  }

  /** The `mouseout` handler: every district but 8 is reset to its `style` callback's options. */
  function MouseOut(district: string, current: PathStyle): PathStyle {
    if IsDistrict8(district) then current else StyleFor(district)
  }

  /** The class name of a district's label marker. */
  function LabelClass(district: string): string {
    "district-label" + (if IsDistrict8(district) then " district-8-label" else "")
  }

  /** The content of a district's popup: its heading and whether the candidate's note is shown. */
  datatype Popup = Popup(heading: string, candidateNote: bool)

  function PopupFor(district: string): Popup {
    Popup("Congressional District " + district, IsDistrict8(district))
  }

  /** Only district 8 is filled with the highlight colour at weight 3; every other id gets its palette colour at 1.5. */
  lemma StyleHighlightsOnlyDistrict8(district: string)
    ensures StyleFor(district).fillColor == Some(HighlightFill) <==> district == "8"
    ensures StyleFor(district).weight == 3.0 <==> district == "8"
    ensures district != "8" ==>
      (StyleFor(district).fillColor == DistrictColor(district)
       && StyleFor(district).weight == 1.5 && StyleFor(district).fillOpacity == 0.25)
    ensures StyleFor(district).color == "#333" && StyleFor(district).opacity == 1.0
  {
    ColorFromPalette(district);
  }

  /** "08" has the same value as "8" but is styled as an ordinary district, with palette entry 0. */
  lemma LeadingZeroNotHighlighted()
    ensures StyleFor("08").fillColor == Some(Palette[0])
    ensures StyleFor("08").weight == 1.5
  {
    var v := ParseInt("08");
    assert LeadingSpace("08") == 0;
    assert LeadingDigits("08") == 2;
    assert "08"[..2] == "08";
    assert DigitsValue("08") == 8 by {
      assert "08"[..1] == "0";
      assert "0"[..0] == "";
    }
  }

  /**
   * Hovering changes only ordinary districts, and leaving restores their style: for district 8 both
   * handlers leave the style alone.
   */
  lemma HoverRoundTrip(district: string, current: PathStyle)
    ensures MouseOut(district, MouseOver(district, StyleFor(district))) == StyleFor(district)
    ensures district == "8" ==> MouseOver(district, current) == current && MouseOut(district, current) == current
    ensures district != "8" ==>
      (MouseOver(district, current).weight == 2.0 && MouseOver(district, current).fillOpacity == 0.5
       && MouseOver(district, current).fillColor == current.fillColor)
    ensures MouseOver(district, StyleFor(district)) == StyleFor(district) <==> district == "8"
  {
  }

  /** The label carries the extra class exactly for district 8. */
  lemma LabelClassOnlyDistrict8(district: string)
    ensures LabelClass(district) == "district-label district-8-label" <==> district == "8"
    ensures LabelClass(district) == "district-label" <==> district != "8"
    ensures LabelClass(district)[..14] == "district-label"
  {
  }

  /** Style, label and popup single out the same district: the one whose id is exactly "8". */
  lemma PresentationAgrees(district: string)
    ensures StyleFor(district).fillColor == Some(HighlightFill)
        <==> LabelClass(district) != "district-label"
        <==> PopupFor(district).candidateNote
        <==> district == "8"
    ensures PopupFor(district).heading == "Congressional District " + district
  {
    StyleHighlightsOnlyDistrict8(district);
    LabelClassOnlyDistrict8(district);
  }
}
