/**
 * The three value transforms of src/transforms.ts. Each rewrites one field
 * of a typography token's value object in place and returns that object.
 */
module Transforms {
  import opened Wrappers
  import opened JsString
  import opened JsNumber
  import opened JsObject
  import opened Tokens
  import opened FontFamily
  import opened ValueObjects

  /** The branch `transformLineHeight` takes (src/transforms.ts:24-31). */
  datatype LineHeightBranch = Percentage | WithUnit(unit: string) | FontSizeRatio

  /** `platform.options?.lineHeightUnit` when it is truthy (a non-empty string). */
  function ConfiguredLineHeightUnit(platform: PlatformConfig): (u: Option<string>)
    ensures u.Some? ==> u.value != ""
  {
    if platform.options.Some? && platform.options.value.lineHeightUnit.Some?
       && platform.options.value.lineHeightUnit.value != ""
    then platform.options.value.lineHeightUnit
    else None
  }

  function LineHeightBranchOf(lineHeight: string, platform: PlatformConfig): LineHeightBranch {
    if EndsWith(lineHeight, "%") then Percentage
    else match ConfiguredLineHeightUnit(platform)
      case Some(unit) => WithUnit(unit)
      case None => FontSizeRatio
  }

  /** `parseFloat(value.fontSize)`: an absent field reads as `undefined`, which parses to NaN. */
  function FontSize(r: Record<string>): Number {
    if "fontSize" in r.vals then ParseFloat(r.vals["fontSize"]) else NaN
  }

  /**
   * The new line height. `percent(x)` stands for `(x / 100).toFixed(3)` and
   * `ratio(x, y)` for `(x / y).toFixed(3)`; `show` is Number::toString.
   */
  function LineHeightText(r: Record<string>, lineHeight: string, platform: PlatformConfig, show: real -> string,
                          percent: Number -> string, ratio: (Number, Number) -> string): string
  {
    match LineHeightBranchOf(lineHeight, platform)
    case Percentage => percent(ParseFloat(lineHeight))
    case WithUnit(unit) => ToText(ParseFloat(lineHeight), show) + unit
    case FontSizeRatio => ratio(ParseFloat(lineHeight), FontSize(r))
  }

  /** `Object.hasOwn(value, "lineHeight") && value.lineHeight`: present and non-empty. */
  predicate HasLineHeight(r: Record<string>) {
    "lineHeight" in r.vals && r.vals["lineHeight"] != ""
  }

  /** src/transforms.ts:20-35 on the fields of the value object. */
  function LineHeightStep(r: Record<string>, platform: PlatformConfig, show: real -> string,
                          percent: Number -> string, ratio: (Number, Number) -> string): (r': Record<string>)
    requires Valid(r)
    ensures Valid(r')
  {
    if HasLineHeight(r) then
      Set(r, "lineHeight", LineHeightText(r, r.vals["lineHeight"], platform, show, percent, ratio))
    else r
  }

  /** `platform.options?.letterSpacingUnit ?? "px"`: an empty unit is kept, only a missing one defaults. */
  function LetterSpacingUnit(platform: PlatformConfig): string {
    if platform.options.Some? then platform.options.value.letterSpacingUnit.GetOr("px") else "px"
  }

  /** `letterSpacing + (parseFloat(letterSpacing) != 0 ? unit : "")`; NaN counts as nonzero. */
  function SuffixUnlessZero(letterSpacing: string, unit: string): string {
    letterSpacing + (if IsZero(ParseFloat(letterSpacing)) then "" else unit)
  }

  /** `Object.hasOwn(value, "letterSpacing") && value.letterSpacing` */
  predicate HasLetterSpacing(r: Record<string>) {
    "letterSpacing" in r.vals && r.vals["letterSpacing"] != ""
  }

  /** src/transforms.ts:37-47 on the fields of the value object. */
  function LetterSpacingStep(r: Record<string>, platform: PlatformConfig): (r': Record<string>)
    requires Valid(r)
    ensures Valid(r')
  {
    if HasLetterSpacing(r) then
      Set(r, "letterSpacing", SuffixUnlessZero(r.vals["letterSpacing"], LetterSpacingUnit(platform)))
    else r
  }

  /** `transformFontFamily` (src/transforms.ts:3-18). */
  method TransformFontFamily(v: ValueObject) returns (out: ValueObject)
    requires v.Valid()
    modifies v
    ensures out == v && v.Valid()
    ensures v.Snapshot() == TrimmedStep(old(v.Snapshot()))
  {
    if v.HasOwn("fontFamily") && v.Field("fontFamily") != "" {
      v.Put("fontFamily", RewriteTrimmed(v.Field("fontFamily")));
    }
    out := v;
  }

  /** `transformLineHeight` (src/transforms.ts:20-35). */
  method TransformLineHeight(v: ValueObject, platform: PlatformConfig, show: real -> string,
                             percent: Number -> string, ratio: (Number, Number) -> string)
      returns (out: ValueObject)
    requires v.Valid()
    modifies v
    ensures out == v && v.Valid()
    ensures v.Snapshot() == LineHeightStep(old(v.Snapshot()), platform, show, percent, ratio)
  {
    if v.HasOwn("lineHeight") && v.Field("lineHeight") != "" {
      var lineHeight := v.Field("lineHeight");
      ghost var before := v.Snapshot();
      assert HasLineHeight(before) && before.vals["lineHeight"] == lineHeight;
      var text;
      if EndsWith(lineHeight, "%") {
        assert LineHeightBranchOf(lineHeight, platform) == Percentage;
        text := percent(ParseFloat(lineHeight));
      } else if ConfiguredLineHeightUnit(platform).Some? {
        var unit := ConfiguredLineHeightUnit(platform).value;
        assert LineHeightBranchOf(lineHeight, platform) == WithUnit(unit);
        text := ToText(ParseFloat(lineHeight), show) + unit;
      } else {
        assert LineHeightBranchOf(lineHeight, platform) == FontSizeRatio;
        var fontSize := if v.HasOwn("fontSize") then ParseFloat(v.Field("fontSize")) else NaN;
        assert fontSize == FontSize(before);
        text := ratio(ParseFloat(lineHeight), fontSize);
      }
      assert text == LineHeightText(before, lineHeight, platform, show, percent, ratio);
      v.Put("lineHeight", text);
      assert v.Snapshot() == Set(before, "lineHeight", text);
    }
    out := v;
  }

  /** `transformLetterSpacing` (src/transforms.ts:37-47). */
  method TransformLetterSpacing(v: ValueObject, platform: PlatformConfig) returns (out: ValueObject)
    requires v.Valid()
    modifies v
    ensures out == v && v.Valid()
    ensures v.Snapshot() == LetterSpacingStep(old(v.Snapshot()), platform)
  {
    if v.HasOwn("letterSpacing") && v.Field("letterSpacing") != "" {
      var letterSpacing := v.Field("letterSpacing");
      var shouldAddUnit := !IsZero(ParseFloat(letterSpacing));
      var unit := LetterSpacingUnit(platform);
      v.Put("letterSpacing", letterSpacing + (if shouldAddUnit then unit else ""));
    }
    out := v;
  }

  /** Of the rest of the value object, the new line height depends on `fontSize` alone. */
  lemma LineHeightReadsOnlyFontSize(r1: Record<string>, r2: Record<string>, lineHeight: string, platform: PlatformConfig,
                                    show: real -> string, percent: Number -> string, ratio: (Number, Number) -> string)
    requires Get(r1, "fontSize") == Get(r2, "fontSize")
    ensures LineHeightText(r1, lineHeight, platform, show, percent, ratio) ==
            LineHeightText(r2, lineHeight, platform, show, percent, ratio)
  {
    assert FontSize(r1) == FontSize(r2);
  }

  /**
   * src/transforms.ts:41-43: the original text is kept as a prefix, and the
   * unit is appended exactly when the text does not parse to zero (NaN
   * included).
   */
  lemma SuffixUnlessZeroSpec(letterSpacing: string, unit: string)
    ensures var r := SuffixUnlessZero(letterSpacing, unit);
      && StartsWith(r, letterSpacing)
      && (IsZero(ParseFloat(letterSpacing)) ==> r == letterSpacing)
      && (!IsZero(ParseFloat(letterSpacing)) ==> r == letterSpacing + unit && EndsWith(r, unit))
      && (r == letterSpacing <==> IsZero(ParseFloat(letterSpacing)) || unit == "")
  {
    var r := SuffixUnlessZero(letterSpacing, unit);
    assert r[..|letterSpacing|] == letterSpacing;
    if r == letterSpacing {
      assert |unit| == 0 || IsZero(ParseFloat(letterSpacing));
    }
  }

  /** A zero such as "0px" already names its unit and gets none added. */
  lemma SuffixZeroExample()
    ensures SuffixUnlessZero("0px", "px") == "0px"
  {
    ParseFloatZeroUnit();
  }

  /** A keyword parses to NaN, which is not zero, so it gets the unit. */
  lemma SuffixKeywordExample()
    ensures SuffixUnlessZero("normal", "px") == "normal" + "px"
  {
    ParseFloatKeyword();
  }

  /** A nonzero value gets the unit even when it already has one. */
  lemma SuffixUnitExample()
    ensures SuffixUnlessZero("1.5px", "px") == "1.5px" + "px"
  {
    ParseFloatWithUnit();
  }

  /** An empty `options.letterSpacingUnit` is kept by `??`, so the step changes nothing. */
  lemma EmptyUnitKeepsLetterSpacing(r: Record<string>, platform: PlatformConfig)
    requires Valid(r)
    requires platform.options.Some? && platform.options.value.letterSpacingUnit == Some("")
    ensures LetterSpacingStep(r, platform) == r
  {
    if HasLetterSpacing(r) {
      var text := r.vals["letterSpacing"];
      assert LetterSpacingUnit(platform) == "";
      assert SuffixUnlessZero(text, "") == text;
      var r' := LetterSpacingStep(r, platform);
      assert r' == Set(r, "letterSpacing", text);
      assert Get(r', "letterSpacing") == Get(r, "letterSpacing");
      assert forall k :: Get(r', k) == Get(r, k);
      assert r'.vals == r.vals;
    }
  }

  /** `transformFontFamily` touches `fontFamily` only, and nothing when it is absent or empty. */
  lemma FontFamilyOnlyOwnKey(r: Record<string>)
    requires Valid(r)
    ensures TrimmedStep(r).keys == r.keys
    ensures forall k :: k != "fontFamily" ==> Get(TrimmedStep(r), k) == Get(r, k)
    ensures !HasFontFamily(r) ==> TrimmedStep(r) == r
    ensures HasFontFamily(r) ==> Get(TrimmedStep(r), "fontFamily") == Some(RewriteTrimmed(r.vals["fontFamily"]))
  {
  }

  /** `transformLineHeight` touches `lineHeight` only, and nothing when it is absent or empty. */
  lemma LineHeightOnlyOwnKey(r: Record<string>, platform: PlatformConfig, show: real -> string,
                             percent: Number -> string, ratio: (Number, Number) -> string)
    requires Valid(r)
    ensures var r' := LineHeightStep(r, platform, show, percent, ratio);
      && r'.keys == r.keys
      && (forall k :: k != "lineHeight" ==> Get(r', k) == Get(r, k))
      && (!HasLineHeight(r) ==> r' == r)
  {
  }

  /** `transformLetterSpacing` touches `letterSpacing` only, and nothing when it is absent or empty. */
  lemma LetterSpacingOnlyOwnKey(r: Record<string>, platform: PlatformConfig)
    requires Valid(r)
    ensures var r' := LetterSpacingStep(r, platform);
      && r'.keys == r.keys
      && (forall k :: k != "letterSpacing" ==> Get(r', k) == Get(r, k))
      && (!HasLetterSpacing(r) ==> r' == r)
      && (HasLetterSpacing(r) ==> Get(r', "letterSpacing") == Some(SuffixUnlessZero(r.vals["letterSpacing"], LetterSpacingUnit(platform))))
  {
  }
}
