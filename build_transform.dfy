/**
 * The `css/typography` value transform of build.ts (lines 22-58): it
 * rewrites the font-family list, gives a bare line height and letter
 * spacing a unit, writes a zero letter spacing as "0" and renames
 * `textCase` to `textTransform`, all on the token's value object in place.
 */
module BuildTransform {
  import opened Wrappers
  import opened JsString
  import opened JsNumber
  import opened JsObject
  import opened Tokens
  import opened FontFamily
  import opened ValueObjects

  /** `platform.lineHeightUnit ?? "px"` */
  function LineHeightUnit(platform: PlatformConfig): string {
    platform.lineHeightUnit.GetOr("px")
  }

  /** `platform.letterSpacingUnit ?? "px"` */
  function LetterSpacingUnit(platform: PlatformConfig): string {
    platform.letterSpacingUnit.GetOr("px")
  }

  /** The new line height: a value that does not end in a digit already has a unit. */
  function LineHeightText(lineHeight: string, unit: string, show: real -> string): string {
    if !EndsWithDigit(lineHeight) then lineHeight else ToText(ParseFloat(lineHeight), show) + unit
  }

  /** The new letter spacing: zero is written "0", otherwise as for the line height. */
  function LetterSpacingText(letterSpacing: string, unit: string, show: real -> string): string {
    if IsZero(ParseFloat(letterSpacing)) then "0"
    else if !EndsWithDigit(letterSpacing) then letterSpacing
    else ToText(ParseFloat(letterSpacing), show) + unit
  }

  /** build.ts:35-40; every field is a string here, so only presence is checked. */
  function LineHeightStep(r: Record<string>, platform: PlatformConfig, show: real -> string): (r': Record<string>)
    requires Valid(r)
    ensures Valid(r')
  {
    if "lineHeight" in r.vals then
      Set(r, "lineHeight", LineHeightText(r.vals["lineHeight"], LineHeightUnit(platform), show))
    else r
  }

  /** build.ts:42-49 */
  function LetterSpacingStep(r: Record<string>, platform: PlatformConfig, show: real -> string): (r': Record<string>)
    requires Valid(r)
    ensures Valid(r')
  {
    if "letterSpacing" in r.vals then
      Set(r, "letterSpacing", LetterSpacingText(r.vals["letterSpacing"], LetterSpacingUnit(platform), show))
    else r
  }

  /** build.ts:51-55: a non-empty `textCase` is deleted and its text stored as `textTransform`. */
  function TextCaseStep(r: Record<string>): (r': Record<string>)
    requires Valid(r)
    ensures Valid(r')
  {
    if "textCase" in r.vals && r.vals["textCase"] != "" then
      Set(Delete(r, "textCase"), "textTransform", r.vals["textCase"])
    else r
  }

  /** The whole transform on the fields of a value object, in the order the callback runs. */
  function CssTypography(r: Record<string>, platform: PlatformConfig, show: real -> string): (r': Record<string>)
    requires Valid(r)
    ensures Valid(r')
  {
    TextCaseStep(LetterSpacingStep(LineHeightStep(TrimmedStep(r), platform, show), platform, show))
  }

  /**
   * The transform callback. It changes the value object it is given and
   * returns that same object.
   */
  method TransformTypography(v: ValueObject, platform: PlatformConfig, show: real -> string)
      returns (out: ValueObject)
    requires v.Valid()
    modifies v
    ensures out == v && v.Valid()
    ensures v.Snapshot() == CssTypography(old(v.Snapshot()), platform, show)
  {
    if v.HasOwn("fontFamily") && v.Field("fontFamily") != "" {
      v.Put("fontFamily", RewriteTrimmed(v.Field("fontFamily")));
    }
    ghost var afterFontFamily := v.Snapshot();
    if v.HasOwn("lineHeight") {
      var lineHeight := v.Field("lineHeight");
      v.Put("lineHeight", LineHeightText(lineHeight, LineHeightUnit(platform), show));
    }
    ghost var afterLineHeight := v.Snapshot();
    assert afterLineHeight == LineHeightStep(afterFontFamily, platform, show);
    if v.HasOwn("letterSpacing") {
      var letterSpacing := v.Field("letterSpacing");
      v.Put("letterSpacing", LetterSpacingText(letterSpacing, LetterSpacingUnit(platform), show));
    }
    ghost var afterLetterSpacing := v.Snapshot();
    assert afterLetterSpacing == LetterSpacingStep(afterLineHeight, platform, show);
    if v.HasOwn("textCase") && v.Field("textCase") != "" {
      var textCase := v.Field("textCase");
      v.Remove("textCase");
      v.Put("textTransform", textCase);
    }
    out := v;
  }

  /**
   * With a unit that does not end in a digit (such as the default "px"),
   * running the line-height rewrite again changes nothing.
   */
  lemma LineHeightIdempotent(lineHeight: string, unit: string, show: real -> string)
    requires !EndsWithDigit(unit) && unit != ""
    ensures var once := LineHeightText(lineHeight, unit, show);
      LineHeightText(once, unit, show) == once
  {
    var once := LineHeightText(lineHeight, unit, show);
    if EndsWithDigit(lineHeight) {
      assert once[|once| - 1] == unit[|unit| - 1];
    }
  }

  /**
   * With a non-empty unit that does not end in a digit (the default "px"
   * among them), no rewritten line height is a bare number any more.
   */
  lemma LineHeightGetsUnit(lineHeight: string, unit: string, show: real -> string)
    requires !EndsWithDigit(unit) && unit != ""
    ensures !EndsWithDigit(LineHeightText(lineHeight, unit, show))
  {
    if EndsWithDigit(lineHeight) {
      var r := LineHeightText(lineHeight, unit, show);
      assert r[|r| - 1] == unit[|unit| - 1];
    }
  }

  /** Under the same condition a rewritten letter spacing is "0" or carries a unit. */
  lemma LetterSpacingGetsUnit(letterSpacing: string, unit: string, show: real -> string)
    requires !EndsWithDigit(unit) && unit != ""
    ensures var r := LetterSpacingText(letterSpacing, unit, show);
      r == "0" || !EndsWithDigit(r)
  {
    if !IsZero(ParseFloat(letterSpacing)) && EndsWithDigit(letterSpacing) {
      var r := LetterSpacingText(letterSpacing, unit, show);
      assert r[|r| - 1] == unit[|unit| - 1];
    }
  }

  /** "0px", "-0" and " 0.0" are all written "0". */
  lemma LetterSpacingZeroExamples(unit: string, show: real -> string)
    ensures LetterSpacingText("0px", unit, show) == "0"
    ensures LetterSpacingText("-0", unit, show) == "0"
    ensures LetterSpacingText(" 0.0", unit, show) == "0"
  {
    ParseFloatZeroUnit();
    ParseFloatMinusZero();
    ParseFloatZeroFraction();
  }

  /** A zero letter spacing stays "0" when the rewrite runs again, and so does a unit-bearing one. */
  lemma LetterSpacingStable(letterSpacing: string, unit: string, show: real -> string)
    requires IsZero(ParseFloat(letterSpacing)) || !EndsWithDigit(letterSpacing)
    ensures var once := LetterSpacingText(letterSpacing, unit, show);
      LetterSpacingText(once, unit, show) == once
  {
    ParseFloatZeroDigit();
  }

  /**
   * build.ts:51-55: a non-empty `textCase` disappears and its text is found
   * under `textTransform`; the other keys keep their order and fields. An
   * empty or absent `textCase` leaves the value as it is.
   */
  lemma TextCaseRenamed(r: Record<string>)
    requires Valid(r)
    ensures var r' := TextCaseStep(r);
      && ("textCase" in r.vals && r.vals["textCase"] != "" ==>
            && Get(r', "textCase") == None
            && Get(r', "textTransform") == Some(r.vals["textCase"])
            && (forall k :: k != "textCase" && k != "textTransform" ==> Get(r', k) == Get(r, k))
            && (r'.keys == Without(r.keys, "textCase") || r'.keys == Without(r.keys, "textCase") + ["textTransform"]))
      && (!("textCase" in r.vals && r.vals["textCase"] != "") ==> r' == r)
  {
  }

  /**
   * The transform adds no key other than `textTransform` and removes no key
   * other than `textCase`, and then only when `textCase` is non-empty.
   */
  lemma CssTypographyKeys(r: Record<string>, platform: PlatformConfig, show: real -> string)
    requires Valid(r)
    ensures var r' := CssTypography(r, platform, show);
      var renamed := "textCase" in r.vals && r.vals["textCase"] != "";
      && (!renamed ==> r'.keys == r.keys)
      && (renamed ==> r'.vals.Keys == r.vals.Keys - {"textCase"} + {"textTransform"})
  {
    var r1 := TrimmedStep(r);
    var r2 := LineHeightStep(r1, platform, show);
    var r3 := LetterSpacingStep(r2, platform, show);
    assert r3.keys == r.keys && r3.vals.Keys == r.vals.Keys;
    assert Get(r3, "textCase") == Get(r, "textCase");
  }

  /** Every field the transform does not target is kept. */
  lemma CssTypographyOthers(r: Record<string>, platform: PlatformConfig, show: real -> string)
    requires Valid(r)
    ensures var r' := CssTypography(r, platform, show);
      forall k :: k !in {"fontFamily", "lineHeight", "letterSpacing", "textCase", "textTransform"} ==>
        Get(r', k) == Get(r, k)
  {
  }

  /** The font family holds its rewrite when the guard holds, else what it held. */
  lemma CssTypographyFontFamily(r: Record<string>, platform: PlatformConfig, show: real -> string)
    requires Valid(r)
    ensures Get(CssTypography(r, platform, show), "fontFamily") ==
      if HasFontFamily(r) then Some(RewriteTrimmed(r.vals["fontFamily"])) else Get(r, "fontFamily")
  {
    var r1 := TrimmedStep(r);
    var r2 := LineHeightStep(r1, platform, show);
    var r3 := LetterSpacingStep(r2, platform, show);
    assert Get(r3, "fontFamily") == Get(r1, "fontFamily");
  }

  /** A present line height holds its rewrite. */
  lemma CssTypographyLineHeight(r: Record<string>, platform: PlatformConfig, show: real -> string)
    requires Valid(r)
    ensures Get(CssTypography(r, platform, show), "lineHeight") ==
      if "lineHeight" in r.vals
      then Some(LineHeightText(r.vals["lineHeight"], LineHeightUnit(platform), show))
      else None
  {
    var r1 := TrimmedStep(r);
    var r2 := LineHeightStep(r1, platform, show);
    var r3 := LetterSpacingStep(r2, platform, show);
    assert Get(r1, "lineHeight") == Get(r, "lineHeight");
    assert Get(r3, "lineHeight") == Get(r2, "lineHeight");
  }

  /** A present letter spacing holds its rewrite. */
  lemma CssTypographyLetterSpacing(r: Record<string>, platform: PlatformConfig, show: real -> string)
    requires Valid(r)
    ensures Get(CssTypography(r, platform, show), "letterSpacing") ==
      if "letterSpacing" in r.vals
      then Some(LetterSpacingText(r.vals["letterSpacing"], LetterSpacingUnit(platform), show))
      else None
  {
    var r1 := TrimmedStep(r);
    var r2 := LineHeightStep(r1, platform, show);
    assert Get(r2, "letterSpacing") == Get(r, "letterSpacing");
  }

  /**
   * After the whole callback a non-empty `textCase` has moved to
   * `textTransform`; otherwise both fields hold what they held.
   */
  lemma CssTypographyTextCase(r: Record<string>, platform: PlatformConfig, show: real -> string)
    requires Valid(r)
    ensures var r' := CssTypography(r, platform, show);
      var renamed := "textCase" in r.vals && r.vals["textCase"] != "";
      && Get(r', "textTransform") == (if renamed then Some(r.vals["textCase"]) else Get(r, "textTransform"))
      && Get(r', "textCase") == (if renamed then None else Get(r, "textCase"))
  {
    var r1 := TrimmedStep(r);
    var r2 := LineHeightStep(r1, platform, show);
    var r3 := LetterSpacingStep(r2, platform, show);
    assert Get(r3, "textCase") == Get(r, "textCase");
    assert Get(r3, "textTransform") == Get(r, "textTransform");
    TextCaseRenamed(r3);
  }
}
