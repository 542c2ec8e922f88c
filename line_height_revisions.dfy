/**
 * The line-height rewrite of build.ts (lines 35-40) set beside the one of
 * src/transforms.ts (lines 20-35): they agree on bare numbers and differ
 * on a line height that already names a unit.
 */
module LineHeightRevisions {
  import opened JsString
  import opened JsNumber
  import opened JsObject
  import opened Tokens
  import BuildTransform
  import Transforms

  /** For a line height that ends in a digit and a configured unit, both revisions write the same text. */
  lemma LineHeightMatchesBuild(r: Record<string>, lineHeight: string, platform: PlatformConfig, show: real -> string,
                               percent: Number -> string, ratio: (Number, Number) -> string)
    requires EndsWithDigit(lineHeight) && Transforms.ConfiguredLineHeightUnit(platform).Some?
    ensures Transforms.LineHeightText(r, lineHeight, platform, show, percent, ratio) ==
            BuildTransform.LineHeightText(lineHeight, Transforms.ConfiguredLineHeightUnit(platform).value, show)
  {
    assert lineHeight[|lineHeight| - 1..] != "%" by {
      assert lineHeight[|lineHeight| - 1..][0] == lineHeight[|lineHeight| - 1];
    }
  }

  /**
   * A line height that names its own unit (it ends in neither a digit nor
   * "%") gets the configured unit in place of its own in src/transforms.ts,
   * while build.ts keeps it as it is.
   */
  lemma UnitBearingLineHeight(r: Record<string>, lineHeight: string, platform: PlatformConfig, show: real -> string,
                              percent: Number -> string, ratio: (Number, Number) -> string)
    requires !EndsWithDigit(lineHeight) && !EndsWith(lineHeight, "%")
    requires Transforms.ConfiguredLineHeightUnit(platform).Some?
    ensures var unit := Transforms.ConfiguredLineHeightUnit(platform).value;
      && Transforms.LineHeightText(r, lineHeight, platform, show, percent, ratio) == ToText(ParseFloat(lineHeight), show) + unit
      && BuildTransform.LineHeightText(lineHeight, unit, show) == lineHeight
  {
  }

  /** With a configured unit, "1.5px" becomes 1.5 followed by that unit; build.ts keeps "1.5px". */
  lemma LineHeightUnitReplaced(r: Record<string>, platform: PlatformConfig, show: real -> string,
                               percent: Number -> string, ratio: (Number, Number) -> string)
    requires Transforms.ConfiguredLineHeightUnit(platform).Some?
    ensures var unit := Transforms.ConfiguredLineHeightUnit(platform).value;
      && Transforms.LineHeightText(r, "1.5px", platform, show, percent, ratio) == show(1.5) + unit
      && BuildTransform.LineHeightText("1.5px", unit, show) == "1.5px"
  {
    assert !EndsWith("1.5px", "%") by { assert "1.5px"[4..] == "x"; }
    assert !EndsWithDigit("1.5px") by { assert "1.5px"[4] == 'x'; }
    UnitBearingLineHeight(r, "1.5px", platform, show, percent, ratio);
    ParseFloatWithUnit();
  }
}
