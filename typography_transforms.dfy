/**
 * The value transforms of src/typographyTransforms.ts that produce text:
 * the untrimmed font-family rewrite and the letter-spacing rewrite that
 * reads its unit from `options.typography`.
 */
module TypographyTransforms {
  import opened Wrappers
  import opened JsObject
  import opened Tokens
  import opened FontFamily
  import opened ValueObjects
  import Transforms

  /** `platform.options?.typography?.letterSpacingUnit ?? "px"` */
  function LetterSpacingUnit(platform: PlatformConfig): string {
    if platform.options.Some? && platform.options.value.typography.Some?
    then platform.options.value.typography.value.letterSpacingUnit.GetOr("px")
    else "px"
  }

  /** src/typographyTransforms.ts:39-49 on the fields of the value object. */
  function LetterSpacingStep(r: Record<string>, platform: PlatformConfig): (r': Record<string>)
    requires Valid(r)
    ensures Valid(r')
  {
    if Transforms.HasLetterSpacing(r) then
      Set(r, "letterSpacing", Transforms.SuffixUnlessZero(r.vals["letterSpacing"], LetterSpacingUnit(platform)))
    else r
  }

  /** `transformFontFamily` (src/typographyTransforms.ts:3-27). */
  method TransformFontFamily(v: ValueObject) returns (out: ValueObject)
    requires v.Valid()
    modifies v
    ensures out == v && v.Valid()
    ensures v.Snapshot() == UntrimmedStep(old(v.Snapshot()))
  {
    if v.HasOwn("fontFamily") && v.Field("fontFamily") != "" {
      v.Put("fontFamily", RewriteUntrimmed(v.Field("fontFamily")));
    }
    out := v;
  }

  /** `transformLetterSpacing` (src/typographyTransforms.ts:39-49). */
  method TransformLetterSpacing(v: ValueObject, platform: PlatformConfig) returns (out: ValueObject)
    requires v.Valid()
    modifies v
    ensures out == v && v.Valid()
    ensures v.Snapshot() == LetterSpacingStep(old(v.Snapshot()), platform)
  {
    if v.HasOwn("letterSpacing") && v.Field("letterSpacing") != "" {
      var letterSpacing := v.Field("letterSpacing");
      v.Put("letterSpacing", Transforms.SuffixUnlessZero(letterSpacing, LetterSpacingUnit(platform)));
    }
    out := v;
  }

  /**
   * The unit comes from `options.typography` only: a top-level
   * `options.letterSpacingUnit` is ignored here, while src/transforms.ts
   * reads exactly that one.
   */
  lemma UnitFromNestedOptions(unit: string)
    ensures var platform := PlatformConfig(None, None, Some(Options(None, Some(unit), None)));
      LetterSpacingUnit(platform) == "px" && Transforms.LetterSpacingUnit(platform) == unit
    ensures var platform := PlatformConfig(None, None, Some(Options(None, None, Some(TypographyOptions(Some(unit))))));
      LetterSpacingUnit(platform) == unit && Transforms.LetterSpacingUnit(platform) == "px"
  {
  }

  /** Two platforms with the same `options.typography` give the same unit. */
  lemma UnitDependsOnlyOnTypography(p: PlatformConfig, q: PlatformConfig)
    requires p.options.Some? && q.options.Some? && p.options.value.typography == q.options.value.typography
    ensures LetterSpacingUnit(p) == LetterSpacingUnit(q)
  {
  }

  /** The font-family rewrite touches `fontFamily` only, and nothing when it is absent or empty. */
  lemma FontFamilyOnlyOwnKey(r: Record<string>)
    requires Valid(r)
    ensures UntrimmedStep(r).keys == r.keys
    ensures forall k :: k != "fontFamily" ==> Get(UntrimmedStep(r), k) == Get(r, k)
    ensures !HasFontFamily(r) ==> UntrimmedStep(r) == r
    ensures HasFontFamily(r) ==> Get(UntrimmedStep(r), "fontFamily") == Some(RewriteUntrimmed(r.vals["fontFamily"]))
  {
  }

  /** The letter-spacing rewrite touches `letterSpacing` only, and nothing when it is absent or empty. */
  lemma LetterSpacingOnlyOwnKey(r: Record<string>, platform: PlatformConfig)
    requires Valid(r)
    ensures var r' := LetterSpacingStep(r, platform);
      && r'.keys == r.keys
      && (forall k :: k != "letterSpacing" ==> Get(r', k) == Get(r, k))
      && (!Transforms.HasLetterSpacing(r) ==> r' == r)
  {
  }
}
