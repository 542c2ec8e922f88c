/**
 * Design tokens as the formats and transforms see them, and the platform
 * configuration the transforms read. A token carries both schema variants:
 * the DTCG fields `$type`/`$value` and the legacy `type`/`value`.
 */
module Tokens {
  import opened Wrappers
  import opened JsObject
  import JsString

  /** A token value: `undefined`, a string, or an object of string fields (a typography value). */
  datatype Value = Undefined | Text(text: string) | Fields(fields: Record<string>)

  datatype Token = Token(
    name: string,
    path: seq<string>,
    dtcgType: Option<string>,   // `$type`
    plainType: Option<string>,  // `type`
    dtcgValue: Value,           // `$value`
    plainValue: Value)          // `value`

  /** `token.$value ?? token.value` */
  function ValueOf(t: Token): (v: Value)
    ensures ValidToken(t) ==> ValidValue(v)
  {
    if t.dtcgValue.Undefined? then t.plainValue else t.dtcgValue
  }

  /** A value whose fields, if it has any, form a well-formed object. */
  ghost predicate ValidValue(v: Value) {
    v.Fields? ==> Valid(v.fields)
  }

  ghost predicate ValidToken(t: Token) {
    ValidValue(t.dtcgValue) && ValidValue(t.plainValue)
  }

  /** `token.$type ?? token.type` */
  function TypeOf(t: Token): Option<string> {
    if t.dtcgType.Some? then t.dtcgType else t.plainType
  }

  /** `isTypography` of src/utils.ts and build.ts. */
  predicate IsTypography(t: Token) {
    TypeOf(t) == Some("typography")
  }

  /** `token.path[0]`, `undefined` for an empty path. */
  function Breakpoint(t: Token): Option<string> {
    if |t.path| == 0 then None else Some(t.path[0])
  }

  /** `path.slice(1).join("-")`: the name of a token with its breakpoint segment dropped. */
  function GroupName(t: Token): string {
    JsString.Join(if |t.path| == 0 then [] else t.path[1..], "-")
  }

  /** The `typography` object nested in a platform's `options`. */
  datatype TypographyOptions = TypographyOptions(letterSpacingUnit: Option<string>)

  /** The `options` object of a platform. */
  datatype Options = Options(
    lineHeightUnit: Option<string>,
    letterSpacingUnit: Option<string>,
    typography: Option<TypographyOptions>)

  /** A platform configuration: units at the top level (read by build.ts) and an `options` object. */
  datatype PlatformConfig = PlatformConfig(
    lineHeightUnit: Option<string>,
    letterSpacingUnit: Option<string>,
    options: Option<Options>)
}
