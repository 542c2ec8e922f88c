# Typography tokens to Tailwind utilities, modelled in Dafny

The repository is a design-token build script. It feeds a tree of design
tokens through Style Dictionary and writes CSS. A token has a name, a path
whose first segment is a breakpoint (`mobile`, `tablet`, `desktop`), a type
and a value. A typography token's value is an object of string fields
(`fontFamily`, `lineHeight`, `letterSpacing`, `textCase`, ...). The custom code
around the library does three things, and this project models each of them.

1. **Value transforms.** They rewrite fields of a typography value object in
   place. Font-family lists are split on commas, names with a space are quoted
   and `sans-serif` is appended. Bare line heights and letter spacings get a
   unit, and zero letter spacings are special-cased. `textCase` is renamed to
   `textTransform`. Three revisions exist: the `css/typography` callback of
   `build.ts`, `src/transforms.ts` and `src/typographyTransforms.ts`. They
   differ in trimming, in where the unit option is read from and in how zero is
   handled. Each one is modelled as its own function.
2. **The utility assembler** `createTypographyUtility` (`src/utils.ts`, copied in
   `build.ts`). It takes a breakpoint mapping (label to length, in declared
   order) and a record of one token per label. It builds one `@utility <name>`
   rule from the default breakpoint's fields and adds one
   `@media (min-width: <length>)` entry per later breakpoint that has a token.
   It throws "No default breakpoint" or "No default typography token".
3. **The formats around it.**
   - `build.ts` partitions the tokens into composite and plain ones, fills
     `:root` with one custom property per plain token, and groups typography
     tokens by their path without the breakpoint segment.
   - `main.ts` turns a value object into declaration lines, indents them and
     wraps them in a `.name { ... }` block.
   - `src/main.ts` sorts each group mobile, tablet, desktop and concatenates one
     output per group.

Layout of the project:

| file | module | models |
|---|---|---|
| wrappers.dfy | `Wrappers` | `undefined` (`Option`) and thrown errors (`Result`) |
| js_object.dfy | `JsObject` | objects with string keys in insertion order; `o[k] = v`, `delete`, `Object.entries`, `Object.assign` |
| value_object.dfy | `ValueObjects` | the shared, mutable value object of a typography token (a class) |
| js_string.dfy | `JsString` | `trim`, `split`/`join` on one character, `/\d$/`, `repeat` |
| js_array.dfy | `JsArray` | `filter`, `find`, `indexOf`, `map`, `Map.groupBy` |
| js_number.dfy | `JsNumber` | `parseFloat` on the StrDecimalLiteral grammar, and `String(n)` |
| tokens.dfy | `Tokens` | tokens, the `$value ?? value` and `$type ?? type` fallbacks, platform options |
| font_family.dfy | `FontFamily`, `FontFamilyExamples` | the trimmed and the untrimmed font-family rewrite |
| build_transform.dfy | `BuildTransform` | the `css/typography` callback of build.ts |
| transforms.dfy | `Transforms` | src/transforms.ts |
| typography_transforms.dfy | `TypographyTransforms` | src/typographyTransforms.ts |
| line_height_revisions.dfy | `LineHeightRevisions` | the line-height rewrites of build.ts and src/transforms.ts side by side |
| utility.dfy | `Utility` | `createTypographyUtility` of src/utils.ts and build.ts |
| build_format.dfy | `BuildFormat` | the `tailwindcss` format of build.ts, up to the PostCSS call |
| main_format.dfy | `MainFormat` | the hooks of main.ts |
| src_main.dfy | `SrcMain` | the `tailwindcss` format of src/main.ts |

Each transform is a method that takes a `ValueObjects.ValueObject`. It has
`modifies` on the object and an `ensures` that ties the object's new fields to a
function of the old ones (for example `Transforms.LineHeightStep`). The
properties are lemmas about those functions. The loops of the assembler and the
formats are methods whose loop invariants tie them to recursive specification
functions, and the lemmas are stated about those functions.

Behaviours of the code that a reader may not expect:

- `src/typographyTransforms.ts` does not trim the names it keeps. "Inter, Arial"
  becomes "Inter,  Arial, sans-serif" there, and a quoted name keeps the space
  after the comma inside its quotes (`FontFamilyExamples.InterArial`,
  `FontFamilyExamples.ArialMyFont`).
- Only build.ts writes a zero letter spacing as "0". The two `src/` revisions
  keep the original text and add no unit, so "0px" stays "0px".
- The `src/` revisions append the unit to the original text, not to the parsed
  number. "1.5px" becomes "1.5pxpx", and a keyword such as "normal" (which
  parses to NaN, not zero) becomes "normalpx".
- `!defaultBreakpoint` is also true when the first label is the empty string.
  That case throws "No default breakpoint" as well.

Parameters stand for the library calls that are not modelled:
`kebab: string -> string` is `toKebabCase`, `show: real -> string` is
Number::toString, `percent` and `ratio` are the float division and `toFixed(3)`
of the line-height branches, and `emit` is the call at src/main.ts:43.

## Model

| member | source | states |
|---|---|---|
| BuildTransform.TransformTypography | build.ts:22-58 | the callback changes the shared value object in place, in the order font family, line height, letter spacing, text case, and returns that same object |
| FontFamily.RewriteTrimmedPieces | build.ts:25-33 | read back by splitting on commas and trimming, the rewritten list holds one name per comma-separated piece of the input, trimmed and quoted exactly when it holds a space, then `sans-serif`; so the name count is the piece count |
| FontFamily.QuoteTrimmedForm | build.ts:26-30 | the trimming callback returns the trimmed piece in quotes exactly when the result holds a space, and the bare trimmed piece otherwise |
| FontFamilyExamples.MyFont | src/transforms.ts:7-14 | "My Font" becomes `"My Font", sans-serif` |
| BuildTransform.CssTypographyFontFamily | build.ts:25-33 | after the callback `fontFamily` holds the rewrite when it was present and non-empty, and is untouched otherwise |
| BuildTransform.LineHeightIdempotent | build.ts:35-40 | with a non-empty unit that does not end in a digit, rewriting a rewritten line height changes nothing |
| BuildTransform.LineHeightGetsUnit | build.ts:35-40 | with a non-empty unit that does not end in a digit (such as the default "px"), no rewritten line height ends in a digit |
| BuildTransform.CssTypographyLineHeight | build.ts:35-40 | after the callback `lineHeight` holds the rewrite with `platform.lineHeightUnit ?? "px"` when present, and stays absent otherwise |
| BuildTransform.LetterSpacingGetsUnit | build.ts:42-49 | under the same condition, a rewritten letter spacing is "0" or does not end in a digit |
| BuildTransform.LetterSpacingZeroExamples | build.ts:45-47 | "0px", "-0" and " 0.0" are all written "0" |
| BuildTransform.LetterSpacingStable | build.ts:42-49 | a zero or unit-bearing letter spacing is unchanged by a second rewrite |
| BuildTransform.CssTypographyLetterSpacing | build.ts:42-49 | after the callback `letterSpacing` holds the rewrite with `platform.letterSpacingUnit ?? "px"` when present, and stays absent otherwise |
| BuildTransform.TextCaseRenamed | build.ts:51-55 | a non-empty `textCase` is removed and its text is found under `textTransform`; every other field is kept; an empty or absent one changes nothing |
| BuildTransform.CssTypographyKeys | build.ts:22-58 | the callback adds no key but `textTransform` and removes none but `textCase`, and keeps the key order when there is no non-empty `textCase` |
| BuildTransform.CssTypographyTextCase | build.ts:22-58 | after the whole callback, a non-empty `textCase` is gone and its text is under `textTransform`; otherwise both fields hold what they held |
| BuildTransform.CssTypographyOthers | build.ts:22-58 | every field other than the five the callback targets is unchanged |
| JsNumber.ParseFloatZero | build.ts:45 | `parseFloat(s) === 0` exactly when `s` starts, after white space and a sign, with a numeral whose digits are all zero |
| BuildFormat.PartitionSides | build.ts:63-66 | border, shadow and typography tokens go to the composite side, every other token to the plain side; each token lands on exactly one side |
| BuildFormat.CollectRootVariables | build.ts:72 | the `forEach` builds exactly the `:root` object of the specification function |
| BuildFormat.RootVariablesDistinct | build.ts:71-72 | with distinct kebab-cased names, `:root` has one key `"--" + kebab(name)` per plain token, in token order, holding `$value ?? value` |
| BuildFormat.RootVariablesKeys | build.ts:72 | whatever the names, every `:root` key is the variable name of some plain token and every such name is a key |
| BuildFormat.HeaderLayout | build.ts:68-88 | the object starts with the `@import` flag, then `:root` exactly when there is a plain token; the empty border and shadow objects add nothing |
| BuildFormat.TypographyTokensAreTypography | build.ts:76-91 | the typography list is exactly the tokens whose `$type ?? type` is "typography", in input order |
| BuildFormat.TypographyGroups | build.ts:94 | groups come in first-occurrence order of `path.slice(1).join("-")`, with distinct names, and each holds exactly the tokens of its name in input order |
| BuildFormat.CollectTokensRecord | build.ts:95-97 | the `forEach` builds exactly the record of the specification function |
| BuildFormat.TokensRecordSpec | build.ts:95-97 | with distinct labels the record's keys are the labels in order, and each label holds the group's first token whose `path[0]` is that label, or `undefined` |
| BuildFormat.FirstAtBreakpoint | build.ts:97 | `find` gives `undefined` exactly when no token is at the label, and otherwise a token at the label with none at it before |
| BuildFormat.AddGroupUtilities | build.ts:94-101 | the loop over the groups gives the specification function's result: the utilities assigned one after another, or the first error thrown |
| BuildFormat.TailwindFormat | build.ts:62-101 | the format builds the CSS-in-JS object of the specification function, or throws the same error |
| BuildFormat.ErrorStops | build.ts:94-101 | once a group throws, the format throws that error whatever groups follow |
| BuildFormat.AddUtilitiesOk | build.ts:94-101 | the loop succeeds exactly when every group's utility builds |
| BuildFormat.AddUtilitiesKeys | build.ts:94-101 | on success with distinct fresh rule keys, one `@utility typography-<name>` key is appended per group, in group order, and earlier keys are kept |
| BuildFormat.RuleKeysDistinct | build.ts:99 | distinct group names give distinct utility keys |
| BuildFormat.TailwindCssThrows | build.ts:62-101 | the whole format throws exactly when some typography group has no default token (or the mapping has no default label) |
| BuildFormat.TailwindCssKeys | build.ts:62-101 | on success the object lists the `@import` flag, `:root` when there is a plain token, then one utility per group in first-occurrence order |
| Utility.CreateTypographyUtility | src/utils.ts:8-34 | the method, with its `for ... of` loop and `continue`, returns exactly the specification function's result or error |
| Utility.UtilityErrors | src/utils.ts:13-17 | an empty mapping (or an empty first label) throws "No default breakpoint"; otherwise a first label without a token throws "No default typography token"; otherwise the call succeeds |
| Utility.UtilityShape | src/utils.ts:21-31 | on success the result has the single key `"@utility " + name`, and its keys are the default value's keys plus the media keys of the later labels that have a token |
| Utility.UtilityLayout | src/utils.ts:21-31 | with distinct lengths and no clash, the rule lists the default fields unchanged, then one media key per later label with a token in declared order (so the media-key count is the number of such labels), each holding its token's value |
| Utility.MediaQueriesLayout | src/utils.ts:24-31 | with distinct media keys not among the base keys, the loop appends exactly the media keys, in order, and keeps the base fields |
| Utility.MediaQueryValue | src/utils.ts:28-30 | each later label that has a token finds that token's value under its media key |
| Utility.DistinctLengths | src/utils.ts:29 | distinct labels with distinct lengths give distinct media keys |
| Utility.FirstBreakpointNoMedia | src/utils.ts:24 | the first breakpoint's media key appears only when a later breakpoint has the same length or the default value has such a field |
| Utility.MobileAndDesktopOnly | src/utils.ts:24-31 | tokens at the first and last of three breakpoints give the first token's fields plus a single media entry for the last length; the middle one adds nothing |
| MainFormat.IsTypographyForFields | main.ts:63-65 | with `usesDtcg` only `$type` is read, without it only `type`, and the test is equality with "typography" |
| MainFormat.LegacyTypeIgnored | main.ts:63-65 | a token typed only by `type` is not typography under DTCG here, though it is for src/utils.ts |
| MainFormat.Declaration | main.ts:74 | every declaration line ends with `;` |
| MainFormat.DeclarationBlockJoin | main.ts:67-75 | the reduce gives the declarations `kebab(key): value;` in entry order, joined with "\n", with no newline after the last |
| MainFormat.DeclarationLines | main.ts:67-75 | split on newlines the block gives back one declaration per entry, and a non-empty block ends in `;` |
| MainFormat.AddIndentLines | main.ts:82-87 | the indented text has the same lines in order, each prefixed with exactly `indent` spaces, and the same number of newlines |
| MainFormat.AddIndentZero | main.ts:82-87 | `addIndent(text, 0)` is `text` |
| MainFormat.AddIndentTwice | main.ts:82-87 | indenting by `a` and then by `b` is indenting by `a + b` |
| MainFormat.UtilityTextLines | main.ts:77-80 | the utility's lines are `.name {`, each line of the value indented by four spaces, `}`, and the empty piece after the final newline |
| MainFormat.TransformedUtility | main.ts:19-22 | a typography object turned into text and wrapped gives `.name {`, one indented declaration per field in field order, then `}` |
| MainFormat.FormatTextSpec | main.ts:26-30 | the format succeeds exactly when every value is a string, and is then each token's utility followed by "\n", concatenated in token order |
| SrcMain.RankSpec | src/main.ts:36-39 | mobile ranks 0, tablet 1, desktop 2, and any other label (or none) -1, the `indexOf` miss |
| SrcMain.CompareOrder | src/main.ts:36-39 | an unknown label sorts before mobile, mobile before tablet, tablet before desktop |
| SrcMain.SortByRankSorted | src/main.ts:42 | the sorted group is ordered by rank |
| SrcMain.SortByRankPermutation | src/main.ts:42 | the sorted group holds the same tokens, each as often |
| SrcMain.SortByRankStable | src/main.ts:42 | tokens of equal rank keep their original order |
| SrcMain.StableSortUnique | src/main.ts:42 | any arrangement ordered by rank that keeps each rank's original order is the sort's result |
| SrcMain.MobileValueFirst | src/main.ts:42 | a desktop token listed before a mobile one gives the mobile value first |
| SrcMain.TailwindFormat | src/main.ts:33-47 | the loop's result, starting from "", is the concatenation of the per-group outputs in group order |
| SrcMain.GroupOutputsSpec | src/main.ts:41-43 | groups come in first-occurrence order, and group `i` passes on the values of exactly the tokens of its name, sorted by rank |
| SrcMain.OneGroupEach | src/main.ts:41 | every token is in exactly one group, the one of its name |
| Transforms.TransformFontFamily | src/transforms.ts:3-18 | the method rewrites the value object in place to the trimmed font-family step of its old fields |
| Transforms.FontFamilyOnlyOwnKey | src/transforms.ts:3-18 | only `fontFamily` changes, to the rewrite when present and non-empty; an absent or empty one leaves the object as it is |
| Transforms.TransformLineHeight | src/transforms.ts:20-35 | the method rewrites `lineHeight` in place by the branch the specification function picks |
| Transforms.ConfiguredLineHeightUnit | src/transforms.ts:26 | a configured line-height unit is used only when it is a non-empty string |
| LineHeightRevisions.LineHeightMatchesBuild | src/transforms.ts:24-27 | for a line height ending in a digit and a configured unit, src/transforms.ts writes the same text as build.ts:35-40 |
| LineHeightRevisions.UnitBearingLineHeight | src/transforms.ts:24-27 | a line height ending in neither a digit nor "%" gets its parsed value followed by the configured unit, while build.ts:35-40 keeps it as it is |
| LineHeightRevisions.LineHeightUnitReplaced | src/transforms.ts:24-27 | with a configured unit, "1.5px" becomes 1.5 followed by that unit here, while build.ts:35-40 keeps "1.5px" |
| Transforms.LineHeightReadsOnlyFontSize | src/transforms.ts:20-32 | two value objects with the same `fontSize` get the same new line height |
| Transforms.LineHeightOnlyOwnKey | src/transforms.ts:20-35 | only `lineHeight` changes, and an absent or empty one leaves the object as it is |
| Transforms.TransformLetterSpacing | src/transforms.ts:37-47 | the method rewrites `letterSpacing` in place by the specification function |
| Transforms.SuffixUnlessZeroSpec | src/transforms.ts:41-43 | the original text is kept as a prefix; the unit is appended exactly when the text does not parse to zero |
| Transforms.SuffixZeroExample | src/transforms.ts:41-43 | "0px" gets no unit |
| Transforms.SuffixKeywordExample | src/transforms.ts:41-43 | "normal" parses to NaN and gets the unit |
| Transforms.SuffixUnitExample | src/transforms.ts:41-43 | "1.5px" gets the unit a second time |
| Transforms.EmptyUnitKeepsLetterSpacing | src/transforms.ts:37-47 | an empty `options.letterSpacingUnit` is kept by `??`, so the letter-spacing step leaves the object unchanged |
| Transforms.LetterSpacingOnlyOwnKey | src/transforms.ts:37-47 | only `letterSpacing` changes, to the suffixed text when present and non-empty; otherwise nothing changes |
| TypographyTransforms.TransformFontFamily | src/typographyTransforms.ts:3-27 | the method rewrites the value object in place to the untrimmed font-family step of its old fields |
| FontFamily.RewriteUntrimmedPieces | src/typographyTransforms.ts:17-23 | read back by splitting on commas, the list holds one name per input piece, quoted (untrimmed) exactly when its trimmed form holds a space and otherwise kept with its white space, then `sans-serif` |
| FontFamilyExamples.InterArial | src/typographyTransforms.ts:17-23 | "Inter, Arial" becomes "Inter, Arial, sans-serif" with trimming and keeps the extra space without it |
| FontFamilyExamples.ArialMyFont | src/typographyTransforms.ts:17-20 | without trimming the quotes enclose the space that followed the comma |
| TypographyTransforms.FontFamilyOnlyOwnKey | src/typographyTransforms.ts:15-26 | only `fontFamily` changes, and an absent or empty one leaves the object as it is |
| TypographyTransforms.TransformLetterSpacing | src/typographyTransforms.ts:39-49 | the method rewrites `letterSpacing` in place by the specification function |
| TypographyTransforms.UnitFromNestedOptions | src/typographyTransforms.ts:44 | the unit comes from `options.typography.letterSpacingUnit` only; a top-level `options.letterSpacingUnit` is ignored, unlike in src/transforms.ts |
| TypographyTransforms.UnitDependsOnlyOnTypography | src/typographyTransforms.ts:44 | two platforms with the same `options.typography` give the same unit |
| TypographyTransforms.LetterSpacingOnlyOwnKey | src/typographyTransforms.ts:39-49 | only `letterSpacing` changes, and an absent or empty one leaves the object as it is |

## Left out

- Style Dictionary construction, registration, platform and hook configuration, `cleanAllPlatforms` and `buildAllPlatforms` (build.ts:10-132, main.ts:7-61, src/main.ts:7-72): library orchestration and file I/O.
- The PostCSS serialisation at build.ts:104 and the `replace`/`replaceAll` on its text at build.ts:105: PostCSS is not part of this model, so the format is modelled up to the CSS-in-JS object it hands over.
- `toKebabCase`: a parameter `kebab`, with no properties assumed.
- `parseFloat`: modelled on the StrDecimalLiteral grammar with exact real values; rounding to the nearest double, overflow to Infinity and underflow to zero are not modelled. Number::toString is a parameter `show`.
- The float division and `toFixed(3)` of the percentage and font-size-ratio line-height branches (src/transforms.ts:25, 29-30): parameters `percent` and `ratio`; only the choice of branch is modelled.
- `transformLineHeight` of src/typographyTransforms.ts (lines 29-37): it stores a floating-point number, not a string, into the value object; the model's value objects hold strings only.
- Value fields that are not strings: every field is a string, so the `typeof ... === "string"` test at build.ts:35 always holds and `.toString()` at src/transforms.ts:23 is the identity.
- Integer-like keys, which `Object.keys` lists first in ascending numeric order (section 10.1.11.1 of ECMA-262): keys are kept in insertion order.
- The call at src/main.ts:43 is a parameter `emit`. It passes the sorted value objects as the token record and the breakpoint array of src/main.ts:56, whose keys are "0", "1" and "2". The first value object is a truthy default, so nothing throws. `$value ?? value` of a value object is `undefined`, and `result +=` turns the returned object into the text "[object Object]" for every group. `emit` therefore stands for that constant, which the model keeps abstract.
- SrcMain.SortByRank: `values.sort` sorts the group in place; the model sorts a value (a stable sort by rank), so the aliasing of the sorted array is not captured.
- The commented-out border and shadow regions (build.ts:78-88): they carry no behaviour.
- Utility.UtilityLayout: requires distinct lengths for the later breakpoints and no field of the default value named like a media query; without these, a later key overwrites an earlier one in place, which `Utility.UtilityShape` still describes.
