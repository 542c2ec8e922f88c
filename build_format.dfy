/**
 * The `tailwindcss` format of build.ts (lines 62-101) up to the CSS-in-JS
 * object it hands to PostCSS: an `@import` flag, a `:root` block with one
 * custom property per plain token, and one `@utility` rule per typography
 * group.
 */
module BuildFormat {
  import opened Wrappers
  import opened JsString
  import opened JsObject
  import opened JsArray
  import opened Tokens
  import opened Utility

  /** A top-level entry of the CSS-in-JS object. */
  datatype TopEntry = ImportFlag | Variables(vars: Record<Value>) | UtilityRule(rule: Record<Prop>)

  const ImportKey: string := "@import 'tailwindcss'"
  const RootKey: string := ":root"

  /** `["border", "shadow", "typography"].includes(tokenType ?? "")` */
  predicate IsComposite(t: Token) {
    TypeOf(t).GetOr("") in ["border", "shadow", "typography"]
  }

  predicate IsPlain(t: Token) {
    !IsComposite(t)
  }

  /** The first half of `partition`: the composite tokens, in order. */
  function Composite(all: seq<Token>): seq<Token> {
    Filter(all, IsComposite)
  }

  /** The second half of `partition`: every other token, in order. */
  function Plain(all: seq<Token>): seq<Token> {
    Filter(all, IsPlain)
  }

  /** `"--" + toKebabCase(name)` */
  function VariableName(t: Token, kebab: string -> string): string {
    "--" + kebab(t.name)
  }

  /** The `:root` object after the `forEach` over `plain` (build.ts:72). */
  function RootVariables(plain: seq<Token>, kebab: string -> string): (r: Record<Value>)
    ensures Valid(r)
  {
    if |plain| == 0 then Empty()
    else
      var t := plain[|plain| - 1];
      Set(RootVariables(plain[..|plain| - 1], kebab), VariableName(t, kebab), ValueOf(t))
  }

  /** `cssInJsVariables`: an object with `:root` when there are plain tokens, an empty one otherwise. */
  function VariablesObject(plain: seq<Token>, kebab: string -> string): (r: Record<TopEntry>)
    ensures Valid(r)
  {
    if |plain| > 0 then Single(RootKey, Variables(RootVariables(plain, kebab))) else Empty()
  }

  /** `cssInJs` after build.ts:68-88: the `:root` object, then the empty border and shadow objects, assigned onto the flag. */
  function Header(all: seq<Token>, kebab: string -> string): (r: Record<TopEntry>)
    ensures Valid(r)
  {
    var withVariables := Assign(Single(ImportKey, ImportFlag), VariablesObject(Plain(all), kebab));
    Assign(Assign(withVariables, Empty()), Empty())
  }

  /** `compositeTokensMap.get("typography") ?? []`, the map grouping by `$type ?? type`. */
  function TypographyTokens(all: seq<Token>): seq<Token> {
    GroupGet(GroupBy(Composite(all), TypeOf), Some("typography")).GetOr([])
  }

  /** The test of build.ts:97: `path[0] === breakpoint`. */
  function AtBreakpoint(bp: string): Token -> bool {
    (t: Token) => Breakpoint(t) == Some(bp)
  }

  /** `tokensRecord` after the `forEach` over `labels`: each label maps to the first token at it. */
  function TokensRecord(group: seq<Token>, labels: seq<string>): (r: Record<Option<Token>>)
    ensures Valid(r)
  {
    if |labels| == 0 then Empty()
    else
      var bp := labels[|labels| - 1];
      Set(TokensRecord(group, labels[..|labels| - 1]), bp, Find(group, AtBreakpoint(bp)))
  }

  /** Every token of every group is well formed. */
  ghost predicate ValidGroups(groups: seq<(string, seq<Token>)>) {
    forall i, t :: 0 <= i < |groups| && t in groups[i].1 ==> ValidToken(t)
  }

  /** The loop of build.ts:94-101 over `groups`, stopping at the first group that throws. */
  function AddUtilities(css: Record<TopEntry>, groups: seq<(string, seq<Token>)>, breakpoints: Record<string>)
      : (r: Result<Record<TopEntry>, UtilityError>)
    requires Valid(css) && Valid(breakpoints) && ValidGroups(groups)
    ensures r.Ok? ==> Valid(r.value)
  {
    if |groups| == 0 then Ok(css)
    else
      match AddUtilities(css, groups[..|groups| - 1], breakpoints)
      case Err(e) => Err(e)
      case Ok(acc) =>
        var (name, tokens) := groups[|groups| - 1];
        TokensRecordValid(tokens, breakpoints.keys);
        match TypographyUtility("typography-" + name, TokensRecord(tokens, breakpoints.keys), breakpoints)
        case Err(e) => Err(e)
        case Ok(utility) => Ok(Assign(acc, MapValues(utility, (rule: Record<Prop>) => UtilityRule(rule))))
  }

  /** The object the format passes to PostCSS, or the error a group throws. */
  function TailwindCss(all: seq<Token>, kebab: string -> string, breakpoints: Option<Record<string>>)
      : Result<Record<TopEntry>, UtilityError>
    requires forall t :: t in all ==> ValidToken(t)
    requires breakpoints.Some? ==> Valid(breakpoints.value)
  {
    var groups := GroupBy(TypographyTokens(all), GroupName);
    GroupsValid(all);
    AddUtilities(Header(all, kebab), groups, breakpoints.GetOr(Empty()))
  }

  /** The `forEach` of build.ts:72 filling `:root`. */
  method CollectRootVariables(plain: seq<Token>, kebab: string -> string) returns (root: Record<Value>)
    ensures root == RootVariables(plain, kebab)
  {
    root := Empty();
    for i := 0 to |plain|
      invariant root == RootVariables(plain[..i], kebab)
    {
      assert plain[..i + 1][..i] == plain[..i];
      root := Set(root, VariableName(plain[i], kebab), ValueOf(plain[i]));
    }
    assert plain[..|plain|] == plain;
  }

  /** The `forEach` of build.ts:97 filling `tokensRecord`. */
  method CollectTokensRecord(group: seq<Token>, labels: seq<string>) returns (tokensRecord: Record<Option<Token>>)
    ensures tokensRecord == TokensRecord(group, labels)
  {
    tokensRecord := Empty();
    for j := 0 to |labels|
      invariant tokensRecord == TokensRecord(group, labels[..j])
    {
      assert labels[..j + 1][..j] == labels[..j];
      var bp := labels[j];
      tokensRecord := Set(tokensRecord, bp, Find(group, AtBreakpoint(bp)));
    }
    assert labels[..|labels|] == labels;
  }

  /** The format of build.ts:62-101 up to the PostCSS call. */
  method TailwindFormat(all: seq<Token>, kebab: string -> string, breakpoints: Option<Record<string>>)
      returns (res: Result<Record<TopEntry>, UtilityError>)
    requires forall t :: t in all ==> ValidToken(t)
    requires breakpoints.Some? ==> Valid(breakpoints.value)
    ensures res == TailwindCss(all, kebab, breakpoints)
  {
    var composite := Composite(all);
    var plain := Plain(all);
    var css: Record<TopEntry> := Single(ImportKey, ImportFlag);
    var root := CollectRootVariables(plain, kebab);
    var variables: Record<TopEntry> := if |plain| > 0 then Single(RootKey, Variables(root)) else Empty();
    css := Assign(css, variables);
    var borders: Record<TopEntry> := Empty();
    css := Assign(css, borders);
    var shadows: Record<TopEntry> := Empty();
    css := Assign(css, shadows);
    assert css == Header(all, kebab);
    var typographyTokens := GroupGet(GroupBy(composite, TypeOf), Some("typography")).GetOr([]);
    var table := breakpoints.GetOr(Empty());
    var groups := GroupBy(typographyTokens, GroupName);
    GroupsValid(all);
    res := AddGroupUtilities(css, groups, table);
  }

  /** The loop of build.ts:94-101: one utility per group, assigned onto `cssInJs`, until one throws. */
  method AddGroupUtilities(header: Record<TopEntry>, groups: seq<(string, seq<Token>)>, breakpoints: Record<string>)
      returns (res: Result<Record<TopEntry>, UtilityError>)
    requires Valid(header) && Valid(breakpoints) && ValidGroups(groups)
    ensures res == AddUtilities(header, groups, breakpoints)
  {
    ValidGroupsPrefixes(groups);
    var css := header;
    for g := 0 to |groups|
      invariant Valid(css)
      invariant AddUtilities(header, groups[..g], breakpoints) == Ok(css)
    {
      var (name, tokens) := groups[g];
      var tokensRecord := CollectTokensRecord(tokens, breakpoints.keys);
      TokensRecordValid(tokens, breakpoints.keys);
      var utility := CreateTypographyUtility("typography-" + name, tokensRecord, breakpoints);
      AddUtilitiesNext(header, groups, g, breakpoints, css);
      if utility.Err? {
        ErrorStops(header, groups, g + 1, breakpoints);
        return Err(utility.error);
      }
      css := Assign(css, MapValues(utility.value, (rule: Record<Prop>) => UtilityRule(rule)));
    }
    assert groups[..|groups|] == groups;
    return Ok(css);
  }

  /** Every prefix of the groups is as well formed as all of them. */
  lemma ValidGroupsPrefixes(groups: seq<(string, seq<Token>)>)
    requires ValidGroups(groups)
    ensures forall n :: 0 <= n <= |groups| ==> ValidGroups(groups[..n])
  {
    forall n | 0 <= n <= |groups| ensures ValidGroups(groups[..n]) {
      ValidGroupsPrefix(groups, n);
    }
  }

  /** One turn of the loop: the next group's utility is assigned, or its error ends the loop. */
  lemma AddUtilitiesNext(css: Record<TopEntry>, groups: seq<(string, seq<Token>)>, g: nat,
                         breakpoints: Record<string>, acc: Record<TopEntry>)
    requires Valid(css) && Valid(breakpoints) && ValidGroups(groups) && g < |groups|
    requires ValidGroups(groups[..g]) && ValidGroups(groups[..g + 1])
    requires AddUtilities(css, groups[..g], breakpoints) == Ok(acc)
    ensures ValidTokens(TokensRecord(groups[g].1, breakpoints.keys))
    ensures var (name, tokens) := groups[g];
      var u := TypographyUtility("typography-" + name, TokensRecord(tokens, breakpoints.keys), breakpoints);
      AddUtilities(css, groups[..g + 1], breakpoints) ==
        if u.Err? then Err(u.error) else Ok(Assign(acc, MapValues(u.value, (rule: Record<Prop>) => UtilityRule(rule))))
  {
    TokensRecordValid(groups[g].1, breakpoints.keys);
    var prefix := groups[..g + 1];
    assert prefix[..g] == groups[..g];
    assert prefix[g] == groups[g];
  }

  /** Once a group throws, the format throws that error whatever groups follow. */
  lemma {:induction false} ErrorStops(css: Record<TopEntry>, groups: seq<(string, seq<Token>)>, n: nat,
                                      breakpoints: Record<string>)
    requires Valid(css) && Valid(breakpoints) && ValidGroups(groups)
    requires n <= |groups| && AddUtilities(css, groups[..n], breakpoints).Err?
    ensures AddUtilities(css, groups, breakpoints) == AddUtilities(css, groups[..n], breakpoints)
  {
    if n < |groups| {
      var init := groups[..|groups| - 1];
      assert init[..n] == groups[..n];
      ErrorStops(css, init, n, breakpoints);
    } else {
      assert groups[..n] == groups;
    }
  }

  /** The record only holds tokens of the group, so it is as well formed as they are. */
  lemma {:induction false} TokensRecordValid(group: seq<Token>, labels: seq<string>)
    requires forall t :: t in group ==> ValidToken(t)
    ensures ValidTokens(TokensRecord(group, labels))
  {
    if |labels| > 0 {
      TokensRecordValid(group, labels[..|labels| - 1]);
    }
  }

  /** The typography groups hold only tokens of the input. */
  lemma GroupsValid(all: seq<Token>)
    requires forall t :: t in all ==> ValidToken(t)
    ensures ValidGroups(GroupBy(TypographyTokens(all), GroupName))
  {
    var composite := Composite(all);
    GroupGetWithKey(composite, TypeOf, Some("typography"));
    WithKeyMembers(composite, TypeOf, Some("typography"));
    var typography := TypographyTokens(all);
    assert forall t :: t in typography ==> t in all;
    var groups := GroupBy(typography, GroupName);
    GroupByGroups(typography, GroupName);
    forall i, t | 0 <= i < |groups| && t in groups[i].1 ensures ValidToken(t) {
      WithKeyMembers(typography, GroupName, groups[i].0);
    }
  }

  /**
   * build.ts:63-66: border, shadow and typography tokens go to the composite
   * side and every other token (including one without a type) to the plain
   * side; each token lands on exactly one side.
   */
  lemma {:induction false} PartitionSides(all: seq<Token>)
    ensures forall t :: t in all ==> (t in Composite(all) <==> IsComposite(t)) && (t in Plain(all) <==> !IsComposite(t))
    ensures |Composite(all)| + |Plain(all)| == |all|
  {
    if |all| > 0 {
      PartitionSides(all[..|all| - 1]);
    }
  }

  /** The names of the custom properties of `plain`, in order. */
  function VariableNames(plain: seq<Token>, kebab: string -> string): (ns: seq<string>)
    ensures |ns| == |plain|
  {
    seq(|plain|, i requires 0 <= i < |plain| => VariableName(plain[i], kebab))
  }

  /** With distinct names, `:root` lists one key per plain token, in token order. */
  lemma {:induction false} RootVariablesOrder(plain: seq<Token>, kebab: string -> string)
    requires Distinct(VariableNames(plain, kebab))
    ensures RootVariables(plain, kebab).keys == VariableNames(plain, kebab)
  {
    if |plain| > 0 {
      var n := |plain| - 1;
      var init := plain[..n];
      var names := VariableNames(plain, kebab);
      assert VariableNames(init, kebab) == names[..n];
      RootVariablesOrder(init, kebab);
      var prev := RootVariables(init, kebab);
      assert names[n] !in names[..n];
      assert names[n] !in prev.vals;
      assert names == names[..n] + [names[n]];
    }
  }

  /** With distinct names, each plain token's variable holds `$value ?? value`. */
  lemma {:induction false} RootVariablesValue(plain: seq<Token>, kebab: string -> string, i: nat)
    requires Distinct(VariableNames(plain, kebab)) && i < |plain|
    ensures Get(RootVariables(plain, kebab), VariableName(plain[i], kebab)) == Some(ValueOf(plain[i]))
  {
    var n := |plain| - 1;
    var names := VariableNames(plain, kebab);
    if i < n {
      var init := plain[..n];
      assert VariableNames(init, kebab) == names[..n];
      RootVariablesValue(init, kebab, i);
      assert names[i] != names[n];
    }
  }

  /**
   * build.ts:71-72: when the kebab-cased names are distinct, `:root` has one
   * entry per plain token, in token order, keyed `"--" + kebab(name)` and
   * holding `$value ?? value`.
   */
  lemma RootVariablesDistinct(plain: seq<Token>, kebab: string -> string)
    requires Distinct(VariableNames(plain, kebab))
    ensures RootVariables(plain, kebab).keys == VariableNames(plain, kebab)
    ensures forall i :: 0 <= i < |plain| ==>
      Get(RootVariables(plain, kebab), VariableName(plain[i], kebab)) == Some(ValueOf(plain[i]))
  {
    RootVariablesOrder(plain, kebab);
    forall i | 0 <= i < |plain|
      ensures Get(RootVariables(plain, kebab), VariableName(plain[i], kebab)) == Some(ValueOf(plain[i]))
    {
      RootVariablesValue(plain, kebab, i);
    }
  }

  /** Whatever the names, `:root` has no key that is not some plain token's variable name. */
  lemma {:induction false} RootVariablesKeys(plain: seq<Token>, kebab: string -> string)
    ensures forall k :: k in RootVariables(plain, kebab).vals <==> k in VariableNames(plain, kebab)
  {
    if |plain| > 0 {
      var init := plain[..|plain| - 1];
      RootVariablesKeys(init, kebab);
      assert VariableNames(plain, kebab) == VariableNames(init, kebab) + [VariableName(plain[|plain| - 1], kebab)];
    }
  }

  /**
   * build.ts:68-88: the object starts with the `@import` flag; `:root`
   * follows exactly when there is a plain token; the empty border and
   * shadow objects add nothing.
   */
  lemma HeaderLayout(all: seq<Token>, kebab: string -> string)
    ensures Header(all, kebab).keys == [ImportKey] + (if |Plain(all)| > 0 then [RootKey] else [])
    ensures Get(Header(all, kebab), ImportKey) == Some(ImportFlag)
    ensures Get(Header(all, kebab), RootKey) ==
      if |Plain(all)| > 0 then Some(Variables(RootVariables(Plain(all), kebab))) else None
  {
    var head := Single(ImportKey, ImportFlag);
    AssignSmall(head, RootKey, Variables(RootVariables(Plain(all), kebab)));
    var withVariables := Assign(head, VariablesObject(Plain(all), kebab));
    AssignSmall(withVariables, RootKey, ImportFlag);
    AssignSmall(Assign(withVariables, Empty()), RootKey, ImportFlag);
    assert ImportKey != RootKey by { assert ImportKey[0] != RootKey[0]; }
  }

  lemma {:induction false} WithKeyOfComposite(all: seq<Token>)
    ensures WithKey(Composite(all), TypeOf, Some("typography")) == Filter(all, IsTypography)
  {
    if |all| > 0 {
      var init := all[..|all| - 1];
      var x := all[|all| - 1];
      WithKeyOfComposite(init);
      var c := Composite(all);
      assert c == Composite(init) + (if IsComposite(x) then [x] else []);
      if IsComposite(x) {
        assert c[..|c| - 1] == Composite(init);
        assert IsTypography(x) <==> TypeOf(x) == Some("typography");
      } else {
        assert c == Composite(init);
        assert !IsTypography(x);
      }
    }
  }

  /**
   * build.ts:76-91: the typography list is exactly the input's tokens whose
   * `$type ?? type` is "typography", in input order.
   */
  lemma TypographyTokensAreTypography(all: seq<Token>)
    ensures TypographyTokens(all) == Filter(all, IsTypography)
  {
    var composite := Composite(all);
    GroupGetWithKey(composite, TypeOf, Some("typography"));
    WithKeyOfComposite(all);
    if Some("typography") !in Map(composite, TypeOf) {
      WithKeyNone(composite, TypeOf, Some("typography"));
    }
  }

  /**
   * build.ts:94: every typography token is in the group of its name (its
   * path without the breakpoint, joined with "-"), which holds exactly the
   * tokens of that name in input order; groups come in first-occurrence
   * order with distinct names.
   */
  lemma TypographyGroups(all: seq<Token>)
    ensures var typography := TypographyTokens(all); var groups := GroupBy(typography, GroupName);
      && GroupKeys(groups) == FirstOccurrences(Map(typography, GroupName))
      && DistinctKeys(groups)
      && (forall i :: 0 <= i < |groups| ==> groups[i].1 == WithKey(typography, GroupName, groups[i].0))
  {
    var typography := TypographyTokens(all);
    GroupByKeys(typography, GroupName);
    GroupByGroups(typography, GroupName);
  }

  /** With distinct labels, `tokensRecord` has exactly the labels as keys, in order. */
  lemma {:induction false} TokensRecordOrder(group: seq<Token>, labels: seq<string>)
    requires Distinct(labels)
    ensures TokensRecord(group, labels).keys == labels
  {
    if |labels| > 0 {
      var n := |labels| - 1;
      var init := labels[..n];
      assert labels == init + [labels[n]];
      DistinctSnoc(init, labels[n]);
      TokensRecordOrder(group, init);
      assert labels[n] !in TokensRecord(group, init).vals;
    }
  }

  /** Whatever the labels, each label holds the group's first token at it, or `undefined`. */
  lemma {:induction false} TokensRecordLookup(group: seq<Token>, labels: seq<string>, l: string)
    requires l in labels
    ensures Lookup(TokensRecord(group, labels), l) == Find(group, AtBreakpoint(l))
  {
    var n := |labels| - 1;
    if l != labels[n] {
      assert l in labels[..n];
      TokensRecordLookup(group, labels[..n], l);
    }
  }

  /**
   * build.ts:95-97: with distinct labels, `tokensRecord` has exactly the
   * labels as keys, in order, and each label holds the group's first token
   * whose `path[0]` is that label, or `undefined`.
   */
  lemma TokensRecordSpec(group: seq<Token>, labels: seq<string>)
    requires Distinct(labels)
    ensures TokensRecord(group, labels).keys == labels
    ensures forall l :: l in labels ==> Lookup(TokensRecord(group, labels), l) == Find(group, AtBreakpoint(l))
  {
    TokensRecordOrder(group, labels);
    forall l | l in labels ensures Lookup(TokensRecord(group, labels), l) == Find(group, AtBreakpoint(l)) {
      TokensRecordLookup(group, labels, l);
    }
  }

  /** The first token of `group` at `bp`: none before it is at `bp`. */
  lemma FirstAtBreakpoint(group: seq<Token>, bp: string)
    ensures var found := Find(group, AtBreakpoint(bp));
      && (found.None? <==> forall i :: 0 <= i < |group| ==> Breakpoint(group[i]) != Some(bp))
      && (found.Some? ==> found.value in group && Breakpoint(found.value) == Some(bp))
      && (found.Some? ==> exists i :: 0 <= i < |group| && group[i] == found.value &&
                                      forall j :: 0 <= j < i ==> Breakpoint(group[j]) != Some(bp))
  {
    var p := AtBreakpoint(bp);
    assert forall t :: p(t) == (Breakpoint(t) == Some(bp));
  }

  /** Whether the utility of one group is built without throwing. */
  ghost predicate GroupBuilds(group: (string, seq<Token>), breakpoints: Record<string>) {
    && Valid(breakpoints)
    && (forall t :: t in group.1 ==> ValidToken(t))
    && (TokensRecordValid(group.1, breakpoints.keys);
        TypographyUtility("typography-" + group.0, TokensRecord(group.1, breakpoints.keys), breakpoints).Ok?)
  }

  /** Whether every group's utility is built without throwing. */
  ghost predicate AllGroupsBuild(groups: seq<(string, seq<Token>)>, breakpoints: Record<string>) {
    forall i :: 0 <= i < |groups| ==> GroupBuilds(groups[i], breakpoints)
  }

  /** build.ts:94-101: the loop throws exactly when some group throws. */
  lemma {:induction false} AddUtilitiesOk(css: Record<TopEntry>, groups: seq<(string, seq<Token>)>,
                                          breakpoints: Record<string>)
    requires Valid(css) && Valid(breakpoints) && ValidGroups(groups)
    ensures AddUtilities(css, groups, breakpoints).Ok? <==> AllGroupsBuild(groups, breakpoints)
  {
    if |groups| > 0 {
      var n := |groups| - 1;
      var init := groups[..n];
      AllBuildSplit(groups, init, breakpoints);
      AddUtilitiesOk(css, init, breakpoints);
      AddUtilitiesStep(css, groups, breakpoints);
    }
  }

  /** Every group builds exactly when all but the last do and the last does. */
  lemma AllBuildSplit(groups: seq<(string, seq<Token>)>, init: seq<(string, seq<Token>)>, breakpoints: Record<string>)
    requires ValidGroups(groups) && |groups| > 0 && init == groups[..|groups| - 1]
    ensures ValidGroups(init)
    ensures AllGroupsBuild(groups, breakpoints) <==>
      AllGroupsBuild(init, breakpoints) && GroupBuilds(groups[|groups| - 1], breakpoints)
  {
    ValidGroupsPrefix(groups, |groups| - 1);
    AllSnoc(groups, init, g => GroupBuilds(g, breakpoints));
  }

  /** The groups before `n` are as well formed as all of them. */
  lemma ValidGroupsPrefix(groups: seq<(string, seq<Token>)>, n: nat)
    requires ValidGroups(groups) && n <= |groups|
    ensures ValidGroups(groups[..n])
  {
    forall i, t | 0 <= i < n && t in groups[..n][i].1 ensures ValidToken(t) {
      assert groups[..n][i] == groups[i];
    }
  }

  /** One more group: the loop still succeeds exactly when that group builds too. */
  lemma AddUtilitiesStep(css: Record<TopEntry>, groups: seq<(string, seq<Token>)>, breakpoints: Record<string>)
    requires Valid(css) && Valid(breakpoints) && ValidGroups(groups) && |groups| > 0
    ensures AddUtilities(css, groups, breakpoints).Ok? <==>
      AddUtilities(css, groups[..|groups| - 1], breakpoints).Ok? && GroupBuilds(groups[|groups| - 1], breakpoints)
  {
    var (name, tokens) := groups[|groups| - 1];
    TokensRecordValid(tokens, breakpoints.keys);
  }

  /** The keys the utility rules of `groups` get, in order. */
  function RuleKeys(groups: seq<(string, seq<Token>)>): (ks: seq<string>)
    ensures |ks| == |groups|
  {
    seq(|groups|, i requires 0 <= i < |groups| => AtRule("typography-" + groups[i].0))
  }

  /** Assigning a one-rule utility object appends or overwrites its one key. */
  lemma AssignRule(acc: Record<TopEntry>, utility: Record<Record<Prop>>, key: string)
    requires Valid(acc) && Valid(utility) && utility.keys == [key]
    ensures Assign(acc, MapValues(utility, (rule: Record<Prop>) => UtilityRule(rule))) ==
      Set(acc, key, UtilityRule(utility.vals[key]))
  {
    var m := MapValues(utility, (rule: Record<Prop>) => UtilityRule(rule));
    assert m == Single(key, UtilityRule(utility.vals[key]));
    AssignSmall(acc, key, UtilityRule(utility.vals[key]));
  }

  /**
   * build.ts:94-101: when the loop does not throw and the group names are
   * distinct and not already keys, it appends one `@utility
   * typography-<name>` key per group, in group order, keeping what was there.
   */
  lemma {:induction false} AddUtilitiesKeys(css: Record<TopEntry>, groups: seq<(string, seq<Token>)>,
                                            breakpoints: Record<string>)
    requires Valid(css) && Valid(breakpoints) && ValidGroups(groups)
    requires AddUtilities(css, groups, breakpoints).Ok?
    requires Distinct(RuleKeys(groups)) && forall k :: k in RuleKeys(groups) ==> k !in css.vals
    ensures AddUtilities(css, groups, breakpoints).value.keys == css.keys + RuleKeys(groups)
    ensures forall k :: k in css.vals ==> Get(AddUtilities(css, groups, breakpoints).value, k) == Get(css, k)
  {
    if |groups| > 0 {
      var init := groups[..|groups| - 1];
      var key := AtRule("typography-" + groups[|groups| - 1].0);
      RuleKeysSnoc(groups);
      DistinctSnoc(RuleKeys(init), key);
      LastRule(css, groups, breakpoints);
      AddUtilitiesKeys(css, init, breakpoints);
      var r := AddUtilities(css, groups, breakpoints).value;
      AppendFreshKey(css, AddUtilities(css, init, breakpoints).value, RuleKeys(init), key, r.vals[key]);
    }
  }

  /** Dropping the last key of distinct keys leaves distinct keys without it. */
  lemma DistinctSnoc(ks: seq<string>, k: string)
    requires Distinct(ks + [k])
    ensures Distinct(ks) && k !in ks
  {
    assert forall j :: 0 <= j < |ks| ==> (ks + [k])[j] == ks[j];
    assert (ks + [k])[|ks|] == k;
  }

  /** Setting a key that is not yet there appends it and changes no other key. */
  lemma AppendFreshKey<V>(css: Record<V>, acc: Record<V>, ks: seq<string>, key: string, v: V)
    requires Valid(css) && Valid(acc)
    requires acc.keys == css.keys + ks && forall k :: k in css.vals ==> Get(acc, k) == Get(css, k)
    requires key !in css.vals && key !in ks
    ensures Set(acc, key, v).keys == css.keys + (ks + [key])
    ensures forall k :: k in css.vals ==> Get(Set(acc, key, v), k) == Get(css, k)
  {
    assert key !in acc.keys;
    assert (css.keys + ks) + [key] == css.keys + (ks + [key]);
  }

  /** The rule keys of all groups but the last, then the last one's. */
  lemma RuleKeysSnoc(groups: seq<(string, seq<Token>)>)
    requires |groups| > 0
    ensures RuleKeys(groups) == RuleKeys(groups[..|groups| - 1]) + [AtRule("typography-" + groups[|groups| - 1].0)]
  {
    assert RuleKeys(groups[..|groups| - 1]) == RuleKeys(groups)[..|groups| - 1];
  }

  /** The last group that builds sets its one rule key on what the loop built before it. */
  lemma LastRule(css: Record<TopEntry>, groups: seq<(string, seq<Token>)>, breakpoints: Record<string>)
    requires Valid(css) && Valid(breakpoints) && ValidGroups(groups) && |groups| > 0
    requires AddUtilities(css, groups, breakpoints).Ok?
    ensures ValidGroups(groups[..|groups| - 1])
    ensures AddUtilities(css, groups[..|groups| - 1], breakpoints).Ok?
    ensures var key := AtRule("typography-" + groups[|groups| - 1].0);
      var r := AddUtilities(css, groups, breakpoints).value;
      key in r.vals && r == Set(AddUtilities(css, groups[..|groups| - 1], breakpoints).value, key, r.vals[key])
  {
    var (name, tokens) := groups[|groups| - 1];
    var acc := AddUtilities(css, groups[..|groups| - 1], breakpoints).value;
    TokensRecordValid(tokens, breakpoints.keys);
    var u := TypographyUtility("typography-" + name, TokensRecord(tokens, breakpoints.keys), breakpoints);
    UtilityShape("typography-" + name, TokensRecord(tokens, breakpoints.keys), breakpoints);
    AssignRule(acc, u.value, AtRule("typography-" + name));
  }

  /** Utility keys start with "@u", so they never clash with the `@import` flag or `:root`. */
  lemma RuleKeysFresh(groups: seq<(string, seq<Token>)>)
    ensures ImportKey !in RuleKeys(groups) && RootKey !in RuleKeys(groups)
  {
    forall i | 0 <= i < |groups|
      ensures RuleKeys(groups)[i] != ImportKey && RuleKeys(groups)[i] != RootKey
    {
      var k := RuleKeys(groups)[i];
      assert k[0] == '@' && k[1] == 'u';
      assert ImportKey[1] == 'i' && RootKey[0] == ':';
    }
  }

  /** A common prefix can be cancelled. */
  lemma PrefixCancel(p: string, a: string, b: string)
    requires p + a == p + b
    ensures a == b
  {
    assert (p + a)[|p|..] == a && (p + b)[|p|..] == b;
  }

  /** Distinct group names give distinct utility keys. */
  lemma RuleKeysDistinct(groups: seq<(string, seq<Token>)>)
    requires DistinctKeys(groups)
    ensures Distinct(RuleKeys(groups))
  {
    forall i, j | 0 <= i < j < |groups| ensures RuleKeys(groups)[i] != RuleKeys(groups)[j] {
      if RuleKeys(groups)[i] == RuleKeys(groups)[j] {
        PrefixCancel("@utility ", "typography-" + groups[i].0, "typography-" + groups[j].0);
        PrefixCancel("typography-", groups[i].0, groups[j].0);
      }
    }
  }

  /** The whole format throws exactly when some typography group throws. */
  lemma TailwindCssThrows(all: seq<Token>, kebab: string -> string, breakpoints: Option<Record<string>>)
    requires forall t :: t in all ==> ValidToken(t)
    requires breakpoints.Some? ==> Valid(breakpoints.value)
    ensures ValidGroups(GroupBy(TypographyTokens(all), GroupName))
    ensures TailwindCss(all, kebab, breakpoints).Ok? <==> AllGroupsBuild(GroupBy(TypographyTokens(all), GroupName), breakpoints.GetOr(Empty()))
  {
    var groups := GroupBy(TypographyTokens(all), GroupName);
    var table := breakpoints.GetOr(Empty());
    GroupsValid(all);
    assert TailwindCss(all, kebab, breakpoints) == AddUtilities(Header(all, kebab), groups, table);
    AddUtilitiesOk(Header(all, kebab), groups, table);
  }

  /**
   * When it does not throw, the object lists the `@import` flag, then
   * `:root` when there is a plain token, then one `@utility
   * typography-<name>` rule per group in first-occurrence order.
   */
  lemma TailwindCssKeys(all: seq<Token>, kebab: string -> string, breakpoints: Option<Record<string>>)
    requires forall t :: t in all ==> ValidToken(t)
    requires breakpoints.Some? ==> Valid(breakpoints.value)
    requires TailwindCss(all, kebab, breakpoints).Ok?
    ensures TailwindCss(all, kebab, breakpoints).value.keys ==
      [ImportKey] + (if |Plain(all)| > 0 then [RootKey] else []) + RuleKeys(GroupBy(TypographyTokens(all), GroupName))
  {
    var groups := GroupBy(TypographyTokens(all), GroupName);
    var table := breakpoints.GetOr(Empty());
    var header := Header(all, kebab);
    GroupsValid(all);
    assert TailwindCss(all, kebab, breakpoints) == AddUtilities(header, groups, table);
    RulesFresh(all, kebab);
    AddUtilitiesKeys(header, groups, table);
    HeaderLayout(all, kebab);
  }

  /** The utility keys of the typography groups are distinct and none is a key of the header. */
  lemma RulesFresh(all: seq<Token>, kebab: string -> string)
    ensures var ks := RuleKeys(GroupBy(TypographyTokens(all), GroupName));
      Distinct(ks) && forall k :: k in ks ==> k !in Header(all, kebab).vals
  {
    var groups := GroupBy(TypographyTokens(all), GroupName);
    GroupByKeys(TypographyTokens(all), GroupName);
    RuleKeysDistinct(groups);
    RuleKeysFresh(groups);
    HeaderLayout(all, kebab);
    HeaderFresh(Header(all, kebab), RuleKeys(groups));
  }

  /** Keys other than the `@import` flag and `:root` are not in the header. */
  lemma HeaderFresh(header: Record<TopEntry>, ks: seq<string>)
    requires Valid(header) && forall k :: k in header.keys ==> k == ImportKey || k == RootKey
    requires ImportKey !in ks && RootKey !in ks
    ensures forall k :: k in ks ==> k !in header.vals
  {
  }
}
