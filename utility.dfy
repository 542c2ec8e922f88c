/**
 * `createTypographyUtility` of src/utils.ts (lines 8-34, copied verbatim at
 * build.ts:139-165): one `@utility <name>` rule holding the default
 * breakpoint's fields, and a `@media (min-width: <length>)` entry for each
 * later breakpoint that has a token.
 */
module Utility {
  import opened Wrappers
  import opened JsObject
  import opened Tokens

  /** An entry of the rule: a field copied from the default value, or a media query's value. */
  datatype Prop = Decl(text: string) | Nested(value: Value)

  /** The two errors the function throws. */
  datatype UtilityError = NoDefaultBreakpoint | NoDefaultTypographyToken

  function Digit(d: nat): char
    requires d < 10
  {
    ('0' as int + d) as char
  }

  /** The decimal text of an array index, the key a spread string gives its characters. */
  function DecimalText(n: nat): (s: string)
    ensures |s| >= 1
  {
    if n < 10 then [Digit(n)] else DecimalText(n / 10) + [Digit(n % 10)]
  }

  /** The first `n` characters of `s`, each under its index. */
  function SpreadChars(s: string, n: nat): (r: Record<Prop>)
    requires n <= |s|
    ensures Valid(r)
  {
    if n == 0 then Empty() else Set(SpreadChars(s, n - 1), DecimalText(n - 1), Decl([s[n - 1]]))
  }

  /** `{ ...v }`: nothing for `undefined`, the characters of a string, the fields of an object. */
  function Spread(v: Value): (r: Record<Prop>)
    requires ValidValue(v)
    ensures Valid(r)
  {
    match v
    case Undefined => Empty()
    case Text(s) => SpreadChars(s, |s|)
    case Fields(f) => MapValues(f, (text: string) => Decl(text))
  }

  /** `tokensRecord[label]`: `undefined` for a missing key and for a key holding `undefined`. */
  function Lookup(tokens: Record<Option<Token>>, bp: string): Option<Token> {
    match Get(tokens, bp)
    case Some(entry) => entry
    case None => None
  }

  /** Every token the record holds is well formed. */
  ghost predicate ValidTokens(tokens: Record<Option<Token>>) {
    forall l :: l in tokens.vals && tokens.vals[l].Some? ==> ValidToken(tokens.vals[l].value)
  }

  function AtRule(name: string): string {
    "@utility " + name
  }

  function MediaQuery(length: string): string {
    "@media (min-width: " + length + ")"
  }

  /** Every label has a length. */
  ghost predicate Labelled(labels: seq<string>, breakpoints: Record<string>) {
    forall l :: l in labels ==> l in breakpoints.vals
  }

  /** The loop of src/utils.ts:24-31 over `labels`: a media entry per label that has a token. */
  function AddMediaQueries(base: Record<Prop>, labels: seq<string>, tokens: Record<Option<Token>>,
                           breakpoints: Record<string>): (r: Record<Prop>)
    requires Valid(base) && Labelled(labels, breakpoints)
    ensures Valid(r)
  {
    if |labels| == 0 then base
    else
      var acc := AddMediaQueries(base, labels[..|labels| - 1], tokens, breakpoints);
      var bp := labels[|labels| - 1];
      match Lookup(tokens, bp)
      case None => acc
      case Some(token) => Set(acc, MediaQuery(breakpoints.vals[bp]), Nested(ValueOf(token)))
  }

  /** The result of `createTypographyUtility`, or the error it throws. */
  function TypographyUtility(name: string, tokens: Record<Option<Token>>, breakpoints: Record<string>)
      : Result<Record<Record<Prop>>, UtilityError>
    requires Valid(breakpoints) && ValidTokens(tokens)
  {
    if |breakpoints.keys| == 0 || breakpoints.keys[0] == "" then Err(NoDefaultBreakpoint)
    else match Lookup(tokens, breakpoints.keys[0])
      case None => Err(NoDefaultTypographyToken)
      case Some(token) =>
        Ok(Single(AtRule(name), AddMediaQueries(Spread(ValueOf(token)), breakpoints.keys[1..], tokens, breakpoints)))
  }

  /** `createTypographyUtility(name, tokensRecord, breakpoints)` */
  method CreateTypographyUtility(name: string, tokens: Record<Option<Token>>, breakpoints: Record<string>)
      returns (res: Result<Record<Record<Prop>>, UtilityError>)
    requires Valid(breakpoints) && ValidTokens(tokens)
    ensures res == TypographyUtility(name, tokens, breakpoints)
  {
    var labels := breakpoints.keys;
    if |labels| == 0 || labels[0] == "" {
      return Err(NoDefaultBreakpoint);
    }
    var defaultToken := Lookup(tokens, labels[0]);
    if defaultToken.None? {
      return Err(NoDefaultTypographyToken);
    }
    var atRule := AtRule(name);
    var base := Spread(ValueOf(defaultToken.value));
    var inner := base;
    var rest := labels[1..];
    for i := 0 to |rest|
      invariant Labelled(rest, breakpoints)
      invariant Valid(inner)
      invariant inner == AddMediaQueries(base, rest[..i], tokens, breakpoints)
    {
      assert rest[..i + 1][..i] == rest[..i];
      var token := Lookup(tokens, rest[i]);
      if token.None? {
        continue;
      }
      var mediaQuery := MediaQuery(breakpoints.vals[rest[i]]);
      inner := Set(inner, mediaQuery, Nested(ValueOf(token.value)));
    }
    assert rest[..|rest|] == rest;
    return Ok(Single(atRule, inner));
  }

  /** The labels that have a token, in order. */
  function Served(labels: seq<string>, tokens: Record<Option<Token>>): (s: seq<string>)
    ensures |s| <= |labels|
    ensures forall l :: l in s <==> l in labels && Lookup(tokens, l).Some?
  {
    if |labels| == 0 then []
    else
      var init := Served(labels[..|labels| - 1], tokens);
      var bp := labels[|labels| - 1];
      assert forall l :: l in labels <==> l in labels[..|labels| - 1] || l == bp;
      if Lookup(tokens, bp).Some? then init + [bp] else init
  }

  /** The media keys the loop writes, in order. */
  function MediaKeys(labels: seq<string>, tokens: Record<Option<Token>>, breakpoints: Record<string>): (ks: seq<string>)
    requires Labelled(labels, breakpoints)
    ensures |ks| == |Served(labels, tokens)|
  {
    var served := Served(labels, tokens);
    seq(|served|, i requires 0 <= i < |served| => MediaQuery(breakpoints.vals[served[i]]))
  }

  lemma MediaKeysSnoc(labels: seq<string>, tokens: Record<Option<Token>>, breakpoints: Record<string>)
    requires |labels| > 0 && Labelled(labels, breakpoints)
    ensures var init := labels[..|labels| - 1]; var bp := labels[|labels| - 1];
      MediaKeys(labels, tokens, breakpoints) ==
        MediaKeys(init, tokens, breakpoints)
        + (if Lookup(tokens, bp).Some? then [MediaQuery(breakpoints.vals[bp])] else [])
  {
  }

  /** Two media queries are equal only for equal lengths. */
  lemma MediaQueryInjective(a: string, b: string)
    requires MediaQuery(a) == MediaQuery(b)
    ensures a == b
  {
    var prefix := "@media (min-width: ";
    assert MediaQuery(a)[|prefix|..|prefix| + |a|] == a;
    assert MediaQuery(b)[|prefix|..|prefix| + |b|] == b;
  }

  /** The loop's keys are the base keys and the media keys of the labels that have a token. */
  lemma {:induction false} MediaQueriesKeys(base: Record<Prop>, labels: seq<string>, tokens: Record<Option<Token>>,
                                            breakpoints: Record<string>)
    requires Valid(base) && Labelled(labels, breakpoints)
    ensures forall k :: k in AddMediaQueries(base, labels, tokens, breakpoints).vals <==>
      k in base.vals || k in MediaKeys(labels, tokens, breakpoints)
  {
    if |labels| > 0 {
      MediaQueriesKeys(base, labels[..|labels| - 1], tokens, breakpoints);
      MediaKeysSnoc(labels, tokens, breakpoints);
    }
  }

  /** Dropping the last label keeps the media keys distinct, and the last label's key is not among them. */
  lemma MediaKeysInit(labels: seq<string>, tokens: Record<Option<Token>>, breakpoints: Record<string>)
    requires |labels| > 0 && Labelled(labels, breakpoints)
    requires Distinct(MediaKeys(labels, tokens, breakpoints))
    ensures var init := labels[..|labels| - 1]; var bp := labels[|labels| - 1];
      var ks := MediaKeys(init, tokens, breakpoints);
      && Distinct(ks)
      && (forall k :: k in ks ==> k in MediaKeys(labels, tokens, breakpoints))
      && (Lookup(tokens, bp).Some? ==> MediaQuery(breakpoints.vals[bp]) !in ks)
  {
    var init := labels[..|labels| - 1];
    var bp := labels[|labels| - 1];
    MediaKeysSnoc(labels, tokens, breakpoints);
    var all := MediaKeys(labels, tokens, breakpoints);
    var ks := MediaKeys(init, tokens, breakpoints);
    assert forall i :: 0 <= i < |ks| ==> all[i] == ks[i];
    if Lookup(tokens, bp).Some? {
      var mk := MediaQuery(breakpoints.vals[bp]);
      assert all[|ks|] == mk;
    }
  }

  /**
   * When the media keys are distinct and none is a base key, the loop
   * appends exactly the media keys, in breakpoint order, after the base keys
   * and leaves every base field as it was.
   */
  lemma {:induction false} MediaQueriesLayout(base: Record<Prop>, labels: seq<string>, tokens: Record<Option<Token>>,
                                              breakpoints: Record<string>)
    requires Valid(base) && Labelled(labels, breakpoints)
    requires Distinct(MediaKeys(labels, tokens, breakpoints))
    requires forall k :: k in MediaKeys(labels, tokens, breakpoints) ==> k !in base.vals
    ensures AddMediaQueries(base, labels, tokens, breakpoints).keys == base.keys + MediaKeys(labels, tokens, breakpoints)
    ensures forall k :: k in base.vals ==> Get(AddMediaQueries(base, labels, tokens, breakpoints), k) == Get(base, k)
  {
    if |labels| > 0 {
      var init := labels[..|labels| - 1];
      MediaKeysSnoc(labels, tokens, breakpoints);
      MediaKeysInit(labels, tokens, breakpoints);
      MediaQueriesLayout(base, init, tokens, breakpoints);
      MediaQueriesKeys(base, init, tokens, breakpoints);
    }
  }

  /**
   * With distinct media keys none of which is a base key, each bp that
   * has a token finds that token's value under its media key.
   */
  lemma {:induction false} MediaQueryValue(base: Record<Prop>, labels: seq<string>, tokens: Record<Option<Token>>,
                                           breakpoints: Record<string>, j: nat)
    requires Valid(base) && Labelled(labels, breakpoints)
    requires Distinct(MediaKeys(labels, tokens, breakpoints))
    requires j < |labels| && Lookup(tokens, labels[j]).Some?
    ensures Get(AddMediaQueries(base, labels, tokens, breakpoints), MediaQuery(breakpoints.vals[labels[j]])) ==
      Some(Nested(ValueOf(Lookup(tokens, labels[j]).value)))
  {
    var init := labels[..|labels| - 1];
    var bp := labels[|labels| - 1];
    if j < |labels| - 1 {
      MediaKeysInit(labels, tokens, breakpoints);
      assert init[j] == labels[j];
      MediaQueryValue(base, init, tokens, breakpoints, j);
      if Lookup(tokens, bp).Some? {
        var ks := MediaKeys(init, tokens, breakpoints);
        assert labels[j] in Served(init, tokens);
        var s :| 0 <= s < |Served(init, tokens)| && Served(init, tokens)[s] == labels[j];
        assert ks[s] == MediaQuery(breakpoints.vals[labels[j]]);
      }
    }
  }

  /** Distinct labels with distinct lengths give distinct media keys. */
  lemma {:induction false} DistinctLengths(labels: seq<string>, tokens: Record<Option<Token>>, breakpoints: Record<string>)
    requires Labelled(labels, breakpoints) && Distinct(labels)
    requires forall i, j :: 0 <= i < j < |labels| ==> breakpoints.vals[labels[i]] != breakpoints.vals[labels[j]]
    ensures Distinct(MediaKeys(labels, tokens, breakpoints))
    ensures Distinct(Served(labels, tokens))
  {
    if |labels| > 0 {
      var init := labels[..|labels| - 1];
      var bp := labels[|labels| - 1];
      DistinctLengths(init, tokens, breakpoints);
      MediaKeysSnoc(labels, tokens, breakpoints);
      if Lookup(tokens, bp).Some? {
        var ks := MediaKeys(init, tokens, breakpoints);
        var mk := MediaQuery(breakpoints.vals[bp]);
        forall i | 0 <= i < |ks| ensures ks[i] != mk {
          var l := Served(init, tokens)[i];
          assert l in init;
          var p :| 0 <= p < |init| && init[p] == l;
          assert labels[p] == l;
          if ks[i] == mk {
            MediaQueryInjective(breakpoints.vals[l], breakpoints.vals[bp]);
          }
        }
        assert bp !in init;
      }
    }
  }

  /**
   * src/utils.ts:13-17: an empty mapping, or a first bp that is the
   * empty string, throws "No default breakpoint"; otherwise a first bp
   * without a token throws "No default typography token"; otherwise the
   * call succeeds.
   */
  lemma UtilityErrors(name: string, tokens: Record<Option<Token>>, breakpoints: Record<string>)
    requires Valid(breakpoints) && ValidTokens(tokens)
    ensures TypographyUtility(name, tokens, breakpoints) == Err(NoDefaultBreakpoint) <==>
      |breakpoints.keys| == 0 || breakpoints.keys[0] == ""
    ensures TypographyUtility(name, tokens, breakpoints) == Err(NoDefaultTypographyToken) <==>
      |breakpoints.keys| > 0 && breakpoints.keys[0] != "" && Lookup(tokens, breakpoints.keys[0]).None?
    ensures TypographyUtility(name, tokens, breakpoints).Ok? <==>
      |breakpoints.keys| > 0 && breakpoints.keys[0] != "" && Lookup(tokens, breakpoints.keys[0]).Some?
  {
  }

  /**
   * src/utils.ts:21-31: on success the result has the single key
   * `"@utility " + name`; its entries are the default token's fields, then
   * a media key for each later breakpoint that has a token (and only
   * those), each holding that token's value.
   */
  lemma UtilityShape(name: string, tokens: Record<Option<Token>>, breakpoints: Record<string>)
    requires Valid(breakpoints) && ValidTokens(tokens)
    requires TypographyUtility(name, tokens, breakpoints).Ok?
    ensures var r := TypographyUtility(name, tokens, breakpoints).value;
      var rest := breakpoints.keys[1..];
      var base := Spread(ValueOf(Lookup(tokens, breakpoints.keys[0]).value));
      && r.keys == [AtRule(name)]
      && r.vals[AtRule(name)] == AddMediaQueries(base, rest, tokens, breakpoints)
      && (forall k :: k in r.vals[AtRule(name)].vals <==> k in base.vals || k in MediaKeys(rest, tokens, breakpoints))
  {
    var rest := breakpoints.keys[1..];
    var base := Spread(ValueOf(Lookup(tokens, breakpoints.keys[0]).value));
    assert Labelled(rest, breakpoints);
    MediaQueriesKeys(base, rest, tokens, breakpoints);
  }

  /**
   * With distinct labels and lengths, and no field of the default value
   * named like a media query: the rule lists the default fields, unchanged,
   * and then one media key per later breakpoint that has a token, in
   * declared order, so the media-key count is the number of such
   * breakpoints; each holds its token's value.
   */
  lemma UtilityLayout(name: string, tokens: Record<Option<Token>>, breakpoints: Record<string>)
    requires Valid(breakpoints) && ValidTokens(tokens)
    requires TypographyUtility(name, tokens, breakpoints).Ok?
    requires forall i, j :: 1 <= i < j < |breakpoints.keys| ==>
      breakpoints.vals[breakpoints.keys[i]] != breakpoints.vals[breakpoints.keys[j]]
    requires var base := Spread(ValueOf(Lookup(tokens, breakpoints.keys[0]).value));
      forall k :: k in base.vals ==> k !in MediaKeys(breakpoints.keys[1..], tokens, breakpoints)
    ensures var inner := TypographyUtility(name, tokens, breakpoints).value.vals[AtRule(name)];
      var rest := breakpoints.keys[1..];
      var base := Spread(ValueOf(Lookup(tokens, breakpoints.keys[0]).value));
      && inner.keys == base.keys + MediaKeys(rest, tokens, breakpoints)
      && |inner.keys| == |base.keys| + |Served(rest, tokens)|
      && (forall k :: k in base.vals ==> Get(inner, k) == Get(base, k))
      && (forall j :: 1 <= j < |breakpoints.keys| && Lookup(tokens, breakpoints.keys[j]).Some? ==>
            Get(inner, MediaQuery(breakpoints.vals[breakpoints.keys[j]])) ==
              Some(Nested(ValueOf(Lookup(tokens, breakpoints.keys[j]).value))))
  {
    var rest := breakpoints.keys[1..];
    var base := Spread(ValueOf(Lookup(tokens, breakpoints.keys[0]).value));
    assert Labelled(rest, breakpoints);
    assert Distinct(rest);
    DistinctLengths(rest, tokens, breakpoints);
    MediaQueriesLayout(base, rest, tokens, breakpoints);
    forall j | 1 <= j < |breakpoints.keys| && Lookup(tokens, breakpoints.keys[j]).Some?
      ensures Get(AddMediaQueries(base, rest, tokens, breakpoints), MediaQuery(breakpoints.vals[breakpoints.keys[j]])) ==
              Some(Nested(ValueOf(Lookup(tokens, breakpoints.keys[j]).value)))
    {
      assert rest[j - 1] == breakpoints.keys[j];
      MediaQueryValue(base, rest, tokens, breakpoints, j - 1);
    }
  }

  /**
   * src/utils.ts:24: the first breakpoint is never looped over, so its
   * media query appears only if a later breakpoint has the same length (or
   * the default value has a field of that name).
   */
  lemma FirstBreakpointNoMedia(name: string, tokens: Record<Option<Token>>, breakpoints: Record<string>)
    requires Valid(breakpoints) && ValidTokens(tokens)
    requires TypographyUtility(name, tokens, breakpoints).Ok?
    requires forall j :: 1 <= j < |breakpoints.keys| ==>
      breakpoints.vals[breakpoints.keys[j]] != breakpoints.vals[breakpoints.keys[0]]
    requires MediaQuery(breakpoints.vals[breakpoints.keys[0]]) !in Spread(ValueOf(Lookup(tokens, breakpoints.keys[0]).value)).vals
    ensures MediaQuery(breakpoints.vals[breakpoints.keys[0]]) !in
      TypographyUtility(name, tokens, breakpoints).value.vals[AtRule(name)].vals
  {
    var rest := breakpoints.keys[1..];
    var base := Spread(ValueOf(Lookup(tokens, breakpoints.keys[0]).value));
    var first := MediaQuery(breakpoints.vals[breakpoints.keys[0]]);
    assert Labelled(rest, breakpoints);
    MediaQueriesKeys(base, rest, tokens, breakpoints);
    var ks := MediaKeys(rest, tokens, breakpoints);
    if first in ks {
      var i :| 0 <= i < |ks| && ks[i] == first;
      var l := Served(rest, tokens)[i];
      assert l in rest;
      var p :| 0 <= p < |rest| && rest[p] == l;
      assert breakpoints.keys[p + 1] == l;
      MediaQueryInjective(breakpoints.vals[l], breakpoints.vals[breakpoints.keys[0]]);
    }
  }

  /**
   * Three breakpoints (say mobile, tablet, desktop) and tokens for the first
   * and the last only: the rule holds the first token's fields and a single
   * media entry, for the last breakpoint's length; the middle one adds
   * nothing.
   */
  lemma MobileAndDesktopOnly(name: string, a: string, b: string, c: string, la: string, lb: string, lc: string,
                             ta: Token, tc: Token)
    requires a != "" && a != b && b != c && a != c
    requires ValidToken(ta) && ValidToken(tc)
    ensures var breakpoints := Record([a, b, c], map[a := la, b := lb, c := lc]);
      var tokens := Record([a, b, c], map[a := Some(ta), b := None, c := Some(tc)]);
      TypographyUtility(name, tokens, breakpoints) ==
        Ok(Single(AtRule(name), Set(Spread(ValueOf(ta)), MediaQuery(lc), Nested(ValueOf(tc)))))
  {
    var breakpoints := Record([a, b, c], map[a := la, b := lb, c := lc]);
    var tokens: Record<Option<Token>> := Record([a, b, c], map[a := Some(ta), b := None, c := Some(tc)]);
    assert Valid(breakpoints);
    var rest := breakpoints.keys[1..];
    assert rest == [b, c] && rest[..1] == [b] && [b][..0] == [];
    var base := Spread(ValueOf(ta));
    assert AddMediaQueries(base, [b], tokens, breakpoints) == base;
  }
}
