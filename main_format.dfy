/**
 * The Style Dictionary hooks of main.ts: the `tailwindcss/typography` value
 * transform that turns a typography object into declaration lines, the
 * `.name { ... }` utility text with its indentation, and the format that
 * concatenates one utility per token.
 */
module MainFormat {
  import opened Wrappers
  import opened JsString
  import opened JsObject
  import opened Tokens
  import Utility

  /** `isTypography` of main.ts:63-65: `$type` under DTCG, `type` otherwise, compared with "typography". */
  predicate IsTypographyFor(t: Token, usesDtcg: bool) {
    (if usesDtcg then t.dtcgType else t.plainType) == Some("typography")
  }

  /** The flag picks one field and never falls back to the other. */
  lemma IsTypographyForFields(t: Token)
    ensures IsTypographyFor(t, true) <==> t.dtcgType == Some("typography")
    ensures IsTypographyFor(t, false) <==> t.plainType == Some("typography")
    ensures IsTypographyFor(t, true) ==> IsTypography(t)
  {
  }

  /** A token typed only by the legacy `type` is not typography under DTCG here, though it is for src/utils.ts. */
  lemma LegacyTypeIgnored()
    ensures var t := Token("body", ["mobile", "body"], None, Some("typography"), Undefined, Undefined);
      !IsTypographyFor(t, true) && IsTypography(t)
  {
  }

  /** One line of the block: `${toKebabCase(key)}: ${value};` */
  function Declaration(entry: (string, string), kebab: string -> string): (d: string)
    ensures |d| > 0 && d[|d| - 1] == ';'
  {
    kebab(entry.0) + ": " + entry.1 + ";"
  }

  /** The declaration of every entry, in order. */
  function Declarations(entries: seq<(string, string)>, kebab: string -> string): (ds: seq<string>)
    ensures |ds| == |entries|
  {
    seq(|entries|, i requires 0 <= i < |entries| => Declaration(entries[i], kebab))
  }

  /** `reduce(reducerFunction, "")` over the first `n` entries: a newline after every entry but the array's last. */
  function ReduceDeclarations(entries: seq<(string, string)>, n: nat, kebab: string -> string): string
    requires n <= |entries|
  {
    if n == 0 then ""
    else
      var newLine := if n - 1 == |entries| - 1 then "" else "\n";
      ReduceDeclarations(entries, n - 1, kebab) + Declaration(entries[n - 1], kebab) + newLine
  }

  /** `Object.entries(value).reduce(reducerFunction, "")` */
  function DeclarationBlock(entries: seq<(string, string)>, kebab: string -> string): string {
    ReduceDeclarations(entries, |entries|, kebab)
  }

  /** Before the last entry, the fold has every declaration so far, each followed by a newline. */
  lemma {:induction false} ReducePrefix(entries: seq<(string, string)>, n: nat, kebab: string -> string)
    requires 0 < n < |entries|
    ensures ReduceDeclarations(entries, n, kebab) == Join(Declarations(entries, kebab)[..n], "\n") + "\n"
  {
    var ds := Declarations(entries, kebab);
    if n == 1 {
      assert ds[..1] == [ds[0]];
    } else {
      ReducePrefix(entries, n - 1, kebab);
      JoinSnoc(ds[..n - 1], ds[n - 1], "\n");
      assert ds[..n - 1] + [ds[n - 1]] == ds[..n];
    }
  }

  /**
   * main.ts:67-75, 21: the block is the declarations joined with "\n": one
   * per entry, in entry order, with no newline after the last.
   */
  lemma DeclarationBlockJoin(entries: seq<(string, string)>, kebab: string -> string)
    ensures DeclarationBlock(entries, kebab) == Join(Declarations(entries, kebab), "\n")
  {
    var ds := Declarations(entries, kebab);
    var m := |entries|;
    if m == 1 {
      assert DeclarationBlock(entries, kebab) == "" + ds[0] + "";
    } else if m > 1 {
      assert DeclarationBlock(entries, kebab) == ReduceDeclarations(entries, m - 1, kebab) + ds[m - 1] + "";
      ReducePrefix(entries, m - 1, kebab);
      JoinSnoc(ds[..m - 1], ds[m - 1], "\n");
      assert ds[..m - 1] + [ds[m - 1]] == ds;
    }
  }

  /** The last character of a join is the last character of its last piece. */
  lemma {:induction false} JoinEnds(parts: seq<string>, sep: string)
    requires |parts| > 0 && |parts[|parts| - 1]| > 0
    ensures var j := Join(parts, sep); |j| > 0 && j[|j| - 1] == parts[|parts| - 1][|parts[|parts| - 1]| - 1]
  {
    if |parts| > 1 {
      JoinEnds(parts[1..], sep);
    }
  }

  /**
   * Splitting the block on newlines gives back one declaration per entry
   * (when no key or value holds a newline), and a non-empty block ends in
   * `;`, not in a newline.
   */
  lemma DeclarationLines(entries: seq<(string, string)>, kebab: string -> string)
    requires |entries| > 0
    requires forall i :: 0 <= i < |entries| ==> '\n' !in Declaration(entries[i], kebab)
    ensures Split(DeclarationBlock(entries, kebab), '\n') == Declarations(entries, kebab)
    ensures var b := DeclarationBlock(entries, kebab); |b| > 0 && b[|b| - 1] == ';'
  {
    var ds := Declarations(entries, kebab);
    DeclarationBlockJoin(entries, kebab);
    SplitJoin(ds, '\n');
    JoinEnds(ds, "\n");
  }

  /** `Object.entries(v)`: the characters of a string under their indices, the fields of an object; `undefined` throws. */
  function EntriesOf(v: Value): (es: Option<seq<(string, string)>>)
    requires ValidValue(v)
    ensures v.Fields? ==> es == Some(Entries(v.fields))
  {
    match v
    case Undefined => None
    case Text(s) => Some(seq(|s|, i requires 0 <= i < |s| => (Utility.DecimalText(i), [s[i]])))
    case Fields(f) => Some(Entries(f))
  }

  /** The `tailwindcss/typography` transform of main.ts:19-22: the new value, or `None` when it throws. */
  function TypographyTransform(t: Token, kebab: string -> string): Option<string>
    requires ValidToken(t)
  {
    match EntriesOf(ValueOf(t))
    case None => None
    case Some(entries) => Some(DeclarationBlock(entries, kebab))
  }

  /** Every line prefixed with `indent` spaces. */
  function Indented(lines: seq<string>, indent: nat): (r: seq<string>)
    ensures |r| == |lines|
  {
    seq(|lines|, i requires 0 <= i < |lines| => Spaces(indent) + lines[i])
  }

  /** `addIndent(text, indent)`: split on "\n", prefix each line, join with "\n". */
  function AddIndent(text: string, indent: nat): string {
    Join(Indented(Split(text, '\n'), indent), "\n")
  }

  /** Indenting adds no newline. */
  lemma IndentedNoNewline(lines: seq<string>, indent: nat)
    requires forall i :: 0 <= i < |lines| ==> '\n' !in lines[i]
    ensures forall i :: 0 <= i < |lines| ==> '\n' !in Indented(lines, indent)[i]
  {
    forall i | 0 <= i < |lines| ensures '\n' !in Indented(lines, indent)[i] {
      assert '\n' !in Spaces(indent);
    }
  }

  /**
   * main.ts:82-87: the indented text has the same lines as the text, in
   * order, each prefixed with exactly `indent` spaces, and so the same
   * number of newlines.
   */
  lemma AddIndentLines(text: string, indent: nat)
    ensures Split(AddIndent(text, indent), '\n') == Indented(Split(text, '\n'), indent)
    ensures Count(AddIndent(text, indent), '\n') == Count(text, '\n')
    ensures forall i :: 0 <= i < |Split(text, '\n')| ==>
      Split(AddIndent(text, indent), '\n')[i] == Spaces(indent) + Split(text, '\n')[i]
  {
    var lines := Split(text, '\n');
    IndentedNoNewline(lines, indent);
    SplitJoin(Indented(lines, indent), '\n');
  }

  /** main.ts:82-87: with no indent, split and join undo each other. */
  lemma AddIndentZero(text: string)
    ensures AddIndent(text, 0) == text
  {
    var lines := Split(text, '\n');
    forall i | 0 <= i < |lines| ensures Indented(lines, 0)[i] == lines[i] {
      assert Spaces(0) == "";
    }
    assert Indented(lines, 0) == lines;
    JoinSplit(text, '\n');
  }

  /** Indenting twice is indenting once by the sum. */
  lemma AddIndentTwice(text: string, a: nat, b: nat)
    ensures AddIndent(AddIndent(text, a), b) == AddIndent(text, a + b)
  {
    var lines := Split(text, '\n');
    AddIndentLines(text, a);
    assert AddIndent(AddIndent(text, a), b) == Join(Indented(Indented(lines, a), b), "\n");
    IndentedTwice(lines, a, b);
  }

  /** Prefixing `a` spaces and then `b` spaces is prefixing `a + b` spaces. */
  lemma IndentedTwice(lines: seq<string>, a: nat, b: nat)
    ensures Indented(Indented(lines, a), b) == Indented(lines, a + b)
  {
    var once := Indented(lines, a);
    assert Spaces(b) + Spaces(a) == Spaces(a + b);
    forall i | 0 <= i < |lines| ensures Indented(once, b)[i] == Indented(lines, a + b)[i] {
      assert Spaces(b) + (Spaces(a) + lines[i]) == (Spaces(b) + Spaces(a)) + lines[i];
    }
  }

  /** The first line of a utility: `.name {` */
  function Selector(name: string): string {
    "." + name + " {"
  }

  /** `createTypographyUtility` of main.ts:77-80; `None` when the value is not a string and `split` throws. */
  function UtilityText(t: Token): Option<string> {
    match ValueOf(t)
    case Text(s) => Some(Selector(t.name) + "\n" + AddIndent(s, 4) + "\n}\n")
    case _ => None
  }

  /**
   * main.ts:79: the utility's lines are the selector, every line of the
   * value indented by four spaces, the closing brace, and the empty piece
   * after the final newline.
   */
  lemma UtilityTextLines(t: Token)
    requires ValueOf(t).Text? && '\n' !in t.name
    ensures Split(UtilityText(t).value, '\n') ==
      [Selector(t.name)] + Indented(Split(ValueOf(t).text, '\n'), 4) + ["}", ""]
  {
    var body := AddIndent(ValueOf(t).text, 4);
    assert UtilityText(t).value == Selector(t.name) + "\n" + (body + "\n" + "}\n");
    SelectorLine(t.name);
    AddIndentLines(ValueOf(t).text, 4);
    RuleLines(Selector(t.name), body);
  }

  /** A one-line head, a body, and the closing brace, each ended by a newline. */
  lemma RuleLines(head: string, body: string)
    requires Split(head, '\n') == [head]
    ensures Split(head + "\n" + (body + "\n" + "}\n"), '\n') == [head] + Split(body, '\n') + ["}", ""]
  {
    var rest := body + "\n" + "}\n";
    SplitAround(head, '\n', rest);
    SplitAround(body, '\n', "}\n");
    CloseLines();
    assert [head] + (Split(body, '\n') + ["}", ""]) == [head] + Split(body, '\n') + ["}", ""];
  }

  /** A selector for a name without newlines is one line. */
  lemma SelectorLine(name: string)
    requires '\n' !in name
    ensures Split(Selector(name), '\n') == [Selector(name)]
  {
    assert Selector(name) == "." + name + " {";
    SplitNoSeparator(Selector(name), '\n');
  }

  /** The closing brace and the final newline: two pieces, the brace and the empty string. */
  lemma CloseLines()
    ensures Split("}\n", '\n') == ["}", ""]
  {
    assert "}\n" == "}" + "\n" + "";
    SplitAround("}", '\n', "");
    SplitNoSeparator("}", '\n');
    SplitNoSeparator("", '\n');
  }

  /**
   * The transform and the utility together: a typography object becomes a
   * rule whose lines are the selector, one indented declaration per field
   * in field order, and the closing brace.
   */
  lemma TransformedUtility(t: Token, kebab: string -> string)
    requires ValidToken(t) && ValueOf(t).Fields? && |ValueOf(t).fields.keys| > 0 && '\n' !in t.name
    requires var es := Entries(ValueOf(t).fields);
      forall i :: 0 <= i < |es| ==> '\n' !in Declaration(es[i], kebab)
    ensures TypographyTransform(t, kebab).Some?
    ensures var t' := t.(dtcgValue := Text(TypographyTransform(t, kebab).value));
      Split(UtilityText(t').value, '\n') ==
        [Selector(t.name)] + Indented(Declarations(Entries(ValueOf(t).fields), kebab), 4) + ["}", ""]
  {
    var es := Entries(ValueOf(t).fields);
    DeclarationLines(es, kebab);
    var t' := t.(dtcgValue := Text(TypographyTransform(t, kebab).value));
    UtilityTextLines(t');
  }

  /** The format of main.ts:26-30: `(accumulator += utility(token)) + "\n"` over the tokens, `None` once one throws. */
  function FormatText(tokens: seq<Token>): Option<string> {
    if |tokens| == 0 then Some("")
    else
      match FormatText(tokens[..|tokens| - 1])
      case None => None
      case Some(acc) =>
        match UtilityText(tokens[|tokens| - 1])
        case None => None
        case Some(u) => Some(acc + u + "\n")
  }

  /** Each token's utility text followed by a newline. */
  function UtilityBlocks(tokens: seq<Token>): seq<string>
    requires AllText(tokens)
  {
    seq(|tokens|, i requires 0 <= i < |tokens| => UtilityText(tokens[i]).value + "\n")
  }

  /**
   * main.ts:27-29: the format succeeds exactly when every token's value is a
   * string, and then it is the concatenation, in token order, of each
   * token's utility followed by "\n".
   */
  lemma {:induction false} FormatTextSpec(tokens: seq<Token>)
    ensures FormatText(tokens).Some? <==> AllText(tokens)
    ensures FormatText(tokens).Some? ==> FormatText(tokens).value == Concat(UtilityBlocks(tokens))
  {
    if |tokens| > 0 {
      var n := |tokens| - 1;
      var init := tokens[..n];
      FormatTextSpec(init);
      AllTextSnoc(tokens);
      if FormatText(tokens).Some? {
        UtilityBlocksSnoc(tokens);
        ConcatSnoc(UtilityBlocks(init), UtilityText(tokens[n]).value + "\n");
      }
    }
  }

  /** Every token's value is a string. */
  predicate AllText(tokens: seq<Token>) {
    forall i :: 0 <= i < |tokens| ==> ValueOf(tokens[i]).Text?
  }

  lemma AllTextSnoc(tokens: seq<Token>)
    requires |tokens| > 0
    ensures AllText(tokens) <==> AllText(tokens[..|tokens| - 1]) && ValueOf(tokens[|tokens| - 1]).Text?
  {
    var init := tokens[..|tokens| - 1];
    assert forall i :: 0 <= i < |init| ==> init[i] == tokens[i];
  }

  lemma UtilityBlocksSnoc(tokens: seq<Token>)
    requires |tokens| > 0 && AllText(tokens)
    ensures AllText(tokens[..|tokens| - 1])
    ensures UtilityBlocks(tokens) ==
      UtilityBlocks(tokens[..|tokens| - 1]) + [UtilityText(tokens[|tokens| - 1]).value + "\n"]
  {
    AllTextSnoc(tokens);
    var init := tokens[..|tokens| - 1];
    assert forall i :: 0 <= i < |init| ==> UtilityBlocks(init)[i] == UtilityBlocks(tokens)[i];
  }
}
