/**
 * Rewriting of a typography value's `fontFamily` list: split on commas,
 * quote the names that contain a space, join with ", " and append the
 * generic `sans-serif`. The revisions agree on all of it except the quoting
 * callback: build.ts and src/transforms.ts trim each name first, while
 * src/typographyTransforms.ts tests the trimmed name but quotes the raw one.
 */
module FontFamily {
  import opened JsString
  import opened JsObject
  import opened JsArray

  const Fallback: string := "sans-serif"

  function Quote(s: string): string {
    "\"" + s + "\""
  }

  /** The quoting callback of build.ts and src/transforms.ts. */
  function QuoteTrimmed(entry: string): string {
    var trimmed := Trim(entry);
    if ' ' in trimmed then Quote(trimmed) else trimmed
  }

  /** The quoting callback of src/typographyTransforms.ts. */
  function QuoteUntrimmed(entry: string): string {
    if ' ' in Trim(entry) then Quote(entry) else entry
  }

  /** `entries.join(", ") + ", " + "sans-serif"` */
  function WithFallback(entries: seq<string>): string {
    Join(entries, ", ") + ", " + Fallback
  }

  /** The pieces of `s` between commas, each passed through the trimming callback. */
  function TrimmedEntries(s: string): (es: seq<string>)
    ensures |es| == |Split(s, ',')|
  {
    Map(Split(s, ','), QuoteTrimmed)
  }

  /** The pieces of `s` between commas, each passed through the untrimmed callback. */
  function UntrimmedEntries(s: string): (es: seq<string>)
    ensures |es| == |Split(s, ',')|
  {
    Map(Split(s, ','), QuoteUntrimmed)
  }

  /** The new `fontFamily` of build.ts:26-32 and src/transforms.ts:7-14. */
  function RewriteTrimmed(s: string): string {
    WithFallback(TrimmedEntries(s))
  }

  /** The new `fontFamily` of src/typographyTransforms.ts:17-23. */
  function RewriteUntrimmed(s: string): string {
    WithFallback(UntrimmedEntries(s))
  }

  /** `Object.hasOwn(value, "fontFamily") && value.fontFamily`: present and not the empty string. */
  predicate HasFontFamily(r: Record<string>) {
    "fontFamily" in r.vals && r.vals["fontFamily"] != ""
  }

  /** The font-family rewrite of build.ts and src/transforms.ts on a value object. */
  function TrimmedStep(r: Record<string>): (r': Record<string>)
    requires Valid(r)
    ensures Valid(r')
  {
    if HasFontFamily(r) then Set(r, "fontFamily", RewriteTrimmed(r.vals["fontFamily"])) else r
  }

  /** The font-family rewrite of src/typographyTransforms.ts on a value object. */
  function UntrimmedStep(r: Record<string>): (r': Record<string>)
    requires Valid(r)
    ensures Valid(r')
  {
    if HasFontFamily(r) then Set(r, "fontFamily", RewriteUntrimmed(r.vals["fontFamily"])) else r
  }

  /** The list after the first name, each name with the space that ", " puts before it. */
  function Spaced(es: seq<string>): (r: seq<string>)
    requires |es| >= 1
    ensures |r| == |es| && r[0] == es[0]
    ensures forall i :: 1 <= i < |es| ==> r[i] == " " + es[i]
  {
    [es[0]] + seq(|es| - 1, i requires 0 <= i < |es| - 1 => " " + es[i + 1])
  }

  /** Joining with ", " is joining with "," after a space in front of every name but the first. */
  lemma {:induction false} JoinCommaSpace(es: seq<string>)
    requires |es| >= 1
    ensures Join(es, ", ") == Join(Spaced(es), ",")
  {
    if |es| > 1 {
      var tail := es[1..];
      JoinCommaSpace(tail);
      var st := Spaced(tail);
      var rest := Spaced(es)[2..];
      assert st == [tail[0]] + rest;
      JoinPrependFirst(" ", tail[0], rest, ",");
      assert Spaced(es) == [es[0]] + ([" " + tail[0]] + rest);
    }
  }

  /**
   * Splitting the rewritten list on commas again gives every name (with the
   * space ", " put before it) and then the fallback: one piece more than
   * there were names, provided no name holds a comma.
   */
  lemma WithFallbackPieces(es: seq<string>)
    requires |es| >= 1 && forall i :: 0 <= i < |es| ==> ',' !in es[i]
    ensures Split(WithFallback(es), ',') == Spaced(es + [Fallback])
  {
    var all := es + [Fallback];
    JoinSnoc(es, Fallback, ", ");
    JoinCommaSpace(all);
    var sp := Spaced(all);
    assert ',' !in Fallback;
    forall i | 0 <= i < |sp| ensures ',' !in sp[i] {
      assert ',' !in all[i];
      if i > 0 { SpaceNoComma(all[i]); }
    }
    SplitJoin(sp, ',');
  }

  lemma SpaceNoComma(e: string)
    requires ',' !in e
    ensures ',' !in " " + e
  {
  }

  /**
   * build.ts:26-32: each comma-separated piece is trimmed and quoted exactly
   * when its trimmed form holds a space; the names are separated by ", " and
   * ", sans-serif" closes the list. Read back by splitting on commas and
   * trimming, the result gives one name per piece of the input, then the
   * fallback.
   */
  lemma {:induction false} RewriteTrimmedPieces(s: string)
    ensures var pieces := Split(s, ','); var back := Split(RewriteTrimmed(s), ',');
      && |back| == |pieces| + 1
      && (forall i :: 0 <= i < |pieces| ==> Trim(back[i]) == QuoteTrimmed(pieces[i]))
      && Trim(back[|pieces|]) == Fallback
  {
    var pieces := Split(s, ',');
    var es := TrimmedEntries(s);
    forall i | 0 <= i < |es| ensures ',' !in es[i] && IsTrimmed(es[i]) {
      NoCommaAfterTrim(pieces[i]);
    }
    WithFallbackPieces(es);
    var all := es + [Fallback];
    var back := Split(RewriteTrimmed(s), ',');
    assert back == Spaced(all);
    forall i | 0 <= i < |pieces| ensures Trim(back[i]) == QuoteTrimmed(pieces[i]) {
      assert all[i] == es[i];
      TrimOfTrimmed(es[i]);
      if i > 0 { SpaceTrim(es[i]); }
    }
    assert all[|es|] == Fallback;
    SpaceTrim(Fallback);
    FallbackTrimmed();
  }

  lemma FallbackTrimmed()
    ensures Trim(Fallback) == Fallback
  {
    assert !IsWhiteSpace(Fallback[0]) && !IsWhiteSpace(Fallback[|Fallback| - 1]);
    TrimOfTrimmed(Fallback);
  }

  lemma SpaceTrim(e: string)
    ensures Trim(" " + e) == Trim(e)
  {
    TrimLeadingSpace(" ", e);
  }

  /** The trimming callback quotes a name exactly when the trimmed name holds a space. */
  lemma QuoteTrimmedForm(p: string)
    ensures var q := QuoteTrimmed(p);
      && (' ' in q <==> q == Quote(Trim(p)))
      && (' ' !in q <==> q == Trim(p))
  {
    QuoteSpace(Trim(p));
  }

  /** A quoted string holds a space exactly when the string does, and is two characters longer. */
  lemma QuoteSpace(t: string)
    ensures ' ' in Quote(t) <==> ' ' in t
    ensures |Quote(t)| == |t| + 2
  {
    assert forall i :: 0 <= i < |t| ==> Quote(t)[i + 1] == t[i];
  }

  /** Trimming only removes characters, so it brings no new ones in. */
  lemma TrimKeepsOut(p: string, c: char)
    requires c !in p
    ensures c !in Trim(p)
  {
    TrimInfix(p);
  }

  /** Quoting adds only quotation marks. */
  lemma QuoteKeepsOut(t: string, c: char)
    requires c !in t && c != '"'
    ensures c !in Quote(t)
  {
    assert Quote(t) == ['"'] + t + ['"'];
  }

  /** Trimming and quoting a comma-free piece gives a comma-free, trimmed name. */
  lemma NoCommaAfterTrim(p: string)
    requires ',' !in p
    ensures ',' !in QuoteTrimmed(p) && IsTrimmed(QuoteTrimmed(p))
  {
    TrimIsTrimmed(p);
    TrimKeepsOut(p, ',');
    var t := Trim(p);
    assert QuoteTrimmed(p) == if ' ' in t then Quote(t) else t;
    if ' ' in t {
      QuoteKeepsOut(t, ',');
      QuoteIsTrimmed(t);
    }
  }

  /** A quoted string starts and ends with a quotation mark, which is not white space. */
  lemma QuoteIsTrimmed(t: string)
    ensures IsTrimmed(Quote(t))
  {
    assert Quote(t)[0] == '"' && Quote(t)[|Quote(t)| - 1] == '"';
    assert !IsWhiteSpace('"');
  }

  /** The untrimmed callback keeps a comma-free piece comma-free. */
  lemma UntrimmedNoComma(p: string)
    requires ',' !in p
    ensures ',' !in QuoteUntrimmed(p)
  {
    if ' ' in Trim(p) {
      QuoteKeepsOut(p, ',');
    }
  }

  /**
   * src/typographyTransforms.ts:17-23: a piece is quoted exactly when its
   * trimmed form holds a space, but the quotes wrap the piece as it is, and
   * unquoted pieces keep their surrounding white space. The count of names
   * is the same, and ", sans-serif" closes the list.
   */
  lemma {:induction false} RewriteUntrimmedPieces(s: string)
    ensures var pieces := Split(s, ','); var back := Split(RewriteUntrimmed(s), ',');
      && |back| == |pieces| + 1
      && back[0] == QuoteUntrimmed(pieces[0])
      && (forall i :: 1 <= i < |pieces| ==> back[i] == " " + QuoteUntrimmed(pieces[i]))
      && back[|pieces|] == " " + Fallback
  {
    var pieces := Split(s, ',');
    var es := UntrimmedEntries(s);
    forall i | 0 <= i < |es| ensures ',' !in es[i] {
      UntrimmedNoComma(pieces[i]);
    }
    WithFallbackPieces(es);
    var all := es + [Fallback];
    var back := Split(RewriteUntrimmed(s), ',');
    assert back == Spaced(all);
    assert forall i :: 0 <= i < |es| ==> all[i] == es[i];
    assert all[|es|] == Fallback;
  }
}

module FontFamilyExamples {
  import opened JsString
  import opened FontFamily
  import opened JsArray

  lemma TwoNames(a: string, b: string)
    requires ',' !in a && ',' !in b
    ensures Split(a + "," + b, ',') == [a, b]
  {
    SplitAtSeparator(a, ',', b);
    SplitNoSeparator(b, ',');
  }

  lemma EntriesOfTwo(s: string, a: string, b: string)
    requires Split(s, ',') == [a, b]
    ensures TrimmedEntries(s) == [QuoteTrimmed(a), QuoteTrimmed(b)]
    ensures UntrimmedEntries(s) == [QuoteUntrimmed(a), QuoteUntrimmed(b)]
  {
    MapTwo(Split(s, ','), QuoteTrimmed);
    MapTwo(Split(s, ','), QuoteUntrimmed);
  }

  /** A one-word name is left as it is by both callbacks, and the space before it only by the untrimmed one. */
  lemma PlainName(n: string)
    requires IsTrimmed(n) && ' ' !in n
    ensures QuoteTrimmed(n) == n && QuoteTrimmed(" " + n) == n
    ensures QuoteUntrimmed(n) == n && QuoteUntrimmed(" " + n) == " " + n
  {
    TrimOfTrimmed(n);
    SpaceTrim(n);
    assert Trim(n) == n && Trim(" " + n) == n;
  }

  /** A name with a space is quoted by both callbacks, with the space before it only by the untrimmed one. */
  lemma SpacedName(n: string)
    requires IsTrimmed(n) && ' ' in n
    ensures QuoteTrimmed(n) == Quote(n) && QuoteTrimmed(" " + n) == Quote(n)
    ensures QuoteUntrimmed(" " + n) == Quote(" " + n)
  {
    TrimOfTrimmed(n);
    SpaceTrim(n);
  }

  /** Two one-word names, as a designer writes them: unchanged, then the fallback. */
  lemma {:induction false} TwoPlainNames(a: string, b: string)
    requires IsTrimmed(a) && IsTrimmed(b) && ' ' !in a && ' ' !in b && ',' !in a && ',' !in b
    ensures RewriteTrimmed(a + ", " + b) == a + ", " + b + ", " + Fallback
  {
    TwoPieces(a, b);
    PlainName(a);
    PlainName(b);
    TrimmedTwo(a + ", " + b, a, b);
  }

  /** The untrimmed callback keeps the space that follows the comma, so ", " doubles it. */
  lemma {:induction false} TwoPlainNamesUntrimmed(a: string, b: string)
    requires IsTrimmed(a) && IsTrimmed(b) && ' ' !in a && ' ' !in b && ',' !in a && ',' !in b
    ensures RewriteUntrimmed(a + ", " + b) == a + ", " + (" " + b) + ", " + Fallback
  {
    TwoPieces(a, b);
    PlainName(a);
    PlainName(b);
    UntrimmedTwo(a + ", " + b, a, " " + b);
  }

  /** Splitting two names written with ", " between them. */
  lemma TwoPieces(a: string, b: string)
    requires ',' !in a && ',' !in b
    ensures var s := a + ", " + b;
      && TrimmedEntries(s) == [QuoteTrimmed(a), QuoteTrimmed(" " + b)]
      && UntrimmedEntries(s) == [QuoteUntrimmed(a), QuoteUntrimmed(" " + b)]
  {
    assert a + ", " + b == a + "," + (" " + b);
    TwoNames(a, " " + b);
    EntriesOfTwo(a + ", " + b, a, " " + b);
  }

  /**
   * A one-word name, then a name with a space: the trimming callback quotes
   * the name alone, the untrimmed one quotes it with the space ", " left
   * before it.
   */
  lemma {:induction false} PlainThenSpacedName(a: string, b: string)
    requires IsTrimmed(a) && IsTrimmed(b) && ' ' !in a && ' ' in b && ',' !in a && ',' !in b
    ensures RewriteTrimmed(a + ", " + b) == a + ", " + Quote(b) + ", " + Fallback
    ensures RewriteUntrimmed(a + ", " + b) == a + ", " + Quote(" " + b) + ", " + Fallback
  {
    var s := a + ", " + b;
    TwoPieces(a, b);
    PlainName(a);
    SpacedName(b);
    TrimmedTwo(s, a, Quote(b));
    UntrimmedTwo(s, a, Quote(" " + b));
  }

  /** A list whose two pieces the trimming callback turns into `x` and `y`. */
  lemma TrimmedTwo(s: string, x: string, y: string)
    requires TrimmedEntries(s) == [x, y]
    ensures RewriteTrimmed(s) == x + ", " + y + ", " + Fallback
  {
    JoinTwo(x, y);
  }

  /** A list whose two pieces the untrimmed callback turns into `x` and `y`. */
  lemma UntrimmedTwo(s: string, x: string, y: string)
    requires UntrimmedEntries(s) == [x, y]
    ensures RewriteUntrimmed(s) == x + ", " + y + ", " + Fallback
  {
    JoinTwo(x, y);
  }

  /** A single name with a space is quoted by both callbacks. */
  lemma {:induction false} OneSpacedName(a: string)
    requires IsTrimmed(a) && ' ' in a && ',' !in a
    ensures RewriteTrimmed(a) == Quote(a) + ", " + Fallback
    ensures RewriteUntrimmed(a) == Quote(a) + ", " + Fallback
  {
    SplitNoSeparator(a, ',');
    TrimOfTrimmed(a);
    assert TrimmedEntries(a) == [Quote(a)];
    assert UntrimmedEntries(a) == [Quote(a)];
  }

  lemma JoinTwo(a: string, b: string)
    ensures Join([a, b], ", ") == a + ", " + b
  {
    assert [a, b][1..] == [b];
  }

  /** "Inter, Arial" becomes "Inter, Arial, sans-serif"; the untrimmed callback gives "Inter,  Arial, sans-serif". */
  lemma InterArial()
    ensures RewriteTrimmed("Inter, Arial") == "Inter" + ", " + "Arial" + ", " + Fallback
    ensures RewriteUntrimmed("Inter, Arial") == "Inter" + ", " + (" " + "Arial") + ", " + Fallback
  {
    assert "Inter, Arial" == "Inter" + ", " + "Arial";
    assert IsTrimmed("Inter") && IsTrimmed("Arial");
    TwoPlainNames("Inter", "Arial");
    TwoPlainNamesUntrimmed("Inter", "Arial");
  }

  /** "My Font" becomes "\"My Font\", sans-serif". */
  lemma MyFont()
    ensures RewriteTrimmed("My Font") == Quote("My Font") + ", " + Fallback
  {
    assert IsTrimmed("My Font") && "My Font"[2] == ' ';
    OneSpacedName("My Font");
  }

  /** "Arial, My Font": only the untrimmed callback puts the space inside the quotes. */
  lemma ArialMyFont()
    ensures RewriteTrimmed("Arial, My Font") == "Arial" + ", " + Quote("My Font") + ", " + Fallback
    ensures RewriteUntrimmed("Arial, My Font") == "Arial" + ", " + Quote(" " + "My Font") + ", " + Fallback
  {
    assert "Arial, My Font" == "Arial" + ", " + "My Font";
    assert IsTrimmed("Arial") && IsTrimmed("My Font") && "My Font"[2] == ' ';
    PlainThenSpacedName("Arial", "My Font");
  }
}
