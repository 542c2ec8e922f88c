/**
 * The ECMAScript string operations the build scripts use: `trim`, `split`
 * and `join` with a one-character separator, `includes`, `endsWith`,
 * `repeat` and the regular expression test `/\d$/`.
 */
module JsString {

  /** `\d` without the `u` flag matches exactly the ASCII digits. */
  predicate IsDigit(c: char) {
    '0' <= c <= '9'
  }

  /** `/\d$/.test(s)`: without the `m` flag `$` only matches at the end of the input. */
  predicate EndsWithDigit(s: string) {
    |s| > 0 && IsDigit(s[|s| - 1])
  }

  /** `s.endsWith(suffix)` */
  predicate EndsWith(s: string, suffix: string) {
    |suffix| <= |s| && s[|s| - |suffix|..] == suffix
  }

  /** `s.startsWith(prefix)` */
  predicate StartsWith(s: string, prefix: string) {
    |prefix| <= |s| && s[..|prefix|] == prefix
  }

  /**
   * The code points `trim` removes: WhiteSpace (tab, vertical tab, form feed,
   * ZWNBSP and every space separator of category Zs) and LineTerminator
   * (sections 12.2 and 12.3 of ECMA-262).
   */
  predicate IsWhiteSpace(c: char) {
    || c == '\t' || c == '\U{B}' || c == '\U{C}' || c == '\U{FEFF}'
    || c == ' ' || c == '\U{A0}' || c == '\U{1680}' || ('\U{2000}' <= c <= '\U{200A}')
    || c == '\U{202F}' || c == '\U{205F}' || c == '\U{3000}'
    || c == '\n' || c == '\r' || c == '\U{2028}' || c == '\U{2029}'
  }

  /** `s.trimStart()`: drops the longest white-space prefix. */
  function TrimStart(s: string): (r: string)
    ensures |r| <= |s| && r == s[|s| - |r|..]
    ensures forall i :: 0 <= i < |s| - |r| ==> IsWhiteSpace(s[i])
    ensures |r| > 0 ==> !IsWhiteSpace(r[0])
  {
    if |s| > 0 && IsWhiteSpace(s[0]) then TrimStart(s[1..]) else s
  }

  /** `s.trimEnd()`: drops the longest white-space suffix. */
  function TrimEnd(s: string): (r: string)
    ensures |r| <= |s| && r == s[..|r|]
    ensures forall i :: |r| <= i < |s| ==> IsWhiteSpace(s[i])
    ensures |r| > 0 ==> !IsWhiteSpace(r[|r| - 1])
  {
    if |s| > 0 && IsWhiteSpace(s[|s| - 1]) then TrimEnd(s[..|s| - 1]) else s
  }

  /** `s.trim()` */
  function Trim(s: string): (r: string) {
    TrimEnd(TrimStart(s))
  }

  /** A string that `trim` leaves alone: no white space at either end. */
  predicate IsTrimmed(s: string) {
    |s| == 0 || (!IsWhiteSpace(s[0]) && !IsWhiteSpace(s[|s| - 1]))
  }

  /** `trim` keeps a trimmed string, so it is idempotent. */
  lemma TrimIsTrimmed(s: string)
    ensures IsTrimmed(Trim(s))
    ensures Trim(Trim(s)) == Trim(s)
  {
    var t := TrimStart(s);
    var r := TrimEnd(t);
    assert |r| > 0 ==> r[0] == t[0];
    assert IsTrimmed(r);
    TrimOfTrimmed(r);
  }

  /** `trim` keeps an infix of `s` and removes only white space around it. */
  lemma TrimInfix(s: string)
    ensures var i := |s| - |TrimStart(s)|;
      && i + |Trim(s)| <= |s| && s[i..i + |Trim(s)|] == Trim(s)
      && (forall k :: 0 <= k < i ==> IsWhiteSpace(s[k]))
      && (forall k :: i + |Trim(s)| <= k < |s| ==> IsWhiteSpace(s[k]))
  {
    var t := TrimStart(s);
    var r := TrimEnd(t);
    TrimEndTail(s, t, r, |s| - |t|);
  }

  /** What `trimEnd` keeps of `s[i..]` is an infix of `s`, and what it drops is white space of `s`. */
  lemma TrimEndTail(s: string, t: string, r: string, i: nat)
    requires i <= |s| && t == s[i..] && |r| <= |t| && r == t[..|r|]
    requires forall j :: |r| <= j < |t| ==> IsWhiteSpace(t[j])
    ensures s[i..i + |r|] == r
    ensures forall k :: i + |r| <= k < |s| ==> IsWhiteSpace(s[k])
  {
    forall k | i + |r| <= k < |s| ensures IsWhiteSpace(s[k]) {
      assert s[k] == t[k - i];
    }
  }

  /** A trimmed string is its own trim. */
  lemma TrimOfTrimmed(s: string)
    requires IsTrimmed(s)
    ensures Trim(s) == s
  {
    assert TrimStart(s) == s;
  }

  /** White space in front does not change the trim. */
  lemma {:induction false} TrimLeadingSpace(w: string, s: string)
    requires forall i :: 0 <= i < |w| ==> IsWhiteSpace(w[i])
    ensures Trim(w + s) == Trim(s)
  {
    if |w| > 0 {
      assert (w + s)[1..] == w[1..] + s;
      TrimLeadingSpace(w[1..], s);
    } else {
      assert w + s == s;
    }
  }

  /** The number of occurrences of `c` in `s`. */
  function Count(s: string, c: char): (n: nat)
    ensures n <= |s|
    ensures n == 0 <==> c !in s
  {
    if |s| == 0 then 0 else (if s[0] == c then 1 else 0) + Count(s[1..], c)
  }

  /**
   * `s.split(sep)` for a one-character separator: the maximal pieces between
   * separators; the empty string splits into one empty piece.
   */
  function Split(s: string, sep: char): (parts: seq<string>)
    ensures |parts| == Count(s, sep) + 1
    ensures forall i :: 0 <= i < |parts| ==> sep !in parts[i]
  {
    if |s| == 0 then [""]
    else
      var rest := Split(s[1..], sep);
      if s[0] == sep then [""] + rest else [[s[0]] + rest[0]] + rest[1..]
  }

  /** `parts.join(sep)` */
  function Join(parts: seq<string>, sep: string): string {
    if |parts| == 0 then ""
    else if |parts| == 1 then parts[0]
    else parts[0] + sep + Join(parts[1..], sep)
  }

  /** `xs.join("")`, and the concatenation a string-building loop produces. */
  function Concat(parts: seq<string>): string {
    if |parts| == 0 then "" else Concat(parts[..|parts| - 1]) + parts[|parts| - 1]
  }

  /** `" ".repeat(n)` */
  function Spaces(n: nat): (r: string)
    ensures |r| == n && forall i :: 0 <= i < n ==> r[i] == ' '
  {
    seq(n, _ => ' ')
  }

  /** Joining the pieces of a split with the same separator gives back the string. */
  lemma {:induction false} JoinSplit(s: string, sep: char)
    ensures Join(Split(s, sep), [sep]) == s
  {
    if |s| > 0 {
      var t := s[1..];
      var rest := Split(t, sep);
      JoinSplit(t, sep);
      assert s == [s[0]] + t;
      if s[0] == sep {
        assert Split(s, sep) == [""] + rest;
        assert Join([""] + rest, [sep]) == "" + [sep] + Join(rest, [sep]);
      } else {
        assert Split(s, sep) == [[s[0]] + rest[0]] + rest[1..];
        JoinPrependFirst([s[0]], rest[0], rest[1..], [sep]);
        assert [rest[0]] + rest[1..] == rest;
      }
    }
  }

  /** Gluing a prefix onto the first piece of a join. */
  lemma {:induction false} JoinPrependFirst(a: string, b: string, rest: seq<string>, sep: string)
    ensures Join([a + b] + rest, sep) == a + Join([b] + rest, sep)
  {
    if |rest| > 0 {
      assert ([a + b] + rest)[1..] == rest && ([b] + rest)[1..] == rest;
    }
  }

  /** A string without the separator is a single piece. */
  lemma {:induction false} SplitNoSeparator(s: string, sep: char)
    requires sep !in s
    ensures Split(s, sep) == [s]
  {
    if |s| > 0 {
      SplitNoSeparator(s[1..], sep);
      assert [s[0]] + s[1..] == s;
    }
  }

  /** A separator after a separator-free prefix ends the first piece. */
  lemma {:induction false} SplitAtSeparator(a: string, sep: char, b: string)
    requires sep !in a
    ensures Split(a + [sep] + b, sep) == [a] + Split(b, sep)
  {
    if |a| == 0 {
      assert a + [sep] + b == [sep] + b;
      SplitCons(sep, b, sep);
    } else {
      var t := a[1..] + [sep] + b;
      assert a + [sep] + b == [a[0]] + t;
      SplitAtSeparator(a[1..], sep, b);
      SplitCons(a[0], t, sep);
      var pieces := [a[1..]] + Split(b, sep);
      assert pieces[0] == a[1..] && pieces[1..] == Split(b, sep);
      assert [a[0]] + a[1..] == a;
    }
  }

  /** Splitting a join of separator-free pieces gives back the pieces. */
  lemma {:induction false} SplitJoin(parts: seq<string>, sep: char)
    requires |parts| >= 1
    requires forall i :: 0 <= i < |parts| ==> sep !in parts[i]
    ensures Split(Join(parts, [sep]), sep) == parts
  {
    if |parts| == 1 {
      SplitNoSeparator(parts[0], sep);
    } else {
      SplitJoin(parts[1..], sep);
      SplitAtSeparator(parts[0], sep, Join(parts[1..], [sep]));
      assert [parts[0]] + parts[1..] == parts;
    }
  }

  /** A separator splits a string into the pieces before it and the pieces after it. */
  lemma {:induction false} SplitAround(x: string, sep: char, y: string)
    ensures Split(x + [sep] + y, sep) == Split(x, sep) + Split(y, sep)
  {
    if |x| == 0 {
      assert x + [sep] + y == [sep] + y;
      SplitCons(sep, y, sep);
    } else {
      var t := x[1..] + [sep] + y;
      assert x + [sep] + y == [x[0]] + t;
      assert x == [x[0]] + x[1..];
      SplitAround(x[1..], sep, y);
      SplitCons(x[0], t, sep);
      SplitCons(x[0], x[1..], sep);
      ConsPieces(x[0], Split(x[1..], sep), Split(y, sep), sep);
    }
  }

  /** The list step of SplitAround: extending the first piece commutes with appending pieces. */
  lemma ConsPieces(c: char, a: seq<string>, b: seq<string>, sep: char)
    requires |a| > 0
    ensures (if c == sep then [""] + (a + b) else [[c] + (a + b)[0]] + (a + b)[1..])
      == (if c == sep then [""] + a else [[c] + a[0]] + a[1..]) + b
  {
    if c == sep {
      assert [""] + (a + b) == ([""] + a) + b;
    } else {
      var h := [c] + a[0];
      assert (a + b)[0] == a[0];
      assert (a + b)[1..] == a[1..] + b;
      assert [h] + (a[1..] + b) == ([h] + a[1..]) + b;
    }
  }

  /** One step of `Split`: the first character opens a new piece or extends the first one. */
  lemma SplitCons(c: char, t: string, sep: char)
    ensures Split([c] + t, sep) ==
      if c == sep then [""] + Split(t, sep) else [[c] + Split(t, sep)[0]] + Split(t, sep)[1..]
  {
    assert ([c] + t)[0] == c && ([c] + t)[1..] == t;
  }

  /** Joining one more piece onto a non-empty list. */
  lemma {:induction false} JoinSnoc(es: seq<string>, e: string, sep: string)
    requires |es| >= 1
    ensures Join(es + [e], sep) == Join(es, sep) + sep + e
  {
    if |es| > 1 {
      JoinSnoc(es[1..], e, sep);
      assert (es + [e])[1..] == es[1..] + [e];
    }
  }

  /** The concatenation of the first `i + 1` pieces. */
  lemma ConcatPrefix(parts: seq<string>, i: nat)
    requires i < |parts|
    ensures Concat(parts[..i + 1]) == Concat(parts[..i]) + parts[i]
  {
    assert parts[..i + 1][..i] == parts[..i];
  }

  /** Concatenating one more piece. */
  lemma ConcatSnoc(parts: seq<string>, p: string)
    ensures Concat(parts + [p]) == Concat(parts) + p
  {
    assert (parts + [p])[..|parts|] == parts;
  }
}
