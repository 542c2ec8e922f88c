/**
 * The `tailwindcss` format of src/main.ts (lines 33-47): the tokens are
 * grouped by their name without the breakpoint segment, each group is
 * sorted mobile, tablet, desktop by `comparatorFunction` and mapped to its
 * values, and one utility text per group is appended to `result`.
 */
module SrcMain {
  import opened Wrappers
  import opened JsString
  import opened JsArray
  import opened Tokens

  const SortSample: seq<string> := ["mobile", "tablet", "desktop"]

  /** `sortSample.indexOf(path[0])`; an empty path reads `undefined`, which is not in the list. */
  function Rank(t: Token): (r: int)
    ensures -1 <= r < 3
  {
    match Breakpoint(t)
    case None => -1
    case Some(bp) => IndexOf(SortSample, bp)
  }

  /** `comparatorFunction(a, b)`: negative when `a` sorts first. */
  function Compare(a: Token, b: Token): int {
    Rank(a) - Rank(b)
  }

  /** src/main.ts:37-38: mobile ranks 0, tablet 1, desktop 2, any other breakpoint -1. */
  lemma RankSpec(t: Token)
    ensures Rank(t) == if Breakpoint(t) == Some("mobile") then 0
                       else if Breakpoint(t) == Some("tablet") then 1
                       else if Breakpoint(t) == Some("desktop") then 2
                       else -1
  {
    if Breakpoint(t).Some? {
      var bp := Breakpoint(t).value;
      assert SortSample[0] == "mobile" && SortSample[1] == "tablet" && SortSample[2] == "desktop";
      assert SortSample[1..] == ["tablet", "desktop"] && SortSample[2..] == ["desktop"];
    }
  }

  /** src/main.ts:36-39: mobile sorts before tablet, tablet before desktop, and an unknown breakpoint before all three. */
  lemma CompareOrder(unknown: Token, m: Token, t: Token, d: Token)
    requires Breakpoint(m) == Some("mobile") && Breakpoint(t) == Some("tablet") && Breakpoint(d) == Some("desktop")
    requires Breakpoint(unknown) !in [Some("mobile"), Some("tablet"), Some("desktop")]
    ensures Compare(unknown, m) < 0 && Compare(m, t) < 0 && Compare(t, d) < 0
    ensures Compare(m, unknown) > 0 && Compare(t, m) > 0 && Compare(d, t) > 0
  {
    RankSpec(unknown);
    RankSpec(m);
    RankSpec(t);
    RankSpec(d);
  }

  /** Non-decreasing in `rank`. */
  predicate SortedBy<T>(s: seq<T>, rank: T -> int) {
    forall i, j :: 0 <= i < j < |s| ==> rank(s[i]) <= rank(s[j])
  }

  /** Ordered mobile, tablet, desktop, with unknown breakpoints first. */
  predicate Sorted(s: seq<Token>) {
    SortedBy(s, Rank)
  }

  /** Every element ranks between -1 and 2. */
  predicate InRange<T>(ts: seq<T>, rank: T -> int) {
    forall i :: 0 <= i < |ts| ==> -1 <= rank(ts[i]) < 3
  }

  /** The elements of ranks -1, 0, 1 and 2 in turn, each rank in the original order. */
  function RankSort<T>(ts: seq<T>, rank: T -> int): seq<T> {
    WithKey(ts, rank, -1) + WithKey(ts, rank, 0) + WithKey(ts, rank, 1) + WithKey(ts, rank, 2)
  }

  /**
   * `values.sort(comparatorFunction)`. Array.prototype.sort is stable
   * (ECMA-262 since its 2019 edition), so with ranks -1 to 2 the result is
   * the tokens of each rank in turn, each rank in the original order.
   */
  function SortByRank(ts: seq<Token>): seq<Token> {
    RankSort(ts, Rank)
  }

  lemma SortedAppend<T>(a: seq<T>, b: seq<T>, rank: T -> int)
    requires SortedBy(a, rank) && SortedBy(b, rank)
    requires forall x, y :: x in a && y in b ==> rank(x) <= rank(y)
    ensures SortedBy(a + b, rank)
  {
    forall i, j | 0 <= i < j < |a + b| ensures rank((a + b)[i]) <= rank((a + b)[j]) {
      if i < |a| && j >= |a| {
        assert (a + b)[i] in a && (a + b)[j] in b;
      } else if i >= |a| {
        assert (a + b)[i] == b[i - |a|] && (a + b)[j] == b[j - |a|];
      }
    }
  }

  lemma BucketSorted<T>(ts: seq<T>, rank: T -> int, r: int)
    ensures SortedBy(WithKey(ts, rank, r), rank)
    ensures forall x :: x in WithKey(ts, rank, r) ==> rank(x) == r
  {
    WithKeyMembers(ts, rank, r);
  }

  lemma RankSortSorted<T>(ts: seq<T>, rank: T -> int)
    ensures SortedBy(RankSort(ts, rank), rank)
  {
    var b0, b1, b2, b3 := WithKey(ts, rank, -1), WithKey(ts, rank, 0), WithKey(ts, rank, 1), WithKey(ts, rank, 2);
    BucketSorted(ts, rank, -1);
    BucketSorted(ts, rank, 0);
    BucketSorted(ts, rank, 1);
    BucketSorted(ts, rank, 2);
    SortedAppend(b0, b1, rank);
    SortedAppend(b0 + b1, b2, rank);
    SortedAppend(b0 + b1 + b2, b3, rank);
  }

  /** src/main.ts:42: the sorted group is ordered mobile, tablet, desktop. */
  lemma SortByRankSorted(ts: seq<Token>)
    ensures Sorted(SortByRank(ts))
  {
    RankSortSorted(ts, Rank);
  }

  /** The last element joins the multiset of its rank's bucket and no other. */
  lemma BucketMultiset<T>(ts: seq<T>, rank: T -> int, r: int)
    requires |ts| > 0
    ensures multiset(WithKey(ts, rank, r)) ==
      multiset(WithKey(ts[..|ts| - 1], rank, r)) + (if rank(ts[|ts| - 1]) == r then multiset{ts[|ts| - 1]} else multiset{})
  {
  }

  lemma {:induction false} RankSortPermutation<T>(ts: seq<T>, rank: T -> int)
    requires InRange(ts, rank)
    ensures multiset(RankSort(ts, rank)) == multiset(ts)
  {
    if |ts| > 0 {
      var n := |ts| - 1;
      var init := ts[..n];
      assert multiset(ts) == multiset(init) + multiset{ts[n]} by {
        assert ts == init + [ts[n]];
      }
      assert InRange(init, rank) by {
        assert forall i :: 0 <= i < n ==> init[i] == ts[i];
      }
      RankSortPermutation(init, rank);
      BucketMultiset(ts, rank, -1);
      BucketMultiset(ts, rank, 0);
      BucketMultiset(ts, rank, 1);
      BucketMultiset(ts, rank, 2);
      RankSortMultiset(ts, rank);
      RankSortMultiset(init, rank);
      MultisetStep(
        multiset(WithKey(ts, rank, -1)), multiset(WithKey(ts, rank, 0)),
        multiset(WithKey(ts, rank, 1)), multiset(WithKey(ts, rank, 2)),
        multiset(WithKey(init, rank, -1)), multiset(WithKey(init, rank, 0)),
        multiset(WithKey(init, rank, 1)), multiset(WithKey(init, rank, 2)),
        multiset{ts[n]}, rank(ts[n]));
    }
  }

  /** The multiset of the four buckets together. */
  lemma RankSortMultiset<T>(ts: seq<T>, rank: T -> int)
    ensures multiset(RankSort(ts, rank)) ==
      multiset(WithKey(ts, rank, -1)) + multiset(WithKey(ts, rank, 0)) +
      multiset(WithKey(ts, rank, 1)) + multiset(WithKey(ts, rank, 2))
  {
  }

  /** One element joins exactly one of four buckets. */
  lemma MultisetStep<T>(b0: multiset<T>, b1: multiset<T>, b2: multiset<T>, b3: multiset<T>,
                        c0: multiset<T>, c1: multiset<T>, c2: multiset<T>, c3: multiset<T>,
                        m: multiset<T>, r: int)
    requires -1 <= r < 3
    requires b0 == c0 + (if r == -1 then m else multiset{})
    requires b1 == c1 + (if r == 0 then m else multiset{})
    requires b2 == c2 + (if r == 1 then m else multiset{})
    requires b3 == c3 + (if r == 2 then m else multiset{})
    ensures b0 + b1 + b2 + b3 == c0 + c1 + c2 + c3 + m
  {
  }

  /** The sorted group holds the same tokens, each as often. */
  lemma SortByRankPermutation(ts: seq<Token>)
    ensures multiset(SortByRank(ts)) == multiset(ts)
  {
    RankSortPermutation(ts, Rank);
  }

  lemma {:induction false} WithKeyConcat<T, K>(a: seq<T>, b: seq<T>, key: T -> K, k: K)
    ensures WithKey(a + b, key, k) == WithKey(a, key, k) + WithKey(b, key, k)
  {
    if |b| > 0 {
      var n := |b| - 1;
      WithKeyConcat(a, b[..n], key, k);
      var ab := a + b;
      assert ab[..|ab| - 1] == a + b[..n];
      assert ab[|ab| - 1] == b[n];
    } else {
      assert a + b == a;
    }
  }

  /** Selecting a rank inside a rank bucket keeps all of it or nothing. */
  lemma {:induction false} WithKeyTwice<T>(ts: seq<T>, rank: T -> int, r: int, r': int)
    ensures WithKey(WithKey(ts, rank, r'), rank, r) == if r == r' then WithKey(ts, rank, r) else []
  {
    if |ts| > 0 {
      var n := |ts| - 1;
      WithKeyTwice(ts[..n], rank, r, r');
      var inner := WithKey(ts, rank, r');
      if rank(ts[n]) == r' {
        assert inner[..|inner| - 1] == WithKey(ts[..n], rank, r');
      } else {
        assert inner == WithKey(ts[..n], rank, r');
      }
    }
  }

  lemma RankSortStable<T>(ts: seq<T>, rank: T -> int, r: int)
    requires InRange(ts, rank)
    ensures WithKey(RankSort(ts, rank), rank, r) == WithKey(ts, rank, r)
  {
    var b0, b1, b2, b3 := WithKey(ts, rank, -1), WithKey(ts, rank, 0), WithKey(ts, rank, 1), WithKey(ts, rank, 2);
    assert RankSort(ts, rank) == b0 + b1 + b2 + b3;
    WithKeyFour(b0, b1, b2, b3, rank, r);
    WithKeyTwice(ts, rank, r, -1);
    WithKeyTwice(ts, rank, r, 0);
    WithKeyTwice(ts, rank, r, 1);
    WithKeyTwice(ts, rank, r, 2);
    if !(-1 <= r < 3) {
      AboveAll(ts, rank, r);
    }
    PickOne(WithKey(RankSort(ts, rank), rank, r),
      WithKey(b0, rank, r), WithKey(b1, rank, r), WithKey(b2, rank, r), WithKey(b3, rank, r),
      WithKey(ts, rank, r), r);
  }

  /** Selecting one rank from four pieces selects it from each piece. */
  lemma WithKeyFour<T>(b0: seq<T>, b1: seq<T>, b2: seq<T>, b3: seq<T>, rank: T -> int, r: int)
    ensures WithKey(b0 + b1 + b2 + b3, rank, r) ==
      WithKey(b0, rank, r) + WithKey(b1, rank, r) + WithKey(b2, rank, r) + WithKey(b3, rank, r)
  {
    WithKeyConcat(b0 + b1 + b2, b3, rank, r);
    WithKeyConcat(b0 + b1, b2, rank, r);
    WithKeyConcat(b0, b1, rank, r);
  }

  /** Four pieces of which only the one of rank `r` is not empty: their concatenation is that piece. */
  lemma PickOne<T>(w: seq<T>, x0: seq<T>, x1: seq<T>, x2: seq<T>, x3: seq<T>, b: seq<T>, r: int)
    requires w == x0 + x1 + x2 + x3
    requires x0 == (if r == -1 then b else [])
    requires x1 == (if r == 0 then b else [])
    requires x2 == (if r == 1 then b else [])
    requires x3 == (if r == 2 then b else [])
    requires !(-1 <= r < 3) ==> b == []
    ensures w == b
  {
    var e: seq<T> := [];
    if r == -1 {
      assert w == b + e + e + e;
    } else if r == 0 {
      assert w == e + b + e + e;
    } else if r == 1 {
      assert w == e + e + b + e;
    } else if r == 2 {
      assert w == e + e + e + b;
    } else {
      assert w == e + e + e + e;
    }
  }

  /** The sort is stable: the tokens of each rank keep their original order. */
  lemma SortByRankStable(ts: seq<Token>, r: int)
    ensures WithKey(SortByRank(ts), Rank, r) == WithKey(ts, Rank, r)
  {
    RankSortStable(ts, Rank, r);
  }

  /** A rank no element has selects nothing. */
  lemma AboveAll<T>(ts: seq<T>, rank: T -> int, r: int)
    requires forall i :: 0 <= i < |ts| ==> rank(ts[i]) != r
    ensures WithKey(ts, rank, r) == []
  {
    if |ts| > 0 {
      AboveAll(ts[..|ts| - 1], rank, r);
    }
  }

  /** The last element of a sorted sequence has the highest rank, so the sort appends it. */
  lemma SortedStep<T>(s: seq<T>, rank: T -> int)
    requires |s| > 0 && SortedBy(s, rank)
    requires -1 <= rank(s[|s| - 1]) < 3
    ensures RankSort(s, rank) == RankSort(s[..|s| - 1], rank) + [s[|s| - 1]]
  {
    var n := |s| - 1;
    var init := s[..n];
    var x := s[n];
    var r := rank(x);
    forall k | r < k ensures WithKey(init, rank, k) == [] {
      assert forall i :: 0 <= i < n ==> init[i] == s[i] && rank(init[i]) <= r;
      AboveAll(init, rank, k);
    }
    AppendLast(WithKey(init, rank, -1), WithKey(init, rank, 0), WithKey(init, rank, 1), WithKey(init, rank, 2), x, r);
  }

  /** Appending `x` to the bucket of rank `r`, with every later bucket empty, appends it to the whole. */
  lemma AppendLast<T>(c0: seq<T>, c1: seq<T>, c2: seq<T>, c3: seq<T>, x: T, r: int)
    requires -1 <= r < 3
    requires r < 0 ==> c1 == []
    requires r < 1 ==> c2 == []
    requires r < 2 ==> c3 == []
    ensures (c0 + (if r == -1 then [x] else [])) + (c1 + (if r == 0 then [x] else []))
          + (c2 + (if r == 1 then [x] else [])) + (c3 + (if r == 2 then [x] else []))
          == c0 + c1 + c2 + c3 + [x]
  {
    var e: seq<T> := [];
    if r == -1 {
      assert c0 + [x] + (c1 + e) + (c2 + e) + (c3 + e) == c0 + c1 + c2 + c3 + [x];
    } else if r == 0 {
      assert c0 + e + (c1 + [x]) + (c2 + e) + (c3 + e) == c0 + c1 + c2 + c3 + [x];
    } else if r == 1 {
      assert c0 + e + (c1 + e) + (c2 + [x]) + (c3 + e) == c0 + c1 + c2 + c3 + [x];
    } else {
      assert c0 + e + (c1 + e) + (c2 + e) + (c3 + [x]) == c0 + c1 + c2 + c3 + [x];
    }
  }

  lemma {:induction false} SortedIsRankSort<T>(s: seq<T>, rank: T -> int)
    requires SortedBy(s, rank)
    requires InRange(s, rank)
    ensures RankSort(s, rank) == s
  {
    if |s| > 0 {
      var n := |s| - 1;
      assert SortedBy(s[..n], rank);
      SortedIsRankSort(s[..n], rank);
      SortedStep(s, rank);
      assert s == s[..n] + [s[n]];
    }
  }

  /**
   * The sort is the only stable one: any arrangement ordered by rank whose
   * tokens of each rank come in their original order is `SortByRank`.
   */
  lemma StableSortUnique(ts: seq<Token>, s: seq<Token>)
    requires Sorted(s)
    requires forall r :: -1 <= r < 3 ==> WithKey(s, Rank, r) == WithKey(ts, Rank, r)
    ensures s == SortByRank(ts)
  {
    SortedIsRankSort(s, Rank);
  }

  /** `values.sort(comparatorFunction).map(({ $value, value }) => $value ?? value)` */
  function SortedValues(values: seq<Token>): (vs: seq<Value>)
    ensures |vs| == |values|
  {
    var sorted := SortByRank(values);
    SortByRankPermutation(values);
    assert |sorted| == |multiset(sorted)|;
    seq(|sorted|, i requires 0 <= i < |sorted| => ValueOf(sorted[i]))
  }

  /** src/main.ts:42: a desktop token listed before a mobile one gives the mobile value first. */
  lemma MobileValueFirst(d: Token, m: Token)
    requires Breakpoint(d) == Some("desktop") && Breakpoint(m) == Some("mobile")
    ensures SortedValues([d, m]) == [ValueOf(m), ValueOf(d)]
  {
    RankSpec(d);
    RankSpec(m);
    var ts := [d, m];
    assert ts[..1] == [d];
    assert WithKey(ts, Rank, -1) == [] && WithKey(ts, Rank, 1) == [];
    assert WithKey(ts, Rank, 0) == [m] && WithKey(ts, Rank, 2) == [d];
    assert SortByRank(ts) == [m, d];
  }

  /** What the loop appends for each group: `createTypographyUtility(key, sortedValues, ...)`, passed in as `emit`. */
  function GroupOutputs(all: seq<Token>, emit: (string, seq<Value>) -> string): (outs: seq<string>)
    ensures |outs| == |GroupBy(all, GroupName)|
  {
    var groups := GroupBy(all, GroupName);
    seq(|groups|, i requires 0 <= i < |groups| => emit(groups[i].0, SortedValues(groups[i].1)))
  }

  /** The loop of src/main.ts:34-46. */
  method TailwindFormat(all: seq<Token>, emit: (string, seq<Value>) -> string) returns (result: string)
    ensures result == Concat(GroupOutputs(all, emit))
  {
    result := "";
    var groups := GroupBy(all, GroupName);
    ghost var outs := GroupOutputs(all, emit);
    for i := 0 to |groups|
      invariant result == Concat(outs[..i])
    {
      var (key, values) := groups[i];
      var sortedValues := SortedValues(values);
      assert outs[i] == emit(key, sortedValues);
      ConcatPrefix(outs, i);
      result := result + emit(key, sortedValues);
    }
    assert outs[..|groups|] == outs;
  }

  /**
   * src/main.ts:41-43: the groups come in the order their names first
   * occur, each name once, and group `i` passes on the values of exactly
   * the tokens of its name, sorted by breakpoint.
   */
  lemma GroupOutputsSpec(all: seq<Token>, emit: (string, seq<Value>) -> string)
    ensures var groups := GroupBy(all, GroupName);
      && GroupKeys(groups) == FirstOccurrences(Map(all, GroupName))
      && (forall i :: 0 <= i < |groups| ==>
            GroupOutputs(all, emit)[i] == emit(groups[i].0, SortedValues(WithKey(all, GroupName, groups[i].0))))
  {
    GroupByKeys(all, GroupName);
    GroupByGroups(all, GroupName);
  }

  /** src/main.ts:41: every token is in exactly one group, the one of its name. */
  lemma OneGroupEach(all: seq<Token>, t: Token)
    requires t in all
    ensures var groups := GroupBy(all, GroupName);
      && GroupName(t) in GroupKeys(groups)
      && forall i :: 0 <= i < |groups| ==> (t in groups[i].1 <==> groups[i].0 == GroupName(t))
  {
    GroupByKeys(all, GroupName);
    GroupByGroups(all, GroupName);
    var groups := GroupBy(all, GroupName);
    var k := Map(all, GroupName);
    var j :| 0 <= j < |all| && all[j] == t;
    assert k[j] == GroupName(t);
    forall i | 0 <= i < |groups| ensures t in groups[i].1 <==> groups[i].0 == GroupName(t) {
      WithKeyMembers(all, GroupName, groups[i].0);
    }
  }
}
