/** The array operations the build scripts use: `filter`, `find`, `indexOf`, `Map.groupBy`. */
module JsArray {
  import opened Wrappers

  /** `xs.filter(p)`, written as the left-to-right loop it is. */
  function Filter<T(!new)>(xs: seq<T>, p: T -> bool): (r: seq<T>)
    ensures |r| <= |xs|
    ensures forall x :: x in r <==> x in xs && p(x)
  {
    if |xs| == 0 then []
    else Filter(xs[..|xs| - 1], p) + (if p(xs[|xs| - 1]) then [xs[|xs| - 1]] else [])
  }

  /** The elements whose key is `k`, in order. */
  function WithKey<T, K(==)>(xs: seq<T>, key: T -> K, k: K): (r: seq<T>)
    ensures |r| <= |xs|
  {
    if |xs| == 0 then []
    else WithKey(xs[..|xs| - 1], key, k) + (if key(xs[|xs| - 1]) == k then [xs[|xs| - 1]] else [])
  }

  /** `WithKey` keeps exactly the elements with key `k`. */
  lemma {:induction false} WithKeyMembers<T, K>(xs: seq<T>, key: T -> K, k: K)
    ensures forall x :: x in WithKey(xs, key, k) <==> x in xs && key(x) == k
  {
    if |xs| > 0 {
      var n := |xs| - 1;
      WithKeyMembers(xs[..n], key, k);
      assert xs == xs[..n] + [xs[n]];
    }
  }

  /** A property holds for every element exactly when it holds for all but the last and for the last. */
  lemma AllSnoc<T>(xs: seq<T>, init: seq<T>, p: T -> bool)
    requires |xs| > 0 && init == xs[..|xs| - 1]
    ensures (forall i :: 0 <= i < |xs| ==> p(xs[i])) <==>
      (forall i :: 0 <= i < |init| ==> p(init[i])) && p(xs[|xs| - 1])
  {
    assert forall i :: 0 <= i < |init| ==> init[i] == xs[i];
  }

  /** `xs.map(f)` */
  function Map<T, U>(xs: seq<T>, f: T -> U): (r: seq<U>)
    ensures |r| == |xs| && forall i :: 0 <= i < |xs| ==> r[i] == f(xs[i])
  {
    seq(|xs|, i requires 0 <= i < |xs| => f(xs[i]))
  }

  /** Mapping over two elements. */
  lemma MapTwo<T, U>(xs: seq<T>, f: T -> U)
    requires |xs| == 2
    ensures Map(xs, f) == [f(xs[0]), f(xs[1])]
  {
  }

  /** `xs.findIndex(p)`: the first index satisfying `p`, or -1. */
  function FindIndex<T>(xs: seq<T>, p: T -> bool): (i: int)
    ensures -1 <= i < |xs|
    ensures i >= 0 ==> p(xs[i])
    ensures forall j :: 0 <= j < |xs| && (i == -1 || j < i) ==> !p(xs[j])
  {
    if |xs| == 0 then -1
    else if p(xs[0]) then 0
    else var i := FindIndex(xs[1..], p); if i == -1 then -1 else i + 1
  }

  /** `xs.find(p)`: the first element satisfying `p`, or `undefined`. */
  function Find<T>(xs: seq<T>, p: T -> bool): (r: Option<T>)
    ensures r.Some? ==> r.value in xs && p(r.value)
    ensures r.None? <==> forall i :: 0 <= i < |xs| ==> !p(xs[i])
    ensures r.Some? ==> exists i :: 0 <= i < |xs| && xs[i] == r.value && forall j :: 0 <= j < i ==> !p(xs[j])
  {
    var i := FindIndex(xs, p);
    if i == -1 then None else Some(xs[i])
  }

  /** `xs.indexOf(x)` */
  function IndexOf<T(==)>(xs: seq<T>, x: T): (i: int)
    ensures -1 <= i < |xs|
    ensures i >= 0 ==> xs[i] == x && x !in xs[..i]
    ensures i == -1 <==> x !in xs
  {
    if |xs| == 0 then -1
    else if xs[0] == x then 0
    else var i := IndexOf(xs[1..], x); if i == -1 then -1 else i + 1
  }

  /** The keys of a list of groups. */
  function GroupKeys<T, K>(gs: seq<(K, seq<T>)>): (ks: seq<K>)
    ensures |ks| == |gs| && forall i :: 0 <= i < |gs| ==> ks[i] == gs[i].0
  {
    seq(|gs|, i requires 0 <= i < |gs| => gs[i].0)
  }

  /** Puts `x` in the group of `k`, opening a new group at the end if there is none. */
  function AddToGroup<T, K(==)>(gs: seq<(K, seq<T>)>, k: K, x: T): (r: seq<(K, seq<T>)>)
    ensures k in GroupKeys(gs) ==> GroupKeys(r) == GroupKeys(gs)
    ensures k !in GroupKeys(gs) ==> GroupKeys(r) == GroupKeys(gs) + [k]
  {
    if |gs| == 0 then [(k, [x])]
    else
      GroupKeysTail(gs);
      if gs[0].0 == k then
        GroupKeysCons((k, gs[0].1 + [x]), gs[1..]);
        [(k, gs[0].1 + [x])] + gs[1..]
      else
        var rest := AddToGroup(gs[1..], k, x);
        GroupKeysCons(gs[0], rest);
        [gs[0]] + rest
  }

  /** The keys of a group in front of other groups. */
  lemma GroupKeysCons<T, K>(g: (K, seq<T>), gs: seq<(K, seq<T>)>)
    ensures GroupKeys([g] + gs) == [g.0] + GroupKeys(gs)
  {
  }

  /** `x` joins the first group with key `k`, or a new last group; no other group changes. */
  lemma {:induction false} AddToGroupAt<T, K>(gs: seq<(K, seq<T>)>, k: K, x: T, i: nat)
    requires i < |gs|
    ensures AddToGroup(gs, k, x)[i].1 == if i == IndexOf(GroupKeys(gs), k) then gs[i].1 + [x] else gs[i].1
  {
    var ks := GroupKeys(gs);
    var r := AddToGroup(gs, k, x);
    GroupKeysTail(gs);
    if gs[0].0 == k {
      assert IndexOf(ks, k) == 0;
      assert r == [(k, gs[0].1 + [x])] + gs[1..];
    } else {
      var rest := AddToGroup(gs[1..], k, x);
      assert r == [gs[0]] + rest;
      var j := IndexOf(ks[1..], k);
      assert IndexOf(ks, k) == if j == -1 then -1 else j + 1;
      if i > 0 {
        AddToGroupAt(gs[1..], k, x, i - 1);
        assert r[i] == rest[i - 1];
      }
    }
  }

  /** A new group for `k` holds just `x`. */
  lemma {:induction false} AddToGroupNew<T, K>(gs: seq<(K, seq<T>)>, k: K, x: T)
    requires k !in GroupKeys(gs)
    ensures |AddToGroup(gs, k, x)| == |gs| + 1 && AddToGroup(gs, k, x)[|gs|].1 == [x]
  {
    if |gs| > 0 {
      assert GroupKeys(gs) == [gs[0].0] + GroupKeys(gs[1..]);
      AddToGroupNew(gs[1..], k, x);
    }
  }

  /** `Map.groupBy(xs, key)` as the sequence of its entries, in insertion order. */
  function GroupBy<T, K(==)>(xs: seq<T>, key: T -> K): seq<(K, seq<T>)> {
    if |xs| == 0 then []
    else AddToGroup(GroupBy(xs[..|xs| - 1], key), key(xs[|xs| - 1]), xs[|xs| - 1])
  }

  /** Each key once, in the order the keys first occur. */
  function FirstOccurrences<K(==,!new)>(ks: seq<K>): (r: seq<K>)
    ensures forall k :: k in r <==> k in ks
    ensures forall i, j :: 0 <= i < j < |r| ==> r[i] != r[j]
  {
    if |ks| == 0 then []
    else
      var r := FirstOccurrences(ks[..|ks| - 1]);
      assert forall k :: k in ks <==> k in ks[..|ks| - 1] || k == ks[|ks| - 1];
      if ks[|ks| - 1] in r then r else r + [ks[|ks| - 1]]
  }

  /** `m.get(k)` on the entries of a `Map`. */
  function GroupGet<T, K(==)>(gs: seq<(K, seq<T>)>, k: K): Option<seq<T>> {
    if |gs| == 0 then None else if gs[0].0 == k then Some(gs[0].1) else GroupGet(gs[1..], k)
  }

  predicate DistinctKeys<T, K(==)>(gs: seq<(K, seq<T>)>) {
    forall i, j :: 0 <= i < j < |gs| ==> gs[i].0 != gs[j].0
  }

  /** The groups of `Map.groupBy` come in the order their keys first occur, each key once. */
  lemma {:induction false} GroupByKeys<T, K(!new)>(xs: seq<T>, key: T -> K)
    ensures GroupKeys(GroupBy(xs, key)) == FirstOccurrences(Map(xs, key))
    ensures DistinctKeys(GroupBy(xs, key))
  {
    var gs := GroupBy(xs, key);
    if |xs| > 0 {
      var init := xs[..|xs| - 1];
      GroupByKeys(init, key);
      assert Map(xs, key)[..|xs| - 1] == Map(init, key);
    }
    forall i, j | 0 <= i < j < |gs| ensures gs[i].0 != gs[j].0 {
      assert gs[i].0 == GroupKeys(gs)[i] && gs[j].0 == GroupKeys(gs)[j];
    }
  }

  /**
   * `Map.groupBy` puts every element in exactly one group: the group of its
   * key, which holds the elements with that key in their original order.
   */
  lemma {:induction false} GroupByGroups<T(!new), K(!new)>(xs: seq<T>, key: T -> K)
    ensures forall i :: 0 <= i < |GroupBy(xs, key)| ==>
      GroupBy(xs, key)[i].1 == WithKey(xs, key, GroupBy(xs, key)[i].0)
  {
    var gs := GroupBy(xs, key);
    if |xs| > 0 {
      var init := xs[..|xs| - 1];
      var x := xs[|xs| - 1];
      GroupByGroups(init, key);
      forall i | 0 <= i < |gs| ensures gs[i].1 == WithKey(xs, key, gs[i].0) {
        GroupMember(xs, key, i);
      }
    }
  }

  /** One step of GroupByGroups: group `i` once the last element is added. */
  lemma GroupMember<T(!new), K(!new)>(xs: seq<T>, key: T -> K, i: nat)
    requires |xs| > 0
    requires var prev := GroupBy(xs[..|xs| - 1], key);
      forall j :: 0 <= j < |prev| ==> prev[j].1 == WithKey(xs[..|xs| - 1], key, prev[j].0)
    requires i < |GroupBy(xs, key)|
    ensures GroupBy(xs, key)[i].1 == WithKey(xs, key, GroupBy(xs, key)[i].0)
  {
    var init := xs[..|xs| - 1];
    var x := xs[|xs| - 1];
    var prev := GroupBy(init, key);
    var gs := GroupBy(xs, key);
    GroupByKeys(init, key);
    assert gs == AddToGroup(prev, key(x), x);
    var ks := GroupKeys(prev);
    assert |gs| == |GroupKeys(gs)|;
    if i < |prev| {
      AddToGroupAt(prev, key(x), x, i);
      assert gs[i].0 == GroupKeys(gs)[i] == ks[i] == prev[i].0;
      var j := IndexOf(ks, key(x));
      if prev[i].0 == key(x) {
        assert j >= 0;
        assert ks[j] == prev[j].0;
        assert j == i;
      } else {
        assert j != i;
      }
    } else {
      assert key(x) !in ks;
      AddToGroupNew(prev, key(x), x);
      assert gs[i].0 == GroupKeys(gs)[i] == key(x);
      assert key(x) !in Map(init, key);
      WithKeyNone(init, key, key(x));
    }
  }

  /** No element has a key that is not among the keys. */
  lemma WithKeyNone<T(!new), K>(xs: seq<T>, key: T -> K, k: K)
    requires k !in Map(xs, key)
    ensures WithKey(xs, key, k) == []
  {
  }

  /** `Map.groupBy(xs, key).get(k)` holds exactly the elements with key `k`. */
  lemma GroupGetWithKey<T(!new), K(!new)>(xs: seq<T>, key: T -> K, k: K)
    ensures GroupGet(GroupBy(xs, key), k) == if k in Map(xs, key) then Some(WithKey(xs, key, k)) else None
  {
    var gs := GroupBy(xs, key);
    GroupByKeys(xs, key);
    GroupByGroups(xs, key);
    GroupGetFirst(gs, k);
  }

  /** `get` finds the one group with the key, if any. */
  lemma {:induction false} GroupGetFirst<T, K>(gs: seq<(K, seq<T>)>, k: K)
    ensures GroupGet(gs, k) == if k in GroupKeys(gs) then Some(gs[IndexOf(GroupKeys(gs), k)].1) else None
  {
    if |gs| > 0 {
      var ks := GroupKeys(gs);
      GroupKeysTail(gs);
      if gs[0].0 != k {
        GroupGetFirst(gs[1..], k);
        var j := IndexOf(ks[1..], k);
        assert IndexOf(ks, k) == if j == -1 then -1 else j + 1;
        assert k in ks <==> k in ks[1..];
        if j != -1 {
          assert gs[1..][j] == gs[j + 1];
        }
      }
    }
  }

  /** The keys of all groups but the first. */
  lemma GroupKeysTail<T, K>(gs: seq<(K, seq<T>)>)
    requires |gs| > 0
    ensures GroupKeys(gs)[0] == gs[0].0 && GroupKeys(gs)[1..] == GroupKeys(gs[1..])
  {
  }
}
