/**
 * A JavaScript object with string keys. `Object.keys`, `Object.entries`,
 * spreading and `Object.assign` visit such keys in insertion order
 * (OrdinaryOwnPropertyKeys, section 10.1.11.1 of ECMA-262); assigning to an
 * existing key keeps its place, `delete` removes it.
 */
module JsObject {
  import opened Wrappers

  /** The keys in insertion order and the value of each. */
  datatype Record<V> = Record(keys: seq<string>, vals: map<string, V>)

  predicate Distinct(ks: seq<string>) {
    forall i, j :: 0 <= i < j < |ks| ==> ks[i] != ks[j]
  }

  /** Every object satisfies this: each own key listed once, nothing else listed. */
  ghost predicate Valid<V>(r: Record<V>) {
    && Distinct(r.keys)
    && (forall k :: k in r.vals <==> k in r.keys)
  }

  /** `{}` */
  function Empty<V>(): (r: Record<V>)
    ensures Valid(r) && r.keys == []
  {
    Record([], map[])
  }

  /** `{ [k]: v }` */
  function Single<V>(k: string, v: V): (r: Record<V>)
    ensures Valid(r) && r.keys == [k] && Get(r, k) == Some(v)
  {
    Record([k], map[k := v])
  }

  /** `o[k]`, `undefined` when `k` is not an own key. */
  function Get<V>(r: Record<V>, k: string): Option<V> {
    if k in r.vals then Some(r.vals[k]) else None
  }

  /** `o[k] = v`: a new key goes last, an existing key keeps its place. */
  function Set<V>(r: Record<V>, k: string, v: V): (r': Record<V>)
    requires Valid(r)
    ensures Valid(r')
    ensures k in r.vals ==> r'.keys == r.keys
    ensures k !in r.vals ==> r'.keys == r.keys + [k]
    ensures Get(r', k) == Some(v)
    ensures forall k' :: k' != k ==> Get(r', k') == Get(r, k')
  {
    Record(if k in r.vals then r.keys else r.keys + [k], r.vals[k := v])
  }

  /** `ks` without `k`, order kept. */
  function Without(ks: seq<string>, k: string): (r: seq<string>)
    ensures forall x :: x in r <==> x in ks && x != k
    ensures Distinct(ks) ==> Distinct(r)
    ensures k !in ks ==> r == ks
  {
    if |ks| == 0 then []
    else
      var rest := Without(ks[1..], k);
      assert Distinct(ks) ==> Distinct(ks[1..]) && ks[0] !in ks[1..];
      if ks[0] == k then rest else [ks[0]] + rest
  }

  /** `delete o[k]` */
  function Delete<V>(r: Record<V>, k: string): (r': Record<V>)
    requires Valid(r)
    ensures Valid(r')
    ensures r'.keys == Without(r.keys, k)
    ensures Get(r', k) == None
    ensures forall k' :: k' != k ==> Get(r', k') == Get(r, k')
  {
    Record(Without(r.keys, k), r.vals - {k})
  }

  /** The same keys, in the same order, each value passed through `f`. */
  function MapValues<U, V>(r: Record<U>, f: U -> V): (r': Record<V>)
    requires Valid(r)
    ensures Valid(r') && r'.keys == r.keys
    ensures forall k :: k in r.vals ==> Get(r', k) == Some(f(r.vals[k]))
  {
    Record(r.keys, map k | k in r.vals :: f(r.vals[k]))
  }

  /** `Object.entries(o)` */
  function Entries<V>(r: Record<V>): (es: seq<(string, V)>)
    requires Valid(r)
    ensures |es| == |r.keys|
    ensures forall i :: 0 <= i < |es| ==> es[i].0 == r.keys[i] && Get(r, es[i].0) == Some(es[i].1)
  {
    seq(|r.keys|, i requires 0 <= i < |r.keys| => (r.keys[i], r.vals[r.keys[i]]))
  }

  /** Assigns the first `n` keys of `s` onto `t`, in order. */
  function AssignPrefix<V>(t: Record<V>, s: Record<V>, n: nat): (r: Record<V>)
    requires Valid(t) && Valid(s) && n <= |s.keys|
    ensures Valid(r)
  {
    if n == 0 then t else Set(AssignPrefix(t, s, n - 1), s.keys[n - 1], s.vals[s.keys[n - 1]])
  }

  /** `Object.assign(t, s)`: each own key of `s`, in order, assigned onto `t`. */
  function Assign<V>(t: Record<V>, s: Record<V>): (r: Record<V>)
    requires Valid(t) && Valid(s)
    ensures Valid(r)
  {
    AssignPrefix(t, s, |s.keys|)
  }

  /** Assigning an empty object changes nothing; assigning a one-key object is one assignment. */
  lemma AssignSmall<V>(t: Record<V>, k: string, v: V)
    requires Valid(t)
    ensures Assign(t, Empty()) == t
    ensures Assign(t, Single(k, v)) == Set(t, k, v)
  {
    var s := Single(k, v);
    assert AssignPrefix(t, s, 0) == t;
    assert Assign(t, s) == Set(AssignPrefix(t, s, 0), k, v);
  }
}
