/** Plain JavaScript objects with string keys, as the form controller uses them.

    An object is an ordered association list: its entries in key-enumeration
    order. A well-formed object has each key at most once (`UniqueKeys`).
    `Put` is `{ ...m, [k]: v }` and `Spread` is `{ ...a, ...b }`: assigning an
    existing key keeps its position, a new key goes to the end.
 */
module JsObject {

  datatype Option<+T> = None | Some(value: T)

  type Entries<V> = seq<(string, V)>

  /** `m[k]` for an own key of `m`: `None` plays JavaScript's `undefined`.
      Keys inherited from `Object.prototype` (`constructor`, `toString`, ...)
      are not modelled: in JavaScript they read as inherited values. */
  function Get<V>(m: Entries<V>, k: string): Option<V>
  {
    if m == [] then None
    else if m[0].0 == k then Some(m[0].1)
    else Get(m[1..], k)
  }

  /** `Object.keys(m)`, as a set. */
  function Keys<V>(m: Entries<V>): (ks: set<string>)
    ensures forall k :: k in ks <==> Get(m, k).Some?
    ensures ks == {} <==> m == []
  {
    if m == [] then {} else {m[0].0} + Keys(m[1..])
  }

  predicate UniqueKeys<V>(m: Entries<V>)
  {
    m == [] || (m[0].0 !in Keys(m[1..]) && UniqueKeys(m[1..]))
  }

  /** `{ ...m, [k]: v }` */
  function Put<V>(m: Entries<V>, k: string, v: V): (r: Entries<V>)
    ensures Get(r, k) == Some(v)
    ensures forall k' :: k' != k ==> Get(r, k') == Get(m, k')
    ensures Keys(r) == Keys(m) + {k}
    ensures k !in Keys(m) ==> r == m + [(k, v)]
    ensures k in Keys(m) ==> |r| == |m| && forall i :: 0 <= i < |m| ==> r[i].0 == m[i].0
    ensures UniqueKeys(m) ==> UniqueKeys(r)
  {
    if m == [] then [(k, v)]
    else if m[0].0 == k then [(k, v)] + m[1..]
    else [m[0]] + Put(m[1..], k, v)
  }

  /** `{ ...a, ...b }`: the entries of `b`, in order, written over `a`. */
  function Spread<V>(a: Entries<V>, b: Entries<V>): (r: Entries<V>)
    requires UniqueKeys(b)
    ensures forall k :: Get(r, k) == if k in Keys(b) then Get(b, k) else Get(a, k)
    ensures Keys(r) == Keys(a) + Keys(b)
    ensures r == [] <==> a == [] && b == []
    ensures UniqueKeys(a) ==> UniqueKeys(r)
    ensures |a| <= |r| && forall i :: 0 <= i < |a| ==> r[i].0 == a[i].0
    decreases |b|
  {
    if b == [] then a else Spread(Put(a, b[0].0, b[0].1), b[1..])
  }

  /** Writing a key twice leaves the object as the later write alone does. */
  lemma {:induction false} PutTwice<V>(m: Entries<V>, k: string, v: V, w: V)
    ensures Put(Put(m, k, v), k, w) == Put(m, k, w)
  {
    if m != [] && m[0].0 != k {
      PutTwice(m[1..], k, v, w);
      assert Put(m, k, v) == [m[0]] + Put(m[1..], k, v);
      assert Put(m, k, v)[1..] == Put(m[1..], k, v);
    }
  }
}
