/** JavaScript's `Map`: a dictionary that also remembers insertion order.  Setting a key that is present keeps
    its place; deleting it and setting it again moves it to the end. */
module JsMap {
  import opened Octets

  type Entries<K, V> = seq<(K, V)>

  /** The dictionary without its order. */
  ghost function View<K, V>(m: Entries<K, V>): map<K, V> {
    if m == [] then map[] else View(m[1..])[m[0].0 := m[0].1]
  }

  ghost predicate Distinct<K, V>(m: Entries<K, V>) {
    m == [] || (m[0].0 !in View(m[1..]) && Distinct(m[1..]))
  }

  /** The keys in insertion order. */
  function Keys<K, V>(m: Entries<K, V>): (ks: seq<K>)
    ensures |ks| == |m|
    ensures (set k | k in ks) == View(m).Keys
  {
    if m == [] then [] else [m[0].0] + Keys(m[1..])
  }

  function Get<K(==), V>(m: Entries<K, V>, k: K): (r: Option<V>)
    ensures r == if k in View(m) then Some(View(m)[k]) else None
  {
    if m == [] then None else if m[0].0 == k then Some(m[0].1) else Get(m[1..], k)
  }

  function Set<K(==), V>(m: Entries<K, V>, k: K, v: V): (r: Entries<K, V>)
    ensures View(r) == View(m)[k := v]
    ensures Distinct(m) ==> Distinct(r)
  {
    if m == [] then [(k, v)]
    else if m[0].0 == k then [(k, v)] + m[1..]
    else [m[0]] + Set(m[1..], k, v)
  }

  function Delete<K(==), V>(m: Entries<K, V>, k: K): (r: Entries<K, V>)
    ensures Distinct(m) ==> Distinct(r) && View(r) == View(m) - {k}
  {
    if m == [] then m
    else if m[0].0 == k then m[1..]
    else [m[0]] + Delete(m[1..], k)
  }

  lemma {:induction false} SetAppends<K, V>(m: Entries<K, V>, k: K, v: V)
    ensures Keys(Set(m, k, v)) == if k in View(m) then Keys(m) else Keys(m) + [k]
  {
    if m != [] && m[0].0 != k {
      SetAppends(m[1..], k, v);
    }
  }

  lemma {:induction false} DeleteDrops<K, V>(m: Entries<K, V>, k: K)
    ensures Keys(Delete(m, k)) == Without(Keys(m), k)
  {
    if m != [] && m[0].0 != k {
      DeleteDrops(m[1..], k);
    }
  }

  /** A list without the first occurrence of `x`. */
  function Without<T(==)>(s: seq<T>, x: T): (r: seq<T>)
  {
    if s == [] then s
    else if s[0] == x then s[1..]
    else [s[0]] + Without(s[1..], x)
  }
}
