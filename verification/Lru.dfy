/** The cache of parsed keys in lib/crypto-worker.js: a `Map` of at most 64 entries in which a hit moves to the
    end and an insertion beyond the limit drops the front. */
module Lru {
  import opened Octets
  import opened JsMap
  import opened RsaCalls

  const LRU_MAX := 64

  // ----- Specification -----

  /** `lruGet` on a hit: delete and set again. */
  function Refresh<V>(m: Entries<string, V>, pem: string, v: V): Entries<string, V> {
    Set(Delete(m, pem), pem, v)
  }

  /** `lruSet`: the oldest key goes when there are too many. */
  function Add<V>(m: Entries<string, V>, pem: string, v: V): Entries<string, V> {
    var r := Set(m, pem, v);
    if |r| > LRU_MAX then Delete(r, r[0].0) else r
  }

  /** `getPub` and `getPriv`: the cache after asking for a key whose loading would give `loaded`. */
  function Access<V>(m: Entries<string, V>, pem: string, loaded: Loaded<V>): Entries<string, V> {
    match Get(m, pem)
    case Some(v) => Refresh(m, pem, v)
    case None => if loaded.Key? then Add(m, pem, loaded.k) else m
  }

  /** The cache after asking for these keys in order. */
  function After<V>(load: string -> Loaded<V>, pems: seq<string>): Entries<string, V> {
    if pems == [] then []
    else
      var pem := pems[|pems| - 1];
      Access(After(load, pems[..|pems| - 1]), pem, load(pem))
  }

  // ----- What the cache holds, said without the cache -----

  /** The distinct elements in the order of their last use. */
  function Recency<T(==)>(uses: seq<T>): seq<T> {
    if uses == [] then [] else Without(Recency(uses[..|uses| - 1]), uses[|uses| - 1]) + [uses[|uses| - 1]]
  }

  function LastOf<T>(s: seq<T>, n: nat): seq<T> {
    if |s| <= n then s else s[|s| - n..]
  }

  /** The elements used after the last use of `x`. */
  function UsedSince<T(==)>(uses: seq<T>, x: T): set<T> {
    if uses == [] || uses[|uses| - 1] == x then {} else UsedSince(uses[..|uses| - 1], x) + {uses[|uses| - 1]}
  }

  /** The uses of keys that can be loaded; asking for any other key fails and leaves no trace. */
  function Loadable<V>(load: string -> Loaded<V>, pems: seq<string>): seq<string> {
    if pems == [] then []
    else Loadable(load, pems[..|pems| - 1]) + if load(pems[|pems| - 1]).Key? then [pems[|pems| - 1]] else []
  }

  ghost predicate NoRepeats<T>(s: seq<T>) {
    forall i, j :: 0 <= i < j < |s| ==> s[i] != s[j]
  }

  /** Every entry is the key its PEM loads to. */
  ghost predicate Faithful<V>(m: Entries<string, V>, load: string -> Loaded<V>) {
    forall pem :: pem in View(m) ==> load(pem) == Key(View(m)[pem])
  }

  // ----- Lists without repeats -----

  lemma {:induction false} WithoutAppend<T>(a: seq<T>, b: seq<T>, x: T)
    ensures Without(a + b, x) == if x in a then Without(a, x) + b else a + Without(b, x)
  {
    if a == [] {
      assert a + b == b;
    } else if a[0] == x {
      assert (a + b)[1..] == a[1..] + b;
    } else {
      assert (a + b)[1..] == a[1..] + b;
      WithoutAppend(a[1..], b, x);
    }
  }

  lemma {:induction false} WithoutKeeps<T>(s: seq<T>, x: T)
    requires NoRepeats(s)
    ensures var r := Without(s, x);
            && NoRepeats(r) && (forall y :: y in r <==> y in s && y != x)
            && |r| == if x in s then |s| - 1 else |s|
  {
    if s != [] {
      var t := s[1..];
      assert forall i :: 0 <= i < |t| ==> t[i] == s[i + 1];
      WithoutKeeps(t, x);
      assert s[0] !in t;
    }
  }

  lemma {:induction false} RecencyKeeps<T>(uses: seq<T>)
    ensures NoRepeats(Recency(uses)) && forall x :: x in Recency(uses) <==> x in uses
  {
    if uses != [] {
      var before, x := uses[..|uses| - 1], uses[|uses| - 1];
      RecencyKeeps(before);
      WithoutKeeps(Recency(before), x);
    }
  }

  // ----- The cache is the end of the recency list -----

  lemma MemberIsKey<V>(m: Entries<string, V>, pem: string)
    ensures pem in View(m) <==> pem in Keys(m)
  {
  }

  lemma {:induction false} KeysDetermine<V>(m: Entries<string, V>)
    requires NoRepeats(Keys(m))
    ensures Distinct(m)
  {
    if m != [] {
      var ks, rest := Keys(m), Keys(m[1..]);
      assert ks == [m[0].0] + rest;
      assert forall i :: 0 <= i < |rest| ==> rest[i] == ks[i + 1];
      assert ks[0] !in rest;
      MemberIsKey(m[1..], m[0].0);
      KeysDetermine(m[1..]);
    }
  }

  lemma LastOfEnd<T>(a: seq<T>, b: seq<T>, n: nat)
    requires |b| >= n || a == []
    ensures LastOf(a + b, n) == LastOf(b, n)
  {
  }

  /** One use, as a change of the key list alone. */
  lemma OneUse(recent: seq<string>, x: string)
    requires NoRepeats(recent)
    ensures var kept, next := LastOf(recent, LRU_MAX), Without(recent, x) + [x];
            && (x in kept ==> LastOf(next, LRU_MAX) == Without(kept, x) + [x])
            && (x !in kept ==> LastOf(next, LRU_MAX) == LastOf(kept + [x], LRU_MAX))
  {
    hide Without;
    var kept := LastOf(recent, LRU_MAX);
    var dropped := recent[..|recent| - |kept|];
    assert recent == dropped + kept;
    WithoutAppend(dropped, kept, x);
    if x in kept {
      LastOfNoRepeats(recent, LRU_MAX);
      WithoutKeeps(kept, x);
      assert x !in dropped by {
        var j :| 0 <= j < |kept| && kept[j] == x;
        assert recent[|dropped| + j] == x;
      }
      assert (dropped + Without(kept, x)) + [x] == dropped + (Without(kept, x) + [x]);
      LastOfEnd(dropped, Without(kept, x) + [x], LRU_MAX);
    } else {
      WithoutAbsent(kept, x);
      var front := if x in dropped then Without(dropped, x) else dropped;
      assert dropped == [] ==> front == [];
      assert (front + kept) + [x] == front + (kept + [x]);
      LastOfEnd(front, kept + [x], LRU_MAX);
    }
  }

  lemma LastOfNoRepeats<T>(s: seq<T>, n: nat)
    requires NoRepeats(s)
    ensures NoRepeats(LastOf(s, n))
  {
  }

  lemma HitKeys<V>(m: Entries<string, V>, pem: string, v: V)
    requires NoRepeats(Keys(m)) && pem in Keys(m)
    ensures Keys(Refresh(m, pem, v)) == Without(Keys(m), pem) + [pem]
  {
    DeleteDrops(m, pem);
    WithoutKeeps(Keys(m), pem);
    MemberIsKey(Delete(m, pem), pem);
    SetAppends(Delete(m, pem), pem, v);
  }

  lemma MissKeys<V>(m: Entries<string, V>, pem: string, v: V)
    requires pem !in Keys(m) && |m| <= LRU_MAX
    ensures Keys(Add(m, pem, v)) == LastOf(Keys(m) + [pem], LRU_MAX)
  {
    hide Set, Delete;
    var r := Set(m, pem, v);
    MemberIsKey(m, pem);
    SetAppends(m, pem, v);
    if |r| > LRU_MAX {
      DeleteDrops(r, r[0].0);
      assert Keys(r)[0] == r[0].0;
      assert Without(Keys(r), r[0].0) == Keys(r)[1..];
    }
  }

  lemma AccessKeys<V>(m: Entries<string, V>, pem: string, loaded: Loaded<V>)
    requires NoRepeats(Keys(m)) && |m| <= LRU_MAX
    ensures var ks := Keys(Access(m, pem, loaded));
            ks == if pem in Keys(m) then Without(Keys(m), pem) + [pem]
                  else if loaded.LoadError? then Keys(m)
                  else LastOf(Keys(m) + [pem], LRU_MAX)
  {
    hide Refresh, Add;
    MemberIsKey(m, pem);
    var got := Get(m, pem);
    if got.Some? {
      HitKeys(m, pem, got.value);
    } else if loaded.Key? {
      MissKeys(m, pem, loaded.k);
    }
  }

  /** LRU exactness.  After any sequence of accesses, some of which may fail, the cache holds exactly the at most
      64 most recently used keys, in the order of their last use. */
  lemma {:induction false} CacheIsMostRecent<V>(load: string -> Loaded<V>, pems: seq<string>)
    ensures Keys(After(load, pems)) == LastOf(Recency(Loadable(load, pems)), 64)
    ensures NoRepeats(Keys(After(load, pems)))
    ensures Faithful(After(load, pems), load)
  {
    hide Access, LastOf, Faithful, NoRepeats;
    if pems == [] {
      NothingCached(load);
    } else {
      var before, pem := pems[..|pems| - 1], pems[|pems| - 1];
      var m, uses := After(load, before), Loadable(load, before);
      CacheIsMostRecent(load, before);
      RecencyKeeps(uses);
      KeptIsShort(m, Recency(uses));
      AccessKeys(m, pem, load(pem));
      AccessFaithful(m, pem, load);
      MemberIsKey(m, pem);
      OneUse(Recency(uses), pem);
      if load(pem).Key? {
        assert Loadable(load, pems)[..|uses|] == uses;
        assert Recency(Loadable(load, pems)) == Without(Recency(uses), pem) + [pem];
      } else {
        assert Loadable(load, pems) == uses;
      }
      RecencyKeeps(Loadable(load, pems));
      LastOfNoRepeats(Recency(Loadable(load, pems)), LRU_MAX);
    }
  }

  lemma NothingCached<V>(load: string -> Loaded<V>)
    ensures Keys<string, V>([]) == LastOf([], LRU_MAX) && NoRepeats(Keys<string, V>([])) && Faithful([], load)
  {
  }

  lemma KeptIsShort<V>(m: Entries<string, V>, recent: seq<string>)
    requires Keys(m) == LastOf(recent, LRU_MAX)
    ensures |m| <= LRU_MAX
  {
  }

  lemma AccessFaithful<V>(m: Entries<string, V>, pem: string, load: string -> Loaded<V>)
    requires Distinct(m) || NoRepeats(Keys(m))
    requires Faithful(m, load)
    ensures Faithful(Access(m, pem, load(pem)), load)
    ensures var got := Get(m, pem); got.Some? ==> load(pem) == Key(got.value)
    ensures Distinct(Access(m, pem, load(pem)))
  {
    if !Distinct(m) {
      KeysDetermine(m);
    }
  }

  // ----- When an access hits -----

  function Behind<T(==)>(s: seq<T>, x: T): seq<T> {
    if s == [] then [] else if s[0] == x then s[1..] else Behind(s[1..], x)
  }

  lemma {:induction false} BehindMoves<T>(s: seq<T>, x: T, y: T)
    requires NoRepeats(s) && x in s && y != x
    ensures Behind(Without(s, y) + [y], x) == Without(Behind(s, x), y) + [y]
  {
    var t := s[1..];
    assert forall i :: 0 <= i < |t| ==> t[i] == s[i + 1];
    if s[0] == x {
      assert Without(s, y) + [y] == [x] + (Without(t, y) + [y]);
    } else if s[0] == y {
      assert Without(s, y) == t;
      BehindAppend(t, x, y);
      assert y !in Behind(t, x) by { BehindIsPart(t, x); }
      WithoutAbsent(Behind(t, x), y);
    } else {
      assert Without(s, y) + [y] == [s[0]] + (Without(t, y) + [y]);
      BehindMoves(t, x, y);
    }
  }

  lemma {:induction false} BehindAppend<T>(s: seq<T>, x: T, y: T)
    requires x in s
    ensures Behind(s + [y], x) == Behind(s, x) + [y]
  {
    assert (s + [y])[1..] == s[1..] + [y];
    if s[0] != x {
      BehindAppend(s[1..], x, y);
    }
  }

  lemma {:induction false} BehindIsPart<T>(s: seq<T>, x: T)
    ensures forall y :: y in Behind(s, x) ==> y in s
    ensures |Behind(s, x)| <= |s|
    ensures NoRepeats(s) ==> NoRepeats(Behind(s, x))
  {
    if s != [] {
      assert forall i :: 0 <= i < |s[1..]| ==> s[1..][i] == s[i + 1];
      BehindIsPart(s[1..], x);
    }
  }

  lemma {:induction false} WithoutAbsent<T>(s: seq<T>, x: T)
    requires x !in s
    ensures Without(s, x) == s
  {
    if s != [] {
      WithoutAbsent(s[1..], x);
    }
  }

  lemma {:induction false} BehindInEnd<T>(s: seq<T>, x: T, n: nat)
    requires NoRepeats(s) && x in s
    ensures x in LastOf(s, n) <==> |Behind(s, x)| < n
  {
    var t := s[1..];
    assert forall i :: 0 <= i < |t| ==> t[i] == s[i + 1];
    BehindIsPart(t, x);
    if s[0] == x {
      assert x !in t;
      if |s| > n {
        assert s[|s| - n..] == t[|t| - n..];
      }
    } else {
      BehindInEnd(t, x, n);
      if |s| > n {
        assert s[|s| - n..] == t[|t| - n..];
      }
    }
  }

  lemma {:induction false} Cardinality<T>(s: seq<T>, all: set<T>)
    requires NoRepeats(s) && forall x :: x in s <==> x in all
    ensures |all| == |s|
  {
    if s == [] {
      assert all == {};
    } else {
      var t := s[1..];
      assert forall i :: 0 <= i < |t| ==> t[i] == s[i + 1];
      assert s == [s[0]] + t;
      Cardinality(t, all - {s[0]});
    }
  }

  /** Behind `x` in the recency list are exactly the elements used since. */
  lemma {:induction false} BehindIsUsedSince<T>(uses: seq<T>, x: T)
    requires x in uses
    ensures forall y :: y in Behind(Recency(uses), x) <==> y in UsedSince(uses, x)
  {
    var before, y := uses[..|uses| - 1], uses[|uses| - 1];
    assert uses == before + [y];
    RecencyKeeps(before);
    var r := Recency(before);
    WithoutKeeps(r, y);
    if y == x {
      BehindLast(Without(r, x), x);
    } else {
      BehindIsUsedSince(before, x);
      BehindMoves(r, x, y);
      BehindIsPart(r, x);
      WithoutKeeps(Behind(r, x), y);
    }
  }

  lemma {:induction false} BehindLast<T>(s: seq<T>, x: T)
    requires x !in s
    ensures Behind(s + [x], x) == []
  {
    if s != [] {
      assert (s + [x])[1..] == s[1..] + [x];
      BehindLast(s[1..], x);
    }
  }

  /** An access hits exactly when the key was used before and fewer than 64 other keys were used since. */
  lemma HitIff<V>(load: string -> Loaded<V>, pems: seq<string>, pem: string)
    ensures var uses := Loadable(load, pems);
            Get(After(load, pems), pem).Some? <==> pem in uses && |UsedSince(uses, pem)| < 64
  {
    var uses := Loadable(load, pems);
    CacheIsMostRecent(load, pems);
    MemberIsKey(After(load, pems), pem);
    RecencyKeeps(uses);
    var r := Recency(uses);
    if pem in uses {
      BehindInEnd(r, pem, LRU_MAX);
      BehindIsUsedSince(uses, pem);
      BehindIsPart(r, pem);
      Cardinality(Behind(r, pem), UsedSince(uses, pem));
    } else {
      assert pem !in LastOf(r, LRU_MAX);
    }
  }

  // ----- The object -----

  /** The `Map` of the source with `lruGet` and `lruSet`. */
  class LruCache<V> {
    var entries: Entries<string, V>

    constructor ()
      ensures entries == []
    {
      entries := [];
    }

    method LruGet(pem: string) returns (hit: Option<V>)
      modifies this
      ensures hit == Get(old(entries), pem)
      ensures entries == if hit.Some? then Refresh(old(entries), pem, hit.value) else old(entries)
    {
      hit := Get(entries, pem);
      if hit.Some? {
        entries := Delete(entries, pem);
        entries := Set(entries, pem, hit.value);
      }
    }

    method LruSet(pem: string, v: V)
      modifies this
      ensures entries == Add(old(entries), pem, v)
    {
      entries := Set(entries, pem, v);
      if |entries| > LRU_MAX {
        var oldest := entries[0].0;
        entries := Delete(entries, oldest);
      }
    }
  }
}
