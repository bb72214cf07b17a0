/** The JavaScript Map: lookups by key, iteration in insertion order.
    Setting a key that is present keeps its place; deleting and setting moves it to the end. */
module OrderedMap {

  datatype Rep<K(==,!new), V> = Rep(keys: seq<K>, vals: map<K, V>)

  ghost predicate Distinct<K(!new)>(s: seq<K>) {
    forall i, j :: 0 <= i < j < |s| ==> s[i] != s[j]
  }

  ghost predicate Consistent<K(!new), V>(m: Rep<K, V>) {
    Distinct(m.keys) && forall k :: k in m.keys <==> k in m.vals
  }

  type OrderedMap<K(==,!new), V> = m: Rep<K, V> | Consistent(m) ghost witness Rep([], map[])

  function Empty<K(!new), V>(): (m: OrderedMap<K, V>) {
    Rep([], map[])
  }

  function Set<K(==,!new), V>(m: OrderedMap<K, V>, k: K, v: V): (r: OrderedMap<K, V>)
    ensures r.vals == m.vals[k := v]
    ensures r.keys == if k in m.vals then m.keys else m.keys + [k]
  {
    var r := Rep(if k in m.vals then m.keys else m.keys + [k], m.vals[k := v]);
    assert Consistent(r);
    r
  }

  /** The keys of `s` that belong to `keep`, in their order. */
  function Keep<K(==,!new)>(s: seq<K>, keep: set<K>): (r: seq<K>)
    ensures forall k :: k in r <==> k in s && k in keep
    ensures |r| <= |s|
    ensures Distinct(s) ==> Distinct(r)
  {
    if s == [] then []
    else
      var rest := Keep(s[1..], keep);
      if s[0] in keep then
        assert forall i {:trigger ([s[0]] + rest)[i]} :: 0 < i <= |rest| ==> ([s[0]] + rest)[i] in rest;
        assert Distinct(s) ==> s[0] !in s[1..];
        [s[0]] + rest
      else rest
  }

  /** The entries whose key is in `keep`; what is left after deleting the others one by one. */
  function Restrict<K(==,!new), V>(m: OrderedMap<K, V>, keep: set<K>): (r: OrderedMap<K, V>)
    ensures r.vals.Keys == m.vals.Keys * keep
    ensures forall k :: k in r.vals ==> r.vals[k] == m.vals[k]
    ensures r.keys == Keep(m.keys, keep)
  {
    Rep(Keep(m.keys, keep), map k | k in m.vals && k in keep :: m.vals[k])
  }

  function Delete<K(==,!new), V>(m: OrderedMap<K, V>, k: K): (r: OrderedMap<K, V>)
    ensures r == Restrict(m, m.vals.Keys - {k})
  {
    Restrict(m, m.vals.Keys - {k})
  }

  lemma {:induction false} KeepAll<K(!new)>(s: seq<K>, keep: set<K>)
    requires forall k :: k in s ==> k in keep
    ensures Keep(s, keep) == s
  {
    if s != [] {
      KeepAll(s[1..], keep);
    }
  }

  lemma {:induction false} KeepNone<K(!new)>(s: seq<K>, keep: set<K>)
    requires forall k :: k in s ==> k !in keep
    ensures Keep(s, keep) == []
  {
    if s != [] {
      KeepNone(s[1..], keep);
    }
  }

  lemma {:induction false} KeepTwice<K(!new)>(s: seq<K>, a: set<K>, b: set<K>)
    ensures Keep(Keep(s, a), b) == Keep(s, a * b)
  {
    if s != [] {
      KeepTwice(s[1..], a, b);
      if s[0] in a {
        assert Keep(s, a)[0] == s[0] && Keep(s, a)[1..] == Keep(s[1..], a);
      }
    }
  }

  lemma KeepCons<K(!new)>(k: K, s: seq<K>, keep: set<K>)
    ensures Keep([k] + s, keep) == (if k in keep then [k] else []) + Keep(s, keep)
  {
    assert ([k] + s)[1..] == s;
  }

  lemma {:induction false} KeepConcat<K(!new)>(s: seq<K>, t: seq<K>, keep: set<K>)
    ensures Keep(s + t, keep) == Keep(s, keep) + Keep(t, keep)
  {
    if s == [] {
      assert s + t == t;
    } else {
      var head := if s[0] in keep then [s[0]] else [];
      calc {
        Keep(s + t, keep);
        { assert s + t == [s[0]] + (s[1..] + t); KeepCons(s[0], s[1..] + t, keep); }
        head + Keep(s[1..] + t, keep);
        { KeepConcat(s[1..], t, keep); }
        head + (Keep(s[1..], keep) + Keep(t, keep));
        (head + Keep(s[1..], keep)) + Keep(t, keep);
        { assert s == [s[0]] + s[1..]; KeepCons(s[0], s[1..], keep); }
        Keep(s, keep) + Keep(t, keep);
      }
    }
  }

  /** Only membership of the listed keys matters. */
  lemma {:induction false} KeepSame<K(!new)>(s: seq<K>, a: set<K>, b: set<K>)
    requires forall k :: k in s ==> (k in a <==> k in b)
    ensures Keep(s, a) == Keep(s, b)
  {
    if s != [] {
      KeepSame(s[1..], a, b);
    }
  }

  lemma RestrictTwice<K(!new), V>(m: OrderedMap<K, V>, a: set<K>, b: set<K>)
    ensures Restrict(Restrict(m, a), b) == Restrict(m, a * b)
  {
    KeepTwice(m.keys, a, b);
  }

  lemma RestrictAll<K(!new), V>(m: OrderedMap<K, V>, keep: set<K>)
    requires m.vals.Keys <= keep
    ensures Restrict(m, keep) == m
  {
    KeepAll(m.keys, keep);
  }

  lemma RestrictSame<K(!new), V>(m: OrderedMap<K, V>, a: set<K>, b: set<K>)
    requires m.vals.Keys * a == m.vals.Keys * b
    ensures Restrict(m, a) == Restrict(m, b)
  {
    forall k | k in m.keys ensures k in a <==> k in b {
      assert k in m.vals.Keys * a <==> k in m.vals.Keys * b;
    }
    KeepSame(m.keys, a, b);
  }

  /** Deleting the first key leaves the tail of the order. */
  lemma DeleteFirst<K(!new), V>(m: OrderedMap<K, V>)
    requires m.keys != []
    ensures Delete(m, m.keys[0]).keys == m.keys[1..]
  {
    var keep := m.vals.Keys - {m.keys[0]};
    forall k | k in m.keys[1..] ensures k in keep {
      var i :| 0 <= i < |m.keys[1..]| && m.keys[1..][i] == k;
      assert m.keys[i + 1] == k && m.keys[0] != k;
    }
    KeepAll(m.keys[1..], keep);
  }

  lemma DeleteTwice<K(!new), V>(m: OrderedMap<K, V>, keep: set<K>, k: K)
    ensures Delete(Restrict(m, keep), k) == Restrict(m, keep - {k})
  {
    RestrictTwice(m, keep, Restrict(m, keep).vals.Keys - {k});
    RestrictSame(m, keep * (Restrict(m, keep).vals.Keys - {k}), keep - {k});
  }

  lemma CountIsKeys<K(!new), V>(m: OrderedMap<K, V>)
    ensures |m.keys| == |m.vals|
  {
    DistinctCount(m.keys);
    assert (set k | k in m.keys) == m.vals.Keys;
  }

  lemma {:induction false} DistinctCount<K(!new)>(s: seq<K>)
    requires Distinct(s)
    ensures |set k | k in s| == |s|
  {
    if s != [] {
      DistinctCount(s[1..]);
      assert (set k | k in s) == (set k | k in s[1..]) + {s[0]};
      assert s[0] !in s[1..];
    }
  }

  ghost predicate Ascending<K(!new)>(s: seq<K>, rank: K -> int) {
    forall i, j :: 0 <= i < j < |s| ==> rank(s[i]) < rank(s[j])
  }

  lemma AscendingTail<K(!new)>(s: seq<K>, n: nat, rank: K -> int)
    requires Ascending(s, rank) && n <= |s|
    ensures Ascending(s[n..], rank)
  {
    forall i, j | 0 <= i < j < |s[n..]| ensures rank(s[n..][i]) < rank(s[n..][j]) {
      assert s[n..][i] == s[n + i] && s[n..][j] == s[n + j];
    }
  }

  lemma {:induction false} KeepAscending<K(!new)>(s: seq<K>, keep: set<K>, rank: K -> int)
    requires Ascending(s, rank)
    ensures Ascending(Keep(s, keep), rank)
  {
    if s != [] {
      AscendingTail(s, 1, rank);
      KeepAscending(s[1..], keep, rank);
      var rest := Keep(s[1..], keep);
      if s[0] in keep {
        var all := [s[0]] + rest;
        forall i, j | 0 <= i < j < |all| ensures rank(all[i]) < rank(all[j]) {
          if i == 0 {
            assert all[j] == rest[j - 1] && rest[j - 1] in s[1..];
            var n :| 0 <= n < |s[1..]| && s[1..][n] == all[j];
            assert s[n + 1] == all[j];
          } else {
            assert all[i] == rest[i - 1] && all[j] == rest[j - 1];
          }
        }
      }
    }
  }
}
