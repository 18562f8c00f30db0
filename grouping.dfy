/** Grouping a sequence by key, the way a JavaScript `Map` that is filled in a
    loop groups it: keys in order of first insertion, values per key in
    encounter order. Keys and values are given as two parallel sequences. */
module Grouping {

  /** No element occurs twice. */
  predicate Distinct<K(==,!new)>(s: seq<K>) {
    forall i, j :: 0 <= i < j < |s| ==> s[i] != s[j]
  }

  /** Index of the first occurrence of `x` in `s`. */
  function IndexOf<K(==,!new)>(s: seq<K>, x: K): (i: nat)
    requires x in s
    ensures i < |s| && s[i] == x && x !in s[..i]
  {
    if s[0] == x then 0 else 1 + IndexOf(s[1..], x)
  }

  /** The distinct keys of `keys`, in order of first appearance. */
  function FirstSeen<K(==,!new)>(keys: seq<K>): (r: seq<K>)
    ensures forall k :: k in r <==> k in keys
    ensures Distinct(r)
  {
    if keys == [] then []
    else
      var prior := FirstSeen(keys[..|keys| - 1]);
      var k := keys[|keys| - 1];
      if k in prior then prior else prior + [k]
  }

  /** The values whose key is `k`, in encounter order. */
  function Select<K(==,!new), V(!new)>(keys: seq<K>, vals: seq<V>, k: K): (r: seq<V>)
    requires |keys| == |vals|
    ensures |r| <= |vals|
    ensures forall v :: v in r ==> v in vals
  {
    if keys == [] then []
    else
      var rest := Select(keys[..|keys| - 1], vals[..|vals| - 1], k);
      if keys[|keys| - 1] == k then rest + [vals[|vals| - 1]] else rest
  }

  function Sum(xs: seq<nat>): nat {
    if xs == [] then 0 else Sum(xs[..|xs| - 1]) + xs[|xs| - 1]
  }

  /** For each key of `ks`, the sum of the values selected by it. */
  function GroupSums<K(==,!new)>(keys: seq<K>, vals: seq<nat>, ks: seq<K>): (r: seq<nat>)
    requires |keys| == |vals|
    ensures |r| == |ks|
    ensures forall i :: 0 <= i < |ks| ==> r[i] == Sum(Select(keys, vals, ks[i]))
  {
    if ks == [] then []
    else GroupSums(keys, vals, ks[..|ks| - 1]) + [Sum(Select(keys, vals, ks[|ks| - 1]))]
  }

  lemma {:induction false} SumAppend(xs: seq<nat>, ys: seq<nat>)
    ensures Sum(xs + ys) == Sum(xs) + Sum(ys)
    decreases |ys|
  {
    if ys == [] {
      assert xs + ys == xs;
    } else {
      assert (xs + ys)[..|xs + ys| - 1] == xs + ys[..|ys| - 1];
      SumAppend(xs, ys[..|ys| - 1]);
    }
  }

  /** A key that never occurs selects nothing. */
  lemma {:induction false} SelectAbsent<K(!new), V(!new)>(keys: seq<K>, vals: seq<V>, k: K)
    requires |keys| == |vals| && k !in keys
    ensures Select(keys, vals, k) == []
  {
    if keys != [] {
      assert keys[..|keys| - 1] <= keys;
      SelectAbsent(keys[..|keys| - 1], vals[..|vals| - 1], k);
    }
  }

  /** Appending one keyed value changes only that key's group. */
  lemma SelectSnoc<K(!new), V(!new)>(keys: seq<K>, vals: seq<V>, k: K, v: V, k': K)
    requires |keys| == |vals|
    ensures Select(keys + [k], vals + [v], k') ==
            if k == k' then Select(keys, vals, k') + [v] else Select(keys, vals, k')
  {
    assert (keys + [k])[..|keys|] == keys;
    assert (vals + [v])[..|vals|] == vals;
  }

  /** Adding `v` under key `k` raises the group sums by `v` exactly where `k` occurs. */
  lemma {:induction false} GroupSumsSnoc<K(!new)>(keys: seq<K>, vals: seq<nat>, k: K, v: nat, ks: seq<K>)
    requires |keys| == |vals| && Distinct(ks)
    ensures Sum(GroupSums(keys + [k], vals + [v], ks)) ==
            Sum(GroupSums(keys, vals, ks)) + (if k in ks then v else 0)
    decreases |ks|
  {
    if ks != [] {
      var init := ks[..|ks| - 1];
      var last := ks[|ks| - 1];
      assert ks == init + [last];
      GroupSumsSnoc(keys, vals, k, v, init);
      SelectSnoc(keys, vals, k, v, last);
      if k == last {
        SumAppend(Select(keys, vals, last), [v]);
        assert k !in init;
      } else {
        assert k in ks <==> k in init;
      }
    }
  }

  /** Grouping neither loses nor invents weight: the group sums add up to the total. */
  lemma {:induction false} GroupSumsTotal<K(!new)>(keys: seq<K>, vals: seq<nat>)
    requires |keys| == |vals|
    ensures Sum(GroupSums(keys, vals, FirstSeen(keys))) == Sum(vals)
    decreases |keys|
  {
    if keys != [] {
      var keys0, vals0 := keys[..|keys| - 1], vals[..|vals| - 1];
      var k, v := keys[|keys| - 1], vals[|vals| - 1];
      assert keys == keys0 + [k] && vals == vals0 + [v];
      var prior := FirstSeen(keys0);
      GroupSumsTotal(keys0, vals0);
      GroupSumsSnoc(keys0, vals0, k, v, prior);
      if k !in prior {
        NewGroupSum(keys0, vals0, k, v, prior);
      }
    }
  }

  /** A key seen for the first time forms a group of its own value. */
  lemma NewGroupSum<K(!new)>(keys: seq<K>, vals: seq<nat>, k: K, v: nat, prior: seq<K>)
    requires |keys| == |vals| && k !in keys
    ensures Sum(GroupSums(keys + [k], vals + [v], prior + [k])) ==
            Sum(GroupSums(keys + [k], vals + [v], prior)) + v
  {
    var keys', vals' := keys + [k], vals + [v];
    assert (prior + [k])[..|prior|] == prior;
    SelectAbsent(keys, vals, k);
    SelectSnoc(keys, vals, k, v, k);
    assert Select(keys', vals', k) == [v];
    assert Sum([v]) == v;
  }

  /** Keys appear in the order of their first occurrence. */
  lemma {:induction false} FirstSeenOrder<K(!new)>(keys: seq<K>, i: nat, j: nat)
    requires i < j < |FirstSeen(keys)|
    ensures IndexOf(keys, FirstSeen(keys)[i]) < IndexOf(keys, FirstSeen(keys)[j])
    decreases |keys|
  {
    var keys0 := keys[..|keys| - 1];
    var k := keys[|keys| - 1];
    var prior := FirstSeen(keys0);
    var r := FirstSeen(keys);
    assert r[i] in keys0 by {
      assert i < |prior|;
      assert r[i] in prior;
    }
    IndexOfPrefix(keys, |keys| - 1, r[i]);
    if j < |prior| {
      assert r[j] == prior[j] && r[i] == prior[i];
      IndexOfPrefix(keys, |keys| - 1, r[j]);
      FirstSeenOrder(keys0, i, j);
    } else {
      assert r[j] == k && k !in keys0;
    }
  }

  /** The first occurrence of an element of a prefix lies in that prefix. */
  lemma {:induction false} IndexOfPrefix<K(!new)>(s: seq<K>, n: nat, x: K)
    requires n <= |s| && x in s[..n]
    ensures IndexOf(s, x) == IndexOf(s[..n], x)
  {
    if s[0] != x {
      assert s[1..][..n - 1] == s[..n][1..];
      IndexOfPrefix(s[1..], n - 1, x);
    }
  }
}
