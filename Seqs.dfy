/** Sequence helpers: first-seen-order de-duplication (an insertion-ordered `Set`),
  * order-preserving filters and the sub-sequence relation. */
module Seqs {

  /** No element occurs twice. */
  predicate NoDup<T(==)>(s: seq<T>) {
    forall i, j :: 0 <= i < j < |s| ==> s[i] != s[j]
  }

  /** The index of the first occurrence of `x` in `s`. */
  function FirstIndex<T(==)>(s: seq<T>, x: T): (k: nat)
    requires x in s
    ensures k < |s| && s[k] == x
    ensures forall i :: 0 <= i < k ==> s[i] != x
  {
    if s[0] == x then 0 else 1 + FirstIndex(s[1..], x)
  }

  /** `a` is obtained from `b` by deleting elements, keeping the order of the rest. */
  predicate IsSubsequence<T(==)>(a: seq<T>, b: seq<T>)
    decreases |b|
  {
    |a| <= |b| &&
    (a == [] || (if a[0] == b[0] then IsSubsequence(a[1..], b[1..]) else IsSubsequence(a, b[1..])))
  }

  /** `Array.from(new Set(s))`: each element once, in the order it was first seen. */
  function Distinct<T(==)>(s: seq<T>): seq<T>
  {
    if s == [] then []
    else
      var d := Distinct(s[..|s| - 1]);
      if s[|s| - 1] in d then d else d + [s[|s| - 1]]
  }

  /** `distinct.push(x)` on an insertion-ordered set. */
  function SetAdd<T(==)>(s: seq<T>, x: T): seq<T> {
    if x in s then s else s + [x]
  }

  /** `s.filter(p)` */
  function Filter<T>(s: seq<T>, p: T -> bool): seq<T>
  {
    if s == [] then [] else (if p(s[0]) then [s[0]] else []) + Filter(s[1..], p)
  }

  /** `s.filter(x => x !== y)`: the `delete` of an insertion-ordered set. */
  function Remove<T(==)>(s: seq<T>, y: T): seq<T>
  {
    if s == [] then [] else (if s[0] != y then [s[0]] else []) + Remove(s[1..], y)
  }

  /** `ss.flat()` */
  function Flatten<T>(ss: seq<seq<T>>): seq<T>
  {
    if ss == [] then [] else ss[0] + Flatten(ss[1..])
  }

  lemma {:induction false} FirstIndexPrefix<T>(s: seq<T>, t: seq<T>, x: T)
    requires x in s
    ensures x in s + t && FirstIndex(s + t, x) == FirstIndex(s, x)
  {
    if s[0] != x {
      assert (s + t)[1..] == s[1..] + t;
      FirstIndexPrefix(s[1..], t, x);
    }
  }

  /** Distinct keeps exactly the elements of its input. */
  lemma {:induction false} DistinctMembers<T>(s: seq<T>)
    ensures forall x :: x in Distinct(s) <==> x in s
  {
    if s != [] {
      var n := |s| - 1;
      DistinctMembers(s[..n]);
      assert s == s[..n] + [s[n]];
    }
  }

  /** Distinct keeps exactly the elements of its input, each once, ordered by first occurrence. */
  lemma DistinctSpec<T>(s: seq<T>)
    ensures NoDup(Distinct(s))
    ensures forall x :: x in Distinct(s) <==> x in s
    ensures forall i, j :: 0 <= i < j < |Distinct(s)| ==>
      FirstIndex(s, Distinct(s)[i]) < FirstIndex(s, Distinct(s)[j])
  {
    DistinctMembers(s);
    DistinctNoDup(s);
    DistinctOrder(s);
    assert InFirstSeenOrder(Distinct(s), s);
  }

  lemma {:induction false} DistinctNoDup<T>(s: seq<T>)
    ensures NoDup(Distinct(s))
  {
    if s != [] {
      var init, x := s[..|s| - 1], s[|s| - 1];
      DistinctNoDup(init);
      var d := Distinct(init);
      if x !in d {
        assert forall i :: 0 <= i < |d| ==> (d + [x])[i] == d[i];
      }
    }
  }

  /** Each element of `r` occurs in `s`, and earlier elements of `r` occur earlier in `s`. */
  predicate InFirstSeenOrder<T(==)>(r: seq<T>, s: seq<T>) {
    forall i, j :: 0 <= i < j < |r| ==> r[i] in s && r[j] in s && FirstIndex(s, r[i]) < FirstIndex(s, r[j])
  }

  lemma {:induction false} DistinctOrder<T>(s: seq<T>)
    ensures InFirstSeenOrder(Distinct(s), s)
  {
    if s != [] {
      var init, x := s[..|s| - 1], s[|s| - 1];
      DistinctOrder(init);
      DistinctMembers(init);
      assert s == init + [x];
      var d, r := Distinct(init), Distinct(s);
      assert r == (if x in d then d else d + [x]);
      forall i, j | 0 <= i < j < |r| ensures r[i] in s && r[j] in s && FirstIndex(s, r[i]) < FirstIndex(s, r[j]) {
        DistinctStep(s, init, d, x, r, i, j);
      }
      assert InFirstSeenOrder(r, s);
    }
  }

  /** The inductive step of `DistinctOrder` for one pair of positions. */
  lemma DistinctStep<T>(s: seq<T>, init: seq<T>, d: seq<T>, x: T, r: seq<T>, i: int, j: int)
    requires s == init + [x] && r == (if x in d then d else d + [x])
    requires forall y :: y in d <==> y in init
    requires InFirstSeenOrder(d, init)
    requires 0 <= i < j < |r|
    ensures r[i] in s && r[j] in s && FirstIndex(s, r[i]) < FirstIndex(s, r[j])
  {
    assert r[i] == d[i] && d[i] in d;
    FirstIndexPrefix(init, [x], d[i]);
    if j < |d| {
      assert r[j] == d[j] && d[j] in d;
      FirstIndexPrefix(init, [x], d[j]);
    } else {
      assert r[j] == x && x !in init;
      assert FirstIndex(s, x) == |init|;
    }
  }

  /** Distinct of a duplicate-free sequence is that sequence. */
  lemma {:induction false} DistinctOfNoDup<T>(s: seq<T>)
    requires NoDup(s)
    ensures Distinct(s) == s
  {
    if s != [] {
      var n := |s| - 1;
      assert NoDup(s[..n]);
      DistinctOfNoDup(s[..n]);
      assert s[n] !in s[..n];
      assert s[..n] + [s[n]] == s;
    }
  }

  /** De-duplicating twice is de-duplicating once. */
  lemma DistinctIdempotent<T>(s: seq<T>)
    ensures Distinct(Distinct(s)) == Distinct(s)
  {
    DistinctSpec(s);
    DistinctOfNoDup(Distinct(s));
  }

  /** Adding to an insertion-ordered set keeps it duplicate-free and adds exactly `x`. */
  lemma SetAddSpec<T>(s: seq<T>, x: T)
    requires NoDup(s)
    ensures NoDup(SetAdd(s, x))
    ensures forall y :: y in SetAdd(s, x) <==> y in s || y == x
    ensures SetAdd(s, x)[..|s|] == s
  {
  }

  /** Distinct of `s + [x]` is one `SetAdd` step after Distinct of `s`. */
  lemma DistinctSnoc<T>(s: seq<T>, x: T)
    ensures Distinct(s + [x]) == SetAdd(Distinct(s), x)
  {
    assert (s + [x])[..|s|] == s;
    DistinctSpec(s);
  }

  /** A filter keeps exactly the elements satisfying the predicate, in their original order. */
  lemma {:induction false} FilterSpec<T>(s: seq<T>, p: T -> bool)
    ensures forall x :: x in Filter(s, p) <==> x in s && p(x)
    ensures IsSubsequence(Filter(s, p), s)
    ensures |Filter(s, p)| <= |s|
  {
    if s != [] {
      FilterSpec(s[1..], p);
      var r := Filter(s, p);
      var rest := Filter(s[1..], p);
      if p(s[0]) {
        assert r == [s[0]] + rest && r[1..] == rest;
      } else {
        assert r == rest;
      }
      forall x ensures x in r <==> x in s && p(x) {
        assert x in s <==> x == s[0] || x in s[1..];
      }
    }
  }

  /** A predicate that holds everywhere keeps the whole sequence. */
  lemma {:induction false} FilterAll<T>(s: seq<T>, p: T -> bool)
    requires forall x :: x in s ==> p(x)
    ensures Filter(s, p) == s
  {
    if s != [] {
      FilterAll(s[1..], p);
      assert [s[0]] + s[1..] == s;
    }
  }

  /** Filter distributes over concatenation. */
  lemma {:induction false} FilterAppend<T>(s: seq<T>, t: seq<T>, p: T -> bool)
    ensures Filter(s + t, p) == Filter(s, p) + Filter(t, p)
  {
    if s == [] {
      assert s + t == t;
    } else {
      var st := s + t;
      assert st != [] && st[0] == s[0] && st[1..] == s[1..] + t;
      FilterAppend(s[1..], t, p);
      var h := if p(s[0]) then [s[0]] else [];
      assert Filter(st, p) == h + Filter(s[1..] + t, p);
      assert Filter(s, p) == h + Filter(s[1..], p);
    }
  }

  /** `Remove` deletes exactly the occurrences of `y`. */
  lemma {:induction false} RemoveSpec<T>(s: seq<T>, y: T)
    ensures forall x :: x in Remove(s, y) <==> x in s && x != y
    ensures NoDup(s) ==> NoDup(Remove(s, y))
    ensures IsSubsequence(Remove(s, y), s)
  {
    if s != [] {
      RemoveSpec(s[1..], y);
      var rest := Remove(s[1..], y);
      var r := Remove(s, y);
      if s[0] != y {
        assert r == [s[0]] + rest && r[1..] == rest;
        if NoDup(s) {
          assert NoDup(s[1..]);
          assert s[0] !in s[1..];
        }
      } else {
        assert r == rest;
        if NoDup(s) { assert NoDup(s[1..]); }
        if r != [] { assert r[0] in rest; }
      }
      forall x ensures x in r <==> x in s && x != y {
        assert x in s <==> x == s[0] || x in s[1..];
      }
    }
  }

  /** Every element of a flattened sequence comes from one of its parts, and back. */
  lemma {:induction false} FlattenMember<T>(ss: seq<seq<T>>, x: T)
    ensures x in Flatten(ss) <==> exists i :: 0 <= i < |ss| && x in ss[i]
  {
    if ss != [] {
      FlattenMember(ss[1..], x);
      if x in Flatten(ss[1..]) {
        var i :| 0 <= i < |ss[1..]| && x in ss[1..][i];
        assert x in ss[i + 1];
      }
      if exists i :: 0 <= i < |ss| && x in ss[i] {
        var i :| 0 <= i < |ss| && x in ss[i];
        if i > 0 { assert x in ss[1..][i - 1]; }
      }
    }
  }
  /** Flatten distributes over concatenation. */
  lemma {:induction false} FlattenAppend<T>(a: seq<seq<T>>, b: seq<seq<T>>)
    ensures Flatten(a + b) == Flatten(a) + Flatten(b)
  {
    if a == [] {
      assert a + b == b;
    } else {
      assert (a + b)[1..] == a[1..] + b;
      FlattenAppend(a[1..], b);
    }
  }

  /** Element `j` of part `i` sits in the flattened sequence right after the parts before `i`. */
  lemma FlattenIndex<T>(ss: seq<seq<T>>, i: int, j: int)
    requires 0 <= i < |ss| && 0 <= j < |ss[i]|
    ensures |Flatten(ss[..i])| + j < |Flatten(ss)|
    ensures Flatten(ss)[|Flatten(ss[..i])| + j] == ss[i][j]
  {
    assert ss == ss[..i] + ss[i..];
    FlattenAppend(ss[..i], ss[i..]);
    assert Flatten(ss[i..]) == ss[i] + Flatten(ss[i + 1..]) by {
      assert ss[i..][1..] == ss[i + 1..];
    }
  }

  /** `new Map(pairs)`: a later pair for the same key overwrites an earlier one. */
  function ToMap<K, V>(pairs: seq<(K, V)>): map<K, V>
  {
    if pairs == [] then map[]
    else ToMap(pairs[..|pairs| - 1])[pairs[|pairs| - 1].0 := pairs[|pairs| - 1].1]
  }

  /** No pair after index `i` has the key of pair `i`. */
  predicate LastKey<K(==), V>(pairs: seq<(K, V)>, i: int)
    requires 0 <= i < |pairs|
  {
    forall j :: i < j < |pairs| ==> pairs[j].0 != pairs[i].0
  }

  /** The map built from pairs has exactly their keys, and the value of a key is the one the
    * last pair with that key carries. */
  lemma ToMapSpec<K, V>(pairs: seq<(K, V)>)
    ensures forall k :: k in ToMap(pairs) <==> exists i :: 0 <= i < |pairs| && pairs[i].0 == k
    ensures forall k :: k in ToMap(pairs) ==>
      exists i :: 0 <= i < |pairs| && pairs[i] == (k, ToMap(pairs)[k]) && LastKey(pairs, i)
  {
    ToMapKeys(pairs);
    ToMapLast(pairs);
  }

  lemma {:induction false} ToMapKeys<K, V>(pairs: seq<(K, V)>)
    ensures forall k :: k in ToMap(pairs) <==> exists i :: 0 <= i < |pairs| && pairs[i].0 == k
  {
    if pairs != [] {
      var n := |pairs| - 1;
      var init := pairs[..n];
      ToMapKeys(init);
      forall k ensures k in ToMap(pairs) <==> exists i :: 0 <= i < |pairs| && pairs[i].0 == k {
        if exists i :: 0 <= i < |pairs| && pairs[i].0 == k {
          var i :| 0 <= i < |pairs| && pairs[i].0 == k;
          if i < n { assert init[i].0 == k; }
        }
        if k in ToMap(init) {
          var i :| 0 <= i < |init| && init[i].0 == k;
          assert pairs[i].0 == k;
        }
      }
    }
  }

  lemma {:induction false} ToMapLast<K, V>(pairs: seq<(K, V)>)
    ensures forall k :: k in ToMap(pairs) ==>
      exists i :: 0 <= i < |pairs| && pairs[i] == (k, ToMap(pairs)[k]) && LastKey(pairs, i)
  {
    if pairs != [] {
      var n := |pairs| - 1;
      var init := pairs[..n];
      ToMapLast(init);
      forall k | k in ToMap(pairs)
        ensures exists i :: 0 <= i < |pairs| && pairs[i] == (k, ToMap(pairs)[k]) && LastKey(pairs, i)
      {
        if k == pairs[n].0 {
          assert pairs[n] == (k, ToMap(pairs)[k]);
          assert LastKey(pairs, n);
        } else {
          assert k in ToMap(init) && ToMap(pairs)[k] == ToMap(init)[k];
          var i :| 0 <= i < |init| && init[i] == (k, ToMap(init)[k]) && LastKey(init, i);
          assert pairs[i] == (k, ToMap(pairs)[k]);
          assert LastKey(pairs, i);
        }
      }
    }
  }

  /** A filter keeps the relative order of first occurrences. */
  lemma {:induction false} FilterFirstIndex<T>(s: seq<T>, p: T -> bool, x: T, y: T)
    requires x in Filter(s, p) && y in Filter(s, p)
    requires FirstIndex(Filter(s, p), x) < FirstIndex(Filter(s, p), y)
    ensures x in s && y in s && FirstIndex(s, x) < FirstIndex(s, y)
  {
    FilterSpec(s, p);
    var f := Filter(s, p);
    var rest := Filter(s[1..], p);
    if s[0] != x && s[0] != y {
      FilterSpec(s[1..], p);
      if p(s[0]) {
        assert f == [s[0]] + rest;
        assert FirstIndex(f, x) == 1 + FirstIndex(rest, x);
        assert FirstIndex(f, y) == 1 + FirstIndex(rest, y);
      } else {
        assert f == rest;
      }
      FilterFirstIndex(s[1..], p, x, y);
    }
  }

  /** A duplicate-free sequence has as many elements as the set of its elements: the `size` of
    * the `Set` it stands for. */
  lemma {:induction false} NoDupCard<T>(s: seq<T>)
    requires NoDup(s)
    ensures |set x | x in s| == |s|
  {
    if s != [] {
      var n := |s| - 1;
      assert NoDup(s[..n]);
      NoDupCard(s[..n]);
      assert (set x | x in s) == (set x | x in s[..n]) + {s[n]};
      assert s[n] !in (set x | x in s[..n]);
    }
  }
}
