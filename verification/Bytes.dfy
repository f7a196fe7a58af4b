/** Byte strings under the bytewise order that both key-value stores use for their keys,
    and the sorted key sequences an iterator walks. */
module Bytes {
  type byte = b: int | 0 <= b < 256
  type Bytes = seq<byte>

  /** Bytewise lexicographic order: a proper prefix comes first. */
  predicate Lt(a: Bytes, b: Bytes) {
    b != [] && (a == [] || a[0] < b[0] || (a[0] == b[0] && Lt(a[1..], b[1..])))
  }

  predicate Le(a: Bytes, b: Bytes) {
    !Lt(b, a)
  }

  lemma {:induction false} LtIrreflexive(a: Bytes)
    ensures !Lt(a, a)
  {
    if a != [] {
      LtIrreflexive(a[1..]);
    }
  }

  lemma {:induction false} LtTransitive(a: Bytes, b: Bytes, c: Bytes)
    requires Lt(a, b) && Lt(b, c)
    ensures Lt(a, c)
  {
    if a != [] && a[0] == b[0] == c[0] {
      LtTransitive(a[1..], b[1..], c[1..]);
    }
  }

  lemma {:induction false} LtTotal(a: Bytes, b: Bytes)
    ensures a == b || Lt(a, b) || Lt(b, a)
  {
    if a != [] && b != [] && a[0] == b[0] {
      LtTotal(a[1..], b[1..]);
      assert a == [a[0]] + a[1..] && b == [b[0]] + b[1..];
    }
  }

  lemma LtAsymmetric(a: Bytes, b: Bytes)
    requires Lt(a, b)
    ensures !Lt(b, a)
  {
    LtIrreflexive(a);
    if Lt(b, a) {
      LtTransitive(a, b, a);
    }
  }

  lemma LtLe(a: Bytes, b: Bytes, c: Bytes)
    requires Lt(a, b) && Le(b, c)
    ensures Lt(a, c)
  {
    LtTotal(b, c);
    if b != c {
      LtTransitive(a, b, c);
    }
  }

  lemma LeLt(a: Bytes, b: Bytes, c: Bytes)
    requires Le(a, b) && Lt(b, c)
    ensures Lt(a, c)
  {
    LtTotal(a, b);
    if a != b {
      LtTransitive(a, b, c);
    }
  }

  lemma LeTransitive(a: Bytes, b: Bytes, c: Bytes)
    requires Le(a, b) && Le(b, c)
    ensures Le(a, c)
  {
    if Lt(c, a) {
      LtLe(c, a, b);
    }
  }

  /** Comparing strings by an equally long head first and by what follows second. */
  lemma {:induction false} LtAppend(a: Bytes, x: Bytes, b: Bytes, y: Bytes)
    requires |a| == |b|
    ensures Lt(a + x, b + y) <==> Lt(a, b) || (a == b && Lt(x, y))
  {
    if a == [] {
      assert a + x == x && b + y == y;
    } else {
      LtAppend(a[1..], x, b[1..], y);
      assert (a + x)[1..] == a[1..] + x && (b + y)[1..] == b[1..] + y;
      assert a[0] == b[0] && a[1..] == b[1..] ==> a == b by {
        assert a == [a[0]] + a[1..] && b == [b[0]] + b[1..];
      }
      LtIrreflexive(a);
    }
  }

  lemma PrefixLe(p: Bytes, k: Bytes)
    requires p <= k
    ensures Le(p, k)
  {
    LtAppend(p, k[|p|..], p, []);
    assert p + k[|p|..] == k && p + [] == p;
    LtIrreflexive(p);
  }

  /** A string lying between two strings that start with p starts with p. */
  lemma SqueezedPrefix(p: Bytes, a: Bytes, m: Bytes, b: Bytes)
    requires p <= a && p <= b && Le(a, m) && Le(m, b)
    ensures p <= m
  {
    var n := if |p| <= |m| then |p| else |m|;
    var ph, mh := p[..n], m[..n];
    assert a == ph + a[n..] && b == ph + b[n..] && m == mh + m[n..];
    LtAppend(ph, b[n..], mh, m[n..]);
    LtAppend(mh, m[n..], ph, a[n..]);
    LtTotal(ph, mh);
    if n < |p| {
      assert m[n..] == [] && a[n..] != [];
      assert Lt(m[n..], a[n..]);
    }
  }

  // ---- sorted key sequences ----

  ghost predicate Sorted(keys: seq<Bytes>) {
    forall i, j :: 0 <= i < j < |keys| ==> Lt(keys[i], keys[j])
  }

  /** Where Seek(k) lands: the first index whose key is not below k. */
  function LowerBound(keys: seq<Bytes>, k: Bytes): (r: nat)
    ensures r <= |keys|
    ensures forall i :: 0 <= i < r ==> Lt(keys[i], k)
    ensures r < |keys| ==> Le(k, keys[r])
  {
    if keys == [] || !Lt(keys[0], k) then 0
    else
      var r := LowerBound(keys[1..], k);
      assert forall i :: 1 <= i < 1 + r ==> keys[i] == keys[1..][i - 1];
      1 + r
  }

  lemma LowerBoundAbove(keys: seq<Bytes>, k: Bytes, i: nat)
    requires Sorted(keys) && i < |keys|
    ensures LowerBound(keys, k) <= i <==> Le(k, keys[i])
  {
    var r := LowerBound(keys, k);
    if r < i {
      LeLt(k, keys[r], keys[i]);
      LtAsymmetric(k, keys[i]);
    }
  }

  lemma LowerBoundIsFirst(keys: seq<Bytes>)
    ensures LowerBound(keys, []) == 0
  {
  }

  /** One past the last index of the run from `from` on whose keys do not exceed hi;
      an empty hi is no bound. */
  function RunEnd(keys: seq<Bytes>, from: nat, hi: Bytes): (r: nat)
    requires from <= |keys|
    ensures from <= r <= |keys|
    ensures forall i :: from <= i < r ==> hi == [] || Le(keys[i], hi)
    ensures r < |keys| ==> hi != [] && Lt(hi, keys[r])
    decreases |keys| - from
  {
    if from < |keys| && (hi == [] || Le(keys[from], hi)) then RunEnd(keys, from + 1, hi) else from
  }

  /** The keys a Seek(lo) followed by Next while not beyond hi meets. */
  function Run(keys: seq<Bytes>, lo: Bytes, hi: Bytes): seq<Bytes> {
    var from := LowerBound(keys, lo);
    keys[from..RunEnd(keys, from, hi)]
  }

  lemma RunMembers(keys: seq<Bytes>, lo: Bytes, hi: Bytes, k: Bytes)
    requires Sorted(keys)
    ensures k in Run(keys, lo, hi) <==> k in keys && Le(lo, k) && (hi == [] || Le(k, hi))
  {
    var from := LowerBound(keys, lo);
    var end := RunEnd(keys, from, hi);
    if k in Run(keys, lo, hi) {
      var i :| from <= i < end && keys[i] == k;
      LowerBoundAbove(keys, lo, i);
    }
    if k in keys && Le(lo, k) && (hi == [] || Le(k, hi)) {
      var i :| 0 <= i < |keys| && keys[i] == k;
      LowerBoundAbove(keys, lo, i);
      if end <= i {
        if end < i {
          LtTransitive(hi, keys[end], keys[i]);
        }
        assert false;
      }
      assert keys[from..end][i - from] == k;
    }
  }

  lemma RunSorted(keys: seq<Bytes>, lo: Bytes, hi: Bytes)
    requires Sorted(keys)
    ensures Sorted(Run(keys, lo, hi))
  {
  }

  /** The keys that satisfy p, in key order. */
  function Filter(keys: seq<Bytes>, p: Bytes -> bool): (r: seq<Bytes>)
    ensures forall k :: k in r <==> k in keys && p(k)
  {
    if keys == [] then []
    else
      assert keys == [keys[0]] + keys[1..];
      (if p(keys[0]) then [keys[0]] else []) + Filter(keys[1..], p)
  }

  lemma {:induction false} FilterSorted(keys: seq<Bytes>, p: Bytes -> bool)
    requires Sorted(keys)
    ensures Sorted(Filter(keys, p))
  {
    if keys != [] {
      FilterSorted(keys[1..], p);
      forall k | k in Filter(keys[1..], p)
        ensures Lt(keys[0], k)
      {
        assert k in keys[1..];
      }
    }
  }

  lemma {:induction false} FilterAgree(keys: seq<Bytes>, p: Bytes -> bool, q: Bytes -> bool)
    requires forall k :: k in keys ==> (p(k) <==> q(k))
    ensures Filter(keys, p) == Filter(keys, q)
  {
    if keys != [] {
      assert keys[0] in keys;
      FilterAgree(keys[1..], p, q);
    }
  }

  lemma {:induction false} FilterAll(keys: seq<Bytes>, p: Bytes -> bool)
    requires forall k :: k in keys ==> p(k)
    ensures Filter(keys, p) == keys
  {
    if keys != [] {
      assert keys[0] in keys;
      FilterAll(keys[1..], p);
    }
  }

  /** A strictly ascending sequence is determined by its elements. */
  lemma {:induction false} SortedUnique(a: seq<Bytes>, b: seq<Bytes>)
    requires Sorted(a) && Sorted(b)
    requires forall k :: k in a <==> k in b
    ensures a == b
  {
    BothEmpty(a, b);
    if a != [] {
      HeadsAgree(a, b);
      HeadsAgree(b, a);
      LtTotal(a[0], b[0]);
      assert a[0] == b[0];
      assert a == [a[0]] + a[1..] && b == [b[0]] + b[1..];
      LtIrreflexive(a[0]);
      forall k
        ensures k in a[1..] <==> k in b[1..]
      {
        assert k in a <==> k in b;
      }
      SortedUnique(a[1..], b[1..]);
    }
  }

  lemma BothEmpty(a: seq<Bytes>, b: seq<Bytes>)
    requires forall k :: k in a <==> k in b
    ensures a == [] <==> b == []
  {
    if a != [] { assert a[0] in a; }
    if b != [] { assert b[0] in b; }
  }

  lemma HeadsAgree(a: seq<Bytes>, b: seq<Bytes>)
    requires Sorted(a) && Sorted(b) && a != [] && b != []
    requires forall k :: k in b ==> k in a
    ensures Le(a[0], b[0])
  {
    assert b[0] in a;
    var i :| 0 <= i < |a| && a[i] == b[0];
    if i == 0 { LtIrreflexive(a[0]); } else { LtAsymmetric(a[0], a[i]); }
  }
}
