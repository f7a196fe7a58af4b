/** NextKey (bytes.go): the next hexadecimal key of the same length, and what a range that starts
    there skips. */
module HexKey {
  import opened Options
  import opened Bytes

  const ZERO: byte := '0' as int
  const NINE: byte := '9' as int
  const LOWER_F: byte := 'f' as int
  const UPPER_F: byte := 'F' as int

  predicate IsF(b: byte) {
    b == LOWER_F || b == UPPER_F
  }

  predicate AllF(key: Bytes) {
    forall i :: 0 <= i < |key| ==> IsF(key[i])
  }

  /** The last digit that is not f, or -1. */
  function LastNotF(key: Bytes): (r: int)
    ensures -1 <= r < |key|
    ensures r >= 0 ==> !IsF(key[r])
    ensures forall i :: r < i < |key| ==> IsF(key[i])
  {
    if key == [] then -1
    else if !IsF(key[|key| - 1]) then |key| - 1
    else LastNotF(key[..|key| - 1])
  }

  function Zeros(n: nat): (r: Bytes)
    ensures |r| == n
  {
    seq(n, _ => ZERO)
  }

  /** None is the error return, which hands the key back unchanged. */
  function Successor(key: Bytes): (r: Option<Bytes>)
    ensures r.None? <==> AllF(key)
    ensures r.Some? ==> |r.value| == |key|
  {
    var i := LastNotF(key);
    if i == -1 then None
    else Some(key[..i] + [(key[i] as int + 1) % 256] + Zeros(|key| - i - 1))
  }

  lemma LastNotFIs(key: Bytes, i: int)
    requires -1 <= i < |key| && (i >= 0 ==> !IsF(key[i]))
    requires forall j :: i < j < |key| ==> IsF(key[j])
    ensures LastNotF(key) == i
  {
    var r := LastNotF(key);
    assert !(r < i) && !(i < r);
  }

  method NextKey(key: Bytes) returns (r: Bytes, ok: bool)
    ensures ok <==> Successor(key).Some?
    ensures r == if ok then Successor(key).value else key
  {
    if |key| == 0 {
      return key, false;
    }
    var s := new byte[|key|](j requires 0 <= j < |key| => key[j]);
    assert s[..] == key;
    var i := s.Length - 1;
    while i >= 0
      invariant -1 <= i < s.Length
      invariant s[..i + 1] == key[..i + 1]
      invariant forall j :: i < j < |key| ==> IsF(key[j]) && s[j] == ZERO
    {
      if s[i] == LOWER_F || s[i] == UPPER_F {
        s[i] := ZERO;
        i := i - 1;
        continue;
      }
      LastNotFIs(key, i);
      s[i] := (s[i] as int + 1) % 256;
      break;
    }
    if i < 0 {
      return key, false;
    }
    assert s[..] == Successor(key).value;
    return s[..], true;
  }

  // ---- order ----

  predicate IsDigit(b: byte) {
    ZERO <= b <= NINE || 'A' as int <= b <= UPPER_F || 'a' as int <= b <= LOWER_F
  }

  predicate IsHex(key: Bytes, w: nat) {
    |key| == w && forall i :: 0 <= i < w ==> IsDigit(key[i])
  }

  /** Letters of one case only. */
  predicate OfCase(upper: bool, key: Bytes) {
    forall i :: 0 <= i < |key| ==> if upper then key[i] <= UPPER_F else key[i] < 'A' as int || key[i] > UPPER_F
  }

  lemma {:induction false} ZerosLeast(t: Bytes, w: nat)
    requires IsHex(t, w)
    ensures !Lt(t, Zeros(w))
  {
    if w > 0 {
      ZerosLeast(t[1..], w - 1);
      assert Zeros(w)[1..] == Zeros(w - 1);
    }
  }

  lemma {:induction false} FsGreatest(t: Bytes, f: Bytes, w: nat, upper: bool)
    requires IsHex(t, w) && IsHex(f, w) && AllF(f) && OfCase(upper, t) && OfCase(upper, f)
    ensures !Lt(f, t)
  {
    if w > 0 {
      FsGreatest(t[1..], f[1..], w - 1, upper);
    }
  }

  lemma LtCons(a: byte, x: Bytes, b: byte, y: Bytes)
    ensures Lt([a] + x, [b] + y) <==> a < b || (a == b && Lt(x, y))
  {
    assert ([a] + x)[1..] == x && ([b] + y)[1..] == y;
  }

  lemma TailOrder(d: byte, fs: Bytes, e: byte, t: Bytes, w: nat, upper: bool)
    requires IsDigit(d) && !IsF(d) && IsHex(fs, w) && AllF(fs) && IsDigit(e) && IsHex(t, w)
    requires OfCase(upper, fs) && OfCase(upper, t)
    ensures Lt([d] + fs, [e] + t) <==> Le([d + 1] + Zeros(w), [e] + t)
  {
    LtCons(d, fs, e, t);
    LtCons(e, t, d + 1, Zeros(w));
    FsGreatest(t, fs, w, upper);
    ZerosLeast(t, w);
  }

  lemma ParallelOrder(p: Bytes, a: Bytes, q: Bytes, b: Bytes, c: Bytes)
    requires |p| == |q| && (Lt(a, b) <==> Le(c, b))
    ensures Lt(p + a, q + b) <==> Le(p + c, q + b)
  {
    LtAppend(p, a, q, b);
    LtAppend(q, b, p, c);
    LtTotal(p, q);
    if Lt(p, q) { LtAsymmetric(p, q); }
    if Lt(q, p) { LtAsymmetric(q, p); }
  }

  /** The order of two keys o and k cut at one place, k at the digit d before its last f's fs. */
  lemma OrderFrom(p: Bytes, d: byte, fs: Bytes, q: Bytes, e: byte, t: Bytes, w: nat, upper: bool,
      k: Bytes, o: Bytes, next: Bytes)
    requires |p| == |q| && IsDigit(d) && !IsF(d) && IsHex(fs, w) && AllF(fs) && IsDigit(e) && IsHex(t, w)
    requires OfCase(upper, fs) && OfCase(upper, t)
    requires k == p + ([d] + fs) && o == q + ([e] + t) && next == p + ([d + 1] + Zeros(w))
    ensures Lt(k, o) <==> Le(next, o)
  {
    var a, b, c := [d] + fs, [e] + t, [d + 1] + Zeros(w);
    assert Lt(a, b) <==> Le(c, b) by { TailOrder(d, fs, e, t, w, upper); }
    ParallelOrder(p, a, q, b, c);
  }

  lemma CutAt(key: Bytes, w: nat, i: nat, upper: bool)
    requires IsHex(key, w) && OfCase(upper, key) && i < w
    ensures key == key[..i] + ([key[i]] + key[i + 1..]) && IsHex(key[i + 1..], w - i - 1) && IsDigit(key[i])
    ensures OfCase(upper, key[i + 1..])
  {
  }

  lemma SuccessorParts(key: Bytes, w: nat)
    requires IsHex(key, w) && !AllF(key)
    ensures var i := LastNotF(key);
            i >= 0 && !IsF(key[i]) && AllF(key[i + 1..])
            && Successor(key).value == key[..i] + ([key[i] + 1] + Zeros(w - i - 1))
  {
  }

  /** Keys of one width and one case: what comes after key is what does not come before its successor,
      even where the successor of 9 is a colon. */
  lemma SuccessorIsNext(key: Bytes, other: Bytes, w: nat, upper: bool)
    requires IsHex(key, w) && IsHex(other, w) && OfCase(upper, key) && OfCase(upper, other) && !AllF(key)
    ensures Lt(key, other) <==> Le(Successor(key).value, other)
  {
    var i := LastNotF(key);
    SuccessorParts(key, w);
    CutAt(key, w, i, upper);
    CutAt(other, w, i, upper);
    OrderFrom(key[..i], key[i], key[i + 1..], other[..i], other[i], other[i + 1..], w - i - 1, upper,
              key, other, Successor(key).value);
  }

  /** With letters of both cases that fails: 0a comes after 0F and before its successor. */
  lemma MixedCaseSkips()
    ensures var key, other := [ZERO, UPPER_F], [ZERO, 'a' as int];
            IsHex(key, 2) && IsHex(other, 2) && Lt(key, other) && !Le([ZERO + 1, ZERO], other)
    ensures Successor([ZERO, UPPER_F]) == Some([ZERO + 1, ZERO])
  {
    var key := [ZERO, UPPER_F];
    LastNotFIs(key, 0);
    assert key[..0] + [ZERO + 1] + Zeros(1) == [ZERO + 1, ZERO];
  }

  /** Seeking the successor of a stored key lands on the next stored key. */
  lemma SeekSuccessorSkipsOnlyKey(keys: seq<Bytes>, w: nat, i: nat, upper: bool)
    requires Sorted(keys) && i < |keys| && (forall k :: k in keys ==> IsHex(k, w) && OfCase(upper, k))
    requires !AllF(keys[i])
    ensures LowerBound(keys, Successor(keys[i]).value) == i + 1
  {
    var r := LowerBound(keys, Successor(keys[i]).value);
    SuccessorIsNext(keys[i], keys[i], w, upper);
    LtIrreflexive(keys[i]);
    LowerBoundAbove(keys, Successor(keys[i]).value, i);
    if i + 1 < |keys| {
      SuccessorIsNext(keys[i], keys[i + 1], w, upper);
      LowerBoundAbove(keys, Successor(keys[i]).value, i + 1);
    }
  }

  // ---- value ----

  function DigitValue(b: byte): int {
    if b <= NINE then b - ZERO else if b <= UPPER_F then b - 'A' as int + 10 else b - 'a' as int + 10
  }

  function HexValue(t: Bytes): int {
    if t == [] then 0 else 16 * HexValue(t[..|t| - 1]) + DigitValue(t[|t| - 1])
  }

  /** A last digit f becomes 0 and the increment moves to the front. */
  lemma SuccessorCarries(front: Bytes, last: byte)
    requires IsF(last) && !AllF(front + [last])
    ensures !AllF(front) && LastNotF(front + [last]) == LastNotF(front)
    ensures Successor(front + [last]).value == Successor(front).value + [ZERO]
  {
    var key := front + [last];
    var i := LastNotF(key);
    LastNotFIs(front, i);
    assert front[..i] == key[..i];
  }

  /** The successor is a hexadecimal key one greater exactly when the incremented digit is not 9. */
  lemma {:induction false} SuccessorValue(key: Bytes, w: nat)
    requires IsHex(key, w) && !AllF(key)
    ensures var next := Successor(key).value;
            if key[LastNotF(key)] == NINE then !IsHex(next, w)
            else IsHex(next, w) && HexValue(next) == HexValue(key) + 1
  {
    var front, last := key[..w - 1], key[w - 1];
    var next := Successor(key).value;
    assert key == front + [last];
    if IsF(last) {
      SuccessorCarries(front, last);
      SuccessorValue(front, w - 1);
      assert next[..w - 1] == Successor(front).value && next[w - 1] == ZERO;
      if key[LastNotF(key)] == NINE {
        assert next[LastNotF(key)] == NINE + 1;
      }
    } else {
      assert LastNotF(key) == w - 1 && next == front + [last + 1];
      assert next[..w - 1] == front && next[w - 1] == last + 1;
    }
  }
}
