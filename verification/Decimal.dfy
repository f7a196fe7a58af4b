/** strconv.FormatInt(n, 10) and when its text, fitted into a fixed-width field, orders
    timestamps the way their values do. */
module Decimal {
  import opened Bytes
  import opened Fields
  import opened SkipScan

  const ZERO: int := '0' as int
  const NINE: int := '9' as int

  function Digits(n: nat): (r: Bytes)
    ensures r != [] && IsStamp(r, |r|)
    ensures n > 0 ==> r[0] != ZERO
    ensures n == 0 ==> r == [ZERO]
  {
    if n < 10 then [ZERO + n] else Digits(n / 10) + [ZERO + n % 10]
  }

  function Format(n: int): Bytes {
    if n < 0 then ['-' as int] + Digits(-n) else Digits(n)
  }

  /** The value a run of digits denotes. */
  function Value(t: Bytes): int {
    if t == [] then 0 else Value(t[..|t| - 1]) * 10 + (t[|t| - 1] - ZERO)
  }

  lemma {:induction false} ValueOfDigits(n: nat)
    ensures Value(Digits(n)) == n
  {
    if n >= 10 {
      ValueOfDigits(n / 10);
      assert Digits(n)[..|Digits(n)| - 1] == Digits(n / 10);
    } else {
      assert Value([ZERO + n]) == Value([]) * 10 + n by { assert [ZERO + n][..0] == []; }
    }
  }

  /** Digit strings of one width order bytewise as their values do. */
  lemma {:induction false} StampOrder(a: Bytes, b: Bytes, w: nat)
    requires IsStamp(a, w) && IsStamp(b, w)
    ensures Lt(a, b) <==> Value(a) < Value(b)
    ensures a == b <==> Value(a) == Value(b)
    ensures Value(a) >= 0
  {
    if w > 0 {
      var x, y := a[..w - 1], b[..w - 1];
      StampOrder(x, y, w - 1);
      assert a == x + [a[w - 1]] && b == y + [b[w - 1]];
      LtAppend(x, [a[w - 1]], y, [b[w - 1]]);
    }
  }

  function Pow10(w: nat): (r: nat)
    ensures r >= 1
  {
    if w == 0 then 1 else 10 * Pow10(w - 1)
  }

  lemma {:induction false} ValueBound(t: Bytes, w: nat)
    requires IsStamp(t, w)
    ensures 0 <= Value(t) < Pow10(w)
  {
    if w > 0 {
      ValueBound(t[..w - 1], w - 1);
    }
  }

  /** n written with exactly w digits, zero-padded. */
  function Padded(n: nat, w: nat): (r: Bytes)
    requires n < Pow10(w)
    ensures IsStamp(r, w)
  {
    if w == 0 then [] else Padded(n / 10, w - 1) + [ZERO + n % 10]
  }

  lemma {:induction false} ValueOfPadded(n: nat, w: nat)
    requires n < Pow10(w)
    ensures Value(Padded(n, w)) == n
  {
    if w > 0 {
      ValueOfPadded(n / 10, w - 1);
      assert Padded(n, w)[..w - 1] == Padded(n / 10, w - 1);
    }
  }

  lemma {:induction false} DigitsWidth(n: nat, w: nat)
    requires w >= 1
    ensures |Digits(n)| <= w <==> n < Pow10(w)
  {
    if w == 1 {
      assert Pow10(1) == 10 * Pow10(0);
    } else if n >= 10 {
      DigitsWidth(n / 10, w - 1);
    }
  }

  /** Cutting digits off a number makes it smaller. */
  lemma {:induction false} TruncationIsSmaller(t: Bytes, w: nat)
    requires IsStamp(t, |t|) && 1 <= w < |t| && t[0] != ZERO
    ensures 0 < Value(t[..w]) < Value(t)
    decreases |t|
  {
    var shorter := t[..|t| - 1];
    LeadingDigit(shorter);
    assert shorter[..w] == t[..w];
    if w < |t| - 1 {
      TruncationIsSmaller(shorter, w);
    }
  }

  lemma {:induction false} LeadingDigit(t: Bytes)
    requires t != [] && IsStamp(t, |t|) && t[0] != ZERO
    ensures Value(t) > 0
  {
    if |t| > 1 {
      LeadingDigit(t[..|t| - 1]);
    }
  }

  // ---- bounds of the window ----

  /** The scan's lower key bound selects exactly the w-digit timestamps >= lo. */
  ghost predicate LowerAgrees(lo: int, w: nat) {
    forall t :: IsStamp(t, w) ==> (Le(Fit(Format(lo), w), t) <==> lo <= Value(t))
  }

  ghost predicate UpperAgrees(hi: int, w: nat) {
    forall t :: IsStamp(t, w) ==> (Le(t, Fit(Format(hi), w)) <==> Value(t) <= hi)
  }

  predicate AllNines(t: Bytes) {
    forall i :: 0 <= i < |t| ==> t[i] == NINE
  }

  predicate LowerFits(lo: int, w: nat) {
    lo <= 0 || |Format(lo)| == w
  }

  predicate UpperFits(hi: int, w: nat) {
    hi < 0 || |Format(hi)| == w || (|Format(hi)| > w && AllNines(Format(hi)[..w]))
  }

  /** Strings of equal first byte or not: comparing by the first byte alone. */
  lemma FirstByte(a: Bytes, b: Bytes)
    requires a != [] && b != [] && a[0] < b[0]
    ensures Lt(a, b) && !Lt(b, a)
  {
    LtAsymmetric(a, b);
  }

  lemma {:induction false} ZeroPaddedIsLeast(t: Bytes, w: nat)
    requires w >= 1 && IsStamp(t, w)
    ensures Le(Fit([ZERO], w), t)
  {
    var f := Fit([ZERO], w);
    if t[0] == ZERO {
      assert f == [ZERO] + f[1..] && t == [ZERO] + t[1..];
      LtAppend([ZERO], t[1..], [ZERO], f[1..]);
      LtIrreflexive([ZERO]);
      if w > 1 {
        assert f[1..][0] == 0;
        FirstByte(f[1..], t[1..]);
      }
    } else {
      FirstByte(f, t);
    }
  }

  lemma WholeFieldAgrees(n: nat, w: nat, t: Bytes)
    requires w >= 1 && |Format(n)| == w && IsStamp(t, w)
    ensures Le(Fit(Format(n), w), t) <==> n <= Value(t)
    ensures Le(t, Fit(Format(n), w)) <==> Value(t) <= n
  {
    assert Fit(Format(n), w) == Digits(n);
    ValueOfDigits(n);
    StampOrder(Digits(n), t, w);
    StampOrder(t, Digits(n), w);
  }

  lemma NegativeText(n: int, w: nat, t: Bytes)
    requires n < 0 && w >= 1 && IsStamp(t, w)
    ensures Lt(Fit(Format(n), w), t) && !Lt(t, Fit(Format(n), w)) && Value(t) >= 0
  {
    FirstByte(Fit(Format(n), w), t);
    ValueBound(t, w);
  }

  /** Which lower bounds work: none (0 or negative), or one of the field's own width. */
  lemma LowerExact(lo: int, w: nat)
    requires w >= 1
    ensures LowerAgrees(lo, w) <==> LowerFits(lo, w)
  {
    if LowerFits(lo, w) {
      forall t | IsStamp(t, w)
        ensures Le(Fit(Format(lo), w), t) <==> lo <= Value(t)
      {
        if lo < 0 {
          NegativeText(lo, w, t);
        } else if |Format(lo)| == w {
          WholeFieldAgrees(lo, w, t);
        } else {
          ZeroPaddedIsLeast(t, w);
          ValueBound(t, w);
        }
      }
    } else if |Format(lo)| < w {
      DigitsWidth(lo, w - 1);
      var t := Padded(lo, w);
      ValueOfPadded(lo, w);
      PaddedStartsWithZero(lo, w);
      FirstByte(t, Fit(Format(lo), w));
    } else {
      var t := Format(lo)[..w];
      ValueOfDigits(lo);
      TruncationIsSmaller(Format(lo), w);
      LtIrreflexive(t);
      assert IsStamp(t, w) && Fit(Format(lo), w) == t;
    }
  }

  lemma {:induction false} PaddedStartsWithZero(n: nat, w: nat)
    requires w >= 1 && n < Pow10(w - 1)
    ensures Padded(n, w)[0] == ZERO
  {
    if w > 1 {
      PaddedStartsWithZero(n / 10, w - 1);
    }
  }

  lemma {:induction false} PaddedPowerStartsWithOne(w: nat)
    requires w >= 1
    ensures Padded(Pow10(w - 1), w)[0] == ZERO + 1
  {
    if w > 1 {
      assert Pow10(w - 1) / 10 == Pow10(w - 2);
      PaddedPowerStartsWithOne(w - 1);
    } else {
      assert Padded(0, 0) == [];
    }
  }

  /** A number one below a power of ten starts with 9. */
  lemma {:induction false} NinesLead(w: nat)
    requires w >= 1
    ensures Digits(Pow10(w) - 1)[0] == NINE
  {
    if w > 1 {
      assert (Pow10(w) - 1) / 10 == Pow10(w - 1) - 1;
      assert Pow10(w - 1) >= 10;
      NinesLead(w - 1);
    } else {
      assert Pow10(1) == 10 * Pow10(0);
    }
  }

  lemma {:induction false} NinesAreGreatest(t: Bytes, n: Bytes, w: nat)
    requires IsStamp(t, w) && |n| == w && AllNines(n)
    ensures Le(t, n)
  {
    if w > 0 {
      NinesAreGreatest(t[1..], n[1..], w - 1);
    }
  }

  lemma NinesOnly(n: Bytes, w: nat)
    requires IsStamp(n, w) && w >= 1
    requires Le(Padded(Pow10(w) - 1, w), n)
    ensures AllNines(n)
  {
    var top := Padded(Pow10(w) - 1, w);
    ValueOfPadded(Pow10(w) - 1, w);
    StampOrder(n, top, w);
    ValueBound(n, w);
    PaddedNines(w);
  }

  lemma {:induction false} PaddedNines(w: nat)
    ensures AllNines(Padded(Pow10(w) - 1, w))
  {
    if w > 0 {
      assert (Pow10(w) - 1) / 10 == Pow10(w - 1) - 1;
      PaddedNines(w - 1);
    }
  }

  lemma ZeroRejected(w: nat) returns (t: Bytes)
    requires w >= 2
    ensures IsStamp(t, w) && Value(t) == 0 && Lt(Fit([ZERO], w), t)
  {
    t := Padded(0, w);
    ValueOfPadded(0, w);
    PaddedStartsWithZero(0, w);
    var f := Fit([ZERO], w);
    assert f == [ZERO] + f[1..] && t == [ZERO] + t[1..];
    LtAppend([ZERO], f[1..], [ZERO], t[1..]);
    assert f[1..][0] == 0;
    FirstByte(f[1..], t[1..]);
  }

  lemma ShorterLeads(hi: nat, w: nat)
    requires hi >= 1 && w >= 1 && hi + 1 < Pow10(w - 1) <= Pow10(w)
    ensures Padded(hi + 1, w)[0] < Digits(hi)[0]
  {
    PaddedStartsWithZero(hi + 1, w);
    assert IsStamp(Digits(hi), |Digits(hi)|) && Digits(hi)[0] != ZERO;
  }

  lemma CarryLeads(hi: nat, w: nat)
    requires w >= 2 && hi + 1 == Pow10(w - 1) < Pow10(w)
    ensures Padded(hi + 1, w)[0] < Digits(hi)[0]
  {
    PaddedPowerStartsWithOne(w);
    NinesLead(w - 1);
  }

  lemma SuccessorAdmitted(hi: nat, w: nat) returns (t: Bytes)
    requires hi >= 1 && w >= 2 && hi < Pow10(w - 1)
    ensures IsStamp(t, w) && Value(t) == hi + 1 && Lt(t, Fit(Digits(hi), w))
  {
    assert Pow10(w) == 10 * Pow10(w - 1);
    t := Padded(hi + 1, w);
    ValueOfPadded(hi + 1, w);
    if hi + 1 < Pow10(w - 1) {
      ShorterLeads(hi, w);
    } else {
      CarryLeads(hi, w);
    }
    FirstByte(t, Fit(Digits(hi), w));
  }

  /** A non-negative upper bound with too few digits admits the timestamp above it, or, for 0,
      rejects timestamp 0. */
  lemma ShortUpperFails(hi: nat, w: nat)
    requires w >= 1 && |Format(hi)| < w
    ensures !UpperAgrees(hi, w)
  {
    if hi == 0 {
      var t := ZeroRejected(w);
    } else {
      DigitsWidth(hi, w - 1);
      var t := SuccessorAdmitted(hi, w);
      LtAsymmetric(t, Fit(Format(hi), w));
    }
  }

  /** Which upper bounds work: a negative one (empty window), one of the field's own width,
      or a longer one whose kept digits are all nines. */
  lemma UpperExact(hi: int, w: nat)
    requires w >= 1
    ensures UpperAgrees(hi, w) <==> UpperFits(hi, w)
  {
    if hi >= 0 && |Format(hi)| < w {
      ShortUpperFails(hi, w);
    } else if hi >= 0 && |Format(hi)| > w {
      DigitsWidth(hi, w);
      var n := Format(hi)[..w];
      assert Fit(Format(hi), w) == n;
      var top := Padded(Pow10(w) - 1, w);
      ValueOfPadded(Pow10(w) - 1, w);
      if UpperAgrees(hi, w) {
        NinesOnly(n, w);
      } else {
        var t :| IsStamp(t, w) && !(Le(t, n) <==> Value(t) <= hi);
        ValueBound(t, w);
        if AllNines(n) {
          NinesAreGreatest(t, n, w);
        }
      }
    } else {
      forall t | IsStamp(t, w)
        ensures Le(t, Fit(Format(hi), w)) <==> Value(t) <= hi
      {
        if hi < 0 {
          NegativeText(hi, w, t);
        } else {
          WholeFieldAgrees(hi, w, t);
        }
      }
    }
  }

  // ---- the skip-scan against the numeric filter ----

  predicate ValueInWindow(k: Bytes, idx: nat, sep: Bytes, lo: int, hi: int)
    requires sep != []
  {
    Proper(k, idx, sep) && lo <= Value(Field(k, idx, sep)) <= hi
  }

  lemma WindowAgrees(keys: seq<Bytes>, idx: nat, sep: Bytes, lo: int, hi: int, w: nat)
    requires sep != [] && w >= 1 && Stamped(keys, idx, sep, w)
    requires LowerFits(lo, w) && UpperFits(hi, w)
    ensures forall k :: k in keys ==>
              (InWindow(k, idx, sep, Format(lo), Format(hi)) <==> ValueInWindow(k, idx, sep, lo, hi))
  {
    LowerExact(lo, w);
    UpperExact(hi, w);
  }

  /** The scan of this window is the filter by timestamp value over all keys before the first one
      that stops it. */
  ghost predicate Exact(keys: seq<Bytes>, idx: nat, sep: Bytes, lo: int, hi: int)
    requires sep != [] && idx >= 1 && Sorted(keys) && Advancing(keys, idx, sep)
  {
    IndexScan(keys, idx, sep, Format(lo), Format(hi)) ==
    Filter(keys[..Reach(keys, idx, sep, 0)], k => ValueInWindow(k, idx, sep, lo, hi))
  }

  lemma CleanMeansExact(keys: seq<Bytes>, idx: nat, sep: Bytes, w: nat, lo: int, hi: int)
    requires sep != [] && idx >= 1 && w >= 1 && Sorted(keys) && Advancing(keys, idx, sep)
    requires Stamped(keys, idx, sep, w) && Flat(keys, idx, sep) && Clean(keys, idx, sep)
    requires LowerFits(lo, w) && UpperFits(hi, w)
    ensures Exact(keys, idx, sep, lo, hi)
  {
    ScanIsFilter(keys, idx, sep, Format(lo), Format(hi), w);
    WindowAgrees(keys, idx, sep, lo, hi, w);
    FilterAgree(keys[..Reach(keys, idx, sep, 0)], k => InWindow(k, idx, sep, Format(lo), Format(hi)),
                k => ValueInWindow(k, idx, sep, lo, hi));
  }

  /** The timestamps a field of width w can hold. */
  lemma AllStamps(w: nat)
    requires w >= 1
    ensures LowerFits(0, w) && UpperFits(Pow10(w) - 1, w)
  {
    DigitsWidth(Pow10(w) - 1, w);
    if w > 1 { DigitsWidth(Pow10(w) - 1, w - 1); }
  }

  /** top is no smaller than any timestamp of the width. */
  lemma ExactMeansClean(keys: seq<Bytes>, idx: nat, sep: Bytes, w: nat, top: int)
    requires sep != [] && idx >= 1 && w >= 1 && Sorted(keys) && Advancing(keys, idx, sep)
    requires Stamped(keys, idx, sep, w) && Exact(keys, idx, sep, 0, top)
    requires forall t :: IsStamp(t, w) ==> 0 <= Value(t) <= top
    ensures Clean(keys, idx, sep)
  {
    var reached := keys[..Reach(keys, idx, sep, 0)];
    forall i | 0 <= i < Reach(keys, idx, sep, 0) && Proper(keys[i], idx, sep)
      ensures keys[i] in IndexScan(keys, idx, sep, Format(0), Format(top))
    {
      assert keys[i] == reached[i] && reached[i] in reached && ValueInWindow(keys[i], idx, sep, 0, top);
    }
    FullScanMeansClean(keys, idx, sep, Format(0), Format(top), w);
  }

  lemma AllBelow(w: nat)
    ensures forall t :: IsStamp(t, w) ==> 0 <= Value(t) <= Pow10(w) - 1
  {
    forall t | IsStamp(t, w)
      ensures 0 <= Value(t) <= Pow10(w) - 1
    {
      ValueBound(t, w);
    }
  }

  /** For fixed-width timestamps in the last field: the skip-scan is exact in every window whose
      bounds fit the field if and only if the groups are clean. */
  lemma SkipScanExactIffClean(keys: seq<Bytes>, idx: nat, sep: Bytes, w: nat)
    requires sep != [] && idx >= 1 && w >= 1 && Sorted(keys) && Advancing(keys, idx, sep)
    requires Stamped(keys, idx, sep, w) && Flat(keys, idx, sep)
    ensures Clean(keys, idx, sep) <==>
            forall lo, hi :: LowerFits(lo, w) && UpperFits(hi, w) ==> Exact(keys, idx, sep, lo, hi)
  {
    forall lo, hi | Clean(keys, idx, sep) && LowerFits(lo, w) && UpperFits(hi, w)
      ensures Exact(keys, idx, sep, lo, hi)
    {
      CleanMeansExact(keys, idx, sep, w, lo, hi);
    }
    AllStamps(w);
    if Exact(keys, idx, sep, 0, Pow10(w) - 1) {
      AllBelow(w);
      ExactMeansClean(keys, idx, sep, w, Pow10(w) - 1);
    }
  }

  // ---- over the whole store ----

  /** The stored keys whose timestamp lies in the window, in order. */
  function WindowKeys(keys: seq<Bytes>, idx: nat, sep: Bytes, lo: int, hi: int): (r: seq<Bytes>)
    requires sep != []
    ensures forall k :: k in r <==> k in keys && Proper(k, idx, sep) && lo <= Value(Field(k, idx, sep)) <= hi
  {
    Filter(keys, k => ValueInWindow(k, idx, sep, lo, hi))
  }

  /** The scan of this window is the filter by timestamp value over all keys. */
  ghost predicate WholeExact(keys: seq<Bytes>, idx: nat, sep: Bytes, lo: int, hi: int)
    requires sep != [] && idx >= 1 && Sorted(keys) && Advancing(keys, idx, sep)
  {
    IndexScan(keys, idx, sep, Format(lo), Format(hi)) == WindowKeys(keys, idx, sep, lo, hi)
  }

  /** The scan gets to every key that has a timestamp. */
  ghost predicate ReachesAll(keys: seq<Bytes>, idx: nat, sep: Bytes)
    requires sep != []
  {
    forall i :: Reach(keys, idx, sep, 0) <= i < |keys| ==> !Proper(keys[i], idx, sep)
  }

  lemma ReachedFilter(keys: seq<Bytes>, idx: nat, sep: Bytes, lo: int, hi: int)
    requires sep != [] && Sorted(keys) && ReachesAll(keys, idx, sep)
    ensures Filter(keys[..Reach(keys, idx, sep, 0)], k => ValueInWindow(k, idx, sep, lo, hi)) ==
            Filter(keys, k => ValueInWindow(k, idx, sep, lo, hi))
  {
    var reached := keys[..Reach(keys, idx, sep, 0)];
    FilterSorted(reached, k => ValueInWindow(k, idx, sep, lo, hi));
    FilterSorted(keys, k => ValueInWindow(k, idx, sep, lo, hi));
    forall k | k in keys && ValueInWindow(k, idx, sep, lo, hi)
      ensures k in reached
    {
      var i :| 0 <= i < |keys| && keys[i] == k;
      assert keys[i] == reached[i];
    }
    SortedUnique(Filter(reached, k => ValueInWindow(k, idx, sep, lo, hi)),
                 Filter(keys, k => ValueInWindow(k, idx, sep, lo, hi)));
  }

  lemma AllVisitedMeansReached(keys: seq<Bytes>, idx: nat, sep: Bytes, s: Bytes, e: Bytes)
    requires sep != [] && idx >= 1 && Sorted(keys) && Advancing(keys, idx, sep) && Clean(keys, idx, sep)
    requires forall i :: 0 <= i < |keys| && Proper(keys[i], idx, sep) ==> keys[i] in IndexScan(keys, idx, sep, s, e)
    ensures ReachesAll(keys, idx, sep)
  {
    AnyStamp(keys, idx, sep, [], s, 0);
    BeginsReached(keys, idx, sep);
    forall i | Reach(keys, idx, sep, 0) <= i < |keys|
      ensures !Proper(keys[i], idx, sep)
    {
      if Proper(keys[i], idx, sep) {
        VisitedWithinReach(keys, idx, sep, s, e, 0, i);
        assert false;
      }
    }
  }

  lemma WholeMeansCleanAndReached(keys: seq<Bytes>, idx: nat, sep: Bytes, w: nat, top: int)
    requires sep != [] && idx >= 1 && w >= 1 && Sorted(keys) && Advancing(keys, idx, sep)
    requires Stamped(keys, idx, sep, w) && WholeExact(keys, idx, sep, 0, top)
    requires forall t :: IsStamp(t, w) ==> 0 <= Value(t) <= top
    ensures Clean(keys, idx, sep) && ReachesAll(keys, idx, sep)
  {
    var s, e := Format(0), Format(top);
    forall i | 0 <= i < |keys| && Proper(keys[i], idx, sep)
      ensures keys[i] in IndexScan(keys, idx, sep, s, e)
    {
      assert keys[i] in keys && ValueInWindow(keys[i], idx, sep, 0, top);
    }
    FullScanMeansClean(keys, idx, sep, s, e, w);
    AllVisitedMeansReached(keys, idx, sep, s, e);
  }

  /** The scan is the filter over the whole store in every window whose bounds fit the field if and only
      if the groups are clean and no key with a timestamp stands behind the key that ends the scan. */
  lemma WholeStoreExactIff(keys: seq<Bytes>, idx: nat, sep: Bytes, w: nat)
    requires sep != [] && idx >= 1 && w >= 1 && Sorted(keys) && Advancing(keys, idx, sep)
    requires Stamped(keys, idx, sep, w) && Flat(keys, idx, sep)
    ensures Clean(keys, idx, sep) && ReachesAll(keys, idx, sep) <==>
            forall lo, hi :: LowerFits(lo, w) && UpperFits(hi, w) ==> WholeExact(keys, idx, sep, lo, hi)
  {
    forall lo, hi | Clean(keys, idx, sep) && ReachesAll(keys, idx, sep) && LowerFits(lo, w) && UpperFits(hi, w)
      ensures WholeExact(keys, idx, sep, lo, hi)
    {
      CleanMeansExact(keys, idx, sep, w, lo, hi);
      ReachedFilter(keys, idx, sep, lo, hi);
    }
    AllStamps(w);
    if WholeExact(keys, idx, sep, 0, Pow10(w) - 1) {
      AllBelow(w);
      WholeMeansCleanAndReached(keys, idx, sep, w, Pow10(w) - 1);
    }
  }
}
