/** The timestamp skip-scan (rocksdb.go, RangeForeachByTS) with the rewriter that
    GenHijackTsInKeyByIndex makes, and how it relates to filtering every key by its timestamp. */
module SkipScan {
  import opened Options
  import opened Bytes
  import opened Fields
  import opened Rounds

  function ByIndex(idx: nat, sep: Bytes): Rewriter {
    (ts, key) => HijackTs(idx, sep, ts, key)
  }

  // ---- keys and landings ----

  /** The key yields a next group: it has field idx and a non-empty prefix before it. */
  predicate Proper(k: Bytes, idx: nat, sep: Bytes)
    requires sep != []
  {
    HasField(k, idx, sep) && Head(k, idx, sep) != []
  }

  predicate IsStamp(t: Bytes, w: nat) {
    |t| == w && forall i :: 0 <= i < w ==> '0' as int <= t[i] <= '9' as int
  }

  /** Every timestamp field has the same width. */
  ghost predicate Stamped(keys: seq<Bytes>, idx: nat, sep: Bytes, w: nat)
    requires sep != []
  {
    forall i :: 0 <= i < |keys| && Proper(keys[i], idx, sep) ==> IsStamp(Field(keys[i], idx, sep), w)
  }

  /** The timestamp is the last field of every key that has one. */
  ghost predicate Flat(keys: seq<Bytes>, idx: nat, sep: Bytes)
    requires sep != []
  {
    forall i :: 0 <= i < |keys| && Proper(keys[i], idx, sep) ==> Tail(keys[i], idx, sep) == []
  }

  /** An earlier group's seek target lies beyond keys[j]. */
  ghost predicate Shadowed(keys: seq<Bytes>, idx: nat, sep: Bytes, j: nat)
    requires sep != []
  {
    j < |keys| && exists i :: 0 <= i < j && Shadows(keys, idx, sep, i, j)
  }

  predicate Shadows(keys: seq<Bytes>, idx: nat, sep: Bytes, i: nat, j: nat)
    requires sep != [] && i < |keys| && j < |keys|
  {
    Proper(keys[i], idx, sep) && Lt(keys[j], Bumped(Head(keys[i], idx, sep)))
  }

  /** A landing on keys[j] would end the scan, and no earlier group's target jumps over it. */
  ghost predicate Blocks(keys: seq<Bytes>, idx: nat, sep: Bytes, j: nat)
    requires sep != [] && j < |keys|
  {
    !Proper(keys[j], idx, sep) && !Shadowed(keys, idx, sep, j)
  }

  /** How far the scan can get: the first index that blocks. */
  ghost function Reach(keys: seq<Bytes>, idx: nat, sep: Bytes, from: nat): (r: nat)
    requires sep != [] && from <= |keys|
    ensures from <= r <= |keys|
    ensures r < |keys| ==> Blocks(keys, idx, sep, r)
    ensures forall j :: from <= j < r ==> !Blocks(keys, idx, sep, j)
    decreases |keys| - from
  {
    if from == |keys| || Blocks(keys, idx, sep, from) then from else Reach(keys, idx, sep, from + 1)
  }

  /** Within the reach, no key of another group lies between a key and its group's seek target. */
  ghost predicate Clean(keys: seq<Bytes>, idx: nat, sep: Bytes)
    requires sep != []
  {
    forall i, j :: 0 <= i < j < Reach(keys, idx, sep, 0) && Proper(keys[j], idx, sep)
                   && Shadows(keys, idx, sep, i, j) ==>
                     Head(keys[j], idx, sep) == Head(keys[i], idx, sep)
  }

  predicate InWindow(k: Bytes, idx: nat, sep: Bytes, s: Bytes, e: Bytes)
    requires sep != []
  {
    && Proper(k, idx, sep)
    && var t := Field(k, idx, sep);
    && Le(Fit(s, |t|), t)
    && Le(t, Fit(e, |t|))
  }

  /** v lies in the slice that a landing on k selects. */
  ghost predicate Selects(k: Bytes, v: Bytes, idx: nat, sep: Bytes, s: Bytes, e: Bytes)
    requires sep != [] && HasField(k, idx, sep) && HasField(v, idx, sep)
  {
    var w := |Field(k, idx, sep)|;
    var rest := Field(v, idx, sep) + Tail(v, idx, sep);
    && Le(Fit(s, w) + Tail(k, idx, sep), rest)
    && Le(rest, Fit(e, w) + Tail(k, idx, sep))
  }

  lemma OverIffNotProper(keys: seq<Bytes>, idx: nat, sep: Bytes, s: Bytes, pos: nat)
    requires sep != [] && idx >= 1 && pos < |keys|
    ensures Over(keys, ByIndex(idx, sep), s, pos) <==> !Proper(keys[pos], idx, sep)
    ensures Proper(keys[pos], idx, sep) ==>
              ByIndex(idx, sep)(s, keys[pos]).1 == Some(Bumped(Head(keys[pos], idx, sep)))
  {
    if HasField(keys[pos], idx, sep) {
      HijackParts(idx, sep, s, keys[pos]);
    }
  }

  lemma ProperAdvances(k: Bytes, idx: nat, sep: Bytes)
    requires sep != [] && idx >= 1 && Proper(k, idx, sep)
    ensures Lt(k, Bumped(Head(k, idx, sep))) <==> HasRoom(Head(k, idx, sep))
  {
    Parts(k, idx, sep);
    BumpAdvances(Head(k, idx, sep), k);
  }

  // ---- the landings advance exactly when none is on an all-0xff prefix ----

  /** A landing whose group prefix has no byte other than 0xff. */
  ghost predicate NoRoomAt(keys: seq<Bytes>, idx: nat, sep: Bytes, pos: nat)
    requires sep != []
  {
    pos < |keys| && Proper(keys[pos], idx, sep) && !HasRoom(Head(keys[pos], idx, sep))
  }

  lemma FallbackIffNoRoom(keys: seq<Bytes>, idx: nat, sep: Bytes, s: Bytes, pos: nat)
    requires sep != [] && idx >= 1
    ensures Fallback(keys, ByIndex(idx, sep), s, pos) <==> NoRoomAt(keys, idx, sep, pos)
  {
    if pos < |keys| {
      OverIffNotProper(keys, idx, sep, s, pos);
      if Proper(keys[pos], idx, sep) { ProperAdvances(keys[pos], idx, sep); }
    }
  }

  lemma AdvancesIff(keys: seq<Bytes>, idx: nat, sep: Bytes, s: Bytes, pos: nat)
    requires sep != [] && idx >= 1 && Sorted(keys)
    ensures AdvancesFrom(keys, ByIndex(idx, sep), s, pos) <==>
            forall n: nat :: !NoRoomAt(keys, idx, sep, Landing(keys, ByIndex(idx, sep), s, pos, n))
  {
    AdvancesIffNoFallback(keys, ByIndex(idx, sep), s, pos);
    forall p: nat
      ensures Fallback(keys, ByIndex(idx, sep), s, p) <==> NoRoomAt(keys, idx, sep, p)
    {
      FallbackIffNoRoom(keys, idx, sep, s, p);
    }
  }

  /** Where the scan lands does not depend on the timestamp. */
  lemma {:induction false} AnyStamp(keys: seq<Bytes>, idx: nat, sep: Bytes, s: Bytes, s': Bytes, pos: nat)
    requires sep != [] && idx >= 1 && Sorted(keys)
    ensures AdvancesFrom(keys, ByIndex(idx, sep), s, pos) <==> AdvancesFrom(keys, ByIndex(idx, sep), s', pos)
    decreases |keys| - pos
  {
    if pos < |keys| {
      OverIffNotProper(keys, idx, sep, s, pos);
      OverIffNotProper(keys, idx, sep, s', pos);
      if Proper(keys[pos], idx, sep) && Lt(keys[pos], Bumped(Head(keys[pos], idx, sep))) {
        LandsLater(keys, pos, Bumped(Head(keys[pos], idx, sep)));
        AnyStamp(keys, idx, sep, s, s', LowerBound(keys, Bumped(Head(keys[pos], idx, sep))));
      }
    }
  }

  /** No key the scan lands on has an all-0xff prefix. */
  ghost predicate Advancing(keys: seq<Bytes>, idx: nat, sep: Bytes)
    requires Sorted(keys)
  {
    AdvancesFrom(keys, ByIndex(idx, sep), [], 0)
  }

  /** The whole scan. */
  ghost function IndexScan(keys: seq<Bytes>, idx: nat, sep: Bytes, s: Bytes, e: Bytes): seq<Bytes>
    requires sep != [] && idx >= 1 && Sorted(keys) && Advancing(keys, idx, sep)
  {
    AnyStamp(keys, idx, sep, [], s, 0);
    ScanFrom(keys, ByIndex(idx, sep), s, e, 0)
  }

  /** A landing the scan goes on from. */
  lemma AtLanding(keys: seq<Bytes>, idx: nat, sep: Bytes, s: Bytes, e: Bytes, pos: nat) returns (next: nat)
    requires sep != [] && idx >= 1 && Sorted(keys) && AdvancesFrom(keys, ByIndex(idx, sep), s, pos)
    requires pos < |keys| && Proper(keys[pos], idx, sep)
    ensures var p := Head(keys[pos], idx, sep);
            HasRoom(p) && next == LowerBound(keys, Bumped(p)) && pos < next <= |keys|
    ensures AdvancesFrom(keys, ByIndex(idx, sep), s, next)
    ensures ScanFrom(keys, ByIndex(idx, sep), s, e, pos) ==
            RoundKeys(keys, ByIndex(idx, sep), s, e, pos) + ScanFrom(keys, ByIndex(idx, sep), s, e, next)
  {
    OverIffNotProper(keys, idx, sep, s, pos);
    ProperAdvances(keys[pos], idx, sep);
    LandsLater(keys, pos, Bumped(Head(keys[pos], idx, sep)));
    next := LowerBound(keys, Bumped(Head(keys[pos], idx, sep)));
  }

  // ---- when the unlimited scan ends ----

  ghost predicate AllFF(p: Bytes) {
    forall i :: 0 <= i < |p| ==> p[i] == 0xff
  }

  lemma {:induction false} AllFFOrder(a: Bytes, b: Bytes, y: Bytes)
    requires AllFF(a) && AllFF(b) && y != [] && y[0] != 0xff
    ensures if |a| <= |b| then Le(a, b) else Lt(b + y, a)
  {
    if |a| <= |b| {
      assert a == b[..|a|];
      PrefixLe(a, b);
    } else {
      assert a == b + a[|b|..];
      LtAppend(b, y, b, a[|b|..]);
    }
  }

  lemma BumpedCons(q: Bytes)
    requires q != [] && HasRoom(q[1..])
    ensures Bumped(q) == [q[0]] + Bumped(q[1..])
  {
    var i := BumpIndex(q[1..]);
    assert i != -1;
    BumpIndexIs(q, i + 1);
  }

  /** The seek target of a group below an all-0xff prefix p is not beyond p, or it is beyond every
      string that goes on from p with a smaller byte. */
  lemma {:induction false} TargetAroundFFs(q: Bytes, p: Bytes, y: Bytes)
    requires AllFF(p) && Lt(q, p) && HasRoom(q) && y != [] && y[0] != 0xff
    ensures Le(Bumped(q), p) || Lt(p + y, Bumped(q))
    decreases |q|
  {
    var t := Bumped(q);
    if HasRoom(q[1..]) {
      BumpedCons(q);
      assert t[1..] == Bumped(q[1..]);
      if q[0] == 0xff {
        TargetAroundFFs(q[1..], p[1..], y);
        assert (p + y)[1..] == p[1..] + y;
      }
    } else {
      assert q[0] != 0xff by {
        var i :| 0 <= i < |q| && q[i] != 0xff;
        assert i > 0 ==> q[1..][i - 1] != 0xff;
      }
      forall i | 1 <= i < |q|
        ensures q[i] == 0xff
      {
        assert q[1..][i - 1] == q[i];
      }
      BumpIndexIs(q, 0);
      if q[0] + 1 == 0xff {
        AllFFOrder(t, p, y);
      }
    }
  }

  /** A landing before an all-0xff prefix p whose target is not beyond the keys of p is followed by
      one that is not beyond p itself. */
  lemma TargetNotInto(keys: seq<Bytes>, q: Bytes, p: Bytes, y: Bytes, pos: nat, l: nat)
    requires Sorted(keys) && pos < LowerBound(keys, p) <= l < |keys|
    requires q <= keys[pos] && HasRoom(q) && AllFF(p) && keys[l] == p + y && y != [] && y[0] != 0xff
    requires LowerBound(keys, Bumped(q)) <= l
    ensures LowerBound(keys, Bumped(q)) <= LowerBound(keys, p)
  {
    var back := LowerBound(keys, p);
    assert Lt(q, p) by {
      PrefixLe(q, keys[pos]);
      LeLt(q, keys[pos], p);
    }
    TargetAroundFFs(q, p, y);
    if Le(Bumped(q), p) {
      LeTransitive(Bumped(q), p, keys[back]);
      LowerBoundAbove(keys, Bumped(q), back);
    } else {
      LowerBoundAbove(keys, Bumped(q), l);
    }
  }

  lemma NotIntoFFs(keys: seq<Bytes>, idx: nat, sep: Bytes, pos: nat, l: nat)
    requires sep != [] && sep[0] != 0xff && idx >= 1 && Sorted(keys)
    requires pos < |keys| && Proper(keys[pos], idx, sep) && HasRoom(Head(keys[pos], idx, sep))
    requires NoRoomAt(keys, idx, sep, l)
    requires pos < LowerBound(keys, Head(keys[l], idx, sep)) <= l
    requires LowerBound(keys, Bumped(Head(keys[pos], idx, sep))) <= l
    ensures LowerBound(keys, Bumped(Head(keys[pos], idx, sep))) <= LowerBound(keys, Head(keys[l], idx, sep))
  {
    var q, p := Head(keys[pos], idx, sep), Head(keys[l], idx, sep);
    var rest := Field(keys[l], idx, sep) + Tail(keys[l], idx, sep);
    AfterHead(keys[l], idx, sep);
    AfterHead(keys[pos], idx, sep);
    TargetNotInto(keys, q, p, sep + rest, pos, l);
  }

  lemma FFsStayOnPath(keys: seq<Bytes>, idx: nat, sep: Bytes, s: Bytes, l: nat)
    requires sep != [] && sep[0] != 0xff && idx >= 1 && Sorted(keys) && Fallback(keys, ByIndex(idx, sep), s, l)
    ensures NoneJumpsOver(keys, ByIndex(idx, sep), s, l)
  {
    var f := ByIndex(idx, sep);
    FallbackIffNoRoom(keys, idx, sep, s, l);
    OverIffNotProper(keys, idx, sep, s, l);
    var p := Head(keys[l], idx, sep);
    assert Bumped(p) == p;
    LowerBoundAbove(keys, p, l);
    forall q: nat | q < NextLanding(keys, f, s, l) && !Over(keys, f, s, q) && !Fallback(keys, f, s, q)
                    && NextLanding(keys, f, s, q) <= l
      ensures NextLanding(keys, f, s, q) <= NextLanding(keys, f, s, l)
    {
      FallbackIffNoRoom(keys, idx, sep, s, q);
      OverIffNotProper(keys, idx, sep, s, q);
      NotIntoFFs(keys, idx, sep, q, l);
    }
  }

  /** The unlimited, uncancelled scan ends if and only if no key it lands on has an all-0xff prefix,
      for every separator that does not start with 0xff. */
  lemma EndsIff(keys: seq<Bytes>, idx: nat, sep: Bytes, s: Bytes)
    requires sep != [] && sep[0] != 0xff && idx >= 1 && Sorted(keys)
    ensures Ends(keys, ByIndex(idx, sep), s, 0) <==>
            forall n: nat :: !NoRoomAt(keys, idx, sep, Landing(keys, ByIndex(idx, sep), s, 0, n))
  {
    forall l: nat | Fallback(keys, ByIndex(idx, sep), s, l)
      ensures NoneJumpsOver(keys, ByIndex(idx, sep), s, l)
    {
      FFsStayOnPath(keys, idx, sep, s, l);
    }
    EndsIffAdvances(keys, ByIndex(idx, sep), s);
    AdvancesIff(keys, idx, sep, s, 0);
  }

  // ---- a separator of 0xff: an all-0xff prefix can lead to a key that ends the scan ----

  const FF: Bytes := [0xff]
  const FF_KEYS: seq<Bytes> := [[0xfe, 0xff, 0xff, 0x35], [0xff], [0xff, 0xff, 0x35]]

  lemma TwoCuts(head: Bytes)
    requires 0xff !in head
    ensures var k := head + FF + ([] + FF + [0x35]);
            Split(k, FF) == [head, [], [0x35]] && Proper(k, 2, FF) && Head(k, 2, FF) == head + FF
  {
    SplitAtByte(head, [] + FF + [0x35], 0xff);
    SplitAtByte([], [0x35], 0xff);
    SplitNowhere([0x35], 0xff);
    var k := head + FF + ([] + FF + [0x35]);
    var empty: Bytes := [];
    assert Split(k, FF)[..2] == [head, empty] && [head, empty][1..] == [empty];
    assert Join([empty], FF) == empty && head + FF + empty == head + FF;
  }

  lemma FFFields()
    ensures Proper(FF_KEYS[0], 2, FF) && Head(FF_KEYS[0], 2, FF) == [0xfe, 0xff]
    ensures !Proper(FF_KEYS[1], 2, FF)
    ensures Proper(FF_KEYS[2], 2, FF) && Head(FF_KEYS[2], 2, FF) == [0xff]
  {
    TwoCuts([0xfe]);
    assert FF_KEYS[0] == [0xfe] + FF + ([] + FF + [0x35]);
    TwoCuts([]);
    assert FF_KEYS[2] == [] + FF + ([] + FF + [0x35]);
    SplitAtByte([], [], 0xff);
    SplitNowhere([], 0xff);
    assert FF_KEYS[1] == [] + FF + [];
  }

  lemma FFSeeks()
    ensures Sorted(FF_KEYS)
    ensures Bumped([0xfe, 0xff]) == [0xff, 0xff] && Bumped([0xff]) == [0xff]
    ensures LowerBound(FF_KEYS, [0xff, 0xff]) == 2 && LowerBound(FF_KEYS, [0xff]) == 1
  {
    var a, b, c := FF_KEYS[0], FF_KEYS[1], FF_KEYS[2];
    assert Lt(a, b) && Lt(a, c);
    assert Lt(b, c) && Lt(b, [0xff, 0xff]) by { assert b[1..] == []; }
    PrefixLe([0xff], b);
    PrefixLe([0xff, 0xff], c);
    assert Lt(a, [0xff, 0xff]) && Lt(a, [0xff]);
    BumpIndexIs([0xfe, 0xff], 0);
    BumpIndexIs([0xff], -1);
    assert FF_KEYS[1..][0] == b && FF_KEYS[1..][1..][0] == c;
  }

  /** The condition on the separator in EndsIff is needed. */
  lemma EndsDespiteAnFFPrefix()
    ensures Sorted(FF_KEYS) && Ends(FF_KEYS, ByIndex(2, FF), [], 0)
    ensures NoRoomAt(FF_KEYS, 2, FF, Landing(FF_KEYS, ByIndex(2, FF), [], 0, 1))
  {
    var f := ByIndex(2, FF);
    FFFields();
    FFSeeks();
    OverIffNotProper(FF_KEYS, 2, FF, [], 0);
    OverIffNotProper(FF_KEYS, 2, FF, [], 1);
    OverIffNotProper(FF_KEYS, 2, FF, [], 2);
    assert Landing(FF_KEYS, f, [], 2, 0) == 2 && Landing(FF_KEYS, f, [], 0, 1) == 2;
    assert Landing(FF_KEYS, f, [], 1, 0) == 1 && Landing(FF_KEYS, f, [], 2, 1) == 1;
    assert Landing(FF_KEYS, f, [], 0, 2) == 1;
  }

  // ---- one round ----

  lemma RoundMembers(keys: seq<Bytes>, idx: nat, sep: Bytes, s: Bytes, e: Bytes, pos: nat, v: Bytes)
    requires sep != [] && idx >= 1 && Sorted(keys)
    requires pos < |keys| && HasField(keys[pos], idx, sep)
    ensures v in RoundKeys(keys, ByIndex(idx, sep), s, e, pos) <==>
            && v in keys
            && HasField(v, idx, sep)
            && Head(v, idx, sep) == Head(keys[pos], idx, sep)
            && Selects(keys[pos], v, idx, sep, s, e)
  {
    var k := keys[pos];
    var h, w := Head(k, idx, sep), |Field(k, idx, sep)|;
    HijackParts(idx, sep, s, k);
    HijackParts(idx, sep, e, k);
    var lo, hi := Fit(s, w) + Tail(k, idx, sep), Fit(e, w) + Tail(k, idx, sep);
    RunMembers(keys, h + sep + lo, h + sep + hi, v);
    if v in RoundKeys(keys, ByIndex(idx, sep), s, e, pos) {
      SqueezedPrefix(h + sep, h + sep + lo, v, h + sep + hi);
      HeadIsShared(k, v, idx, sep);
    }
    if HasField(v, idx, sep) && Head(v, idx, sep) == h {
      Parts(v, idx, sep);
      var rest := Field(v, idx, sep) + Tail(v, idx, sep);
      LtAppend(h + sep, rest, h + sep, lo);
      LtAppend(h + sep, hi, h + sep, rest);
      LtIrreflexive(h + sep);
    }
  }

  /** v is stored, in the group of keys[l], and a landing there selects it. */
  ghost predicate SelectedFrom(keys: seq<Bytes>, idx: nat, sep: Bytes, s: Bytes, e: Bytes, l: nat, v: Bytes)
    requires sep != []
  {
    && l < |keys| && Proper(keys[l], idx, sep)
    && v in keys && HasField(v, idx, sep) && Head(v, idx, sep) == Head(keys[l], idx, sep)
    && Selects(keys[l], v, idx, sep, s, e)
  }

  lemma InRoundIff(keys: seq<Bytes>, idx: nat, sep: Bytes, s: Bytes, e: Bytes, l: nat, v: Bytes)
    requires sep != [] && idx >= 1 && Sorted(keys)
    ensures InRound(keys, ByIndex(idx, sep), s, e, l, v) <==> SelectedFrom(keys, idx, sep, s, e, l, v)
  {
    if l < |keys| {
      OverIffNotProper(keys, idx, sep, s, l);
      if Proper(keys[l], idx, sep) { RoundMembers(keys, idx, sep, s, e, l, v); }
    }
  }

  /** Where round m of the scan lands. */
  function LandsOn(keys: seq<Bytes>, idx: nat, sep: Bytes, s: Bytes, m: nat): nat {
    Landing(keys, ByIndex(idx, sep), s, 0, m)
  }

  /** For every store and any number of rounds: exactly the keys are visited that some landing
      selects from its group. */
  lemma VisitedIffLanding(keys: seq<Bytes>, idx: nat, sep: Bytes, s: Bytes, e: Bytes, n: nat, v: Bytes)
    requires sep != [] && idx >= 1 && Sorted(keys)
    ensures v in VisitedIn(keys, ByIndex(idx, sep), s, e, 0, n) <==>
            exists m: nat :: m < n && SelectedFrom(keys, idx, sep, s, e, LandsOn(keys, idx, sep, s, m), v)
  {
    var f := ByIndex(idx, sep);
    if v in VisitedIn(keys, f, s, e, 0, n) {
      var m := VisitedInRound(keys, f, s, e, 0, n, v);
      InRoundIff(keys, idx, sep, s, e, LandsOn(keys, idx, sep, s, m), v);
    }
    if m: nat :| m < n && SelectedFrom(keys, idx, sep, s, e, LandsOn(keys, idx, sep, s, m), v) {
      InRoundIff(keys, idx, sep, s, e, LandsOn(keys, idx, sep, s, m), v);
      RoundIsVisited(keys, f, s, e, 0, n, m, v);
    }
  }

  /** And of the whole scan, when every landing advances. */
  lemma ScanIffLanding(keys: seq<Bytes>, idx: nat, sep: Bytes, s: Bytes, e: Bytes, v: Bytes)
    requires sep != [] && idx >= 1 && Sorted(keys) && Advancing(keys, idx, sep)
    ensures v in IndexScan(keys, idx, sep, s, e) <==>
            exists m: nat :: SelectedFrom(keys, idx, sep, s, e, LandsOn(keys, idx, sep, s, m), v)
  {
    ScanIsAllRounds(keys, idx, sep, s, e);
    VisitedIffLanding(keys, idx, sep, s, e, |keys|, v);
    forall m: nat | SelectedFrom(keys, idx, sep, s, e, LandsOn(keys, idx, sep, s, m), v)
      ensures v in IndexScan(keys, idx, sep, s, e)
    {
      LandingVisits(keys, idx, sep, s, e, m, v);
    }
  }

  lemma LandingVisits(keys: seq<Bytes>, idx: nat, sep: Bytes, s: Bytes, e: Bytes, m: nat, v: Bytes)
    requires sep != [] && idx >= 1 && Sorted(keys) && Advancing(keys, idx, sep)
    requires SelectedFrom(keys, idx, sep, s, e, LandsOn(keys, idx, sep, s, m), v)
    ensures v in IndexScan(keys, idx, sep, s, e)
  {
    var f := ByIndex(idx, sep);
    ScanIsAllRounds(keys, idx, sep, s, e);
    InRoundIff(keys, idx, sep, s, e, LandsOn(keys, idx, sep, s, m), v);
    RoundIsVisited(keys, f, s, e, 0, m + 1, m, v);
    VisitedByTheEnd(keys, f, s, e, 0, |keys|, m + 1, v);
  }

  lemma ScanIsAllRounds(keys: seq<Bytes>, idx: nat, sep: Bytes, s: Bytes, e: Bytes)
    requires sep != [] && idx >= 1 && Sorted(keys) && Advancing(keys, idx, sep)
    ensures Over(keys, ByIndex(idx, sep), s, LandsOn(keys, idx, sep, s, |keys|))
    ensures IndexScan(keys, idx, sep, s, e) == VisitedIn(keys, ByIndex(idx, sep), s, e, 0, |keys|)
  {
    AnyStamp(keys, idx, sep, [], s, 0);
    AdvancingEnds(keys, ByIndex(idx, sep), s, 0);
    ScanIsVisited(keys, ByIndex(idx, sep), s, e, 0, |keys|);
  }

  /** A visited key is in the group of a key at or behind the first landing. */
  lemma {:induction false} VisitedHasLanding(keys: seq<Bytes>, idx: nat, sep: Bytes, s: Bytes, e: Bytes,
        pos: nat, v: Bytes) returns (l: nat)
    requires sep != [] && idx >= 1 && Sorted(keys) && AdvancesFrom(keys, ByIndex(idx, sep), s, pos)
    requires v in ScanFrom(keys, ByIndex(idx, sep), s, e, pos)
    ensures v in keys && Proper(v, idx, sep)
    ensures pos <= l < |keys| && Proper(keys[l], idx, sep)
    ensures Head(keys[l], idx, sep) == Head(v, idx, sep) && HasRoom(Head(v, idx, sep))
    ensures Selects(keys[l], v, idx, sep, s, e)
    decreases |keys| - pos
  {
    OverIffNotProper(keys, idx, sep, s, pos);
    var next := AtLanding(keys, idx, sep, s, e, pos);
    if v in RoundKeys(keys, ByIndex(idx, sep), s, e, pos) {
      RoundMembers(keys, idx, sep, s, e, pos, v);
      l := pos;
    } else {
      l := VisitedHasLanding(keys, idx, sep, s, e, next, v);
    }
  }

  /** No key at or past the seek target of a group belongs to that group. */
  lemma GroupEnds(k: Bytes, idx: nat, sep: Bytes, p: Bytes)
    requires sep != [] && idx >= 1 && HasField(k, idx, sep)
    requires Head(k, idx, sep) == p && HasRoom(p)
    ensures Lt(k, Bumped(p))
  {
    AfterHead(k, idx, sep);
    BumpAdvances(p, k);
  }

  /** A string between two members of a group is in the group. */
  lemma GroupIsConvex(a: Bytes, v: Bytes, b: Bytes, idx: nat, sep: Bytes)
    requires sep != [] && idx >= 1 && HasField(a, idx, sep) && HasField(b, idx, sep)
    requires Head(a, idx, sep) == Head(b, idx, sep) && Le(a, v) && Le(v, b)
    ensures HasField(v, idx, sep) && Head(v, idx, sep) == Head(a, idx, sep)
  {
    Parts(a, idx, sep);
    Parts(b, idx, sep);
    SqueezedPrefix(Head(a, idx, sep) + sep, a, v, b);
    HeadIsShared(a, v, idx, sep);
  }

  // ---- order: the visited keys ascend although Seek(keyStart) may move backwards ----

  /** A key of the group of p and a key visited from p's seek target on. */
  lemma RoundBeforeRest(keys: seq<Bytes>, idx: nat, sep: Bytes, s: Bytes, e: Bytes, p: Bytes, next: nat,
      a: Bytes, b: Bytes)
    requires sep != [] && idx >= 1 && Sorted(keys) && AdvancesFrom(keys, ByIndex(idx, sep), s, next)
    requires HasRoom(p) && next == LowerBound(keys, Bumped(p))
    requires HasField(a, idx, sep) && Head(a, idx, sep) == p
    requires b in ScanFrom(keys, ByIndex(idx, sep), s, e, next)
    ensures Lt(a, b)
  {
    GroupEnds(a, idx, sep, p);
    var l := VisitedHasLanding(keys, idx, sep, s, e, next, b);
    if !Lt(a, b) {
      LowerBoundAbove(keys, Bumped(p), l);
      LtLe(a, Bumped(p), keys[l]);
      LtAsymmetric(a, keys[l]);
      GroupIsConvex(b, a, keys[l], idx, sep);
      GroupEnds(keys[l], idx, sep, p);
      assert false;
    }
  }

  lemma {:induction false} ScanAscends(keys: seq<Bytes>, idx: nat, sep: Bytes, s: Bytes, e: Bytes, pos: nat)
    requires sep != [] && idx >= 1 && Sorted(keys) && AdvancesFrom(keys, ByIndex(idx, sep), s, pos)
    ensures Sorted(ScanFrom(keys, ByIndex(idx, sep), s, e, pos))
    decreases |keys| - pos
  {
    var f := ByIndex(idx, sep);
    if !Over(keys, f, s, pos) {
      OverIffNotProper(keys, idx, sep, s, pos);
      var next := AtLanding(keys, idx, sep, s, e, pos);
      var here, later := RoundKeys(keys, f, s, e, pos), ScanFrom(keys, f, s, e, next);
      RunSorted(keys, f(s, keys[pos]).0, f(e, keys[pos]).0);
      ScanAscends(keys, idx, sep, s, e, next);
      forall a, b | a in here && b in later
        ensures Lt(a, b)
      {
        RoundMembers(keys, idx, sep, s, e, pos, a);
        RoundBeforeRest(keys, idx, sep, s, e, Head(keys[pos], idx, sep), next, a, b);
      }
    }
  }

  // ---- soundness: nothing outside the window, whatever the groups look like ----

  lemma ScanIsSound(keys: seq<Bytes>, idx: nat, sep: Bytes, s: Bytes, e: Bytes, w: nat, v: Bytes)
    requires sep != [] && idx >= 1 && Sorted(keys) && Advancing(keys, idx, sep)
    requires forall i :: 0 <= i < |keys| && Proper(keys[i], idx, sep) ==> |Field(keys[i], idx, sep)| == w
    requires v in IndexScan(keys, idx, sep, s, e)
    ensures v in keys && InWindow(v, idx, sep, s, e)
  {
    AnyStamp(keys, idx, sep, [], s, 0);
    var l := VisitedHasLanding(keys, idx, sep, s, e, 0, v);
    var t := Field(v, idx, sep);
    LtAppend(t, Tail(v, idx, sep), Fit(s, w), Tail(keys[l], idx, sep));
    LtAppend(Fit(e, w), Tail(keys[l], idx, sep), t, Tail(v, idx, sep));
  }

  // ---- how far the scan gets ----

  /** Below the reach a key no target jumps over is one the scan goes on from. */
  lemma ReachedIsProper(keys: seq<Bytes>, idx: nat, sep: Bytes, pos: nat)
    requires sep != [] && pos < Reach(keys, idx, sep, 0) && !Shadowed(keys, idx, sep, pos)
    ensures Proper(keys[pos], idx, sep)
  {
    assert !Blocks(keys, idx, sep, pos);
  }

  /** With clean groups the next landing is again one no target jumps over, and within the reach. */
  lemma NextLandingReached(keys: seq<Bytes>, idx: nat, sep: Bytes, pos: nat, next: nat)
    requires sep != [] && idx >= 1 && Sorted(keys) && Clean(keys, idx, sep)
    requires pos < Reach(keys, idx, sep, 0) && !Shadowed(keys, idx, sep, pos) && Proper(keys[pos], idx, sep)
    requires next == LowerBound(keys, Bumped(Head(keys[pos], idx, sep))) && pos < next
    ensures next <= Reach(keys, idx, sep, 0) && !Shadowed(keys, idx, sep, next)
  {
    var p, q := Head(keys[pos], idx, sep), Reach(keys, idx, sep, 0);
    if q < |keys| {
      assert !Shadows(keys, idx, sep, pos, q);
      LowerBoundAbove(keys, Bumped(p), q);
    }
    if next < |keys| {
      forall i | 0 <= i < next
        ensures !Shadows(keys, idx, sep, i, next)
      {
        if Proper(keys[i], idx, sep) && i < pos {
          assert !Shadows(keys, idx, sep, i, pos);
          LeLt(Bumped(Head(keys[i], idx, sep)), keys[pos], keys[next]);
          LtAsymmetric(Bumped(Head(keys[i], idx, sep)), keys[next]);
        } else if Proper(keys[i], idx, sep) {
          assert i == pos || Shadows(keys, idx, sep, pos, i);
          assert Head(keys[i], idx, sep) == p;
        }
      }
    }
  }

  lemma BeginsReached(keys: seq<Bytes>, idx: nat, sep: Bytes)
    requires sep != []
    ensures !Shadowed(keys, idx, sep, 0)
  {
  }

  /** With clean groups nothing at or beyond the reach is visited. */
  lemma {:induction false} VisitedWithinReach(keys: seq<Bytes>, idx: nat, sep: Bytes, s: Bytes, e: Bytes,
      pos: nat, i: nat)
    requires sep != [] && idx >= 1 && Sorted(keys) && Clean(keys, idx, sep)
    requires AdvancesFrom(keys, ByIndex(idx, sep), s, pos)
    requires pos <= Reach(keys, idx, sep, 0) && !Shadowed(keys, idx, sep, pos)
    requires i < |keys| && keys[i] in ScanFrom(keys, ByIndex(idx, sep), s, e, pos)
    ensures i < Reach(keys, idx, sep, 0)
    decreases |keys| - pos
  {
    OverIffNotProper(keys, idx, sep, s, pos);
    var next := AtLanding(keys, idx, sep, s, e, pos);
    NextLandingReached(keys, idx, sep, pos, next);
    if keys[i] in RoundKeys(keys, ByIndex(idx, sep), s, e, pos) {
      RoundMembers(keys, idx, sep, s, e, pos, keys[i]);
      GroupEnds(keys[i], idx, sep, Head(keys[pos], idx, sep));
      LowerBoundAbove(keys, Bumped(Head(keys[pos], idx, sep)), i);
    } else {
      VisitedWithinReach(keys, idx, sep, s, e, next, i);
    }
  }

  // ---- completeness ----

  /** With clean groups a key within the reach is visited as soon as every possible landing in its
      group selects it. */
  lemma {:induction false} CleanScanVisits(keys: seq<Bytes>, idx: nat, sep: Bytes, s: Bytes, e: Bytes, pos: nat, i: nat)
    requires sep != [] && idx >= 1 && Sorted(keys) && Clean(keys, idx, sep)
    requires AdvancesFrom(keys, ByIndex(idx, sep), s, pos) && !Shadowed(keys, idx, sep, pos)
    requires pos <= i < Reach(keys, idx, sep, 0) && Proper(keys[i], idx, sep)
    requires forall l :: 0 <= l < |keys| && Proper(keys[l], idx, sep)
                         && Head(keys[l], idx, sep) == Head(keys[i], idx, sep) ==>
                           Selects(keys[l], keys[i], idx, sep, s, e)
    ensures keys[i] in ScanFrom(keys, ByIndex(idx, sep), s, e, pos)
    decreases |keys| - pos
  {
    ReachedIsProper(keys, idx, sep, pos);
    var p := Head(keys[pos], idx, sep);
    var next := AtLanding(keys, idx, sep, s, e, pos);
    NextLandingReached(keys, idx, sep, pos, next);
    if i < next {
      assert i == pos || Shadows(keys, idx, sep, pos, i);
      RoundMembers(keys, idx, sep, s, e, pos, keys[i]);
    } else {
      CleanScanVisits(keys, idx, sep, s, e, next, i);
    }
  }

  /** keys[first] is the first key of keys[i]'s group. */
  ghost predicate FirstOfGroup(keys: seq<Bytes>, idx: nat, sep: Bytes, first: nat, i: nat)
    requires sep != [] && first <= i < |keys| && Proper(keys[i], idx, sep)
  {
    && Proper(keys[first], idx, sep) && Head(keys[first], idx, sep) == Head(keys[i], idx, sep)
    && forall a :: 0 <= a < first && Proper(keys[a], idx, sep) ==> Head(keys[a], idx, sep) != Head(keys[i], idx, sep)
  }

  lemma {:induction false} FirstExists(keys: seq<Bytes>, idx: nat, sep: Bytes, i: nat) returns (first: nat)
    requires sep != [] && i < |keys| && Proper(keys[i], idx, sep)
    ensures first <= i && FirstOfGroup(keys, idx, sep, first, i)
    decreases i
  {
    if a: nat :| a < i && Proper(keys[a], idx, sep) && Head(keys[a], idx, sep) == Head(keys[i], idx, sep) {
      first := FirstExists(keys, idx, sep, a);
    } else {
      first := i;
    }
  }

  lemma NotVisitedLater(keys: seq<Bytes>, idx: nat, sep: Bytes, s: Bytes, e: Bytes, p: Bytes, next: nat, v: Bytes)
    requires sep != [] && idx >= 1 && Sorted(keys) && AdvancesFrom(keys, ByIndex(idx, sep), s, next)
    requires HasRoom(p) && next == LowerBound(keys, Bumped(p)) && HasField(v, idx, sep) && Head(v, idx, sep) == p
    ensures v !in ScanFrom(keys, ByIndex(idx, sep), s, e, next)
  {
    if v in ScanFrom(keys, ByIndex(idx, sep), s, e, next) {
      RoundBeforeRest(keys, idx, sep, s, e, p, next, v, v);
      LtIrreflexive(v);
      assert false;
    }
  }

  /** With clean groups the scan lands on the first key of every group within the reach, and that
      key's tail decides which keys at the two end points of the window are visited. */
  lemma {:induction false} CleanScanExact(keys: seq<Bytes>, idx: nat, sep: Bytes, s: Bytes, e: Bytes,
        pos: nat, first: nat, i: nat)
    requires sep != [] && idx >= 1 && Sorted(keys) && Clean(keys, idx, sep)
    requires AdvancesFrom(keys, ByIndex(idx, sep), s, pos) && !Shadowed(keys, idx, sep, pos)
    requires pos <= first <= i < Reach(keys, idx, sep, 0) && Proper(keys[i], idx, sep)
    requires FirstOfGroup(keys, idx, sep, first, i)
    ensures keys[i] in ScanFrom(keys, ByIndex(idx, sep), s, e, pos) <==>
            Selects(keys[first], keys[i], idx, sep, s, e)
    decreases |keys| - pos
  {
    ReachedIsProper(keys, idx, sep, pos);
    var p := Head(keys[pos], idx, sep);
    var next := AtLanding(keys, idx, sep, s, e, pos);
    NextLandingReached(keys, idx, sep, pos, next);
    RoundMembers(keys, idx, sep, s, e, pos, keys[i]);
    if Head(keys[i], idx, sep) == p {
      assert first == pos;
      NotVisitedLater(keys, idx, sep, s, e, p, next, keys[i]);
    } else {
      assert first != pos && !Shadows(keys, idx, sep, pos, first);
      CleanScanExact(keys, idx, sep, s, e, next, first, i);
    }
  }

  /** Fields after the timestamp can only blur the two end points of the window. */
  lemma ScanSandwich(keys: seq<Bytes>, idx: nat, sep: Bytes, s: Bytes, e: Bytes, w: nat, i: nat)
    requires sep != [] && idx >= 1 && Sorted(keys) && Advancing(keys, idx, sep)
    requires Stamped(keys, idx, sep, w) && Clean(keys, idx, sep) && i < |keys|
    ensures i < Reach(keys, idx, sep, 0) && Proper(keys[i], idx, sep)
            && Lt(Fit(s, w), Field(keys[i], idx, sep)) && Lt(Field(keys[i], idx, sep), Fit(e, w)) ==>
              keys[i] in IndexScan(keys, idx, sep, s, e)
    ensures keys[i] in IndexScan(keys, idx, sep, s, e) ==>
              i < Reach(keys, idx, sep, 0) && InWindow(keys[i], idx, sep, s, e)
  {
    AnyStamp(keys, idx, sep, [], s, 0);
    BeginsReached(keys, idx, sep);
    var v := keys[i];
    if v in IndexScan(keys, idx, sep, s, e) {
      ScanIsSound(keys, idx, sep, s, e, w, v);
      VisitedWithinReach(keys, idx, sep, s, e, 0, i);
    }
    if i < Reach(keys, idx, sep, 0) && Proper(v, idx, sep)
       && Lt(Fit(s, w), Field(v, idx, sep)) && Lt(Field(v, idx, sep), Fit(e, w)) {
      forall l | 0 <= l < |keys| && Proper(keys[l], idx, sep) && Head(keys[l], idx, sep) == Head(v, idx, sep)
        ensures Selects(keys[l], v, idx, sep, s, e)
      {
        InsideIsSelected(keys[l], v, idx, sep, s, e, w);
      }
      CleanScanVisits(keys, idx, sep, s, e, 0, i);
    }
  }

  lemma InsideIsSelected(k: Bytes, v: Bytes, idx: nat, sep: Bytes, s: Bytes, e: Bytes, w: nat)
    requires sep != [] && HasField(k, idx, sep) && HasField(v, idx, sep)
    requires |Field(k, idx, sep)| == |Field(v, idx, sep)| == w
    requires Lt(Fit(s, w), Field(v, idx, sep)) && Lt(Field(v, idx, sep), Fit(e, w))
    ensures Selects(k, v, idx, sep, s, e)
  {
    var t, x, y := Field(v, idx, sep), Tail(v, idx, sep), Tail(k, idx, sep);
    LtAppend(Fit(s, w), y, t, x);
    LtAppend(t, x, Fit(e, w), y);
    LtAsymmetric(Fit(s, w) + y, t + x);
    LtAsymmetric(t + x, Fit(e, w) + y);
  }

  lemma FlatIsSelected(k: Bytes, v: Bytes, idx: nat, sep: Bytes, s: Bytes, e: Bytes)
    requires sep != [] && HasField(k, idx, sep) && HasField(v, idx, sep)
    requires |Field(k, idx, sep)| == |Field(v, idx, sep)| && Tail(k, idx, sep) == Tail(v, idx, sep) == []
    ensures var t := Field(v, idx, sep);
            Selects(k, v, idx, sep, s, e) <==> Le(Fit(s, |t|), t) && Le(t, Fit(e, |t|))
  {
    var t := Field(v, idx, sep);
    assert t + [] == t && Fit(s, |t|) + [] == Fit(s, |t|) && Fit(e, |t|) + [] == Fit(e, |t|);
  }

  /** The refinement: with clean groups and the timestamp as last field, the skip-scan is the plain
      filter over all keys before the first one that stops it, in order, each key once. */
  lemma ScanIsFilter(keys: seq<Bytes>, idx: nat, sep: Bytes, s: Bytes, e: Bytes, w: nat)
    requires sep != [] && idx >= 1 && Sorted(keys) && Advancing(keys, idx, sep)
    requires Stamped(keys, idx, sep, w) && Flat(keys, idx, sep) && Clean(keys, idx, sep)
    ensures IndexScan(keys, idx, sep, s, e) ==
            Filter(keys[..Reach(keys, idx, sep, 0)], k => InWindow(k, idx, sep, s, e))
  {
    AnyStamp(keys, idx, sep, [], s, 0);
    var visited := IndexScan(keys, idx, sep, s, e);
    var reached := keys[..Reach(keys, idx, sep, 0)];
    var wanted := Filter(reached, k => InWindow(k, idx, sep, s, e));
    forall v
      ensures v in visited <==> v in wanted
    {
      VisitedIffWanted(keys, idx, sep, s, e, w, v);
    }
    ScanAscends(keys, idx, sep, s, e, 0);
    FilterSorted(reached, k => InWindow(k, idx, sep, s, e));
    SortedUnique(visited, wanted);
  }

  lemma VisitedIffWanted(keys: seq<Bytes>, idx: nat, sep: Bytes, s: Bytes, e: Bytes, w: nat, v: Bytes)
    requires sep != [] && idx >= 1 && Sorted(keys) && Advancing(keys, idx, sep)
    requires Stamped(keys, idx, sep, w) && Flat(keys, idx, sep) && Clean(keys, idx, sep)
    ensures v in IndexScan(keys, idx, sep, s, e) <==>
            v in keys[..Reach(keys, idx, sep, 0)] && InWindow(v, idx, sep, s, e)
  {
    AnyStamp(keys, idx, sep, [], s, 0);
    BeginsReached(keys, idx, sep);
    if v in IndexScan(keys, idx, sep, s, e) {
      ScanIsSound(keys, idx, sep, s, e, w, v);
      var i :| 0 <= i < |keys| && keys[i] == v;
      VisitedWithinReach(keys, idx, sep, s, e, 0, i);
    }
    if v in keys[..Reach(keys, idx, sep, 0)] && InWindow(v, idx, sep, s, e) {
      var i :| 0 <= i < Reach(keys, idx, sep, 0) && keys[i] == v;
      forall l | 0 <= l < |keys| && Proper(keys[l], idx, sep) && Head(keys[l], idx, sep) == Head(v, idx, sep)
        ensures Selects(keys[l], v, idx, sep, s, e)
      {
        FlatIsSelected(keys[l], v, idx, sep, s, e);
      }
      CleanScanVisits(keys, idx, sep, s, e, 0, i);
    }
  }

  // ---- necessity: a scan that misses nothing proves the groups clean ----

  /** A landing of another group at or past a seek target cannot own a key before it:
      the seek target never splits a group. */
  lemma TargetSplitsNoGroup(a: Bytes, v: Bytes, b: Bytes, idx: nat, sep: Bytes, w: nat)
    requires sep != [] && idx >= 1 && w >= 1
    requires HasField(a, idx, sep) && HasField(v, idx, sep) && HasField(b, idx, sep)
    requires IsStamp(Field(v, idx, sep), w) && IsStamp(Field(b, idx, sep), w)
    requires Lt(v, Bumped(Head(a, idx, sep))) && Le(Bumped(Head(a, idx, sep)), b)
    requires Head(v, idx, sep) == Head(b, idx, sep)
    ensures Head(v, idx, sep) == Head(a, idx, sep)
  {
    var p := Head(a, idx, sep);
    var n := Bumped(p);
    var q := Head(v, idx, sep) + sep;
    Parts(a, idx, sep);
    Parts(v, idx, sep);
    Parts(b, idx, sep);
    LtAsymmetric(v, n);
    SqueezedPrefix(q, v, n, b);
    var m := |q|;
    assert n == q + n[m..] && v == q + v[m..] && b == q + b[m..];
    LtAppend(q, v[m..], q, n[m..]);
    LtAppend(q, b[m..], q, n[m..]);
    LtIrreflexive(q);
    assert n[m..] != [] && b[m..] != [];
    assert b[m..][0] == Field(b, idx, sep)[0];
    assert n[m..][0] <= b[m..][0];
    BumpKeepsBefore(p, m);
    assert q == n[..m];
    assert q <= a;
    HeadIsShared(v, a, idx, sep);
  }

  lemma {:induction false} VisitingBothMeansSameGroup(keys: seq<Bytes>, idx: nat, sep: Bytes, s: Bytes, e: Bytes,
        w: nat, pos: nat, i: nat, j: nat)
    requires sep != [] && idx >= 1 && w >= 1 && Sorted(keys) && Stamped(keys, idx, sep, w)
    requires AdvancesFrom(keys, ByIndex(idx, sep), s, pos)
    requires i < j < |keys| && Proper(keys[j], idx, sep) && Shadows(keys, idx, sep, i, j)
    requires keys[i] in ScanFrom(keys, ByIndex(idx, sep), s, e, pos)
    requires keys[j] in ScanFrom(keys, ByIndex(idx, sep), s, e, pos)
    ensures Head(keys[j], idx, sep) == Head(keys[i], idx, sep)
    decreases |keys| - pos
  {
    var f := ByIndex(idx, sep);
    OverIffNotProper(keys, idx, sep, s, pos);
    var g := Head(keys[pos], idx, sep);
    var next := AtLanding(keys, idx, sep, s, e, pos);
    RoundMembers(keys, idx, sep, s, e, pos, keys[i]);
    RoundMembers(keys, idx, sep, s, e, pos, keys[j]);
    if keys[i] in RoundKeys(keys, f, s, e, pos) {
      if keys[j] !in RoundKeys(keys, f, s, e, pos) {
        var l := VisitedHasLanding(keys, idx, sep, s, e, next, keys[j]);
        LowerBoundAbove(keys, Bumped(g), l);
        TargetSplitsNoGroup(keys[i], keys[j], keys[l], idx, sep, w);
      }
    } else if keys[j] in RoundKeys(keys, f, s, e, pos) {
      RoundBeforeRest(keys, idx, sep, s, e, g, next, keys[j], keys[i]);
      LtAsymmetric(keys[i], keys[j]);
    } else {
      VisitingBothMeansSameGroup(keys, idx, sep, s, e, w, next, i, j);
    }
  }

  lemma FullScanMeansClean(keys: seq<Bytes>, idx: nat, sep: Bytes, s: Bytes, e: Bytes, w: nat)
    requires sep != [] && idx >= 1 && w >= 1 && Sorted(keys) && Advancing(keys, idx, sep)
    requires Stamped(keys, idx, sep, w)
    requires forall i :: 0 <= i < Reach(keys, idx, sep, 0) && Proper(keys[i], idx, sep) ==>
                           keys[i] in IndexScan(keys, idx, sep, s, e)
    ensures Clean(keys, idx, sep)
  {
    AnyStamp(keys, idx, sep, [], s, 0);
    forall i, j | 0 <= i < j < Reach(keys, idx, sep, 0) && Proper(keys[j], idx, sep) && Shadows(keys, idx, sep, i, j)
      ensures Head(keys[j], idx, sep) == Head(keys[i], idx, sep)
    {
      VisitingBothMeansSameGroup(keys, idx, sep, s, e, w, 0, i, j);
    }
  }

  /** For a window that covers every timestamp within the reach: the scan visits every key there
      that has one if and only if the groups are clean. */
  lemma FullScanIffClean(keys: seq<Bytes>, idx: nat, sep: Bytes, s: Bytes, e: Bytes, w: nat)
    requires sep != [] && idx >= 1 && w >= 1 && Sorted(keys) && Advancing(keys, idx, sep)
    requires Stamped(keys, idx, sep, w) && Flat(keys, idx, sep)
    requires forall i :: 0 <= i < Reach(keys, idx, sep, 0) && Proper(keys[i], idx, sep) ==>
               InWindow(keys[i], idx, sep, s, e)
    ensures (IndexScan(keys, idx, sep, s, e) == Filter(keys[..Reach(keys, idx, sep, 0)], k => Proper(k, idx, sep)))
            <==> Clean(keys, idx, sep)
  {
    var reached := keys[..Reach(keys, idx, sep, 0)];
    if IndexScan(keys, idx, sep, s, e) == Filter(reached, k => Proper(k, idx, sep)) {
      forall i | 0 <= i < |reached| && Proper(keys[i], idx, sep)
        ensures keys[i] in IndexScan(keys, idx, sep, s, e)
      {
        assert keys[i] == reached[i] && reached[i] in reached;
      }
      FullScanMeansClean(keys, idx, sep, s, e, w);
    }
    if Clean(keys, idx, sep) {
      ScanIsFilter(keys, idx, sep, s, e, w);
      FilterAgree(reached, k => InWindow(k, idx, sep, s, e), k => Proper(k, idx, sep));
    }
  }

  // ---- what makes groups clean ----

  /** Every key is one the scan goes on from, and past. */
  ghost predicate Regular(keys: seq<Bytes>, idx: nat, sep: Bytes)
    requires sep != []
  {
    forall i :: 0 <= i < |keys| ==> Proper(keys[i], idx, sep) && HasRoom(Head(keys[i], idx, sep))
  }

  lemma {:induction false} RegularAdvances(keys: seq<Bytes>, idx: nat, sep: Bytes, s: Bytes, pos: nat)
    requires sep != [] && idx >= 1 && Sorted(keys) && Regular(keys, idx, sep)
    ensures AdvancesFrom(keys, ByIndex(idx, sep), s, pos)
    decreases |keys| - pos
  {
    if pos < |keys| {
      OverIffNotProper(keys, idx, sep, s, pos);
      ProperAdvances(keys[pos], idx, sep);
      LandsLater(keys, pos, Bumped(Head(keys[pos], idx, sep)));
      RegularAdvances(keys, idx, sep, s, LowerBound(keys, Bumped(Head(keys[pos], idx, sep))));
    }
  }

  /** Of such a store the scan can reach everything, so its groups are clean if no key of another
      group lies between any key and its group's seek target. */
  lemma RegularReach(keys: seq<Bytes>, idx: nat, sep: Bytes)
    requires sep != [] && idx >= 1 && Sorted(keys) && Regular(keys, idx, sep)
    ensures Advancing(keys, idx, sep) && Reach(keys, idx, sep, 0) == |keys|
    ensures keys[..Reach(keys, idx, sep, 0)] == keys
  {
    RegularAdvances(keys, idx, sep, [], 0);
    assert forall j :: 0 <= j < |keys| ==> !Blocks(keys, idx, sep, j);
  }

  lemma PrefixesOfOneKey(p: Bytes, q: Bytes, k: Bytes)
    requires p <= k && q <= k
    ensures p == q || p < q || q < p
  {
    if |p| <= |q| {
      assert p == k[..|p|] == q[..|p|];
    } else {
      assert q == k[..|q|] == p[..|q|];
    }
  }

  lemma PrefixFreePair(a: Bytes, b: Bytes, idx: nat, sep: Bytes)
    requires sep != [] && idx >= 1 && HasField(a, idx, sep) && HasField(b, idx, sep)
    requires var p := Head(a, idx, sep); p != [] && p[|p| - 1] != 0xff && Lt(b, Bumped(p))
    requires !(Head(a, idx, sep) < Head(b, idx, sep)) && !(Head(b, idx, sep) < Head(a, idx, sep))
    requires Lt(a, b)
    ensures Head(b, idx, sep) == Head(a, idx, sep)
  {
    var p, q := Head(a, idx, sep), Head(b, idx, sep);
    assert p <= a by { AfterHead(a, idx, sep); }
    assert q <= b by { AfterHead(b, idx, sep); }
    assert Le(p, b) by {
      PrefixLe(p, a);
      LtAsymmetric(a, b);
      LeTransitive(p, a, b);
    }
    BumpGap(p, b);
    PrefixesOfOneKey(p, q, b);
  }

  /** Prefixes that do not end in 0xff and none of which extends another are clean. */
  lemma PrefixFreeIsClean(keys: seq<Bytes>, idx: nat, sep: Bytes)
    requires sep != [] && idx >= 1 && Sorted(keys)
    requires forall i :: 0 <= i < |keys| && Proper(keys[i], idx, sep) ==>
                           var p := Head(keys[i], idx, sep); p[|p| - 1] != 0xff
    requires forall i, j :: 0 <= i < |keys| && 0 <= j < |keys|
                            && Proper(keys[i], idx, sep) && Proper(keys[j], idx, sep) ==>
                              !(Head(keys[i], idx, sep) < Head(keys[j], idx, sep))
    ensures Clean(keys, idx, sep)
  {
    forall i, j | 0 <= i < j < Reach(keys, idx, sep, 0) && Proper(keys[j], idx, sep) && Shadows(keys, idx, sep, i, j)
      ensures Head(keys[j], idx, sep) == Head(keys[i], idx, sep)
    {
      PrefixFreePair(keys[i], keys[j], idx, sep);
    }
  }

  /** A group within the reach whose prefix extends an earlier group's prefix ("d10" after "d1") is
      never clean. */
  lemma ExtendedPrefixIsNotClean(keys: seq<Bytes>, idx: nat, sep: Bytes, i: nat, j: nat)
    requires sep != [] && idx >= 1 && Sorted(keys) && i < j < Reach(keys, idx, sep, 0)
    requires Proper(keys[i], idx, sep) && Proper(keys[j], idx, sep) && HasRoom(Head(keys[i], idx, sep))
    requires Head(keys[i], idx, sep) < Head(keys[j], idx, sep)
    ensures !Clean(keys, idx, sep)
  {
    AfterHead(keys[j], idx, sep);
    BumpAdvances(Head(keys[i], idx, sep), keys[j]);
    assert Shadows(keys, idx, sep, i, j);
  }

  // ---- a store on which the scan misses a key ----

  /** The default separator, a comma. */
  const COMMA: Bytes := [0x2c]

  /** "d1,5" and "d10,5" */
  const DEVICE_1: Bytes := [0x64, 0x31, 0x2c, 0x35]
  const DEVICE_10: Bytes := [0x64, 0x31, 0x30, 0x2c, 0x35]

  lemma SplitOnce(head: Bytes, last: byte)
    requires 0x2c !in head && last != 0x2c
    ensures var k := head + COMMA + [last];
            Split(k, COMMA) == [head, [last]] && HasField(k, 1, COMMA)
            && Head(k, 1, COMMA) == head && Field(k, 1, COMMA) == [last] && Tail(k, 1, COMMA) == []
  {
    SplitAtByte(head, [last], 0x2c);
    SplitNowhere([last], 0x2c);
    assert Split(head + COMMA + [last], COMMA)[..1] == [head];
  }

  lemma DeviceFields()
    ensures HasField(DEVICE_1, 1, COMMA) && Head(DEVICE_1, 1, COMMA) == [0x64, 0x31]
    ensures Field(DEVICE_1, 1, COMMA) == [0x35] && Tail(DEVICE_1, 1, COMMA) == []
    ensures HasField(DEVICE_10, 1, COMMA) && Head(DEVICE_10, 1, COMMA) == [0x64, 0x31, 0x30]
    ensures Field(DEVICE_10, 1, COMMA) == [0x35] && Tail(DEVICE_10, 1, COMMA) == []
  {
    assert DEVICE_1 == [0x64, 0x31] + COMMA + [0x35];
    assert DEVICE_10 == [0x64, 0x31, 0x30] + COMMA + [0x35];
    SplitOnce([0x64, 0x31], 0x35);
    SplitOnce([0x64, 0x31, 0x30], 0x35);
  }

  lemma DevicesSorted()
    ensures Sorted([DEVICE_1, DEVICE_10])
  {
    LtAppend([0x64, 0x31], [0x2c, 0x35], [0x64, 0x31], [0x30, 0x2c, 0x35]);
    assert DEVICE_1 == [0x64, 0x31] + [0x2c, 0x35] && DEVICE_10 == [0x64, 0x31] + [0x30, 0x2c, 0x35];
  }

  lemma DeviceShape(k: Bytes)
    requires HasField(k, 1, COMMA) && Field(k, 1, COMMA) == [0x35] && Tail(k, 1, COMMA) == []
    requires Head(k, 1, COMMA) != [] && Head(k, 1, COMMA)[0] != 0xff
    ensures Proper(k, 1, COMMA) && HasRoom(Head(k, 1, COMMA)) && IsStamp(Field(k, 1, COMMA), 1)
    ensures InWindow(k, 1, COMMA, [0x30], [0x39])
  {
  }

  lemma DevicesShape()
    ensures var keys := [DEVICE_1, DEVICE_10];
            && Stamped(keys, 1, COMMA, 1) && Flat(keys, 1, COMMA) && Regular(keys, 1, COMMA)
            && (forall i :: 0 <= i < 2 ==> InWindow(keys[i], 1, COMMA, [0x30], [0x39]))
  {
    DeviceFields();
    DeviceShape(DEVICE_1);
    DeviceShape(DEVICE_10);
  }

  lemma FirstIsInRound(keys: seq<Bytes>, idx: nat, sep: Bytes, s: Bytes, e: Bytes)
    requires sep != [] && idx >= 1 && Sorted(keys) && keys != [] && InWindow(keys[0], idx, sep, s, e)
    ensures InRound(keys, ByIndex(idx, sep), s, e, 0, keys[0])
  {
    var t, y := Field(keys[0], idx, sep), Tail(keys[0], idx, sep);
    LtAppend(t, y, Fit(s, |t|), y);
    LtAppend(Fit(e, |t|), y, t, y);
    LtIrreflexive(y);
    InRoundIff(keys, idx, sep, s, e, 0, keys[0]);
  }

  lemma FirstKeyIsVisited(keys: seq<Bytes>, idx: nat, sep: Bytes, s: Bytes, e: Bytes)
    requires sep != [] && idx >= 1 && Sorted(keys) && Advancing(keys, idx, sep)
    requires keys != [] && InWindow(keys[0], idx, sep, s, e)
    ensures keys[0] in IndexScan(keys, idx, sep, s, e)
  {
    AnyStamp(keys, idx, sep, [], s, 0);
    var next := AtLanding(keys, idx, sep, s, e, 0);
    FirstIsInRound(keys, idx, sep, s, e);
  }

  lemma OneOfTwo(a: Bytes, b: Bytes, got: seq<Bytes>)
    requires Sorted([a, b]) && Sorted(got) && a in got && got != [a, b] && forall v :: v in got ==> v in [a, b]
    ensures got == [a]
  {
    if b in got {
      SortedUnique(got, [a, b]);
    } else {
      SortedUnique(got, [a]);
    }
  }

  /** All timestamps are asked for, and only the key of device 1 is visited. */
  lemma DeviceTenIsSkipped()
    ensures var keys := [DEVICE_1, DEVICE_10];
            && Sorted(keys) && Advancing(keys, 1, COMMA)
            && (forall i :: 0 <= i < 2 ==> InWindow(keys[i], 1, COMMA, [0x30], [0x39]))
            && IndexScan(keys, 1, COMMA, [0x30], [0x39]) == [DEVICE_1]
  {
    var keys := [DEVICE_1, DEVICE_10];
    DevicesSorted();
    DevicesShape();
    RegularReach(keys, 1, COMMA);
    var got := IndexScan(keys, 1, COMMA, [0x30], [0x39]);
    assert Head(keys[0], 1, COMMA) < Head(keys[1], 1, COMMA) by { DeviceFields(); }
    ExtendedPrefixIsNotClean(keys, 1, COMMA, 0, 1);
    FullScanIffClean(keys, 1, COMMA, [0x30], [0x39], 1);
    FilterAll(keys, k => Proper(k, 1, COMMA));
    AnyStamp(keys, 1, COMMA, [], [0x30], 0);
    ScanAscends(keys, 1, COMMA, [0x30], [0x39], 0);
    FirstKeyIsVisited(keys, 1, COMMA, [0x30], [0x39]);
    forall v | v in got
      ensures v in keys
    {
      ScanIsSound(keys, 1, COMMA, [0x30], [0x39], 1, v);
    }
    OneOfTwo(DEVICE_1, DEVICE_10, got);
  }
}
