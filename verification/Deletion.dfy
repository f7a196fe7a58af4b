/** What a delete over a range leaves, and what the same range then still finds (rocksdb.go,
    DeleteRangeByTS and DeleteRangeByKey). */
module Deletion {
  import opened Bytes
  import opened Fields
  import opened Rounds
  import opened SkipScan

  function Without(keys: seq<Bytes>, gone: seq<Bytes>): seq<Bytes> {
    Filter(keys, k => k !in gone)
  }

  lemma WithoutSteps(keys: seq<Bytes>, gone: seq<Bytes>, k: Bytes)
    requires Sorted(keys)
    ensures Without(Without(keys, gone), [k]) == Without(keys, gone + [k])
  {
    FilterSorted(keys, x => x !in gone);
    FilterSorted(Without(keys, gone), x => x !in [k]);
    FilterSorted(keys, x => x !in gone + [k]);
    SortedUnique(Without(Without(keys, gone), [k]), Without(keys, gone + [k]));
  }

  lemma WithoutNothing(keys: seq<Bytes>)
    requires Sorted(keys)
    ensures Without(keys, []) == keys
  {
    FilterAll(keys, x => x !in []);
  }

  /** Key mode: after an unlimited delete the same range is empty. */
  lemma KeyRepeatFindsNothing(keys: seq<Bytes>, lo: Bytes, hi: Bytes)
    requires Sorted(keys)
    ensures Run(Without(keys, Run(keys, lo, hi)), lo, hi) == []
  {
    var rest := Without(keys, Run(keys, lo, hi));
    FilterSorted(keys, k => k !in Run(keys, lo, hi));
    if Run(rest, lo, hi) != [] {
      var k := Run(rest, lo, hi)[0];
      RunMembers(rest, lo, hi, k);
      RunMembers(keys, lo, hi, k);
      assert false;
    }
  }

  // ---- timestamp mode ----

  lemma RestMembers(keys: seq<Bytes>, gone: seq<Bytes>)
    requires Sorted(keys)
    ensures var rest := Without(keys, gone);
            Sorted(rest) && forall i :: 0 <= i < |rest| ==> rest[i] in keys && rest[i] !in gone
  {
    FilterSorted(keys, k => k !in gone);
    var rest := Without(keys, gone);
    forall i | 0 <= i < |rest|
      ensures rest[i] in keys && rest[i] !in gone
    {
      assert rest[i] in rest;
    }
  }

  lemma IndexOf(keys: seq<Bytes>, k: Bytes) returns (i: nat)
    requires k in keys
    ensures i < |keys| && keys[i] == k
  {
    i :| 0 <= i < |keys| && keys[i] == k;
  }

  /** The order of two stored keys is that of their positions. */
  lemma Positions(keys: seq<Bytes>, i: nat, j: nat)
    requires Sorted(keys) && i < |keys| && j < |keys|
    ensures Lt(keys[i], keys[j]) <==> i < j
  {
    LtIrreflexive(keys[i]);
    if j < i { LtAsymmetric(keys[j], keys[i]); }
  }

  lemma ReachedAt(keys: seq<Bytes>, idx: nat, sep: Bytes, k: Bytes) returns (i: nat)
    requires sep != [] && k in keys[..Reach(keys, idx, sep, 0)]
    ensures i < Reach(keys, idx, sep, 0) && keys[i] == k
  {
    i :| 0 <= i < Reach(keys, idx, sep, 0) && keys[i] == k;
  }

  /** Within the reach of clean groups every prefix is landed on, so each has room. */
  lemma {:induction false} ReachedHasRoom(keys: seq<Bytes>, idx: nat, sep: Bytes, pos: nat, i: nat)
    requires sep != [] && idx >= 1 && Sorted(keys) && Clean(keys, idx, sep)
    requires AdvancesFrom(keys, ByIndex(idx, sep), [], pos) && !Shadowed(keys, idx, sep, pos)
    requires pos <= i < Reach(keys, idx, sep, 0) && Proper(keys[i], idx, sep)
    ensures HasRoom(Head(keys[i], idx, sep))
    decreases |keys| - pos
  {
    ReachedIsProper(keys, idx, sep, pos);
    var next := AtLanding(keys, idx, sep, [], [], pos);
    NextLandingReached(keys, idx, sep, pos, next);
    if i < next {
      assert i == pos || Shadows(keys, idx, sep, pos, i);
    } else {
      ReachedHasRoom(keys, idx, sep, next, i);
    }
  }

  /** A landing with room, and the next one. */
  lemma GoesOn(keys: seq<Bytes>, idx: nat, sep: Bytes, pos: nat) returns (next: nat)
    requires sep != [] && idx >= 1 && Sorted(keys) && Clean(keys, idx, sep)
    requires pos < Reach(keys, idx, sep, 0) && !Shadowed(keys, idx, sep, pos)
    requires Proper(keys[pos], idx, sep) && HasRoom(Head(keys[pos], idx, sep))
    ensures !Over(keys, ByIndex(idx, sep), [], pos) && next == NextLanding(keys, ByIndex(idx, sep), [], pos)
    ensures Lt(keys[pos], ByIndex(idx, sep)([], keys[pos]).1.value)
    ensures pos < next <= Reach(keys, idx, sep, 0) && !Shadowed(keys, idx, sep, next)
  {
    OverIffNotProper(keys, idx, sep, [], pos);
    ProperAdvances(keys[pos], idx, sep);
    var target := Bumped(Head(keys[pos], idx, sep));
    LandsLater(keys, pos, target);
    next := LowerBound(keys, target);
    NextLandingReached(keys, idx, sep, pos, next);
  }

  lemma {:induction false} RoomAdvances(keys: seq<Bytes>, idx: nat, sep: Bytes, pos: nat)
    requires sep != [] && idx >= 1 && Sorted(keys) && Clean(keys, idx, sep)
    requires forall i :: 0 <= i < Reach(keys, idx, sep, 0) && Proper(keys[i], idx, sep) ==>
               HasRoom(Head(keys[i], idx, sep))
    requires pos <= Reach(keys, idx, sep, 0) && !Shadowed(keys, idx, sep, pos)
    ensures AdvancesFrom(keys, ByIndex(idx, sep), [], pos)
    decreases |keys| - pos
  {
    if pos < Reach(keys, idx, sep, 0) {
      ReachedIsProper(keys, idx, sep, pos);
      var next := GoesOn(keys, idx, sep, pos);
      RoomAdvances(keys, idx, sep, next);
    } else if pos < |keys| {
      OverIffNotProper(keys, idx, sep, [], pos);
    }
  }

  /** The key that ends the scan is none that it visits. */
  lemma BlockerStays(keys: seq<Bytes>, idx: nat, sep: Bytes, s: Bytes, e: Bytes)
    requires sep != [] && idx >= 1 && Sorted(keys) && Advancing(keys, idx, sep)
    requires Reach(keys, idx, sep, 0) < |keys|
    ensures keys[Reach(keys, idx, sep, 0)] !in IndexScan(keys, idx, sep, s, e)
  {
    AnyStamp(keys, idx, sep, [], s, 0);
    var k := keys[Reach(keys, idx, sep, 0)];
    if k in IndexScan(keys, idx, sep, s, e) {
      var l := VisitedHasLanding(keys, idx, sep, s, e, 0, k);
      assert false;
    }
  }

  /** The key that ended the scan still ends it, so nothing behind it comes within the reach. */
  lemma RestReach(keys: seq<Bytes>, idx: nat, sep: Bytes, gone: seq<Bytes>, i: nat)
    requires sep != [] && Sorted(keys) && Sorted(Without(keys, gone)) && i < Reach(Without(keys, gone), idx, sep, 0)
    requires Reach(keys, idx, sep, 0) < |keys| ==> keys[Reach(keys, idx, sep, 0)] !in gone
    ensures Without(keys, gone)[i] in keys[..Reach(keys, idx, sep, 0)]
  {
    var rest, q := Without(keys, gone), Reach(keys, idx, sep, 0);
    RestMembers(keys, gone);
    var j := IndexOf(keys, rest[i]);
    if j >= q {
      assert keys[q] in rest;
      var p := IndexOf(rest, keys[q]);
      Positions(keys, j, q);
      Positions(rest, i, p);
      assert !Blocks(rest, idx, sep, p);
      var a :| 0 <= a < p && Shadows(rest, idx, sep, a, p);
      var b := IndexOf(keys, rest[a]);
      Positions(rest, a, p);
      Positions(keys, b, q);
      assert Shadows(keys, idx, sep, b, q);
      assert false;
    }
    assert keys[j] == keys[..q][j];
  }

  /** Deleting keeps all these properties, unless the key that ends the scan is deleted. */
  lemma RestKeepsShape(keys: seq<Bytes>, idx: nat, sep: Bytes, w: nat, gone: seq<Bytes>)
    requires sep != [] && idx >= 1 && Sorted(keys) && Advancing(keys, idx, sep) && Clean(keys, idx, sep)
    requires Stamped(keys, idx, sep, w)
    requires Reach(keys, idx, sep, 0) < |keys| ==> keys[Reach(keys, idx, sep, 0)] !in gone
    ensures var rest := Without(keys, gone);
            && Sorted(rest) && Stamped(rest, idx, sep, w) && Advancing(rest, idx, sep) && Clean(rest, idx, sep)
            && (Flat(keys, idx, sep) ==> Flat(rest, idx, sep))
  {
    RestMembers(keys, gone);
    RestIsClean(keys, idx, sep, gone);
    RestHasRoom(keys, idx, sep, gone);
    RoomAdvances(Without(keys, gone), idx, sep, 0);
  }

  lemma RestIsClean(keys: seq<Bytes>, idx: nat, sep: Bytes, gone: seq<Bytes>)
    requires sep != [] && Sorted(keys) && Sorted(Without(keys, gone)) && Clean(keys, idx, sep)
    requires Reach(keys, idx, sep, 0) < |keys| ==> keys[Reach(keys, idx, sep, 0)] !in gone
    ensures Clean(Without(keys, gone), idx, sep)
  {
    var rest := Without(keys, gone);
    forall i, j | 0 <= i < j < Reach(rest, idx, sep, 0) && Proper(rest[j], idx, sep) && Shadows(rest, idx, sep, i, j)
      ensures Head(rest[j], idx, sep) == Head(rest[i], idx, sep)
    {
      RestReach(keys, idx, sep, gone, i);
      RestReach(keys, idx, sep, gone, j);
      var a := ReachedAt(keys, idx, sep, rest[i]);
      var b := ReachedAt(keys, idx, sep, rest[j]);
      Positions(rest, i, j);
      Positions(keys, a, b);
      assert Shadows(keys, idx, sep, a, b);
    }
  }

  lemma RestHasRoom(keys: seq<Bytes>, idx: nat, sep: Bytes, gone: seq<Bytes>)
    requires sep != [] && idx >= 1 && Sorted(keys) && Sorted(Without(keys, gone))
    requires Advancing(keys, idx, sep) && Clean(keys, idx, sep)
    requires Reach(keys, idx, sep, 0) < |keys| ==> keys[Reach(keys, idx, sep, 0)] !in gone
    ensures var rest := Without(keys, gone);
            forall i :: 0 <= i < Reach(rest, idx, sep, 0) && Proper(rest[i], idx, sep) ==>
              HasRoom(Head(rest[i], idx, sep))
  {
    var rest := Without(keys, gone);
    forall i | 0 <= i < Reach(rest, idx, sep, 0) && Proper(rest[i], idx, sep)
      ensures HasRoom(Head(rest[i], idx, sep))
    {
      RestReach(keys, idx, sep, gone, i);
      var a := ReachedAt(keys, idx, sep, rest[i]);
      ReachedHasRoom(keys, idx, sep, 0, a);
    }
  }

  function Rest(k: Bytes, idx: nat, sep: Bytes): Bytes
    requires sep != [] && HasField(k, idx, sep)
  {
    Field(k, idx, sep) + Tail(k, idx, sep)
  }

  lemma RestOrder(a: Bytes, b: Bytes, idx: nat, sep: Bytes)
    requires sep != [] && idx >= 1 && HasField(a, idx, sep) && HasField(b, idx, sep)
    requires Head(a, idx, sep) == Head(b, idx, sep)
    ensures Lt(a, b) <==> Lt(Rest(a, idx, sep), Rest(b, idx, sep))
  {
    var h := Head(a, idx, sep) + sep;
    Parts(a, idx, sep);
    Parts(b, idx, sep);
    LtAppend(h, Rest(a, idx, sep), h, Rest(b, idx, sep));
    LtIrreflexive(h);
  }

  /** A key after its group's first key k, when k is in the window and does not select it: its
      timestamp is the end of the window and its tail is beyond k's, or it is later. */
  lemma BeyondEnd(k: Bytes, v: Bytes, idx: nat, sep: Bytes, s: Bytes, e: Bytes, w: nat)
    requires sep != [] && idx >= 1 && Proper(k, idx, sep) && Proper(v, idx, sep)
    requires Head(k, idx, sep) == Head(v, idx, sep) && |Field(k, idx, sep)| == |Field(v, idx, sep)| == w
    requires Le(k, v) && InWindow(k, idx, sep, s, e)
    ensures !Selects(k, v, idx, sep, s, e) <==>
            Lt(Fit(e, w), Field(v, idx, sep)) ||
            (Fit(e, w) == Field(v, idx, sep) && Lt(Tail(k, idx, sep), Tail(v, idx, sep)))
  {
    var y := Tail(k, idx, sep);
    RestOrder(v, k, idx, sep);
    LtAppend(Field(k, idx, sep), y, Fit(s, w), y);
    LtIrreflexive(y);
    assert Le(Fit(s, w) + y, Rest(k, idx, sep));
    LeTransitive(Fit(s, w) + y, Rest(k, idx, sep), Rest(v, idx, sep));
    LtAppend(Fit(e, w), y, Field(v, idx, sep), Tail(v, idx, sep));
  }

  lemma InWindowSelectsItself(k: Bytes, idx: nat, sep: Bytes, s: Bytes, e: Bytes)
    requires sep != [] && Proper(k, idx, sep)
    ensures Selects(k, k, idx, sep, s, e) <==> InWindow(k, idx, sep, s, e)
  {
    var t, y := Field(k, idx, sep), Tail(k, idx, sep);
    LtAppend(t, y, Fit(s, |t|), y);
    LtAppend(Fit(e, |t|), y, t, y);
    LtIrreflexive(y);
  }

  /** The end timestamp with a tail beyond that of its group's first key, which is in the window. */
  ghost predicate LeftAtEnd(keys: seq<Bytes>, idx: nat, sep: Bytes, s: Bytes, e: Bytes, first: nat, i: nat)
    requires sep != []
  {
    && first <= i < |keys| && Proper(keys[i], idx, sep) && FirstOfGroup(keys, idx, sep, first, i)
    && InWindow(keys[first], idx, sep, s, e)
    && Field(keys[i], idx, sep) == Fit(e, |Field(keys[i], idx, sep)|)
    && Lt(Tail(keys[first], idx, sep), Tail(keys[i], idx, sep))
  }

  /** Whether the scan of clean groups visits keys[i]. */
  lemma VisitedIff(keys: seq<Bytes>, idx: nat, sep: Bytes, s: Bytes, e: Bytes, first: nat, i: nat)
    requires sep != [] && idx >= 1 && Sorted(keys) && Advancing(keys, idx, sep) && Clean(keys, idx, sep)
    requires first <= i < Reach(keys, idx, sep, 0) && Proper(keys[i], idx, sep)
    requires FirstOfGroup(keys, idx, sep, first, i)
    ensures keys[i] in IndexScan(keys, idx, sep, s, e) <==> Selects(keys[first], keys[i], idx, sep, s, e)
  {
    AnyStamp(keys, idx, sep, [], s, 0);
    BeginsReached(keys, idx, sep);
    CleanScanExact(keys, idx, sep, s, e, 0, first, i);
  }

  lemma FirstItself(keys: seq<Bytes>, idx: nat, sep: Bytes, first: nat, i: nat)
    requires sep != [] && first <= i < |keys| && Proper(keys[i], idx, sep) && FirstOfGroup(keys, idx, sep, first, i)
    ensures FirstOfGroup(keys, idx, sep, first, first)
  {
  }

  /** A key left over at the end of the window is found by the repeat, or one before it is, when the
      repeat gets that far. */
  lemma LeftOverIsFound(keys: seq<Bytes>, idx: nat, sep: Bytes, s: Bytes, e: Bytes, w: nat, first: nat, i: nat)
    requires sep != [] && idx >= 1 && Sorted(keys) && Advancing(keys, idx, sep) && Clean(keys, idx, sep)
    requires Stamped(keys, idx, sep, w) && LeftAtEnd(keys, idx, sep, s, e, first, i)
    requires var rest := Without(keys, IndexScan(keys, idx, sep, s, e));
             keys[i] in rest[..Reach(rest, idx, sep, 0)]
    ensures var rest := Without(keys, IndexScan(keys, idx, sep, s, e));
            Sorted(rest) && Advancing(rest, idx, sep) && IndexScan(rest, idx, sep, s, e) != []
  {
    var gone := IndexScan(keys, idx, sep, s, e);
    var rest := Without(keys, gone);
    RestAfterScan(keys, idx, sep, s, e, w);
    RestMembers(keys, gone);
    var r := ReachedAt(rest, idx, sep, keys[i]);
    var l := FirstExists(rest, idx, sep, r);
    RestReach(keys, idx, sep, gone, r);
    RestReach(keys, idx, sep, gone, l);
    Positions(rest, r, l);
    LeftOverSelectsItself(keys, idx, sep, s, e, w, first, i, rest[l], gone);
    FirstItself(rest, idx, sep, l, r);
    VisitedIff(rest, idx, sep, s, e, l, l);
  }

  /** What the scan leaves has the properties of the whole, and reaches no further. */
  lemma RestAfterScan(keys: seq<Bytes>, idx: nat, sep: Bytes, s: Bytes, e: Bytes, w: nat)
    requires sep != [] && idx >= 1 && Sorted(keys) && Advancing(keys, idx, sep) && Clean(keys, idx, sep)
    requires Stamped(keys, idx, sep, w)
    ensures var gone := IndexScan(keys, idx, sep, s, e);
            var rest := Without(keys, gone);
            && (Reach(keys, idx, sep, 0) < |keys| ==> keys[Reach(keys, idx, sep, 0)] !in gone)
            && Sorted(rest) && Stamped(rest, idx, sep, w) && Advancing(rest, idx, sep) && Clean(rest, idx, sep)
            && (Flat(keys, idx, sep) ==> Flat(rest, idx, sep))
  {
    if Reach(keys, idx, sep, 0) < |keys| {
      BlockerStays(keys, idx, sep, s, e);
    }
    RestKeepsShape(keys, idx, sep, w, IndexScan(keys, idx, sep, s, e));
  }

  lemma LeftOverSelectsItself(keys: seq<Bytes>, idx: nat, sep: Bytes, s: Bytes, e: Bytes, w: nat,
        first: nat, i: nat, v: Bytes, gone: seq<Bytes>)
    requires sep != [] && idx >= 1 && Sorted(keys) && Advancing(keys, idx, sep) && Clean(keys, idx, sep)
    requires Stamped(keys, idx, sep, w) && gone == IndexScan(keys, idx, sep, s, e)
    requires LeftAtEnd(keys, idx, sep, s, e, first, i)
    requires v in keys[..Reach(keys, idx, sep, 0)] && v !in gone && Proper(v, idx, sep)
    requires Head(v, idx, sep) == Head(keys[i], idx, sep) && Le(v, keys[i])
    ensures Selects(v, v, idx, sep, s, e)
  {
    var k := keys[first];
    var j := ReachedAt(keys, idx, sep, v);
    assert first <= j;
    Positions(keys, j, first);
    VisitedIff(keys, idx, sep, s, e, first, j);
    BeyondEnd(k, v, idx, sep, s, e, w);
    RestOrder(keys[i], v, idx, sep);
    LtAppend(Field(keys[i], idx, sep), Tail(keys[i], idx, sep), Field(v, idx, sep), Tail(v, idx, sep));
    assert Field(v, idx, sep) == Fit(e, w);
    LeTransitive(Fit(s, w), Field(k, idx, sep), Fit(e, w));
    LtIrreflexive(Fit(e, w));
    InWindowSelectsItself(v, idx, sep, s, e);
  }

  /** A group's first key that is not deleted is the first one left. */
  lemma FirstStays(keys: seq<Bytes>, idx: nat, sep: Bytes, gone: seq<Bytes>, first: nat, i: nat, l: nat, r: nat)
    requires sep != [] && Sorted(keys) && Sorted(Without(keys, gone))
    requires first <= i < |keys| && Proper(keys[i], idx, sep) && FirstOfGroup(keys, idx, sep, first, i)
    requires var rest := Without(keys, gone);
             && l <= r < |rest| && Proper(rest[r], idx, sep) && FirstOfGroup(rest, idx, sep, l, r) && rest[l] == keys[i]
    requires keys[first] !in gone
    ensures first == i
  {
    var rest := Without(keys, gone);
    assert keys[first] in rest;
    var p := IndexOf(rest, keys[first]);
    assert p >= l;
    Positions(rest, p, l);
    Positions(keys, first, i);
  }

  /** What the repeat finds is in a group with a key left over at the end of the window. */
  lemma FoundIsLeftOver(keys: seq<Bytes>, idx: nat, sep: Bytes, s: Bytes, e: Bytes, w: nat, u: Bytes)
    returns (first: nat, i: nat)
    requires sep != [] && idx >= 1 && Sorted(keys) && Advancing(keys, idx, sep) && Clean(keys, idx, sep)
    requires Stamped(keys, idx, sep, w)
    requires var rest := Without(keys, IndexScan(keys, idx, sep, s, e));
             Sorted(rest) && Advancing(rest, idx, sep) && u in IndexScan(rest, idx, sep, s, e)
    ensures LeftAtEnd(keys, idx, sep, s, e, first, i)
    ensures var rest := Without(keys, IndexScan(keys, idx, sep, s, e));
            keys[i] in rest[..Reach(rest, idx, sep, 0)]
  {
    var gone := IndexScan(keys, idx, sep, s, e);
    var rest := Without(keys, gone);
    RestAfterScan(keys, idx, sep, s, e, w);
    RestMembers(keys, gone);
    var r := FoundAt(rest, idx, sep, s, e, w, u);
    var l := FirstExists(rest, idx, sep, r);
    VisitedIff(rest, idx, sep, s, e, l, r);
    RestReach(keys, idx, sep, gone, l);
    RestReach(keys, idx, sep, gone, r);
    i := ReachedAt(keys, idx, sep, rest[l]);
    first := FirstExists(keys, idx, sep, i);
    Positions(rest, r, l);
    if keys[first] !in gone {
      FirstStays(keys, idx, sep, gone, first, i, l, r);
    }
    EndsUpLeftOver(keys, idx, sep, s, e, w, first, i, u, gone);
    assert rest[l] == rest[..Reach(rest, idx, sep, 0)][l];
  }

  lemma FoundAt(keys: seq<Bytes>, idx: nat, sep: Bytes, s: Bytes, e: Bytes, w: nat, u: Bytes) returns (r: nat)
    requires sep != [] && idx >= 1 && Sorted(keys) && Advancing(keys, idx, sep) && Clean(keys, idx, sep)
    requires Stamped(keys, idx, sep, w) && u in IndexScan(keys, idx, sep, s, e)
    ensures r < Reach(keys, idx, sep, 0) && keys[r] == u && InWindow(u, idx, sep, s, e)
  {
    AnyStamp(keys, idx, sep, [], s, 0);
    BeginsReached(keys, idx, sep);
    ScanIsSound(keys, idx, sep, s, e, w, u);
    r := IndexOf(keys, u);
    VisitedWithinReach(keys, idx, sep, s, e, 0, r);
  }

  lemma EndsUpLeftOver(keys: seq<Bytes>, idx: nat, sep: Bytes, s: Bytes, e: Bytes, w: nat,
        first: nat, i: nat, u: Bytes, gone: seq<Bytes>)
    requires sep != [] && idx >= 1 && Sorted(keys) && Advancing(keys, idx, sep) && Clean(keys, idx, sep)
    requires Stamped(keys, idx, sep, w) && gone == IndexScan(keys, idx, sep, s, e)
    requires first <= i < Reach(keys, idx, sep, 0) && Proper(keys[i], idx, sep)
    requires FirstOfGroup(keys, idx, sep, first, i) && keys[i] !in gone
    requires u in keys[..Reach(keys, idx, sep, 0)] && u !in gone && Proper(u, idx, sep)
    requires Head(u, idx, sep) == Head(keys[i], idx, sep)
    requires Le(keys[i], u) && InWindow(u, idx, sep, s, e) && Selects(keys[i], u, idx, sep, s, e)
    requires keys[first] in gone || first == i
    ensures LeftAtEnd(keys, idx, sep, s, e, first, i)
  {
    var j := ReachedAt(keys, idx, sep, u);
    Positions(keys, j, i);
    VisitedIff(keys, idx, sep, s, e, first, i);
    VisitedIff(keys, idx, sep, s, e, first, j);
    assert first != i;
    FirstItself(keys, idx, sep, first, i);
    VisitedIff(keys, idx, sep, s, e, first, first);
    InWindowSelectsItself(keys[first], idx, sep, s, e);
    Positions(keys, i, first);
    BeyondEnd(keys[first], keys[i], idx, sep, s, e, w);
    RestOrder(u, keys[i], idx, sep);
    LtAppend(Field(u, idx, sep), Tail(u, idx, sep), Field(keys[i], idx, sep), Tail(keys[i], idx, sep));
    if Lt(Fit(e, w), Field(keys[i], idx, sep)) {
      LtLe(Fit(e, w), Field(keys[i], idx, sep), Field(u, idx, sep));
      assert false;
    }
  }

  /** Repeating an unlimited timestamp delete finds nothing if and only if no group whose first key is
      in the window has a key with the end timestamp and a tail beyond that of the first key, before
      the key that ends the repeat. */
  lemma TsRepeatFindsNothingIff(keys: seq<Bytes>, idx: nat, sep: Bytes, s: Bytes, e: Bytes, w: nat)
    requires sep != [] && idx >= 1 && Sorted(keys) && Advancing(keys, idx, sep) && Clean(keys, idx, sep)
    requires Stamped(keys, idx, sep, w)
    ensures var rest := Without(keys, IndexScan(keys, idx, sep, s, e));
            && Sorted(rest) && Advancing(rest, idx, sep)
            && (IndexScan(rest, idx, sep, s, e) == [] <==>
                forall first: nat, i: nat :: LeftAtEnd(keys, idx, sep, s, e, first, i) ==>
                  keys[i] !in rest[..Reach(rest, idx, sep, 0)])
  {
    var gone := IndexScan(keys, idx, sep, s, e);
    var rest := Without(keys, gone);
    RestAfterScan(keys, idx, sep, s, e, w);
    if IndexScan(rest, idx, sep, s, e) != [] {
      var first, i := FoundIsLeftOver(keys, idx, sep, s, e, w, IndexScan(rest, idx, sep, s, e)[0]);
      assert LeftAtEnd(keys, idx, sep, s, e, first, i);
    }
    forall first: nat, i: nat | LeftAtEnd(keys, idx, sep, s, e, first, i)
                                && keys[i] in rest[..Reach(rest, idx, sep, 0)]
      ensures IndexScan(rest, idx, sep, s, e) != []
    {
      LeftOverIsFound(keys, idx, sep, s, e, w, first, i);
    }
  }

  /** With the timestamp last the repeat always finds nothing. */
  lemma TsRepeatFindsNothing(keys: seq<Bytes>, idx: nat, sep: Bytes, s: Bytes, e: Bytes, w: nat)
    requires sep != [] && idx >= 1 && Sorted(keys) && Advancing(keys, idx, sep) && Clean(keys, idx, sep)
    requires Stamped(keys, idx, sep, w) && Flat(keys, idx, sep)
    ensures var rest := Without(keys, IndexScan(keys, idx, sep, s, e));
            Sorted(rest) && Advancing(rest, idx, sep) && IndexScan(rest, idx, sep, s, e) == []
  {
    TsRepeatFindsNothingIff(keys, idx, sep, s, e, w);
  }

  // ---- a window over all timestamps ----

  /** However many rounds the scan makes, it visits nothing. */
  ghost predicate FindsNothing(keys: seq<Bytes>, idx: nat, sep: Bytes, s: Bytes, e: Bytes) {
    forall n: nat :: VisitedIn(keys, ByIndex(idx, sep), s, e, 0, n) == []
  }

  /** Every key that has a timestamp, of those the scan can get to, is deleted. */
  ghost predicate AllDeleted(keys: seq<Bytes>, idx: nat, sep: Bytes, rest: seq<Bytes>)
    requires sep != []
  {
    forall i :: 0 <= i < Reach(keys, idx, sep, 0) && Proper(keys[i], idx, sep) ==> keys[i] !in rest
  }

  lemma AllDeletedIffClean(keys: seq<Bytes>, idx: nat, sep: Bytes, s: Bytes, e: Bytes, w: nat)
    requires sep != [] && idx >= 1 && w >= 1 && Sorted(keys) && Advancing(keys, idx, sep)
    requires Stamped(keys, idx, sep, w) && Flat(keys, idx, sep)
    requires forall i :: 0 <= i < Reach(keys, idx, sep, 0) && Proper(keys[i], idx, sep) ==>
               InWindow(keys[i], idx, sep, s, e)
    ensures AllDeleted(keys, idx, sep, Without(keys, IndexScan(keys, idx, sep, s, e))) <==> Clean(keys, idx, sep)
  {
    var gone := IndexScan(keys, idx, sep, s, e);
    var reached := keys[..Reach(keys, idx, sep, 0)];
    if AllDeleted(keys, idx, sep, Without(keys, gone)) {
      forall i | 0 <= i < |reached| && Proper(keys[i], idx, sep)
        ensures keys[i] in gone
      {
        assert keys[i] in keys && keys[i] !in Without(keys, gone);
      }
      FullScanMeansClean(keys, idx, sep, s, e, w);
    }
    if Clean(keys, idx, sep) {
      forall i | 0 <= i < |reached| && Proper(keys[i], idx, sep)
        ensures keys[i] !in Without(keys, gone)
      {
        assert keys[i] == reached[i];
        VisitedIffWanted(keys, idx, sep, s, e, w, keys[i]);
      }
    }
  }

  /** A repeat over all timestamps visits at least the first key left, if that has one. */
  lemma RepeatStarts(keys: seq<Bytes>, idx: nat, sep: Bytes, s: Bytes, e: Bytes)
    requires sep != [] && idx >= 1 && Sorted(keys) && Advancing(keys, idx, sep)
    requires forall i :: 0 <= i < Reach(keys, idx, sep, 0) && Proper(keys[i], idx, sep) ==>
               InWindow(keys[i], idx, sep, s, e)
    ensures var rest := Without(keys, IndexScan(keys, idx, sep, s, e));
            && Sorted(rest)
            && (FindsNothing(rest, idx, sep, s, e) <==> rest == [] || !Proper(rest[0], idx, sep))
  {
    var gone := IndexScan(keys, idx, sep, s, e);
    var rest, q := Without(keys, gone), Reach(keys, idx, sep, 0);
    RestMembers(keys, gone);
    if rest != [] && Proper(rest[0], idx, sep) {
      var i := IndexOf(keys, rest[0]);
      if q < |keys| {
        BlockerStays(keys, idx, sep, s, e);
        var p := IndexOf(rest, keys[q]);
        Positions(keys, i, q);
        Positions(rest, p, 0);
      }
      FirstIsInRound(rest, idx, sep, s, e);
      RoundIsVisited(rest, ByIndex(idx, sep), s, e, 0, 1, 0, rest[0]);
    } else if rest != [] {
      OverIffNotProper(rest, idx, sep, s, 0);
    }
  }

  /** One delete over all timestamps removes every key the scan can get to that has one if and only if
      the groups are clean; the repeat finds nothing if and only if the first key left has none; and if
      every key has one, both say that the family is empty. */
  lemma TsDeleteCompleteIffClean(keys: seq<Bytes>, idx: nat, sep: Bytes, s: Bytes, e: Bytes, w: nat)
    requires sep != [] && idx >= 1 && w >= 1 && Sorted(keys) && Advancing(keys, idx, sep)
    requires Stamped(keys, idx, sep, w) && Flat(keys, idx, sep)
    requires forall i :: 0 <= i < Reach(keys, idx, sep, 0) && Proper(keys[i], idx, sep) ==>
               InWindow(keys[i], idx, sep, s, e)
    ensures var rest := Without(keys, IndexScan(keys, idx, sep, s, e));
            && (AllDeleted(keys, idx, sep, rest) <==> Clean(keys, idx, sep))
            && (FindsNothing(rest, idx, sep, s, e) <==> rest == [] || !Proper(rest[0], idx, sep))
            && ((forall i :: 0 <= i < |keys| ==> Proper(keys[i], idx, sep)) ==>
                 && (rest == [] <==> Clean(keys, idx, sep))
                 && (FindsNothing(rest, idx, sep, s, e) <==> Clean(keys, idx, sep)))
  {
    var gone := IndexScan(keys, idx, sep, s, e);
    var rest := Without(keys, gone);
    AllDeletedIffClean(keys, idx, sep, s, e, w);
    RepeatStarts(keys, idx, sep, s, e);
    RestMembers(keys, gone);
    if forall i :: 0 <= i < |keys| ==> Proper(keys[i], idx, sep) {
      assert Reach(keys, idx, sep, 0) == |keys|;
      assert rest != [] ==> rest[0] in keys && rest[0] in rest;
      assert rest == [] <==> AllDeleted(keys, idx, sep, rest);
    }
  }
}
