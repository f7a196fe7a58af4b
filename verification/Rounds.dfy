/** The outer loop of RangeForeachByTS (rocksdb.go) over any rewriting of keys: where it lands round
    by round, what it visits, and when it ends. */
module Rounds {
  import opened Options
  import opened Bytes

  /** HijackTsInKey: (timestamp text, key) to (rewritten key, where to seek for the next group). */
  type Rewriter = (Bytes, Bytes) -> (Bytes, Option<Bytes>)

  /** The loop ends at this landing: past the last key, or the key yields no next group. */
  predicate Over(keys: seq<Bytes>, f: Rewriter, s: Bytes, pos: nat) {
    pos >= |keys| || f(s, keys[pos]).1.None?
  }

  function NextLanding(keys: seq<Bytes>, f: Rewriter, s: Bytes, pos: nat): nat
    requires !Over(keys, f, s, pos)
  {
    LowerBound(keys, f(s, keys[pos]).1.value)
  }

  /** Where the iterator stands after n rounds that start at pos. */
  function Landing(keys: seq<Bytes>, f: Rewriter, s: Bytes, pos: nat, n: nat): nat
    decreases n
  {
    if n == 0 || Over(keys, f, s, pos) then pos
    else Landing(keys, f, s, NextLanding(keys, f, s, pos), n - 1)
  }

  /** The keys one outer round visits, landing on keys[pos]. */
  function RoundKeys(keys: seq<Bytes>, f: Rewriter, s: Bytes, e: Bytes, pos: nat): seq<Bytes>
    requires pos < |keys|
  {
    Run(keys, f(s, keys[pos]).0, f(e, keys[pos]).0)
  }

  /** What n rounds visit together, when the one that lands on l visits visit(l). */
  function Gather(visit: nat -> seq<Bytes>, keys: seq<Bytes>, f: Rewriter, s: Bytes, pos: nat, n: nat): seq<Bytes>
    decreases n
  {
    if n == 0 || Over(keys, f, s, pos) then []
    else visit(pos) + Gather(visit, keys, f, s, NextLanding(keys, f, s, pos), n - 1)
  }

  function Visits(keys: seq<Bytes>, f: Rewriter, s: Bytes, e: Bytes): nat -> seq<Bytes> {
    (l: nat) => if l < |keys| then RoundKeys(keys, f, s, e, l) else []
  }

  /** The keys n rounds visit. */
  function VisitedIn(keys: seq<Bytes>, f: Rewriter, s: Bytes, e: Bytes, pos: nat, n: nat): seq<Bytes> {
    Gather(Visits(keys, f, s, e), keys, f, s, pos, n)
  }

  /** With no limit and no cancellation the outer loop ends. */
  ghost predicate Ends(keys: seq<Bytes>, f: Rewriter, s: Bytes, pos: nat) {
    exists n: nat :: Over(keys, f, s, Landing(keys, f, s, pos, n))
  }

  lemma LandsLater(keys: seq<Bytes>, pos: nat, target: Bytes)
    requires Sorted(keys) && pos < |keys| && Lt(keys[pos], target)
    ensures pos < LowerBound(keys, target)
  {
    LowerBoundAbove(keys, target, pos);
  }

  /** Every landing from pos on is followed by a later one. */
  ghost predicate AdvancesFrom(keys: seq<Bytes>, f: Rewriter, s: Bytes, pos: nat)
    requires Sorted(keys)
    decreases |keys| - pos
  {
    Over(keys, f, s, pos) ||
    (&& Lt(keys[pos], f(s, keys[pos]).1.value)
     && (LandsLater(keys, pos, f(s, keys[pos]).1.value);
         AdvancesFrom(keys, f, s, NextLanding(keys, f, s, pos))))
  }

  /** Everything visited from the landing index pos on. The landing index grows every round. */
  function ScanFrom(keys: seq<Bytes>, f: Rewriter, s: Bytes, e: Bytes, pos: nat): seq<Bytes>
    requires Sorted(keys) && AdvancesFrom(keys, f, s, pos)
    decreases |keys| - pos
  {
    if Over(keys, f, s, pos) then []
    else
      LandsLater(keys, pos, f(s, keys[pos]).1.value);
      RoundKeys(keys, f, s, e, pos) + ScanFrom(keys, f, s, e, NextLanding(keys, f, s, pos))
  }

  lemma {:induction false} AdvancingEnds(keys: seq<Bytes>, f: Rewriter, s: Bytes, pos: nat)
    requires Sorted(keys) && AdvancesFrom(keys, f, s, pos) && pos <= |keys|
    ensures Over(keys, f, s, Landing(keys, f, s, pos, |keys| - pos))
    decreases |keys| - pos
  {
    if !Over(keys, f, s, pos) {
      LandsLater(keys, pos, f(s, keys[pos]).1.value);
      var next := NextLanding(keys, f, s, pos);
      AdvancingEnds(keys, f, s, next);
      LandingStays(keys, f, s, next, |keys| - next, |keys| - pos - 1);
    }
  }

  /** Once over, further rounds change nothing. */
  lemma {:induction false} LandingStays(keys: seq<Bytes>, f: Rewriter, s: Bytes, pos: nat, n: nat, m: nat)
    requires n <= m && Over(keys, f, s, Landing(keys, f, s, pos, n))
    ensures Landing(keys, f, s, pos, m) == Landing(keys, f, s, pos, n)
    decreases m
  {
    if n > 0 && !Over(keys, f, s, pos) {
      LandingStays(keys, f, s, NextLanding(keys, f, s, pos), n - 1, m - 1);
    }
  }

  lemma {:induction false} LandingAdd(keys: seq<Bytes>, f: Rewriter, s: Bytes, pos: nat, n: nat, m: nat)
    ensures Landing(keys, f, s, pos, n + m) == Landing(keys, f, s, Landing(keys, f, s, pos, n), m)
    decreases n
  {
    if n > 0 && !Over(keys, f, s, pos) {
      LandingAdd(keys, f, s, NextLanding(keys, f, s, pos), n - 1, m);
    }
  }

  /** Rounds that end the loop visit the whole scan. */
  lemma {:induction false} ScanIsVisited(keys: seq<Bytes>, f: Rewriter, s: Bytes, e: Bytes, pos: nat, n: nat)
    requires Sorted(keys) && AdvancesFrom(keys, f, s, pos) && Over(keys, f, s, Landing(keys, f, s, pos, n))
    ensures VisitedIn(keys, f, s, e, pos, n) == ScanFrom(keys, f, s, e, pos)
    decreases n
  {
    if n > 0 && !Over(keys, f, s, pos) {
      ScanIsVisited(keys, f, s, e, NextLanding(keys, f, s, pos), n - 1);
    }
  }

  lemma Associative(a: seq<Bytes>, b: seq<Bytes>, c: seq<Bytes>)
    ensures (a + b) + c == a + (b + c)
  {
  }

  /** k more rounds visit what k rounds from the landing reached visit. */
  lemma {:induction false} GatherAdd(visit: nat -> seq<Bytes>, keys: seq<Bytes>, f: Rewriter, s: Bytes, pos: nat,
      n: nat, k: nat)
    ensures Gather(visit, keys, f, s, pos, n + k) ==
            Gather(visit, keys, f, s, pos, n) + Gather(visit, keys, f, s, Landing(keys, f, s, pos, n), k)
    decreases n
  {
    if n > 0 && !Over(keys, f, s, pos) {
      var next := NextLanding(keys, f, s, pos);
      GatherAdd(visit, keys, f, s, next, n - 1, k);
      Associative(visit(pos), Gather(visit, keys, f, s, next, n - 1),
                  Gather(visit, keys, f, s, Landing(keys, f, s, next, n - 1), k));
    }
  }

  lemma GatherGrows(visit: nat -> seq<Bytes>, keys: seq<Bytes>, f: Rewriter, s: Bytes, pos: nat, n: nat, m: nat)
    requires n <= m
    ensures Gather(visit, keys, f, s, pos, n) <= Gather(visit, keys, f, s, pos, m)
    ensures Over(keys, f, s, Landing(keys, f, s, pos, n)) ==>
              Gather(visit, keys, f, s, pos, n) == Gather(visit, keys, f, s, pos, m)
  {
    GatherAdd(visit, keys, f, s, pos, n, m - n);
  }

  /** More rounds only add keys at the end, and none once the loop is over. */
  lemma VisitedGrows(keys: seq<Bytes>, f: Rewriter, s: Bytes, e: Bytes, pos: nat, n: nat, m: nat)
    requires n <= m
    ensures VisitedIn(keys, f, s, e, pos, n) <= VisitedIn(keys, f, s, e, pos, m)
    ensures Over(keys, f, s, Landing(keys, f, s, pos, n)) ==>
              VisitedIn(keys, f, s, e, pos, n) == VisitedIn(keys, f, s, e, pos, m)
  {
    GatherGrows(Visits(keys, f, s, e), keys, f, s, pos, n, m);
  }

  /** The round that lands on l visits v. */
  predicate InRound(keys: seq<Bytes>, f: Rewriter, s: Bytes, e: Bytes, l: nat, v: Bytes) {
    !Over(keys, f, s, l) && v in RoundKeys(keys, f, s, e, l)
  }

  lemma {:induction false} GatheredAt(visit: nat -> seq<Bytes>, keys: seq<Bytes>, f: Rewriter, s: Bytes, pos: nat,
      n: nat, v: Bytes) returns (m: nat)
    requires v in Gather(visit, keys, f, s, pos, n)
    ensures m < n && !Over(keys, f, s, Landing(keys, f, s, pos, m)) && v in visit(Landing(keys, f, s, pos, m))
    decreases n
  {
    var next := NextLanding(keys, f, s, pos);
    if v in visit(pos) {
      m := 0;
    } else {
      var k := GatheredAt(visit, keys, f, s, next, n - 1, v);
      m := k + 1;
    }
  }

  lemma GatherHas(visit: nat -> seq<Bytes>, keys: seq<Bytes>, f: Rewriter, s: Bytes, pos: nat, n: nat, m: nat, v: Bytes)
    requires m < n && !Over(keys, f, s, Landing(keys, f, s, pos, m)) && v in visit(Landing(keys, f, s, pos, m))
    ensures v in Gather(visit, keys, f, s, pos, n)
  {
    GatherAdd(visit, keys, f, s, pos, m, n - m);
  }

  lemma VisitedInRound(keys: seq<Bytes>, f: Rewriter, s: Bytes, e: Bytes, pos: nat, n: nat, v: Bytes)
    returns (m: nat)
    requires v in VisitedIn(keys, f, s, e, pos, n)
    ensures m < n && InRound(keys, f, s, e, Landing(keys, f, s, pos, m), v)
  {
    m := GatheredAt(Visits(keys, f, s, e), keys, f, s, pos, n, v);
  }

  lemma RoundIsVisited(keys: seq<Bytes>, f: Rewriter, s: Bytes, e: Bytes, pos: nat, n: nat, m: nat, v: Bytes)
    requires m < n && InRound(keys, f, s, e, Landing(keys, f, s, pos, m), v)
    ensures v in VisitedIn(keys, f, s, e, pos, n)
  {
    GatherHas(Visits(keys, f, s, e), keys, f, s, pos, n, m, v);
  }

  /** Rounds that end the loop visit all that any number of rounds does. */
  lemma VisitedByTheEnd(keys: seq<Bytes>, f: Rewriter, s: Bytes, e: Bytes, pos: nat, n: nat, m: nat, v: Bytes)
    requires Over(keys, f, s, Landing(keys, f, s, pos, n)) && v in VisitedIn(keys, f, s, e, pos, m)
    ensures v in VisitedIn(keys, f, s, e, pos, n)
  {
    if m <= n {
      VisitedGrows(keys, f, s, e, pos, m, n);
    } else {
      VisitedGrows(keys, f, s, e, pos, n, m);
    }
  }

  /** A landing that does not advance. */
  predicate Fallback(keys: seq<Bytes>, f: Rewriter, s: Bytes, pos: nat) {
    !Over(keys, f, s, pos) && !Lt(keys[pos], f(s, keys[pos]).1.value)
  }

  /** AdvancesFrom speaks of the keys landed on and of no others. */
  lemma {:induction false} AdvancesIffNoFallback(keys: seq<Bytes>, f: Rewriter, s: Bytes, pos: nat)
    requires Sorted(keys)
    ensures AdvancesFrom(keys, f, s, pos) <==>
            forall n: nat :: !Fallback(keys, f, s, Landing(keys, f, s, pos, n))
    decreases |keys| - pos
  {
    assert Landing(keys, f, s, pos, 0) == pos;
    if !Over(keys, f, s, pos) && Lt(keys[pos], f(s, keys[pos]).1.value) {
      LandsLater(keys, pos, f(s, keys[pos]).1.value);
      var next := NextLanding(keys, f, s, pos);
      AdvancesIffNoFallback(keys, f, s, next);
      forall n: nat
        ensures Landing(keys, f, s, pos, n + 1) == Landing(keys, f, s, next, n)
      {
      }
      if AdvancesFrom(keys, f, s, pos) {
        forall n: nat
          ensures !Fallback(keys, f, s, Landing(keys, f, s, pos, n))
        {
          if n > 0 {
            assert !Fallback(keys, f, s, Landing(keys, f, s, next, n - 1));
          }
        }
      } else {
        var n: nat :| Fallback(keys, f, s, Landing(keys, f, s, next, n));
        assert Fallback(keys, f, s, Landing(keys, f, s, pos, n + 1));
        assert exists k: nat :: Fallback(keys, f, s, Landing(keys, f, s, pos, k));
      }
    }
  }

  // ---- when the unlimited loop ends ----

  /** A landing seen twice is seen again and again: the loop does not end. */
  lemma {:induction false} RepeatNeverEnds(keys: seq<Bytes>, f: Rewriter, s: Bytes, pos: nat, i: nat, j: nat, n: nat)
    requires i < j && Landing(keys, f, s, pos, i) == Landing(keys, f, s, pos, j)
    requires !Over(keys, f, s, Landing(keys, f, s, pos, j))
    ensures !Over(keys, f, s, Landing(keys, f, s, pos, n))
    decreases n
  {
    if n <= j {
      if Over(keys, f, s, Landing(keys, f, s, pos, n)) {
        LandingStays(keys, f, s, pos, n, j);
        assert false;
      }
    } else {
      LandingAdd(keys, f, s, pos, i, n - j);
      LandingAdd(keys, f, s, pos, j, n - j);
      RepeatNeverEnds(keys, f, s, pos, i, j, n - (j - i));
    }
  }

  function Elements(a: seq<nat>): (r: set<nat>)
    ensures forall x :: x in r <==> x in a
  {
    if a == [] then {} else Elements(a[..|a| - 1]) + {a[|a| - 1]}
  }

  lemma {:induction false} DistinctCount(a: seq<nat>)
    requires forall i, j :: 0 <= i < j < |a| ==> a[i] != a[j]
    ensures |Elements(a)| == |a|
  {
    if a != [] {
      DistinctCount(a[..|a| - 1]);
    }
  }

  lemma {:induction false} Bounded(n: nat) returns (below: set<nat>)
    ensures |below| == n && forall x: nat :: x in below <==> x < n
  {
    below := {};
    if n > 0 {
      var less := Bounded(n - 1);
      below := less + {n - 1};
    }
  }

  lemma {:induction false} Subset(a: set<nat>, b: set<nat>)
    requires a <= b
    ensures |a| <= |b|
  {
    assert b == a + (b - a) && a !! (b - a);
    assert |b| == |a| + |b - a|;
  }

  lemma Pigeonhole(a: seq<nat>, n: nat) returns (i: nat, j: nat)
    requires |a| > n && forall k :: 0 <= k < |a| ==> a[k] < n
    ensures i < j < |a| && a[i] == a[j]
  {
    var below := Bounded(n);
    Subset(Elements(a), below);
    if forall x, y :: 0 <= x < y < |a| ==> a[x] != a[y] {
      DistinctCount(a);
      assert false;
    }
    i, j :| 0 <= i < j < |a| && a[i] == a[j];
  }

  /** The unlimited loop ends if and only if it ends within as many rounds as there are keys. */
  lemma EndsIffSoon(keys: seq<Bytes>, f: Rewriter, s: Bytes, pos: nat)
    ensures Ends(keys, f, s, pos) <==> Over(keys, f, s, Landing(keys, f, s, pos, |keys|))
  {
    if !Over(keys, f, s, Landing(keys, f, s, pos, |keys|)) {
      var path := seq(|keys| + 1, i requires 0 <= i => Landing(keys, f, s, pos, i));
      forall i: nat | i <= |keys|
        ensures !Over(keys, f, s, path[i])
      {
        if Over(keys, f, s, path[i]) {
          LandingStays(keys, f, s, pos, i, |keys|);
          assert false;
        }
      }
      var i, j := Pigeonhole(path, |keys|);
      forall n: nat
        ensures !Over(keys, f, s, Landing(keys, f, s, pos, n))
      {
        RepeatNeverEnds(keys, f, s, pos, i, j, n);
      }
    }
  }

  // ---- falling back ----

  lemma {:induction false} LandsAhead(keys: seq<Bytes>, f: Rewriter, s: Bytes, pos: nat, n: nat)
    requires Sorted(keys) && forall i: nat :: i < n ==> !Fallback(keys, f, s, Landing(keys, f, s, pos, i))
    ensures pos <= Landing(keys, f, s, pos, n)
    decreases n
  {
    if n > 0 && !Over(keys, f, s, pos) {
      assert Landing(keys, f, s, pos, 0) == pos;
      LandsLater(keys, pos, f(s, keys[pos]).1.value);
      NextPath(keys, f, s, pos, n);
      LandsAhead(keys, f, s, NextLanding(keys, f, s, pos), n - 1);
    }
  }

  lemma NextPath(keys: seq<Bytes>, f: Rewriter, s: Bytes, pos: nat, n: nat)
    requires n > 0 && !Over(keys, f, s, pos)
    requires forall i: nat :: i < n ==> !Fallback(keys, f, s, Landing(keys, f, s, pos, i))
    ensures var next := NextLanding(keys, f, s, pos);
            forall i: nat :: i < n - 1 ==> !Fallback(keys, f, s, Landing(keys, f, s, next, i))
  {
    var next := NextLanding(keys, f, s, pos);
    forall i: nat | i < n - 1
      ensures !Fallback(keys, f, s, Landing(keys, f, s, next, i))
    {
      assert Landing(keys, f, s, pos, i + 1) == Landing(keys, f, s, next, i);
    }
  }

  /** No landing before the place that l falls back to jumps over that place without jumping over l. */
  ghost predicate NoneJumpsOver(keys: seq<Bytes>, f: Rewriter, s: Bytes, l: nat)
    requires !Over(keys, f, s, l)
  {
    forall q: nat :: q < NextLanding(keys, f, s, l) && !Over(keys, f, s, q) && !Fallback(keys, f, s, q)
                     && NextLanding(keys, f, s, q) <= l ==>
                       NextLanding(keys, f, s, q) <= NextLanding(keys, f, s, l)
  }

  /** Then the place that the first fallback leads to has been landed on before. */
  lemma {:induction false} FallsOnPath(keys: seq<Bytes>, f: Rewriter, s: Bytes, pos: nat, n: nat, l: nat)
    returns (m: nat)
    requires Sorted(keys) && l == Landing(keys, f, s, pos, n) && Fallback(keys, f, s, l)
    requires NoneJumpsOver(keys, f, s, l) && pos <= NextLanding(keys, f, s, l) <= l
    requires forall i: nat :: i < n ==> !Fallback(keys, f, s, Landing(keys, f, s, pos, i))
    ensures m <= n && Landing(keys, f, s, pos, m) == NextLanding(keys, f, s, l)
    decreases n
  {
    if pos == NextLanding(keys, f, s, l) {
      m := 0;
    } else {
      assert n > 0 && !Over(keys, f, s, pos);
      assert Landing(keys, f, s, pos, 0) == pos;
      var next := NextLanding(keys, f, s, pos);
      NextPath(keys, f, s, pos, n);
      LandsAhead(keys, f, s, next, n - 1);
      var k := FallsOnPath(keys, f, s, next, n - 1, l);
      m := k + 1;
    }
  }

  lemma {:induction false} FirstFallback(keys: seq<Bytes>, f: Rewriter, s: Bytes, n: nat) returns (first: nat)
    requires Fallback(keys, f, s, Landing(keys, f, s, 0, n))
    ensures Fallback(keys, f, s, Landing(keys, f, s, 0, first))
    ensures forall i: nat :: i < first ==> !Fallback(keys, f, s, Landing(keys, f, s, 0, i))
    decreases n
  {
    if i: nat :| i < n && Fallback(keys, f, s, Landing(keys, f, s, 0, i)) {
      first := FirstFallback(keys, f, s, i);
    } else {
      first := n;
    }
  }

  lemma FallbackNeverEnds(keys: seq<Bytes>, f: Rewriter, s: Bytes, first: nat)
    requires Sorted(keys) && Fallback(keys, f, s, Landing(keys, f, s, 0, first))
    requires forall i: nat :: i < first ==> !Fallback(keys, f, s, Landing(keys, f, s, 0, i))
    requires NoneJumpsOver(keys, f, s, Landing(keys, f, s, 0, first))
    ensures !Ends(keys, f, s, 0)
  {
    var l := Landing(keys, f, s, 0, first);
    var back := NextLanding(keys, f, s, l);
    LowerBoundAbove(keys, f(s, keys[l]).1.value, l);
    var m := FallsOnPath(keys, f, s, 0, first, l);
    LandingAdd(keys, f, s, 0, first, 1);
    assert Landing(keys, f, s, l, 1) == Landing(keys, f, s, back, 0) == back;
    if Over(keys, f, s, back) {
      LandingStays(keys, f, s, 0, m, first);
      assert false;
    }
    forall k: nat
      ensures !Over(keys, f, s, Landing(keys, f, s, 0, k))
    {
      RepeatNeverEnds(keys, f, s, 0, m, first + 1, k);
    }
  }

  /** If that holds of every landing, the unlimited loop ends if and only if every landing advances. */
  lemma EndsIffAdvances(keys: seq<Bytes>, f: Rewriter, s: Bytes)
    requires Sorted(keys)
    requires forall l: nat :: Fallback(keys, f, s, l) ==> NoneJumpsOver(keys, f, s, l)
    ensures Ends(keys, f, s, 0) <==> AdvancesFrom(keys, f, s, 0)
  {
    AdvancesIffNoFallback(keys, f, s, 0);
    if AdvancesFrom(keys, f, s, 0) {
      AdvancingEnds(keys, f, s, 0);
    } else {
      var n: nat :| Fallback(keys, f, s, Landing(keys, f, s, 0, n));
      var first := FirstFallback(keys, f, s, n);
      FallbackNeverEnds(keys, f, s, first);
    }
  }
}
