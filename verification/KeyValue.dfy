/** The two key-value stores behind one range contract: the RocksDB wrapper (rocksdb.go,
    rocksdb/kvdb.go) and the bolt wrapper (boltdb/kvdb.go). Only keys are kept. */
module KeyValue {
  import opened Options
  import opened Bytes
  import opened Fields
  import opened Rounds
  import opened SkipScan
  import opened Decimal
  import opened Deletion

  datatype Error = NoSuchFamily | KeyNotFound | Cancelled

  datatype RangeOption = RangeOption(
    startKey: Bytes, endKey: Bytes,
    startTS: int, endTS: int,
    tsFieldIndex: nat, keySeparator: Bytes,
    key: Bytes, cf: string, limit: int, streamOutput: bool)

  /** Whether the context reports an error when it is looked at after n callbacks. */
  type Context = nat -> bool

  const NeverCancelled: Context := _ => false

  // ---- stopping early ----

  predicate Stops(limit: int, ctx: Context, n: nat) {
    (limit > 0 && n >= limit) || ctx(n)
  }

  /** None of the counts after lo up to hi ends the scan. */
  ghost predicate RunsOn(limit: int, ctx: Context, lo: nat, hi: int) {
    forall m :: lo < m <= hi ==> !Stops(limit, ctx, m)
  }

  lemma JoinRuns(limit: int, ctx: Context, mid: nat, hi: int)
    requires RunsOn(limit, ctx, 0, mid) && RunsOn(limit, ctx, mid, hi)
    ensures RunsOn(limit, ctx, 0, hi)
  {
  }

  /** The first count from n on, up to total, at which a scan of total keys ends. */
  function StopCount(total: nat, limit: int, ctx: Context, n: nat): (r: nat)
    ensures r <= total
    ensures forall m :: n <= m < r ==> !Stops(limit, ctx, m)
    ensures n <= r < total ==> Stops(limit, ctx, r)
    ensures n <= total ==> n <= r
    decreases total - n
  {
    if n >= total then total
    else if Stops(limit, ctx, n) then n
    else StopCount(total, limit, ctx, n + 1)
  }

  /** The part of a full enumeration that is visited: limit and context are looked at after
      each callback. */
  function Cut(all: seq<Bytes>, limit: int, ctx: Context): seq<Bytes> {
    all[..StopCount(|all|, limit, ctx, 1)]
  }

  function CutError(all: seq<Bytes>, limit: int, ctx: Context): Option<Error> {
    var n := |Cut(all, limit, ctx)|;
    if n >= 1 && !(limit > 0 && n >= limit) && ctx(n) then Some(Cancelled) else None
  }

  lemma StopCountIs(total: nat, limit: int, ctx: Context, n: nat, r: nat)
    requires n <= r <= total
    requires forall m :: n <= m < r ==> !Stops(limit, ctx, m)
    requires r == total || Stops(limit, ctx, r)
    ensures StopCount(total, limit, ctx, n) == r
  {
    var got := StopCount(total, limit, ctx, n);
    assert !(got < r) && !(r < got);
  }

  lemma NothingStops(all: seq<Bytes>, limit: int, ctx: Context)
    requires RunsOn(limit, ctx, 0, |all|)
    ensures Cut(all, limit, ctx) == all && CutError(all, limit, ctx) == None
  {
    if |all| >= 1 {
      StopCountIs(|all|, limit, ctx, 1, |all|);
      assert !Stops(limit, ctx, |all|);
    }
  }

  /** A positive limit L yields the first L keys of the unlimited enumeration. */
  lemma LimitTakesFirst(all: seq<Bytes>, limit: int)
    ensures Cut(all, limit, NeverCancelled) ==
            if limit > 0 && limit <= |all| then all[..limit] else all
  {
    var n := if limit > 0 && limit <= |all| then limit else |all|;
    if n >= 1 {
      StopCountIs(|all|, limit, NeverCancelled, 1, n);
    }
  }

  lemma PrefixOfWhole(before: seq<Bytes>, part: seq<Bytes>, run: seq<Bytes>, later: seq<Bytes>)
    requires part <= run
    ensures before + part == (before + (run + later))[..|before| + |part|]
    ensures part == run ==> (before + part) + later == before + (run + later)
  {
  }

  lemma OneMoreKey(all: seq<Bytes>, n: nat)
    requires n < |all|
    ensures all[..n] + [all[n]] == all[..n + 1]
  {
  }

  lemma StopsHere(all: seq<Bytes>, limit: int, ctx: Context, n: nat)
    requires 1 <= n <= |all| && Stops(limit, ctx, n)
    requires RunsOn(limit, ctx, 0, n - 1)
    ensures Cut(all, limit, ctx) == all[..n]
    ensures CutError(all, limit, ctx) == if limit > 0 && n >= limit then None else Some(Cancelled)
  {
    StopCountIs(|all|, limit, ctx, 1, n);
  }

  lemma EndOfScan(all: seq<Bytes>, visited: seq<Bytes>, rest: seq<Bytes>, limit: int, ctx: Context)
    requires all == visited + rest && rest == [] && RunsOn(limit, ctx, 0, |visited|)
    ensures visited == Cut(all, limit, ctx) && CutError(all, limit, ctx) == None
  {
    assert all == visited;
    NothingStops(all, limit, ctx);
  }

  /** Where a scan stands after one slice: stopped for good, or run out and going on. */
  lemma AfterSlice(all: seq<Bytes>, before: seq<Bytes>, rest: seq<Bytes>, part: seq<Bytes>,
        run: seq<Bytes>, later: seq<Bytes>, limit: int, ctx: Context, stopped: bool)
    requires all == before + rest && rest == run + later && part <= run
    requires RunsOn(limit, ctx, 0, |before|)
    requires RunsOn(limit, ctx, |before|, if stopped then |before| + |part| - 1 else |before| + |part|)
    requires stopped ==> part != [] && Stops(limit, ctx, |before| + |part|)
    requires !stopped ==> part == run
    ensures stopped ==> before + part == Cut(all, limit, ctx)
    ensures stopped ==> CutError(all, limit, ctx) ==
                        if limit > 0 && |before| + |part| >= limit then None else Some(Cancelled)
    ensures !stopped ==> all == (before + part) + later && RunsOn(limit, ctx, 0, |before + part|)
    ensures !stopped && later == [] ==> before + part == Cut(all, limit, ctx) && CutError(all, limit, ctx) == None
  {
    var n := |before| + |part|;
    PrefixOfWhole(before, part, run, later);
    JoinRuns(limit, ctx, |before|, if stopped then n - 1 else n);
    if stopped {
      StopsHere(all, limit, ctx, n);
    } else if later == [] {
      EndOfScan(all, before + part, later, limit, ctx);
    }
  }

  // ---- iterator over a snapshot ----

  class Iterator {
    const keys: seq<Bytes>
    var pos: nat

    constructor (keys: seq<Bytes>)
      ensures this.keys == keys
    {
      this.keys := keys;
      pos := |keys|;
    }

    predicate Valid()
      reads this
    {
      pos < |keys|
    }

    function Key(): Bytes
      requires Valid()
      reads this
    {
      keys[pos]
    }

    method SeekToFirst()
      modifies this
      ensures pos == 0
    {
      pos := 0;
    }

    method Seek(key: Bytes)
      modifies this
      ensures pos == LowerBound(keys, key)
    {
      pos := LowerBound(keys, key);
    }

    method Next()
      requires Valid()
      modifies this
      ensures pos == old(pos) + 1
    {
      pos := pos + 1;
    }
  }

  // ---- specification of the range operations ----

  predicate ByTimestamp(opt: RangeOption) {
    opt.startTS > 0 || opt.endTS > 0
  }

  /** EndTS 0 in timestamp mode means "until now". */
  function Resolved(opt: RangeOption, now: int): RangeOption {
    if opt.key == [] && ByTimestamp(opt) && opt.endTS == 0 then opt.(endTS := now) else opt
  }

  /** The timestamp scan has come to its end after n rounds, by itself, by limit or by cancellation. */
  ghost predicate Halts(keys: seq<Bytes>, f: Rewriter, s: Bytes, e: Bytes, limit: int, ctx: Context, n: nat) {
    || Over(keys, f, s, Landing(keys, f, s, 0, n))
    || exists m :: 1 <= m <= |VisitedIn(keys, f, s, e, 0, n)| && Stops(limit, ctx, m)
  }

  /** The timestamp scan comes to an end. */
  ghost predicate Terminates(keys: seq<Bytes>, opt: RangeOption, ctx: Context) {
    exists n: nat :: Halts(keys, ByIndex(opt.tsFieldIndex, opt.keySeparator),
                           Format(opt.startTS), Format(opt.endTS), opt.limit, ctx, n)
  }

  lemma FirstStop(all: seq<Bytes>, more: seq<Bytes>, limit: int, ctx: Context, m: nat)
    requires all <= more && 1 <= m <= |all| && Stops(limit, ctx, m)
    ensures Cut(all, limit, ctx) == Cut(more, limit, ctx) && CutError(all, limit, ctx) == CutError(more, limit, ctx)
  {
    var r := StopCount(|all|, limit, ctx, 1);
    assert r <= m && Stops(limit, ctx, r);
    StopCountIs(|more|, limit, ctx, 1, r);
  }

  /** However many rounds are looked at, once the scan has halted its result is the same. */
  lemma HaltsAgree(keys: seq<Bytes>, f: Rewriter, s: Bytes, e: Bytes, limit: int, ctx: Context, n: nat, m: nat)
    requires Halts(keys, f, s, e, limit, ctx, n) && Halts(keys, f, s, e, limit, ctx, m)
    ensures Cut(VisitedIn(keys, f, s, e, 0, n), limit, ctx) == Cut(VisitedIn(keys, f, s, e, 0, m), limit, ctx)
    ensures CutError(VisitedIn(keys, f, s, e, 0, n), limit, ctx) == CutError(VisitedIn(keys, f, s, e, 0, m), limit, ctx)
  {
    var a, b := if n <= m then n else m, if n <= m then m else n;
    VisitedGrows(keys, f, s, e, 0, a, b);
    if !Over(keys, f, s, Landing(keys, f, s, 0, a)) {
      var k :| 1 <= k <= |VisitedIn(keys, f, s, e, 0, a)| && Stops(limit, ctx, k);
      FirstStop(VisitedIn(keys, f, s, e, 0, a), VisitedIn(keys, f, s, e, 0, b), limit, ctx, k);
    }
  }

  /** Without limit and cancellation the scan halts if and only if its outer loop ends. */
  lemma HaltsIffEnds(keys: seq<Bytes>, f: Rewriter, s: Bytes, e: Bytes)
    ensures (exists n: nat :: Halts(keys, f, s, e, 0, NeverCancelled, n)) <==> Ends(keys, f, s, 0)
  {
    forall n: nat
      ensures Halts(keys, f, s, e, 0, NeverCancelled, n) <==> Over(keys, f, s, Landing(keys, f, s, 0, n))
    {
    }
    if Ends(keys, f, s, 0) {
      var n: nat :| Over(keys, f, s, Landing(keys, f, s, 0, n));
      assert Halts(keys, f, s, e, 0, NeverCancelled, n);
    }
  }

  /** When every landing advances the scan halts under any limit and context, and its result is the
      skip-scan cut there. */
  lemma AdvancingHalts(keys: seq<Bytes>, f: Rewriter, s: Bytes, e: Bytes, limit: int, ctx: Context)
    requires Sorted(keys) && AdvancesFrom(keys, f, s, 0)
    ensures exists n: nat :: Halts(keys, f, s, e, limit, ctx, n)
    ensures forall n: nat :: Halts(keys, f, s, e, limit, ctx, n) ==>
              Cut(VisitedIn(keys, f, s, e, 0, n), limit, ctx) == Cut(ScanFrom(keys, f, s, e, 0), limit, ctx)
  {
    var all := |keys|;
    AdvancingEnds(keys, f, s, 0);
    ScanIsVisited(keys, f, s, e, 0, all);
    assert Halts(keys, f, s, e, limit, ctx, all);
    forall n: nat | Halts(keys, f, s, e, limit, ctx, n)
      ensures Cut(VisitedIn(keys, f, s, e, 0, n), limit, ctx) == Cut(ScanFrom(keys, f, s, e, 0), limit, ctx)
    {
      HaltsAgree(keys, f, s, e, limit, ctx, n, all);
    }
  }

  /** What the timestamp scan meets in some number of rounds in which it halts. */
  ghost function Met(keys: seq<Bytes>, opt: RangeOption, ctx: Context): seq<Bytes>
    requires Terminates(keys, opt, ctx)
  {
    var f, s, e := ByIndex(opt.tsFieldIndex, opt.keySeparator), Format(opt.startTS), Format(opt.endTS);
    var n: nat :| Halts(keys, f, s, e, opt.limit, ctx, n);
    VisitedIn(keys, f, s, e, 0, n)
  }

  /** The keys the option's range covers, before limit and cancellation. */
  ghost function Covered(keys: seq<Bytes>, opt: RangeOption, ctx: Context): seq<Bytes>
    requires opt.key == [] && ByTimestamp(opt) ==> Terminates(keys, opt, ctx)
  {
    if opt.key != [] then Filter(keys, k => k == opt.key)
    else if ByTimestamp(opt) then Met(keys, opt, ctx)
    else Run(keys, opt.startKey, opt.endKey)
  }

  /** The keys a get lists and a delete removes. */
  ghost function Chosen(keys: seq<Bytes>, opt: RangeOption, ctx: Context): seq<Bytes>
    requires opt.key == [] && ByTimestamp(opt) ==> Terminates(keys, opt, ctx)
  {
    if opt.key != [] then Covered(keys, opt, ctx) else Cut(Covered(keys, opt, ctx), opt.limit, ctx)
  }

  /** In timestamp mode a get lists, and a delete removes, the keys of the skip-scan, cut. */
  lemma ChosenIsScan(keys: seq<Bytes>, opt: RangeOption, ctx: Context)
    requires Sorted(keys) && opt.key == [] && ByTimestamp(opt)
    requires opt.keySeparator != [] && opt.tsFieldIndex >= 1 && Advancing(keys, opt.tsFieldIndex, opt.keySeparator)
    ensures Terminates(keys, opt, ctx)
    ensures Chosen(keys, opt, ctx) ==
            Cut(IndexScan(keys, opt.tsFieldIndex, opt.keySeparator, Format(opt.startTS), Format(opt.endTS)),
              opt.limit, ctx)
  {
    var f, s, e := ByIndex(opt.tsFieldIndex, opt.keySeparator), Format(opt.startTS), Format(opt.endTS);
    AnyStamp(keys, opt.tsFieldIndex, opt.keySeparator, [], s, 0);
    AdvancingHalts(keys, f, s, e, opt.limit, ctx);
  }

  // ---- what an option covers, in terms of the stored keys ----

  ghost predicate Uncancelled(ctx: Context) {
    forall n: nat :: !ctx(n)
  }

  /** The first keys, as many as a positive limit allows. */
  function First(limit: int, all: seq<Bytes>): seq<Bytes> {
    if 0 < limit <= |all| then all[..limit] else all
  }

  /** The stored keys in the closed range, in order; an empty end is none. */
  function RangeKeys(keys: seq<Bytes>, lo: Bytes, hi: Bytes): (r: seq<Bytes>)
    ensures forall k :: k in r <==> k in keys && Le(lo, k) && (hi == [] || Le(k, hi))
  {
    Filter(keys, k => Le(lo, k) && (hi == [] || Le(k, hi)))
  }

  /** The skip-scan gets to every key of the window: its bounds fit the timestamps, which stand last. */
  ghost predicate WindowFits(keys: seq<Bytes>, idx: nat, sep: Bytes, lo: int, hi: int) {
    && sep != [] && idx >= 1 && Sorted(keys) && Advancing(keys, idx, sep)
    && exists w :: w >= 1 && Stamped(keys, idx, sep, w) && Flat(keys, idx, sep) && Clean(keys, idx, sep)
                   && ReachesAll(keys, idx, sep) && LowerFits(lo, w) && UpperFits(hi, w)
  }

  lemma CutUncancelled(all: seq<Bytes>, limit: int, ctx: Context)
    requires Uncancelled(ctx)
    ensures Cut(all, limit, ctx) == First(limit, all) && CutError(all, limit, ctx) == None
  {
    var n := |First(limit, all)|;
    if n >= 1 {
      StopCountIs(|all|, limit, ctx, 1, n);
    }
  }

  lemma RunIsFilter(keys: seq<Bytes>, lo: Bytes, hi: Bytes)
    requires Sorted(keys)
    ensures Run(keys, lo, hi) == RangeKeys(keys, lo, hi)
  {
    FilterSorted(keys, k => Le(lo, k) && (hi == [] || Le(k, hi)));
    RunSorted(keys, lo, hi);
    forall k
      ensures k in Run(keys, lo, hi) <==> k in RangeKeys(keys, lo, hi)
    {
      RunMembers(keys, lo, hi, k);
    }
    SortedUnique(Run(keys, lo, hi), RangeKeys(keys, lo, hi));
  }

  /** In timestamp mode. */
  lemma WindowIsChosen(keys: seq<Bytes>, opt: RangeOption, ctx: Context)
    requires opt.key == [] && ByTimestamp(opt) && Uncancelled(ctx)
    requires WindowFits(keys, opt.tsFieldIndex, opt.keySeparator, opt.startTS, opt.endTS)
    ensures Terminates(keys, opt, ctx)
    ensures Chosen(keys, opt, ctx) ==
            First(opt.limit, WindowKeys(keys, opt.tsFieldIndex, opt.keySeparator, opt.startTS, opt.endTS))
  {
    var idx, sep := opt.tsFieldIndex, opt.keySeparator;
    var w :| w >= 1 && Stamped(keys, idx, sep, w) && Flat(keys, idx, sep) && Clean(keys, idx, sep)
             && ReachesAll(keys, idx, sep) && LowerFits(opt.startTS, w) && UpperFits(opt.endTS, w);
    ChosenIsScan(keys, opt, ctx);
    WholeStoreExactIff(keys, idx, sep, w);
    assert WholeExact(keys, idx, sep, opt.startTS, opt.endTS);
    CutUncancelled(IndexScan(keys, idx, sep, Format(opt.startTS), Format(opt.endTS)), opt.limit, ctx);
  }

  /** What a get lists and a delete removes, for every option without a key: with a positive timestamp the
      keys whose timestamp lies between StartTS and EndTS, or now if EndTS is 0; else those of the key
      range. */
  lemma ChosenMeans(keys: seq<Bytes>, opt: RangeOption, now: int, ctx: Context)
    requires Sorted(keys) && opt.key == [] && Uncancelled(ctx)
    requires opt.startTS > 0 || opt.endTS > 0 ==> Terminates(keys, Resolved(opt, now), ctx)
    ensures var used, hi := Resolved(opt, now), if opt.endTS == 0 then now else opt.endTS;
            && CutError(Covered(keys, used, ctx), opt.limit, ctx) == None
            && if opt.startTS > 0 || opt.endTS > 0 then
                 WindowFits(keys, opt.tsFieldIndex, opt.keySeparator, opt.startTS, hi) ==>
                   Chosen(keys, used, ctx) ==
                   First(opt.limit, WindowKeys(keys, opt.tsFieldIndex, opt.keySeparator, opt.startTS, hi))
               else Chosen(keys, used, ctx) == First(opt.limit, RangeKeys(keys, opt.startKey, opt.endKey))
  {
    var used, hi := Resolved(opt, now), if opt.endTS == 0 then now else opt.endTS;
    CutUncancelled(Covered(keys, used, ctx), opt.limit, ctx);
    if opt.startTS > 0 || opt.endTS > 0 {
      if WindowFits(keys, opt.tsFieldIndex, opt.keySeparator, opt.startTS, hi) {
        WindowIsChosen(keys, used, ctx);
      }
    } else {
      RunIsFilter(keys, opt.startKey, opt.endKey);
    }
  }

  /** Without a limit, a delete leaves the keys outside the window. */
  lemma OutsideIsLeft(keys: seq<Bytes>, idx: nat, sep: Bytes, lo: int, hi: int, k: Bytes)
    requires sep != []
    ensures k in Without(keys, First(0, WindowKeys(keys, idx, sep, lo, hi))) <==>
            k in keys && !(Proper(k, idx, sep) && lo <= Value(Field(k, idx, sep)) <= hi)
  {
  }

  lemma OneKey(keys: seq<Bytes>, key: Bytes)
    requires Sorted(keys)
    ensures Filter(keys, k => k == key) == if key in keys then [key] else []
  {
    FilterSorted(keys, k => k == key);
    SortedUnique(Filter(keys, k => k == key), if key in keys then [key] else []);
  }

  // ---- the RocksDB wrapper ----

  /** What n more rounds visit from where the iterator stands. */
  ghost function ToCome(iter: Iterator, opt: RangeOption, f: Rewriter, n: nat): seq<Bytes>
    reads iter
  {
    VisitedIn(iter.keys, f, Format(opt.startTS), Format(opt.endTS), iter.pos, n)
  }

  /** The slice of the landing key, and the rounds after it. */
  lemma RoundAndLater(iter: Iterator, opt: RangeOption, f: Rewriter, n: nat)
    returns (run: seq<Bytes>, later: seq<Bytes>)
    requires iter.Valid()
    ensures var keys, s, e := iter.keys, Format(opt.startTS), Format(opt.endTS);
            if Over(keys, f, s, iter.pos) then ToCome(iter, opt, f, n) == []
            else n > 0 ==>
              var next := NextLanding(keys, f, s, iter.pos);
              && ToCome(iter, opt, f, n) == run + later && run == RoundKeys(keys, f, s, e, iter.pos)
              && later == VisitedIn(keys, f, s, e, next, n - 1)
              && (next >= |keys| ==> later == [])
  {
    run, later := [], [];
    var keys, s, e := iter.keys, Format(opt.startTS), Format(opt.endTS);
    if n > 0 && !Over(keys, f, s, iter.pos) {
      run := RoundKeys(keys, f, s, e, iter.pos);
      later := VisitedIn(keys, f, s, e, NextLanding(keys, f, s, iter.pos), n - 1);
    }
  }

  /** When no round is left and nothing has stopped the scan, the landing is its end. */
  lemma LastRound(iter: Iterator, opt: RangeOption, f: Rewriter, ctx: Context, n: nat, left: nat, visited: seq<Bytes>)
    requires Halts(iter.keys, f, Format(opt.startTS), Format(opt.endTS), opt.limit, ctx, n)
    requires VisitedIn(iter.keys, f, Format(opt.startTS), Format(opt.endTS), 0, n)
             == visited + ToCome(iter, opt, f, left)
    requires RunsOn(opt.limit, ctx, 0, |visited|)
    requires Landing(iter.keys, f, Format(opt.startTS), 0, n)
             == Landing(iter.keys, f, Format(opt.startTS), iter.pos, left)
    ensures left > 0 || Over(iter.keys, f, Format(opt.startTS), iter.pos)
  {
    if left == 0 {
      assert visited + [] == visited;
    }
  }

  class RDB {
    var cfs: map<string, seq<Bytes>>

    ghost predicate Valid()
      reads this
    {
      forall cf :: cf in cfs ==> Sorted(cfs[cf])
    }

    method DeleteCF(cf: string, key: Bytes)
      requires Valid() && cf in cfs
      modifies this
      ensures Valid() && cfs == old(cfs)[cf := Without(old(cfs)[cf], [key])]
    {
      FilterSorted(cfs[cf], k => k !in [key]);
      cfs := cfs[cf := Without(cfs[cf], [key])];
    }

    /** Key mode. The callback is recorded as the sequence of visited keys. */
    method RangeForeach(opt: RangeOption, ctx: Context) returns (visited: seq<Bytes>, err: Option<Error>)
      requires Valid() && opt.cf in cfs
      ensures var all := Run(cfs[opt.cf], opt.startKey, opt.endKey);
              visited == Cut(all, opt.limit, ctx) && err == CutError(all, opt.limit, ctx)
    {
      var iter := new Iterator(cfs[opt.cf]);
      if |opt.startKey| > 0 {
        iter.Seek(opt.startKey);
      } else {
        iter.SeekToFirst();
      }
      ghost var keys := iter.keys;
      LowerBoundIsFirst(keys);
      ghost var from := LowerBound(keys, opt.startKey);
      ghost var end := RunEnd(keys, from, opt.endKey);
      ghost var all := keys[from..end];
      var cnt := 0;
      visited, err := [], None;
      while iter.Valid() && (|opt.endKey| == 0 || Le(iter.Key(), opt.endKey))
        invariant from <= iter.pos <= end && cnt == |visited| == iter.pos - from
        invariant visited == all[..cnt]
        invariant RunsOn(opt.limit, ctx, 0, cnt)
        decreases |keys| - iter.pos
      {
        assert iter.pos < end;
        OneMoreKey(all, cnt);
        cnt := cnt + 1;
        visited := visited + [iter.Key()];
        if opt.limit > 0 && cnt >= opt.limit {
          StopsHere(all, opt.limit, ctx, cnt);
          return;
        }
        if ctx(cnt) {
          StopsHere(all, opt.limit, ctx, cnt);
          return visited, Some(Cancelled);
        }
        iter.Next();
      }
      assert iter.pos == end;
      NothingStops(all, opt.limit, ctx);
    }

    /** The inner loop of RangeForeachByTS, from where keyStart was sought; cnt callbacks
        came before it. */
    static method VisitSlice(iter: Iterator, ghost keyStart: Bytes, keyEnd: Bytes, limit: int, ctx: Context, cnt: nat)
      returns (part: seq<Bytes>, stopped: bool, err: Option<Error>)
      requires iter.pos == LowerBound(iter.keys, keyStart)
      modifies iter
      ensures part <= Run(iter.keys, keyStart, keyEnd)
      ensures !stopped ==> part == Run(iter.keys, keyStart, keyEnd)
      ensures stopped ==> part != [] && Stops(limit, ctx, cnt + |part|)
      ensures RunsOn(limit, ctx, cnt, if stopped then cnt + |part| - 1 else cnt + |part|)
      ensures err == if stopped && !(limit > 0 && cnt + |part| >= limit) then Some(Cancelled) else None
    {
      ghost var from := iter.pos;
      ghost var end := RunEnd(iter.keys, from, keyEnd);
      ghost var run := iter.keys[from..end];
      var n := cnt;
      part, stopped, err := [], false, None;
      while iter.Valid() && (|keyEnd| == 0 || Le(iter.Key(), keyEnd))
        invariant from <= iter.pos <= end && |part| == iter.pos - from && n == cnt + |part|
        invariant part == run[..|part|]
        invariant RunsOn(limit, ctx, cnt, n)
        decreases |iter.keys| - iter.pos
      {
        assert iter.pos < end;
        assert run[..|part|] + [run[|part|]] == run[..|part| + 1];
        part := part + [iter.Key()];
        n := n + 1;
        if limit > 0 && n >= limit {
          return part, true, None;
        }
        if ctx(n) {
          return part, true, Some(Cancelled);
        }
        iter.Next();
      }
      assert iter.pos == end;
    }

    /** The slice of the landing key and the seek past its group. */
    static method LandAndScan(iter: Iterator, opt: RangeOption, f: Rewriter, ctx: Context, cnt: nat)
      returns (part: seq<Bytes>, stopped: bool, done: bool, err: Option<Error>)
      requires iter.Valid()
      modifies iter
      ensures done <==> f(Format(opt.startTS), iter.keys[old(iter.pos)]).1.None?
      ensures done ==> part == [] && !stopped && iter.pos == old(iter.pos)
      ensures part <= RoundKeys(iter.keys, f, Format(opt.startTS), Format(opt.endTS), old(iter.pos))
      ensures done || stopped || part == RoundKeys(iter.keys, f, Format(opt.startTS), Format(opt.endTS), old(iter.pos))
      ensures done || stopped || iter.pos ==
        LowerBound(iter.keys, f(Format(opt.startTS), iter.keys[old(iter.pos)]).1.value)
      ensures stopped ==> part != [] && Stops(opt.limit, ctx, cnt + |part|)
      ensures RunsOn(opt.limit, ctx, cnt, if stopped then cnt + |part| - 1 else cnt + |part|)
      ensures err == if stopped && !(opt.limit > 0 && cnt + |part| >= opt.limit) then Some(Cancelled) else None
    {
      part, stopped, done, err := [], false, false, None;
      var tsStart := Format(opt.startTS);
      var tsEnd := Format(opt.endTS);
      var (keyStart, nextKey) := f(tsStart, iter.Key());
      if nextKey.None? {
        done := true;
        return;
      }
      var (keyEnd, _) := f(tsEnd, iter.Key());
      iter.Seek(keyStart);
      part, stopped, err := VisitSlice(iter, keyStart, keyEnd, opt.limit, ctx, cnt);
      if !stopped {
        iter.Seek(nextKey.value);
      }
    }

    /** One turn of the outer loop: either the scan is over, or what comes later is still to come. */
    static method Round(iter: Iterator, opt: RangeOption, f: Rewriter, ctx: Context, before: seq<Bytes>,
        ghost all: seq<Bytes>, ghost later: seq<Bytes>)
      returns (visited: seq<Bytes>, over: bool, err: Option<Error>)
      requires iter.Valid() && RunsOn(opt.limit, ctx, 0, |before|)
      requires var keys, s, e := iter.keys, Format(opt.startTS), Format(opt.endTS);
               if Over(keys, f, s, iter.pos) then all == before
               else && all == before + (RoundKeys(keys, f, s, e, iter.pos) + later)
                    && (NextLanding(keys, f, s, iter.pos) >= |keys| ==> later == [])
      modifies iter
      ensures over ==> visited == Cut(all, opt.limit, ctx) && err == CutError(all, opt.limit, ctx)
      ensures !over ==> && !Over(iter.keys, f, Format(opt.startTS), old(iter.pos)) && iter.Valid()
                        && iter.pos == NextLanding(iter.keys, f, Format(opt.startTS), old(iter.pos))
      ensures !over ==> all == visited + later && RunsOn(opt.limit, ctx, 0, |visited|)
    {
      ghost var keys, s, e := iter.keys, Format(opt.startTS), Format(opt.endTS);
      ghost var ends := Over(keys, f, s, iter.pos);
      ghost var run := if ends then [] else RoundKeys(keys, f, s, e, iter.pos);
      var part, stopped, done;
      part, stopped, done, err := LandAndScan(iter, opt, f, ctx, |before|);
      visited := before + part;
      over := done || stopped || !iter.Valid();
      if done {
        EndOfScan(all, before, [], opt.limit, ctx);
      } else {
        AfterSlice(all, before, run + later, part, run, later, opt.limit, ctx, stopped);
      }
    }

    /** The outer loop, which n rounds are known to end. */
    static method AllRounds(iter: Iterator, opt: RangeOption, f: Rewriter, ctx: Context, ghost n: nat)
      returns (visited: seq<Bytes>, err: Option<Error>)
      requires iter.Valid() && iter.pos == 0
      requires Halts(iter.keys, f, Format(opt.startTS), Format(opt.endTS), opt.limit, ctx, n)
      modifies iter
      ensures var all := VisitedIn(iter.keys, f, Format(opt.startTS), Format(opt.endTS), 0, n);
              visited == Cut(all, opt.limit, ctx) && err == CutError(all, opt.limit, ctx)
    {
      ghost var all := ToCome(iter, opt, f, n);
      ghost var last := Landing(iter.keys, f, Format(opt.startTS), 0, n);
      ghost var left := n;
      var over := false;
      visited, err := [], None;
      while !over
        invariant !over ==> iter.Valid() && all == visited + ToCome(iter, opt, f, left)
        invariant !over ==> RunsOn(opt.limit, ctx, 0, |visited|)
        invariant !over ==> last == Landing(iter.keys, f, Format(opt.startTS), iter.pos, left)
        invariant over ==> visited == Cut(all, opt.limit, ctx) && err == CutError(all, opt.limit, ctx)
        decreases !over, left
      {
        LastRound(iter, opt, f, ctx, n, left, visited);
        ghost var run, later := RoundAndLater(iter, opt, f, left);
        visited, over, err := Round(iter, opt, f, ctx, visited, all, later);
        if !over {
          left := left - 1;
        }
      }
    }

    /** Timestamp mode. It returns whenever the source's loops end, and then with what they visit. */
    method RangeForeachByTS(opt: RangeOption, f: Rewriter, ctx: Context)
      returns (visited: seq<Bytes>, err: Option<Error>)
      requires Valid() && opt.cf in cfs
      requires exists n: nat :: Halts(cfs[opt.cf], f, Format(opt.startTS), Format(opt.endTS), opt.limit, ctx, n)
      ensures forall n: nat :: Halts(cfs[opt.cf], f, Format(opt.startTS), Format(opt.endTS), opt.limit, ctx, n) ==>
                var all := VisitedIn(cfs[opt.cf], f, Format(opt.startTS), Format(opt.endTS), 0, n);
                visited == Cut(all, opt.limit, ctx) && err == CutError(all, opt.limit, ctx)
    {
      ghost var keys, s, e := cfs[opt.cf], Format(opt.startTS), Format(opt.endTS);
      ghost var n: nat :| Halts(keys, f, s, e, opt.limit, ctx, n);
      var iter := new Iterator(cfs[opt.cf]);
      iter.SeekToFirst();
      if !iter.Valid() {
        return [], None;
      }
      visited, err := AllRounds(iter, opt, f, ctx, n);
      forall m: nat | Halts(keys, f, s, e, opt.limit, ctx, m)
        ensures var all := VisitedIn(keys, f, s, e, 0, m);
                visited == Cut(all, opt.limit, ctx) && err == CutError(all, opt.limit, ctx)
      {
        HaltsAgree(keys, f, s, e, opt.limit, ctx, n, m);
      }
    }

    /** rocksdb/kvdb.go Range: no limit, and the given context. */
    method Range(ctx: Context, set_: string, start: Bytes, end: Bytes)
      returns (visited: seq<Bytes>, err: Option<Error>)
      requires Valid() && set_ in cfs
      ensures visited == Cut(Run(cfs[set_], start, end), 0, ctx)
      ensures err == CutError(Run(cfs[set_], start, end), 0, ctx)
    {
      var opt := RangeOption(start, end, 0, 0, 0, [], [], set_, 0, false);
      visited, err := RangeForeach(opt, ctx);
    }

    method DeleteKeys(cf: string, gone: seq<Bytes>)
      requires Valid() && cf in cfs
      modifies this
      ensures Valid() && cfs == old(cfs)[cf := Without(old(cfs)[cf], gone)]
    {
      ghost var keys := cfs[cf];
      WithoutNothing(keys);
      for i := 0 to |gone|
        invariant Valid() && cfs == old(cfs)[cf := Without(keys, gone[..i])]
      {
        DeleteCF(cf, gone[i]);
        WithoutSteps(keys, gone[..i], gone[i]);
        assert gone[..i + 1] == gone[..i] + [gone[i]];
      }
      assert gone[..|gone|] == gone;
    }

    /** The callback deletes while the iterator walks its own snapshot, so the deletions can
        be carried out after the walk. */
    method DeleteRangeByTS(opt: RangeOption, ctx: Context)
      requires Valid() && opt.cf in cfs && Terminates(cfs[opt.cf], opt, ctx)
      modifies this
      ensures Valid()
      ensures cfs == old(cfs)[opt.cf := Without(old(cfs)[opt.cf], Cut(Met(old(cfs)[opt.cf], opt, ctx), opt.limit, ctx))]
    {
      var visited, _ := RangeForeachByTS(opt, ByIndex(opt.tsFieldIndex, opt.keySeparator), ctx);
      DeleteKeys(opt.cf, visited);
    }

    method DeleteRangeByKey(opt: RangeOption, ctx: Context)
      requires Valid() && opt.cf in cfs
      modifies this
      ensures Valid()
      ensures cfs == old(cfs)[opt.cf := Without(old(cfs)[opt.cf],
                Cut(Run(old(cfs)[opt.cf], opt.startKey, opt.endKey), opt.limit, ctx))]
    {
      var visited, _ := RangeForeach(opt, ctx);
      DeleteKeys(opt.cf, visited);
    }

    /** The listed keys; without streamOutput nothing is written when the scan fails. The
        caller's option comes back with EndTS filled in. */
    method GetRange(opt: RangeOption, now: int, ctx: Context)
      returns (used: RangeOption, listed: seq<Bytes>, err: Option<Error>)
      requires Valid()
      requires opt.cf in cfs && opt.key == [] && ByTimestamp(opt) ==>
                 Terminates(cfs[opt.cf], Resolved(opt, now), ctx)
      ensures opt.cf !in cfs ==> used == opt && listed == [] && err == Some(NoSuchFamily)
      ensures opt.cf in cfs ==>
                && used == Resolved(opt, now)
                && var keys := cfs[opt.cf];
                && err == (if opt.key == [] then CutError(Covered(keys, used, ctx), opt.limit, ctx)
                           else if opt.key in keys then None else Some(KeyNotFound))
                && (err.None? || (opt.streamOutput && opt.key == []) ==> listed == Chosen(keys, used, ctx))
                && (err.Some? && !opt.streamOutput ==> listed == [])
      ensures opt.cf in cfs && opt.key != [] ==>
                if opt.key in cfs[opt.cf] then listed == [opt.key] && err == None
                else listed == [] && err == Some(KeyNotFound)
      ensures opt.cf in cfs && opt.key == [] && Uncancelled(ctx) ==>
                var keys, hi := cfs[opt.cf], if opt.endTS == 0 then now else opt.endTS;
                && err == None
                && if opt.startTS > 0 || opt.endTS > 0 then
                     WindowFits(keys, opt.tsFieldIndex, opt.keySeparator, opt.startTS, hi) ==>
                       listed == First(opt.limit,
                                       WindowKeys(keys, opt.tsFieldIndex, opt.keySeparator, opt.startTS, hi))
                   else listed == First(opt.limit, RangeKeys(keys, opt.startKey, opt.endKey))
    {
      used := opt;
      if opt.cf !in cfs {
        return used, [], Some(NoSuchFamily);
      }
      if |opt.key| > 0 {
        var iter := new Iterator(cfs[opt.cf]);
        iter.Seek(opt.key);
        OneKey(cfs[opt.cf], opt.key);
        SeekFinds(cfs[opt.cf], opt.key);
        if !(iter.Valid() && iter.Key() == opt.key) {
          return used, [], Some(KeyNotFound);
        }
        return used, [iter.Key()], None;
      }
      var visited: seq<Bytes>;
      if opt.startTS > 0 || opt.endTS > 0 {
        if opt.endTS == 0 {
          used := opt.(endTS := now);
        }
        visited, err := RangeForeachByTS(used, ByIndex(used.tsFieldIndex, used.keySeparator), ctx);
        assert used == Resolved(opt, now) && ByTimestamp(used);
      } else {
        visited, err := RangeForeach(used, ctx);
      }
      listed := if used.streamOutput || err.None? then visited else [];
      if Uncancelled(ctx) {
        ChosenMeans(cfs[opt.cf], opt, now, ctx);
      }
    }

    method DeleteRange(opt: RangeOption, now: int, ctx: Context)
      returns (used: RangeOption, err: Option<Error>)
      requires Valid()
      requires opt.cf in cfs && opt.key == [] && ByTimestamp(opt) ==>
                 Terminates(cfs[opt.cf], Resolved(opt, now), ctx)
      modifies this
      ensures Valid()
      ensures opt.cf !in old(cfs) ==> used == opt && cfs == old(cfs) && err == Some(NoSuchFamily)
      ensures opt.cf in old(cfs) ==>
                && used == Resolved(opt, now) && err == None
                && cfs == old(cfs)[opt.cf := Without(old(cfs)[opt.cf], Chosen(old(cfs)[opt.cf], used, ctx))]
      ensures opt.cf in old(cfs) && opt.key != [] ==>
                cfs == old(cfs)[opt.cf := Without(old(cfs)[opt.cf], [opt.key])]
      ensures opt.cf in old(cfs) && opt.key == [] && Uncancelled(ctx) ==>
                var keys, hi := old(cfs)[opt.cf], if opt.endTS == 0 then now else opt.endTS;
                if opt.startTS > 0 || opt.endTS > 0 then
                  WindowFits(keys, opt.tsFieldIndex, opt.keySeparator, opt.startTS, hi) ==>
                    cfs == old(cfs)[opt.cf := Without(keys,
                      First(opt.limit, WindowKeys(keys, opt.tsFieldIndex, opt.keySeparator, opt.startTS, hi)))]
                else cfs == old(cfs)[opt.cf := Without(keys,
                       First(opt.limit, RangeKeys(keys, opt.startKey, opt.endKey)))]
    {
      ghost var stored := cfs;
      used, err := opt, None;
      if opt.cf !in cfs {
        return used, Some(NoSuchFamily);
      }
      if |opt.key| > 0 {
        OneKey(cfs[opt.cf], opt.key);
        OneOrNone(cfs[opt.cf], opt.key);
        DeleteCF(opt.cf, opt.key);
      } else if opt.startTS > 0 || opt.endTS > 0 {
        if opt.endTS == 0 {
          used := opt.(endTS := now);
        }
        assert used == Resolved(opt, now) && ByTimestamp(used);
        DeleteRangeByTS(used, ctx);
      } else {
        DeleteRangeByKey(used, ctx);
      }
      if opt.key == [] && Uncancelled(ctx) {
        ChosenMeans(stored[opt.cf], opt, now, ctx);
      }
    }
  }

  lemma SeekFinds(keys: seq<Bytes>, key: Bytes)
    requires Sorted(keys)
    ensures var i := LowerBound(keys, key); key in keys <==> i < |keys| && keys[i] == key
  {
    if key in keys {
      var j :| 0 <= j < |keys| && keys[j] == key;
      LtIrreflexive(key);
      LowerBoundAbove(keys, key, j);
      var i := LowerBound(keys, key);
      assert !(i < j);
    }
  }

  lemma OneOrNone(keys: seq<Bytes>, key: Bytes)
    requires Sorted(keys)
    ensures Without(keys, [key]) == Without(keys, if key in keys then [key] else [])
  {
    if key !in keys {
      FilterAgree(keys, k => k !in [key], k => k !in []);
    }
  }

  // ---- the bolt wrapper ----

  class BoltDB {
    var buckets: map<string, seq<Bytes>>

    ghost predicate Valid()
      reads this
    {
      forall b :: b in buckets ==> Sorted(buckets[b])
    }

    /** The context is looked at before each callback, and cancelling is no error. */
    method Range(ctx: Context, bucket: string, start: Bytes, end: Bytes) returns (visited: seq<Bytes>)
      requires Valid()
      ensures bucket !in buckets ==> visited == []
      ensures bucket in buckets ==> visited == BoltCut(Run(buckets[bucket], start, end), ctx)
    {
      visited := [];
      if bucket !in buckets {
        return;
      }
      var keys := buckets[bucket];
      var c := LowerBound(keys, start);
      ghost var from := c;
      ghost var runEnd := RunEnd(keys, from, end);
      ghost var all := keys[from..runEnd];
      while c < |keys| && (|end| == 0 || Le(keys[c], end))
        invariant from <= c <= runEnd
        invariant visited == all[..c - from]
        invariant forall m :: 0 <= m < |visited| ==> !ctx(m)
      {
        if ctx(|visited|) {
          break;
        }
        assert c < runEnd;
        OneMoreKey(all, c - from);
        visited := visited + [keys[c]];
        c := c + 1;
      }
      StopCountIs(|all|, 0, ctx, 0, |visited|);
    }
  }

  function BoltCut(all: seq<Bytes>, ctx: Context): seq<Bytes> {
    all[..StopCount(|all|, 0, ctx, 0)]
  }

  /** The two stores visit the same keys unless the context is already cancelled when the
      range starts and there is something to visit. */
  lemma StoresAgreeIff(all: seq<Bytes>, ctx: Context)
    ensures BoltCut(all, ctx) == Cut(all, 0, ctx) <==> all == [] || !ctx(0)
  {
    if all != [] {
      if ctx(0) {
        assert |BoltCut(all, ctx)| == 0 && |Cut(all, 0, ctx)| >= 1;
      } else {
        StopCountIs(|all|, 0, ctx, 0, StopCount(|all|, 0, ctx, 1));
      }
    }
  }

  /** Cancelled from callback j on: a smaller or equal limit ends the scan before, with no error; else it ends
      after j callbacks, with one, unless it has ended by itself. */
  lemma LimitOrCancelled(all: seq<Bytes>, limit: int, ctx: Context, j: nat)
    requires 1 <= j && forall n: nat :: ctx(n) <==> n >= j
    ensures 0 < limit <= j || j > |all| ==>
              Cut(all, limit, ctx) == First(limit, all) && CutError(all, limit, ctx) == None
    ensures !(0 < limit <= j || j > |all|) ==>
              Cut(all, limit, ctx) == all[..j] && CutError(all, limit, ctx) == Some(Cancelled)
  {
    var n := if 0 < limit <= j || j > |all| then |First(limit, all)| else j;
    if n >= 1 {
      StopCountIs(|all|, limit, ctx, 1, n);
    }
  }

  /** Cancelled during callback j (and from then on): both stop after j callbacks. */
  lemma CancelledDuringCallback(all: seq<Bytes>, ctx: Context, j: nat)
    requires 1 <= j <= |all| && forall n: nat :: ctx(n) <==> n >= j
    ensures BoltCut(all, ctx) == Cut(all, 0, ctx) == all[..j]
  {
    StopCountIs(|all|, 0, ctx, 0, j);
    StopCountIs(|all|, 0, ctx, 1, j);
  }
}
