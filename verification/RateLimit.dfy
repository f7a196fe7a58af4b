/** WriteWithRate and ErrorfWithRate (iohelper/iohelper.go): one record per key in a cache, and how
    many emissions a stretch of time can hold. */
module RateLimit {
  import opened Options

  datatype Info = Info(lastDoTS: int, doCount: int, totalCount: int)

  datatype Decision = Decision(info: Info, emit: bool)

  /** One call for a key whose record is info, at time now. */
  function Decide(info: Option<Info>, now: int, interval: int): Decision {
    match info
    case None => Decision(Info(now, 1, 1), true)
    case Some(i) =>
      if now - i.lastDoTS < interval then Decision(i.(totalCount := i.totalCount + 1), false)
      else Decision(Info(now, i.doCount + 1, i.totalCount + 1), true)
  }

  class RateLimitedInfo {
    var LastDoTS: int
    var DoCount: int
    var TotalCount: int

    constructor ()
      ensures LastDoTS == 0 && DoCount == 0 && TotalCount == 1
    {
      LastDoTS, DoCount, TotalCount := 0, 0, 1;
    }

    function Value(): Info
      reads this
    {
      Info(LastDoTS, DoCount, TotalCount)
    }
  }

  /** The cache; adding a key may push others out. */
  class RateLimiter {
    var cache: map<string, RateLimitedInfo>
    var written: seq<string>

    /** Two keys never share a record. */
    ghost predicate Valid()
      reads this
    {
      forall a, b :: a in cache && b in cache && cache[a] == cache[b] ==> a == b
    }

    ghost function InfoOf(key: string): Option<Info>
      reads this, cache.Values
    {
      if key in cache then Some(cache[key].Value()) else None
    }

    constructor ()
      ensures Valid() && cache == map[] && written == []
    {
      cache, written := map[], [];
    }

    method Pass(now: int, interval: int, key: string, pushedOut: set<string>) returns (emit: bool)
      requires Valid() && key !in pushedOut
      modifies this`cache, cache.Values
      ensures Valid()
      ensures var d := Decide(old(InfoOf(key)), now, interval);
              emit == d.emit && InfoOf(key) == Some(d.info)
      ensures emit <==> key !in old(cache) || now - old(InfoOf(key)).value.lastDoTS >= interval
      ensures forall k :: k != key && k !in pushedOut ==> InfoOf(k) == old(InfoOf(k))
      ensures forall k :: k in pushedOut && key !in old(cache) ==> InfoOf(k) == None
    {
      var info;
      if key in cache {
        info := cache[key];
        info.TotalCount := info.TotalCount + 1;
        if now - info.LastDoTS < interval {
          return false;
        }
      } else {
        info := new RateLimitedInfo();
        cache := (cache - pushedOut)[key := info];
      }
      info.LastDoTS := now;
      info.DoCount := info.DoCount + 1;
      return true;
    }

    method WriteWithRate(now: int, interval: int, key: string, text: string, pushedOut: set<string>)
      requires Valid() && key !in pushedOut
      modifies this, cache.Values
      ensures Valid()
      ensures var d := Decide(old(InfoOf(key)), now, interval);
              && InfoOf(key) == Some(d.info)
              && written == if d.emit then old(written) + [text] else old(written)
    {
      var emit := Pass(now, interval, key, pushedOut);
      if emit {
        written := written + [text];
      }
    }

    /** Whether the returned error is wrapped in ErrRateLimited. */
    method ErrorfWithRate(now: int, interval: int, key: string, pushedOut: set<string>) returns (limited: bool)
      requires Valid() && key !in pushedOut
      modifies this`cache, cache.Values
      ensures Valid()
      ensures var d := Decide(old(InfoOf(key)), now, interval);
              InfoOf(key) == Some(d.info) && limited == !d.emit
    {
      var emit := Pass(now, interval, key, pushedOut);
      limited := !emit;
    }
  }

  // ---- a run of calls for one key that stays cached ----

  datatype Call = Call(now: int, interval: int)

  function After(info: Option<Info>, calls: seq<Call>): Option<Info>
    decreases |calls|
  {
    if calls == [] then info
    else After(Some(Decide(info, calls[0].now, calls[0].interval).info), calls[1..])
  }

  /** The times at which something is emitted. */
  function Emissions(info: Option<Info>, calls: seq<Call>): seq<int>
    decreases |calls|
  {
    if calls == [] then []
    else
      var d := Decide(info, calls[0].now, calls[0].interval);
      var rest := Emissions(Some(d.info), calls[1..]);
      if d.emit then [calls[0].now] + rest else rest
  }

  /** How many of these times lie in the stretch from lo to hi. */
  function CountIn(times: seq<int>, lo: int, hi: int): nat {
    if times == [] then 0
    else CountIn(times[1..], lo, hi) + if lo <= times[0] <= hi then 1 else 0
  }

  /** Each emission is at least i after the one before it, the first at least i after last. */
  predicate Spaced(last: Option<int>, times: seq<int>, i: int)
    decreases |times|
  {
    times == [] ||
    ((last.Some? ==> times[0] >= last.value + i) && Spaced(Some(times[0]), times[1..], i))
  }

  function LastOf(info: Option<Info>): Option<int> {
    if info.Some? then Some(info.value.lastDoTS) else None
  }

  lemma {:induction false} EmissionsSpaced(info: Option<Info>, calls: seq<Call>, i: int)
    requires forall k :: 0 <= k < |calls| ==> calls[k].interval >= i
    ensures Spaced(LastOf(info), Emissions(info, calls), i)
    decreases |calls|
  {
    if calls != [] {
      var d := Decide(info, calls[0].now, calls[0].interval);
      var rest := Emissions(Some(d.info), calls[1..]);
      EmissionsSpaced(Some(d.info), calls[1..], i);
      if d.emit {
        assert ([calls[0].now] + rest)[1..] == rest;
      }
    }
  }

  lemma OneMore(c: int, i: int)
    ensures (c + 1) * i == c * i + i
  {
  }

  /** c emissions after time last take up c times i. */
  lemma {:induction false} SpacedCount(last: int, times: seq<int>, i: int, lo: int, hi: int)
    requires i > 0 && Spaced(Some(last), times, i) && lo <= last
    ensures var c := CountIn(times, lo, hi); c > 0 ==> c * i <= hi - last
    decreases |times|
  {
    if times != [] {
      SpacedCount(times[0], times[1..], i, lo, hi);
      OneMore(CountIn(times[1..], lo, hi), i);
    }
  }

  lemma {:induction false} SpacedWindow(last: Option<int>, times: seq<int>, i: int, lo: int, hi: int)
    requires i > 0 && Spaced(last, times, i)
    ensures var c := CountIn(times, lo, hi); c > 0 ==> (c - 1) * i <= hi - lo
    decreases |times|
  {
    if times != [] {
      if lo <= times[0] <= hi {
        SpacedCount(times[0], times[1..], i, lo, hi);
      } else {
        SpacedWindow(Some(times[0]), times[1..], i, lo, hi);
      }
    }
  }

  lemma DivideBound(c: int, i: int, w: nat)
    requires i > 0 && c * i <= w
    ensures c <= w / i
  {
    var q := w / i;
    assert w == i * q + w % i && w % i < i;
    if c > q {
      assert c * i >= (q + 1) * i;
      OneMore(q, i);
      assert false;
    }
  }

  /** The last emission after these calls, one of them or the one the record remembers. */
  function LastEmission(info: Option<Info>, calls: seq<Call>): Option<int> {
    var times := Emissions(info, calls);
    if times == [] then LastOf(info) else Some(times[|times| - 1])
  }

  lemma {:induction false} RecordRemembers(info: Option<Info>, calls: seq<Call>)
    ensures LastOf(After(info, calls)) == LastEmission(info, calls)
    decreases |calls|
  {
    if calls != [] {
      RecordRemembers(Some(Decide(info, calls[0].now, calls[0].interval).info), calls[1..]);
    }
  }

  lemma {:induction false} EmissionsAppend(info: Option<Info>, calls: seq<Call>, c: Call)
    ensures Emissions(info, calls + [c]) ==
            Emissions(info, calls) + Emissions(After(info, calls), [c])
    decreases |calls|
  {
    if calls != [] {
      var d := Decide(info, calls[0].now, calls[0].interval);
      EmissionsAppend(Some(d.info), calls[1..], c);
      assert (calls + [c])[1..] == calls[1..] + [c];
    }
  }

  /** A call passes if and only if its interval has gone by since the last emission, if there was
      one; calls suppressed since then do not matter. */
  lemma PassesIff(info: Option<Info>, calls: seq<Call>, c: Call)
    ensures var last := LastEmission(info, calls);
            Emissions(info, calls + [c]) ==
            if last.None? || c.now - last.value >= c.interval then Emissions(info, calls) + [c.now]
            else Emissions(info, calls)
  {
    EmissionsAppend(info, calls, c);
    RecordRemembers(info, calls);
    assert [c][1..] == [];
  }

  /** For any clock, and calls whose interval is at least i > 0: a stretch of length w holds at
      most w / i + 1 emissions. */
  lemma WindowBound(info: Option<Info>, calls: seq<Call>, i: int, lo: int, w: nat)
    requires i > 0 && forall k :: 0 <= k < |calls| ==> calls[k].interval >= i
    ensures CountIn(Emissions(info, calls), lo, lo + w) <= w / i + 1
  {
    var c := CountIn(Emissions(info, calls), lo, lo + w);
    EmissionsSpaced(info, calls, i);
    SpacedWindow(LastOf(info), Emissions(info, calls), i, lo, lo + w);
    if c > 0 {
      DivideBound(c - 1, i, w);
    }
  }

  /** n + 1 calls, one at the end of every interval. */
  function Steady(start: int, i: int, n: nat): seq<Call>
    decreases n
  {
    [Call(start, i)] + if n == 0 then [] else Steady(start + i, i, n - 1)
  }

  /** The bound is met: such calls are all let through. */
  lemma {:induction false} SteadyAllPass(info: Option<Info>, start: int, i: int, n: nat, lo: int, hi: int)
    requires i > 0 && lo <= start && start + n * i <= hi
    requires info.Some? ==> start >= info.value.lastDoTS + i
    ensures CountIn(Emissions(info, Steady(start, i, n)), lo, hi) == n + 1
    decreases n
  {
    var calls := Steady(start, i, n);
    var next := Some(Decide(info, start, i).info);
    var rest := Emissions(next, calls[1..]);
    assert Emissions(info, calls) == [start] + rest;
    assert ([start] + rest)[1..] == rest;
    if n > 0 {
      OneMore(n - 1, i);
      assert n * i >= 0;
      assert calls[1..] == Steady(start + i, i, n - 1);
      SteadyAllPass(next, start + i, i, n - 1, lo, hi);
    }
  }

  /** The record counts the calls and the emissions. */
  lemma {:induction false} Counted(info: Option<Info>, calls: seq<Call>)
    requires calls != []
    ensures After(info, calls).Some?
    ensures var r := After(info, calls).value;
            && r.totalCount == (if info.Some? then info.value.totalCount else 0) + |calls|
            && r.doCount == (if info.Some? then info.value.doCount else 0) + |Emissions(info, calls)|
    decreases |calls|
  {
    var next := Some(Decide(info, calls[0].now, calls[0].interval).info);
    if |calls| > 1 {
      Counted(next, calls[1..]);
    } else {
      assert calls[1..] == [];
    }
  }
}
