/** Period statistics (stats/stats.go): Reset and the counter's message loop, and what the figures
    of a term say about all the messages it was sent. */
module Stats {
  /** Terms up to this many seconds are checked at each message; longer ones have a timer. */
  const CHECK_THRESHOLD: int := 10

  /** The total and the value total of a period that was closed. */
  datatype Period = Period(total: int, value: int)

  datatype Figures = Figures(
    total: int, min: int, max: int,
    valueTotal: int, valueAvg: int, valueAvgMin: int, valueAvgMax: int,
    duration: int, tsStart: int,
    closed: seq<Period>)

  datatype Event = Message(count: int, value: int, ts: int) | TimerReset

  /** Go's integer division: truncated towards zero. */
  function Quotient(a: int, b: int): (q: int)
    requires b != 0
  {
    var n, d := if a < 0 then -a else a, if b < 0 then -b else b;
    if (a < 0) == (b < 0) then n / d else -(n / d)
  }

  /** Truncation: the magnitudes divide as natural numbers, and the sign is that of the true quotient. */
  lemma QuotientTruncates(a: int, b: int)
    requires b != 0
    ensures var q := Quotient(a, b);
            && Magnitude(q) == Magnitude(a) / Magnitude(b)
            && (q > 0 ==> (a < 0) == (b < 0)) && (q < 0 ==> (a < 0) != (b < 0))
  {
    NaturalQuotient(Magnitude(a), Magnitude(b));
  }

  lemma NaturalQuotient(n: nat, d: nat)
    requires d > 0
    ensures n / d >= 0
  {
  }

  function Magnitude(a: int): nat {
    if a < 0 then -a else a
  }

  function Average(p: Period): int
    requires p.total != 0
  {
    Quotient(p.value, p.total)
  }

  function ResetOf(c: Figures): Figures {
    if c.total == 0 then c
    else
      var avg := Quotient(c.valueTotal, c.total);
      c.(max := if c.total > c.max then c.total else c.max,
         min := if c.min == 0 || c.min > c.total then c.total else c.min,
         valueAvg := avg,
         valueAvgMax := if avg > c.valueAvgMax then avg else c.valueAvgMax,
         valueAvgMin := if c.valueAvgMin == 0 || c.valueAvgMin > avg then avg else c.valueAvgMin,
         total := 0, valueTotal := 0,
         closed := c.closed + [Period(c.total, c.valueTotal)])
  }

  /** A message after the end of a checked period closes the period and is itself not counted. */
  function Handle(c: Figures, ev: Event): Figures {
    match ev
    case TimerReset => ResetOf(c)
    case Message(count, value, ts) =>
      if c.duration <= CHECK_THRESHOLD && ts - c.tsStart > c.duration then ResetOf(c).(tsStart := ts)
      else c.(total := c.total + count, valueTotal := c.valueTotal + value)
  }

  class Statistic {
    var Total: int
    var Min: int
    var Max: int
    var ValueTotal: int
    var ValueAvg: int
    var ValueAvgMin: int
    var ValueAvgMax: int
    const Duration: int
    var TSStart: int
    ghost var closed: seq<Period>

    ghost function State(): Figures
      reads this
    {
      Figures(Total, Min, Max, ValueTotal, ValueAvg, ValueAvgMin, ValueAvgMax, Duration, TSStart, closed)
    }

    constructor (duration: int)
      ensures State() == Fresh(duration, 0)
    {
      Duration := duration;
      Total, Min, Max, ValueTotal, ValueAvg, ValueAvgMin, ValueAvgMax, TSStart := 0, 0, 0, 0, 0, 0, 0, 0;
      closed := [];
    }

    method Reset()
      modifies this
      ensures State() == ResetOf(old(State()))
    {
      if Total == 0 {
        return;
      }
      if Total > Max {
        Max := Total;
      }
      if Min == 0 || Min > Total {
        Min := Total;
      }
      ValueAvg := Quotient(ValueTotal, Total);
      if ValueAvg > ValueAvgMax {
        ValueAvgMax := ValueAvg;
      }
      if ValueAvgMin == 0 || ValueAvgMin > ValueAvg {
        ValueAvgMin := ValueAvg;
      }
      closed := closed + [Period(Total, ValueTotal)];
      Total := 0;
      ValueTotal := 0;
    }

    /** The body of the message loop for the term stored under k. */
    method OnMessage(k: int, count: int, value: int, ts: int)
      requires k == Duration
      modifies this
      ensures State() == Handle(old(State()), Message(count, value, ts))
    {
      if k <= CHECK_THRESHOLD {
        var elapsed := ts - TSStart;
        if elapsed > Duration {
          Reset();
          TSStart := ts;
        } else {
          Total := Total + count;
          ValueTotal := ValueTotal + value;
        }
      } else {
        Total := Total + count;
        ValueTotal := ValueTotal + value;
      }
    }
  }

  lemma EmptyOrNot(s: set<int>)
    ensures s == {} || exists k :: k in s
  {
    if forall k :: k !in s {
      assert s == {};
    }
  }

  /** What the message loop receives: a message for all terms, or the timer of one. */
  datatype Received = Msg(count: int, value: int, ts: int) | Due(term: int)

  /** The part of it that the term stored under k handles. */
  function EventsFor(k: int, received: seq<Received>): seq<Event> {
    if received == [] then []
    else
      var before := EventsFor(k, received[..|received| - 1]);
      match received[|received| - 1]
      case Msg(count, value, ts) => before + [Message(count, value, ts)]
      case Due(j) => if j == k then before + [TimerReset] else before
  }

  function HandleReceived(c: Figures, k: int, r: Received): Figures {
    match r
    case Msg(count, value, ts) => Handle(c, Message(count, value, ts))
    case Due(j) => if j == k then Handle(c, TimerReset) else c
  }

  lemma AfterOneMore(c: Figures, evs: seq<Event>, ev: Event)
    ensures After(c, evs + [ev]) == Handle(After(c, evs), ev)
  {
    assert (evs + [ev])[..|evs|] == evs;
  }

  lemma OneMoreReceived(c: Figures, k: int, received: seq<Received>, i: nat)
    requires i < |received|
    ensures var before := After(c, EventsFor(k, received[..i]));
            After(c, EventsFor(k, received[..i + 1])) == HandleReceived(before, k, received[i])
  {
    assert received[..i + 1][..i] == received[..i];
    match received[i]
    case Msg(count, value, ts) => AfterOneMore(c, EventsFor(k, received[..i]), Message(count, value, ts));
    case Due(_) => AfterOneMore(c, EventsFor(k, received[..i]), TimerReset);
  }

  class Counter {
    /** The terms by duration. */
    var Terms: map<int, Statistic>

    ghost predicate Valid()
      reads this, Terms.Values
    {
      && (forall k :: k in Terms ==> Terms[k].Duration == k)
    }

    constructor ()
      ensures Valid() && Terms == map[]
    {
      Terms := map[];
    }

    /** One message: every term handles it, in any order. */
    method OnMessage(count: int, value: int, ts: int)
      requires Valid()
      modifies Terms.Values
      ensures Valid()
      ensures forall k :: k in Terms ==> Terms[k].State() == Handle(old(Terms[k].State()), Message(count, value, ts))
    {
      var left := Terms.Keys;
      while left != {}
        invariant left <= Terms.Keys
        invariant forall k :: k in left ==> Terms[k].State() == old(Terms[k].State())
        invariant forall k :: k in Terms && k !in left ==>
                    Terms[k].State() == Handle(old(Terms[k].State()), Message(count, value, ts))
        decreases left
      {
        EmptyOrNot(left);
        var k :| k in left;
        var c := Terms[k];
        c.OnMessage(k, count, value, ts);
        assert forall j :: j in Terms && Terms[j] == c ==> j == k;
        left := left - {k};
      }
    }

    /** The timer of one term. */
    method OnReset(k: int)
      requires Valid() && k in Terms
      modifies Terms[k]
      ensures Valid()
      ensures forall j :: j in Terms ==>
                Terms[j].State() == if j == k then Handle(old(Terms[j].State()), TimerReset) else old(Terms[j].State())
    {
      Terms[k].Reset();
      assert forall j :: j in Terms && Terms[j] == Terms[k] ==> j == k;
    }

    method OnReceived(r: Received)
      requires Valid() && (r.Due? ==> r.term in Terms)
      modifies Terms.Values
      ensures Valid()
      ensures forall k :: k in Terms ==> Terms[k].State() == HandleReceived(old(Terms[k].State()), k, r)
    {
      match r
      case Msg(count, value, ts) => OnMessage(count, value, ts);
      case Due(k) => OnReset(k);
    }

    /** The message loop for as long as it has something to receive. */
    method Serve(received: seq<Received>)
      requires Valid() && forall i :: 0 <= i < |received| && received[i].Due? ==> received[i].term in Terms
      modifies Terms.Values
      ensures Valid()
      ensures forall k :: k in Terms ==> Terms[k].State() == After(old(Terms[k].State()), EventsFor(k, received))
    {
      for i := 0 to |received|
        invariant Valid()
        invariant forall k :: k in Terms ==>
                    Terms[k].State() == After(old(Terms[k].State()), EventsFor(k, received[..i]))
      {
        OnReceived(received[i]);
        forall k | k in Terms
          ensures Terms[k].State() == After(old(Terms[k].State()), EventsFor(k, received[..i + 1]))
        {
          OneMoreReceived(old(Terms[k].State()), k, received, i);
        }
      }
      assert received[..|received|] == received;
    }
  }

  // ---- one term over all its events ----

  function Fresh(duration: int, start: int): Figures {
    Figures(0, 0, 0, 0, 0, 0, 0, duration, start, [])
  }

  /** The events so far, last one last. */
  function After(c: Figures, evs: seq<Event>): Figures {
    if evs == [] then c else Handle(After(c, evs[..|evs| - 1]), evs[|evs| - 1])
  }

  /** When the running period of a checked term started. */
  function StartAfter(duration: int, start: int, evs: seq<Event>): int {
    if evs == [] then start
    else
      var before := StartAfter(duration, start, evs[..|evs| - 1]);
      var ev := evs[|evs| - 1];
      if ev.Message? && Boundary(duration, before, ev) then ev.ts else before
  }

  predicate Boundary(duration: int, start: int, ev: Event)
    requires ev.Message?
  {
    duration <= CHECK_THRESHOLD && ev.ts - start > duration
  }

  /** What all messages but those that end a checked period add up to. */
  function Counted(duration: int, start: int, evs: seq<Event>): Period {
    if evs == [] then Period(0, 0)
    else
      var front := evs[..|evs| - 1];
      var before := Counted(duration, start, front);
      var ev := evs[|evs| - 1];
      if ev.Message? && !Boundary(duration, StartAfter(duration, start, front), ev) then
        Period(before.total + ev.count, before.value + ev.value)
      else before
  }

  function All(evs: seq<Event>): Period {
    if evs == [] then Period(0, 0)
    else
      var before := All(evs[..|evs| - 1]);
      var ev := evs[|evs| - 1];
      if ev.Message? then Period(before.total + ev.count, before.value + ev.value) else before
  }

  function Sum(closed: seq<Period>): Period {
    if closed == [] then Period(0, 0)
    else
      var before := Sum(closed[..|closed| - 1]);
      var last := closed[|closed| - 1];
      Period(before.total + last.total, before.value + last.value)
  }

  lemma SumAppend(closed: seq<Period>, p: Period)
    ensures Sum(closed + [p]) == Period(Sum(closed).total + p.total, Sum(closed).value + p.value)
  {
    assert (closed + [p])[..|closed|] == closed;
  }

  ghost predicate Balanced(c: Figures, all: Period) {
    Sum(c.closed).total + c.total == all.total && Sum(c.closed).value + c.valueTotal == all.value
  }

  /** A message adds to the account unless it ends a checked period; closing a period moves its totals. */
  lemma HandleKeepsBalance(c: Figures, ev: Event, all: Period)
    requires Balanced(c, all)
    ensures var d := Handle(c, ev);
            && d.duration == c.duration
            && d.tsStart == (if ev.Message? && Boundary(c.duration, c.tsStart, ev) then ev.ts else c.tsStart)
            && Balanced(d, if ev.Message? && !Boundary(c.duration, c.tsStart, ev)
                           then Period(all.total + ev.count, all.value + ev.value) else all)
  {
    SumAppend(c.closed, Period(c.total, c.valueTotal));
  }

  lemma {:induction false} TotalsBalance(duration: int, start: int, evs: seq<Event>)
    ensures var c := After(Fresh(duration, start), evs);
            && c.duration == duration && c.tsStart == StartAfter(duration, start, evs)
            && Balanced(c, Counted(duration, start, evs))
  {
    if evs != [] {
      var front := evs[..|evs| - 1];
      TotalsBalance(duration, start, front);
      HandleKeepsBalance(After(Fresh(duration, start), front), evs[|evs| - 1], Counted(duration, start, front));
    }
  }

  lemma {:induction false} TimerTermsCountAll(duration: int, start: int, evs: seq<Event>)
    requires duration > CHECK_THRESHOLD
    ensures Balanced(After(Fresh(duration, start), evs), All(evs))
  {
    TotalsBalance(duration, start, evs);
    CountedIsAll(duration, start, evs);
  }

  lemma {:induction false} CountedIsAll(duration: int, start: int, evs: seq<Event>)
    requires duration > CHECK_THRESHOLD
    ensures Counted(duration, start, evs) == All(evs)
  {
    if evs != [] {
      CountedIsAll(duration, start, evs[..|evs| - 1]);
    }
  }

  // ---- minima and maxima ----

  predicate IsMin(m: int, s: seq<int>) {
    m in s && forall i :: 0 <= i < |s| ==> m <= s[i]
  }

  predicate IsMax(m: int, s: seq<int>) {
    m in s && forall i :: 0 <= i < |s| ==> s[i] <= m
  }

  function Totals(closed: seq<Period>): (r: seq<int>)
    ensures |r| == |closed|
  {
    seq(|closed|, i requires 0 <= i < |closed| => closed[i].total)
  }

  ghost predicate NonZero(closed: seq<Period>) {
    forall i :: 0 <= i < |closed| ==> closed[i].total != 0
  }

  function Averages(closed: seq<Period>): (r: seq<int>)
    requires NonZero(closed)
    ensures |r| == |closed|
  {
    seq(|closed|, i requires 0 <= i < |closed| => Average(closed[i]))
  }

  /** The running minimum in which 0 stands for "none yet". */
  function RunningMin(s: seq<int>): int {
    if s == [] then 0
    else
      var before := RunningMin(s[..|s| - 1]);
      var last := s[|s| - 1];
      if before == 0 || before > last then last else before
  }

  function RunningMax(s: seq<int>): int {
    if s == [] then 0
    else
      var before := RunningMax(s[..|s| - 1]);
      if s[|s| - 1] > before then s[|s| - 1] else before
  }

  lemma RunningAppend(s: seq<int>, x: int)
    ensures RunningMin(s + [x]) == if RunningMin(s) == 0 || RunningMin(s) > x then x else RunningMin(s)
    ensures RunningMax(s + [x]) == if x > RunningMax(s) then x else RunningMax(s)
  {
    assert (s + [x])[..|s|] == s;
  }

  ghost predicate FiguresMatch(c: Figures) {
    && NonZero(c.closed)
    && c.min == RunningMin(Totals(c.closed)) && c.max == RunningMax(Totals(c.closed))
    && c.valueAvgMin == RunningMin(Averages(c.closed)) && c.valueAvgMax == RunningMax(Averages(c.closed))
    && (c.closed != [] ==> c.valueAvg == Averages(c.closed)[|c.closed| - 1])
  }

  lemma ResetMatches(c: Figures)
    requires FiguresMatch(c)
    ensures FiguresMatch(ResetOf(c))
  {
    if c.total != 0 {
      var p := Period(c.total, c.valueTotal);
      var closed := c.closed + [p];
      assert Totals(closed) == Totals(c.closed) + [p.total];
      assert Averages(closed) == Averages(c.closed) + [Average(p)];
      RunningAppend(Totals(c.closed), p.total);
      RunningAppend(Averages(c.closed), Average(p));
    }
  }

  lemma {:induction false} FiguresMatchAlways(c: Figures, evs: seq<Event>)
    requires FiguresMatch(c)
    ensures FiguresMatch(After(c, evs))
  {
    if evs != [] {
      FiguresMatchAlways(c, evs[..|evs| - 1]);
      ResetMatches(After(c, evs[..|evs| - 1]));
    }
  }

  lemma {:induction false} RunningMinOfNonZero(s: seq<int>)
    requires s != [] && 0 !in s
    ensures IsMin(RunningMin(s), s)
  {
    var front, last := s[..|s| - 1], s[|s| - 1];
    assert s == front + [last] && last in s;
    if front != [] {
      RunningMinOfNonZero(front);
    }
  }

  lemma {:induction false} RunningMaxIs(s: seq<int>)
    requires s != []
    ensures if exists i :: 0 <= i < |s| && s[i] > 0 then IsMax(RunningMax(s), s) else RunningMax(s) == 0
  {
    var front, last := s[..|s| - 1], s[|s| - 1];
    assert s == front + [last];
    if front != [] {
      RunningMaxIs(front);
    }
  }

  /** Averages that are never negative: the reported minimum is the true one if and only if no
      average is 0 or the last one is. A 0 is taken for "none yet" and forgotten. */
  lemma {:induction false} RunningMinIff(s: seq<int>)
    requires s != [] && forall i :: 0 <= i < |s| ==> s[i] >= 0
    ensures IsMin(RunningMin(s), s) <==> 0 !in s || s[|s| - 1] == 0
    ensures RunningMin(s) >= 0
  {
    var front, last := s[..|s| - 1], s[|s| - 1];
    assert s == front + [last];
    if 0 !in s {
      RunningMinOfNonZero(s);
    }
    if front != [] {
      RunningMinIff(front);
    }
    if last != 0 && 0 in s {
      RunningMinPositive(s);
    }
  }

  lemma {:induction false} RunningMinPositive(s: seq<int>)
    requires s != [] && (forall i :: 0 <= i < |s| ==> s[i] >= 0) && s[|s| - 1] != 0
    ensures RunningMin(s) > 0
  {
    if |s| > 1 && s[|s| - 2] != 0 {
      RunningMinPositive(s[..|s| - 1]);
    } else {
      RunningMinNonNegative(s[..|s| - 1]);
    }
  }

  lemma {:induction false} RunningMinNonNegative(s: seq<int>)
    requires forall i :: 0 <= i < |s| ==> s[i] >= 0
    ensures RunningMin(s) >= 0
  {
    if s != [] {
      RunningMinNonNegative(s[..|s| - 1]);
    }
  }

  /** Min and Max of any term: once a period has closed, Min is the least closed total, and Max
      the greatest if some closed total is positive; ValueAvg is the last closed average.
      ValueAvgMax is like Max; ValueAvgMin is the least exactly when no average was 0 or the last one was. */
  lemma MinMaxAreTrue(duration: int, start: int, evs: seq<Event>)
    ensures var c := After(Fresh(duration, start), evs);
            && NonZero(c.closed)
            && (c.closed == [] ==> c.min == c.max == c.valueAvgMin == c.valueAvgMax == 0)
            && (c.closed != [] ==>
                  && c.valueAvg == Averages(c.closed)[|c.closed| - 1]
                  && IsMin(c.min, Totals(c.closed))
                  && (if exists i :: 0 <= i < |c.closed| && Totals(c.closed)[i] > 0
                      then IsMax(c.max, Totals(c.closed)) else c.max == 0)
                  && (if exists i :: 0 <= i < |c.closed| && Averages(c.closed)[i] > 0
                      then IsMax(c.valueAvgMax, Averages(c.closed)) else c.valueAvgMax == 0)
                  && ((forall i :: 0 <= i < |c.closed| ==> Averages(c.closed)[i] >= 0) ==>
                        (IsMin(c.valueAvgMin, Averages(c.closed)) <==>
                         0 !in Averages(c.closed) || Averages(c.closed)[|c.closed| - 1] == 0)))
  {
    var c := After(Fresh(duration, start), evs);
    FiguresMatchAlways(Fresh(duration, start), evs);
    if c.closed != [] {
      RunningMinOfNonZero(Totals(c.closed));
      RunningMaxIs(Totals(c.closed));
      RunningMaxIs(Averages(c.closed));
      if forall i :: 0 <= i < |c.closed| ==> Averages(c.closed)[i] >= 0 {
        RunningMinIff(Averages(c.closed));
      }
    }
  }

  // ---- the averages bound the values ----

  lemma AverageBounds(p: Period)
    requires p.total > 0 && p.value >= 0
    ensures Average(p) * p.total <= p.value < (Average(p) + 1) * p.total
  {
    var q := p.value / p.total;
    assert p.value == p.total * q + p.value % p.total;
    assert (q + 1) * p.total == q * p.total + p.total;
  }

  lemma Scale(a: int, b: int, t: int)
    requires a <= b && t > 0
    ensures a * t <= b * t
  {
  }

  lemma AddBounds(lo: int, hi: int, t: int, v: int, p: Period)
    requires p.total > 0 && p.value >= 0 && lo <= Average(p) <= hi
    requires lo * t <= v && v <= (hi + 1) * t
    ensures lo * (t + p.total) <= v + p.value < (hi + 1) * (t + p.total)
  {
    AverageBounds(p);
    Scale(lo, Average(p), p.total);
    Scale(Average(p) + 1, hi + 1, p.total);
    assert lo * (t + p.total) == lo * t + lo * p.total;
    assert (hi + 1) * (t + p.total) == (hi + 1) * t + (hi + 1) * p.total;
  }

  lemma {:induction false} SumBounds(closed: seq<Period>, lo: int, hi: int)
    requires forall i :: 0 <= i < |closed| ==>
               && closed[i].total > 0 && closed[i].value >= 0
               && lo <= Average(closed[i]) <= hi
    ensures lo * Sum(closed).total <= Sum(closed).value <= (hi + 1) * Sum(closed).total
    ensures closed != [] ==> Sum(closed).value < (hi + 1) * Sum(closed).total
  {
    if closed != [] {
      var front, p := closed[..|closed| - 1], closed[|closed| - 1];
      SumBounds(front, lo, hi);
      AddBounds(lo, hi, Sum(front).total, Sum(front).value, p);
    }
  }

  ghost predicate NonNegative(evs: seq<Event>) {
    forall i :: 0 <= i < |evs| && evs[i].Message? ==> evs[i].count >= 0 && evs[i].value >= 0
  }

  lemma {:induction false} ClosedNonNegative(duration: int, start: int, evs: seq<Event>)
    requires NonNegative(evs)
    ensures var c := After(Fresh(duration, start), evs);
            && c.total >= 0 && c.valueTotal >= 0
            && forall i :: 0 <= i < |c.closed| ==> c.closed[i].total > 0 && c.closed[i].value >= 0
  {
    if evs != [] {
      ClosedNonNegative(duration, start, evs[..|evs| - 1]);
    }
  }

  lemma AveragesWithin(closed: seq<Period>)
    requires NonZero(closed) && closed != [] && forall i :: 0 <= i < |closed| ==> Average(closed[i]) >= 1
    ensures forall i :: 0 <= i < |closed| ==>
              RunningMin(Averages(closed)) <= Average(closed[i]) <= RunningMax(Averages(closed))
  {
    var avgs := Averages(closed);
    RunningMinOfNonZero(avgs);
    assert avgs[0] > 0;
    RunningMaxIs(avgs);
    forall i | 0 <= i < |closed|
      ensures RunningMin(avgs) <= Average(closed[i]) <= RunningMax(avgs)
    {
      assert avgs[i] == Average(closed[i]);
    }
  }

  /** If no message is negative and every closed average is at least 1, the two average figures
      bound the sum of the values by the sum of the counts. */
  lemma AveragesBoundValues(duration: int, start: int, evs: seq<Event>)
    requires NonNegative(evs)
    ensures var c := After(Fresh(duration, start), evs);
            var sum := Sum(c.closed);
            NonZero(c.closed) && c.closed != [] && (forall i :: 0 <= i < |c.closed| ==> Average(c.closed[i]) >= 1) ==>
              c.valueAvgMin * sum.total <= sum.value < (c.valueAvgMax + 1) * sum.total
  {
    var c := After(Fresh(duration, start), evs);
    FiguresMatchAlways(Fresh(duration, start), evs);
    if c.closed != [] && forall i :: 0 <= i < |c.closed| ==> Average(c.closed[i]) >= 1 {
      ClosedNonNegative(duration, start, evs);
      AveragesWithin(c.closed);
      SumBounds(c.closed, c.valueAvgMin, c.valueAvgMax);
    }
  }
}
