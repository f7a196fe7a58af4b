/** The batch queue (queue/queue.go): the operations as methods on the queue's fields, and all
    interleavings of callers, flush threads and one StopFlushThread that holds the lock over
    its two channel operations. */
module Queue {
  import opened Options

  /** An interface{} value: nil, or something with a dynamic type. */
  datatype Value = Null | Of(kind: string, data: int)

  /** What one flush took out of the queue, and the flush function it was handed to. */
  datatype Batch = Batch(values: seq<Value>, to: Option<nat>)

  /** The queue's fields, with the flushes and the accepted values so far. */
  datatype Core = Core(
    elems: seq<Value>, flushCap: int, f: Option<nat>, ticker: bool,
    log: seq<Batch>, accepted: seq<Value>)

  const EMPTY: Core := Core([], 0, None, false, [], [])

  predicate Accepts(elemType: Option<string>, v: Value) {
    elemType.None? || (v.Of? && v.kind == elemType.value)
  }

  function Flushed(q: Core): Core {
    if q.elems == [] then q else q.(elems := [], log := q.log + [Batch(q.elems, q.f)])
  }

  predicate FullWith(q: Core, v: Value) {
    q.flushCap > 0 && |q.elems| + 1 >= q.flushCap
  }

  function Added(q: Core, v: Value): Core {
    var r := q.(elems := q.elems + [v], accepted := q.accepted + [v]);
    if FullWith(q, v) then Flushed(r) else r
  }

  /** The locked part of StartFlushThread. */
  function Started(q: Core, f: nat, cap: int, t: int): Core {
    q.(f := Some(f), flushCap := if cap > 0 then cap else q.flushCap, ticker := q.ticker || t > 0)
  }

  // ---- all interleavings ----

  /** A flush thread: started and not yet at its select; at its select; past it by a tick, on its way
      to the lock; or past it by the abort channel, on its way to threadDone. */
  datatype ThreadPC = Spawned | AtSelect | TookTick | Ending

  /** What a StopFlushThread that holds the lock is waiting for. */
  datatype Stopper = Nobody | Aborting | Awaiting

  /** crashed: a thread has come to its select when there was no ticker, which ends the program. */
  datatype Sys = Sys(elemType: Option<string>, q: Core, stop: Stopper, threads: map<nat, ThreadPC>, crashed: bool)

  datatype Step =
    | Add(v: Value)
    | Flush
    | Arrives(k: nat)
    | TickFires(k: nat)
    | TickFlushes(k: nat)
    | StopBegins
    | AbortTaken(k: nat)
    | DoneTaken(k: nat)
    | Start(k: nat, f: nat, cap: int, t: int)

  predicate ThreadAt(s: Sys, k: nat, pc: ThreadPC) {
    k in s.threads && s.threads[k] == pc
  }

  predicate Enabled(s: Sys, step: Step) {
    && !s.crashed
    && match step
       case Arrives(k) => ThreadAt(s, k, Spawned)
       case TickFires(k) => ThreadAt(s, k, AtSelect) && s.q.ticker
       case TickFlushes(k) => ThreadAt(s, k, TookTick) && s.stop == Nobody
       case AbortTaken(k) => s.stop == Aborting && ThreadAt(s, k, AtSelect)
       case DoneTaken(k) => s.stop == Awaiting && ThreadAt(s, k, Ending)
       case Start(k, _, _, _) => s.stop == Nobody && k !in s.threads
       case Add(v) => s.stop == Nobody || !Accepts(s.elemType, v)
       case _ => s.stop == Nobody
  }

  function Next(s: Sys, step: Step): Sys
    requires Enabled(s, step)
  {
    match step
    case Add(v) => if Accepts(s.elemType, v) then s.(q := Added(s.q, v)) else s
    case Flush => s.(q := Flushed(s.q))
    case Arrives(k) => if s.q.ticker then s.(threads := s.threads[k := AtSelect]) else s.(crashed := true)
    case TickFires(k) => if s.q.f.Some? then s.(threads := s.threads[k := TookTick]) else s
    case TickFlushes(k) => s.(q := Flushed(s.q), threads := s.threads[k := AtSelect])
    case StopBegins => if s.q.f.Some? then s.(q := Flushed(s.q), stop := Aborting) else s
    case AbortTaken(k) => s.(threads := s.threads[k := Ending], stop := Awaiting)
    case DoneTaken(k) => s.(threads := s.threads - {k}, stop := Nobody, q := s.q.(f := None))
    case Start(k, f, cap, t) => s.(q := Started(s.q, f, cap, t), threads := s.threads[k := Spawned])
  }

  function Initial(elemType: Option<string>): Sys {
    Sys(elemType, EMPTY, Nobody, map[], false)
  }

  predicate CanRun(s: Sys, steps: seq<Step>)
    decreases |steps|
  {
    steps == [] || (Enabled(s, steps[0]) && CanRun(Next(s, steps[0]), steps[1..]))
  }

  function Run(s: Sys, steps: seq<Step>): Sys
    requires CanRun(s, steps)
    decreases |steps|
  {
    if steps == [] then s else Run(Next(s, steps[0]), steps[1..])
  }

  // ---- the methods, each a step ----

  class Queue {
    const elemType: Option<string>
    var elems: seq<Value>
    var flushCap: int
    var f: Option<nat>
    var flushTicker: bool

    ghost var log: seq<Batch>
    ghost var accepted: seq<Value>
    ghost var stop: Stopper
    ghost var threads: map<nat, ThreadPC>
    ghost var crashed: bool

    ghost function State(): Sys
      reads this
    {
      Sys(elemType, Core(elems, flushCap, f, flushTicker, log, accepted), stop, threads, crashed)
    }

    constructor (elemType: Option<string>)
      ensures this.elemType == elemType && State() == Initial(elemType)
    {
      this.elemType := elemType;
      elems, flushCap, f, flushTicker := [], 0, None, false;
      log, accepted, stop, threads, crashed := [], [], Nobody, map[], false;
    }

    method FlushQueue()
      modifies this
      ensures State() == old(State()).(q := Flushed(old(State()).q)) && elems == []
      ensures log == if old(elems) == [] then old(log) else old(log) + [Batch(old(elems), old(f))]
    {
      if |elems| == 0 {
        return;
      }
      log := log + [Batch(elems, f)];
      elems := [];
    }

    method Add(val: Value) returns (ok: bool)
      requires Enabled(State(), Step.Add(val))
      modifies this
      ensures State() == Next(old(State()), Step.Add(val))
      ensures ok <==> elemType.None? || (val.Of? && val.kind == elemType.value)
      ensures ok && flushCap > 0 ==> |elems| < flushCap
      ensures !ok ==> elems == old(elems) && log == old(log)
      ensures ok && (flushCap <= 0 || |old(elems)| + 1 < flushCap) ==> elems == old(elems) + [val] && log == old(log)
      ensures ok && 0 < flushCap <= |old(elems)| + 1 ==>
                elems == [] && log == old(log) + [Batch(old(elems) + [val], old(f))]
    {
      if val == Null && elemType.Some? {
        return false;
      }
      if elemType.Some? && val.kind != elemType.value {
        return false;
      }
      elems := elems + [val];
      accepted := accepted + [val];
      if flushCap > 0 && |elems| >= flushCap {
        FlushQueue();
      }
      return true;
    }

    method Flush()
      requires Enabled(State(), Step.Flush)
      modifies this
      ensures State() == Next(old(State()), Step.Flush)
    {
      FlushQueue();
    }

    /** The flush thread comes to its select, which reads flushTicker.C. */
    method ThreadArrives(k: nat) returns (ticks: bool)
      requires Enabled(State(), Arrives(k))
      modifies this
      ensures State() == Next(old(State()), Arrives(k)) && (ticks <==> !crashed)
    {
      ticks := flushTicker;
      if ticks {
        threads := threads[k := AtSelect];
      } else {
        crashed := true;
      }
    }

    /** A tick up to the lock: f is looked at without it. */
    method TickTaken(k: nat) returns (goesOn: bool)
      requires Enabled(State(), TickFires(k))
      modifies this
      ensures State() == Next(old(State()), TickFires(k)) && (goesOn <==> ThreadAt(State(), k, TookTick))
    {
      goesOn := f.Some?;
      if goesOn {
        threads := threads[k := TookTick];
      }
    }

    method TickLocked(k: nat)
      requires Enabled(State(), TickFlushes(k))
      modifies this
      ensures State() == Next(old(State()), TickFlushes(k))
    {
      FlushQueue();
      threads := threads[k := AtSelect];
    }

    /** A tick that nothing comes in between. */
    method Tick(k: nat)
      requires Enabled(State(), TickFires(k)) && stop == Nobody
      modifies this
      ensures State() == if old(f).Some? then Next(Next(old(State()), TickFires(k)), TickFlushes(k))
                         else Next(old(State()), TickFires(k))
    {
      var goesOn := TickTaken(k);
      if goesOn {
        TickLocked(k);
      }
    }

    /** StopFlushThread up to the send on abortChan; waits says that there is a thread to wait for. */
    method StopLocked() returns (waits: bool)
      requires Enabled(State(), StopBegins)
      modifies this
      ensures State() == Next(old(State()), StopBegins) && (waits <==> old(f).Some?)
    {
      waits := f.Some?;
      if waits {
        FlushQueue();
        stop := Aborting;
      }
    }

    method SendAbort(k: nat)
      requires Enabled(State(), AbortTaken(k))
      modifies this
      ensures State() == Next(old(State()), AbortTaken(k))
    {
      threads := threads[k := Ending];
      stop := Awaiting;
    }

    method ThreadEnded(k: nat)
      requires Enabled(State(), DoneTaken(k))
      modifies this
      ensures State() == Next(old(State()), DoneTaken(k))
    {
      f := None;
      threads, stop := threads - {k}, Nobody;
    }

    /** StopFlushThread as a whole, when thread k is at its select. */
    method StopFlushThread(k: nat)
      requires Enabled(State(), StopBegins) && (f.Some? ==> ThreadAt(State(), k, AtSelect))
      modifies this
      ensures State() == if old(f).None? then old(State())
                         else Next(Next(Next(old(State()), StopBegins), AbortTaken(k)), DoneTaken(k))
      ensures f == None && (old(f).Some? ==> elems == [])
      ensures log == if old(f).None? || old(elems) == [] then old(log) else old(log) + [Batch(old(elems), old(f))]
    {
      var waits := StopLocked();
      if waits {
        SendAbort(k);
        ThreadEnded(k);
      }
      f := None;
    }

    method StartLocked(k: nat, fn: nat, cap: int, t: int)
      requires Enabled(State(), Start(k, fn, cap, t))
      modifies this
      ensures State() == Next(old(State()), Start(k, fn, cap, t))
      ensures f == Some(fn) && flushCap == (if cap > 0 then cap else old(flushCap))
      ensures (flushTicker <==> old(flushTicker) || t > 0) && elems == old(elems) && log == old(log)
    {
      f := Some(fn);
      if cap > 0 {
        flushCap := cap;
      }
      if t > 0 {
        flushTicker := true;
      }
      threads := threads[k := Spawned];
    }

    /** StartFlushThread as a whole; the thread there may already be is ended. */
    method StartFlushThread(running: nat, k: nat, fn: nat, cap: int, t: int)
      requires Enabled(State(), StopBegins) && (f.Some? ==> ThreadAt(State(), running, AtSelect)) && k !in threads
      modifies this
      ensures State() == if old(f).None? then Next(old(State()), Start(k, fn, cap, t))
                         else Next(Next(Next(Next(old(State()), StopBegins), AbortTaken(running)), DoneTaken(running)),
                                   Start(k, fn, cap, t))
    {
      StopFlushThread(running);
      StartLocked(k, fn, cap, t);
    }

    /** The contents, whatever the element type. */
    method Elements() returns (v: seq<Value>)
      ensures v == elems
    {
      if elemType.None? {
        return elems;
      }
      v := [];
      for i := 0 to |elems|
        invariant v == elems[..i]
      {
        v := v + [elems[i]];
      }
    }
  }

  // ---- conservation ----

  function Values(log: seq<Batch>): seq<Value> {
    if log == [] then [] else Values(log[..|log| - 1]) + log[|log| - 1].values
  }

  /** What the flush functions were given, in order. */
  function Delivered(log: seq<Batch>): seq<Value> {
    if log == [] then []
    else
      var last := log[|log| - 1];
      Delivered(log[..|log| - 1]) + (if last.to.Some? then last.values else [])
  }

  lemma LogAppend(log: seq<Batch>, b: Batch)
    ensures Values(log + [b]) == Values(log) + b.values
    ensures Delivered(log + [b]) == Delivered(log) + (if b.to.Some? then b.values else [])
  {
    assert (log + [b])[..|log|] == log;
  }

  ghost predicate Inv(s: Sys) {
    && Values(s.q.log) + s.q.elems == s.q.accepted
    && (s.stop != Nobody ==> s.q.elems == [] && s.q.f.Some?)
    && (s.stop == Awaiting ==> exists k :: ThreadAt(s, k, Ending))
  }

  lemma FlushedKeeps(q: Core)
    requires Values(q.log) + q.elems == q.accepted
    ensures Values(Flushed(q).log) + Flushed(q).elems == Flushed(q).accepted == q.accepted
  {
    LogAppend(q.log, Batch(q.elems, q.f));
  }

  lemma AddedKeeps(q: Core, v: Value)
    requires Values(q.log) + q.elems == q.accepted
    ensures Values(Added(q, v).log) + Added(q, v).elems == Added(q, v).accepted == q.accepted + [v]
  {
    var r := q.(elems := q.elems + [v], accepted := q.accepted + [v]);
    assert Values(r.log) + (q.elems + [v]) == (Values(q.log) + q.elems) + [v];
    FlushedKeeps(r);
  }

  lemma StillEnding(s: Sys, step: Step)
    requires Inv(s) && Enabled(s, step) && (step.TickFires? || step.Arrives?)
    ensures s.stop == Awaiting ==> exists k :: ThreadAt(Next(s, step), k, Ending)
  {
    if s.stop == Awaiting {
      var k :| ThreadAt(s, k, Ending);
      assert ThreadAt(Next(s, step), k, Ending);
    }
  }

  lemma InvKept(s: Sys, step: Step)
    requires Inv(s) && Enabled(s, step)
    ensures Inv(Next(s, step))
  {
    FlushedKeeps(s.q);
    match step
    case Add(v) => AddedKeeps(s.q, v);
    case AbortTaken(k) => assert ThreadAt(Next(s, step), k, Ending);
    case TickFires(_) => StillEnding(s, step);
    case Arrives(_) => StillEnding(s, step);
    case _ =>
  }

  lemma {:induction false} InvOverRuns(s: Sys, steps: seq<Step>)
    requires Inv(s) && CanRun(s, steps)
    ensures Inv(Run(s, steps))
    decreases |steps|
  {
    if steps != [] {
      InvKept(s, steps[0]);
      InvOverRuns(Next(s, steps[0]), steps[1..]);
    }
  }

  /** In every run from the start, the values of all flushes in order followed by the contents
      are the accepted values in order; and when a StopFlushThread waits, nothing is left. */
  lemma AllValuesAccountedFor(elemType: Option<string>, steps: seq<Step>)
    requires CanRun(Initial(elemType), steps)
    ensures var s := Run(Initial(elemType), steps);
            && Values(s.q.log) + s.q.elems == s.q.accepted
            && (s.stop != Nobody ==> Values(s.q.log) == s.q.accepted)
  {
    InvOverRuns(Initial(elemType), steps);
  }

  // ---- which function a batch goes to, and when ----

  /** The function of the last StartFlushThread that no StopFlushThread has ended. */
  function LastStarted(f: Option<nat>, steps: seq<Step>): Option<nat>
    decreases |steps|
  {
    if steps == [] then f
    else LastStarted(if steps[0].Start? then Some(steps[0].f) else if steps[0].DoneTaken? then None else f, steps[1..])
  }

  /** The last positive capability of a StartFlushThread. */
  function LastCap(cap: int, steps: seq<Step>): int
    decreases |steps|
  {
    if steps == [] then cap
    else LastCap(if steps[0].Start? && steps[0].cap > 0 then steps[0].cap else cap, steps[1..])
  }

  /** At every point of every run the flush function is the one last started and not yet stopped, and the
      capability the last positive one. */
  lemma {:induction false} SettingsAreLast(s: Sys, steps: seq<Step>)
    requires CanRun(s, steps)
    ensures Run(s, steps).q.f == LastStarted(s.q.f, steps) && Run(s, steps).q.flushCap == LastCap(s.q.flushCap, steps)
    decreases |steps|
  {
    if steps != [] {
      SettingsAreLast(Next(s, steps[0]), steps[1..]);
    }
  }

  /** The whole contents, with the value just accepted, become a batch for the function that is set if and
      only if there are any and the step is a Flush, a tick, a StopFlushThread with a function set, or an Add
      that reaches the capability; otherwise they stay. */
  lemma StepBatch(s: Sys, step: Step)
    requires Enabled(s, step)
    ensures var t := Next(s, step);
            var held := s.q.elems + (if step.Add? && Accepts(s.elemType, step.v) then [step.v] else []);
            if held != [] && (step.Flush? || step.TickFlushes? || (step.StopBegins? && s.q.f.Some?)
                              || (step.Add? && Accepts(s.elemType, step.v) && 0 < s.q.flushCap <= |held|))
            then t.q.elems == [] && t.q.log == s.q.log + [Batch(held, s.q.f)]
            else t.q.elems == held && t.q.log == s.q.log
  {
    assert s.q.elems + [] == s.q.elems;
  }

  // ---- when values are lost ----

  /** A step that empties a queue which has no flush function: Flush, an Add that reaches the
      capability left over from before StopFlushThread, or a tick that f was set for. */
  predicate Discards(s: Sys, step: Step) {
    && Enabled(s, step) && s.q.f.None?
    && match step
       case Add(v) => Accepts(s.elemType, v) && FullWith(s.q, v)
       case Flush => s.q.elems != []
       case TickFlushes(_) => s.q.elems != []
       case _ => false
  }

  predicate NeverDiscards(s: Sys, steps: seq<Step>)
    requires CanRun(s, steps)
    decreases |steps|
  {
    steps == [] || (!Discards(s, steps[0]) && NeverDiscards(Next(s, steps[0]), steps[1..]))
  }

  /** Values accepted and neither delivered nor in the queue. */
  function Missing(q: Core): int {
    |q.accepted| - |Delivered(q.log)| - |q.elems|
  }

  lemma FlushedMissing(q: Core)
    ensures Missing(Flushed(q)) == Missing(q) + if q.f.None? then |q.elems| else 0
  {
    LogAppend(q.log, Batch(q.elems, q.f));
  }

  lemma AddedMissing(q: Core, v: Value)
    ensures Missing(Added(q, v)) == Missing(q) + if FullWith(q, v) && q.f.None? then |q.elems| + 1 else 0
  {
    FlushedMissing(q.(elems := q.elems + [v], accepted := q.accepted + [v]));
  }

  lemma StepMissing(s: Sys, step: Step)
    requires Enabled(s, step)
    ensures Missing(Next(s, step).q) >= Missing(s.q)
    ensures Missing(Next(s, step).q) == Missing(s.q) <==> !Discards(s, step)
  {
    FlushedMissing(s.q);
    if step.Add? {
      AddedMissing(s.q, step.v);
    }
  }

  lemma {:induction false} MissingOverRuns(s: Sys, steps: seq<Step>)
    requires CanRun(s, steps)
    ensures Missing(Run(s, steps).q) >= Missing(s.q)
    ensures Missing(Run(s, steps).q) == Missing(s.q) <==> NeverDiscards(s, steps)
    decreases |steps|
  {
    if steps != [] {
      StepMissing(s, steps[0]);
      MissingOverRuns(Next(s, steps[0]), steps[1..]);
    }
  }

  /** What the flush functions were given and the contents, in order. */
  function Through(q: Core): seq<Value> {
    Delivered(q.log) + q.elems
  }

  lemma FlushedThrough(q: Core)
    requires q.f.Some? || q.elems == []
    ensures Through(Flushed(q)) == Through(q)
  {
    LogAppend(q.log, Batch(q.elems, q.f));
  }

  lemma AddedThrough(q: Core, v: Value)
    requires q.f.Some? || !FullWith(q, v)
    ensures Through(Added(q, v)) == Through(q) + [v]
  {
    var r := q.(elems := q.elems + [v], accepted := q.accepted + [v]);
    assert Through(r) == Through(q) + [v];
    if FullWith(q, v) {
      FlushedThrough(r);
    }
  }

  lemma StepThrough(s: Sys, step: Step)
    requires Enabled(s, step)
    ensures s.q.accepted <= Next(s, step).q.accepted
    ensures !Discards(s, step) ==>
              Through(Next(s, step).q) == Through(s.q) + Next(s, step).q.accepted[|s.q.accepted|..]
  {
    if !Discards(s, step) {
      match step
      case Add(v) => if Accepts(s.elemType, v) { AddedThrough(s.q, v); }
      case Flush => FlushedThrough(s.q);
      case TickFlushes(_) => FlushedThrough(s.q);
      case StopBegins => if s.q.f.Some? { FlushedThrough(s.q); }
      case _ =>
    }
  }

  lemma JoinStretches(a: seq<Value>, b: seq<Value>, c: seq<Value>, x: seq<Value>)
    requires a <= b <= c
    ensures a <= c && (x + b[|a|..]) + c[|b|..] == x + c[|a|..]
  {
    assert b[|a|..] + c[|b|..] == c[|a|..];
  }

  lemma {:induction false} ThroughOverRuns(s: Sys, steps: seq<Step>)
    requires CanRun(s, steps)
    ensures s.q.accepted <= Run(s, steps).q.accepted
    ensures NeverDiscards(s, steps) ==>
              Through(Run(s, steps).q) == Through(s.q) + Run(s, steps).q.accepted[|s.q.accepted|..]
    decreases |steps|
  {
    if steps != [] {
      var t, u := Next(s, steps[0]), Run(s, steps);
      StepThrough(s, steps[0]);
      ThroughOverRuns(t, steps[1..]);
      JoinStretches(s.q.accepted, t.q.accepted, u.q.accepted, Through(s.q));
    }
  }

  /** On every stretch of every run, whatever came before it: the deliveries and the contents grow by
      exactly the values accepted meanwhile, in order, if and only if no step flushes a non-empty queue
      without a flush function. */
  lemma NothingLostIff(s: Sys, steps: seq<Step>)
    requires CanRun(s, steps)
    ensures var q, t := s.q, Run(s, steps).q;
            && q.accepted <= t.accepted
            && (Delivered(t.log) + t.elems == (Delivered(q.log) + q.elems) + t.accepted[|q.accepted|..] <==>
                NeverDiscards(s, steps))
  {
    ThroughOverRuns(s, steps);
    MissingOverRuns(s, steps);
    if !NeverDiscards(s, steps) {
      assert |Through(Run(s, steps).q)| < |Through(s.q) + Run(s, steps).q.accepted[|s.q.accepted|..]|;
    }
  }

  ghost predicate FunctionSet(s: Sys, steps: seq<Step>)
    requires CanRun(s, steps)
    decreases |steps|
  {
    s.q.f.Some? && (steps == [] || FunctionSet(Next(s, steps[0]), steps[1..]))
  }

  /** So while a flush function is set nothing is lost, whatever was lost before. */
  lemma SetMeansNothingLost(s: Sys, steps: seq<Step>)
    requires CanRun(s, steps) && FunctionSet(s, steps)
    ensures var q, t := s.q, Run(s, steps).q;
            && q.accepted <= t.accepted
            && Delivered(t.log) + t.elems == (Delivered(q.log) + q.elems) + t.accepted[|q.accepted|..]
  {
    SetMeansNoDiscard(s, steps);
    NothingLostIff(s, steps);
  }

  lemma {:induction false} SetMeansNoDiscard(s: Sys, steps: seq<Step>)
    requires CanRun(s, steps) && FunctionSet(s, steps)
    ensures NeverDiscards(s, steps)
    decreases |steps|
  {
    if steps != [] {
      SetMeansNoDiscard(Next(s, steps[0]), steps[1..]);
    }
  }

  // ---- StartFlushThread calls that do not overlap ----

  /** No other StartFlushThread came between this one's StopFlushThread and its lock. */
  predicate SerialStarts(s: Sys, steps: seq<Step>)
    requires CanRun(s, steps)
    decreases |steps|
  {
    steps == [] || ((steps[0].Start? ==> s.q.f.None?) && SerialStarts(Next(s, steps[0]), steps[1..]))
  }

  /** There is a flush thread exactly while a flush function is set, and only one. */
  ghost predicate OneThread(s: Sys) {
    && (s.q.f.Some? <==> s.threads != map[])
    && (forall j, k :: j in s.threads && k in s.threads ==> j == k)
  }

  lemma OneThreadKept(s: Sys, step: Step)
    requires Inv(s) && OneThread(s) && Enabled(s, step) && (step.Start? ==> s.q.f.None?)
    ensures OneThread(Next(s, step))
  {
    var t := Next(s, step);
    match step
    case Arrives(k) => assert k in t.threads;
    case TickFires(k) => assert k in t.threads;
    case TickFlushes(k) => assert k in t.threads;
    case AbortTaken(k) => assert k in t.threads;
    case Start(k, _, _, _) => assert k in t.threads;
    case DoneTaken(k) => assert forall j :: j !in t.threads;
    case _ => assert t.threads == s.threads;
  }

  lemma {:induction false} OneThreadOverRuns(s: Sys, steps: seq<Step>)
    requires Inv(s) && OneThread(s) && CanRun(s, steps) && SerialStarts(s, steps)
    ensures Inv(Run(s, steps)) && OneThread(Run(s, steps))
    decreases |steps|
  {
    if steps != [] {
      InvKept(s, steps[0]);
      OneThreadKept(s, steps[0]);
      OneThreadOverRuns(Next(s, steps[0]), steps[1..]);
    }
  }

  /** Then no tick ever discards: only a caller's Add or Flush after StopFlushThread can. */
  lemma TicksDeliver(elemType: Option<string>, steps: seq<Step>, k: nat)
    requires CanRun(Initial(elemType), steps) && SerialStarts(Initial(elemType), steps)
    ensures OneThread(Run(Initial(elemType), steps))
    ensures !Discards(Run(Initial(elemType), steps), TickFlushes(k))
  {
    OneThreadOverRuns(Initial(elemType), steps);
  }

  lemma RunCons(s: Sys, step: Step, steps: seq<Step>)
    requires Enabled(s, step) && CanRun(Next(s, step), steps)
    ensures CanRun(s, [step] + steps) && Run(s, [step] + steps) == Run(Next(s, step), steps)
  {
    assert ([step] + steps)[1..] == steps;
  }

  /** A tick taken by one of two threads outlives a StopFlushThread that ends the other; it then
      throws away what is in the queue. */
  lemma TickAfterStopDiscards(s: Sys, j: nat, k: nat, v: Value) returns (steps: seq<Step>)
    requires !s.crashed && s.stop == Nobody && s.q.f.Some? && j != k && s.q.flushCap <= 0 && Accepts(s.elemType, v)
    requires ThreadAt(s, j, AtSelect) && ThreadAt(s, k, TookTick)
    ensures CanRun(s, steps) && Discards(Run(s, steps), TickFlushes(k))
  {
    var s1 := Next(s, StopBegins);
    var s2 := Next(s1, AbortTaken(j));
    var s3 := Next(s2, DoneTaken(j));
    RunCons(s3, Add(v), []);
    RunCons(s2, DoneTaken(j), [Add(v)] + []);
    RunCons(s1, AbortTaken(j), [DoneTaken(j)] + ([Add(v)] + []));
    RunCons(s, StopBegins, [AbortTaken(j)] + ([DoneTaken(j)] + ([Add(v)] + [])));
    steps := [StopBegins] + ([AbortTaken(j)] + ([DoneTaken(j)] + ([Add(v)] + [])));
  }

  /** Two overlapping StartFlushThread calls are enough to get there. */
  lemma OverlappingStartsLoseATick(v: Value, f: nat, g: nat) returns (steps: seq<Step>)
    ensures CanRun(Initial(None), steps) && Discards(Run(Initial(None), steps), TickFlushes(1))
  {
    var s := Initial(None);
    var s1 := Next(s, Start(0, f, 0, 1));
    var s2 := Next(s1, Start(1, g, 0, 1));
    var s3 := Next(s2, Arrives(0));
    var s4 := Next(s3, Arrives(1));
    var s5 := Next(s4, TickFires(1));
    var more := TickAfterStopDiscards(s5, 0, 1, v);
    RunCons(s4, TickFires(1), more);
    RunCons(s3, Arrives(1), [TickFires(1)] + more);
    RunCons(s2, Arrives(0), [Arrives(1)] + ([TickFires(1)] + more));
    steps := [Arrives(0)] + ([Arrives(1)] + ([TickFires(1)] + more));
    RunCons(s1, Start(1, g, 0, 1), steps);
    RunCons(s, Start(0, f, 0, 1), [Start(1, g, 0, 1)] + steps);
    steps := [Start(0, f, 0, 1)] + ([Start(1, g, 0, 1)] + steps);
  }

  // ---- a flush thread without a ticker ----

  /** Some thread comes to its select before any StartFlushThread with a positive duration. */
  predicate EarlyArrival(steps: seq<Step>) {
    steps != [] && (steps[0].Arrives? || (!(steps[0].Start? && steps[0].t > 0) && EarlyArrival(steps[1..])))
  }

  lemma {:induction false} TickerStays(s: Sys, steps: seq<Step>)
    requires CanRun(s, steps) && s.q.ticker && !s.crashed
    ensures Run(s, steps).q.ticker && !Run(s, steps).crashed
    decreases |steps|
  {
    if steps != [] {
      TickerStays(Next(s, steps[0]), steps[1..]);
    }
  }

  lemma {:induction false} CrashesWithout(s: Sys, steps: seq<Step>)
    requires CanRun(s, steps) && !s.q.ticker && !s.crashed
    ensures Run(s, steps).crashed <==> EarlyArrival(steps)
    decreases |steps|
  {
    if steps != [] {
      var t := Next(s, steps[0]);
      if t.q.ticker {
        TickerStays(t, steps[1..]);
      } else if t.crashed {
        assert steps[1..] == [];
      } else {
        CrashesWithout(t, steps[1..]);
      }
    }
  }

  /** A run comes to a flush thread without a ticker if and only if some thread comes to its select
      before any StartFlushThread with a positive duration. */
  lemma CrashesIff(elemType: Option<string>, steps: seq<Step>)
    requires CanRun(Initial(elemType), steps)
    ensures Run(Initial(elemType), steps).crashed <==> EarlyArrival(steps)
  {
    CrashesWithout(Initial(elemType), steps);
  }

  /** The first StartFlushThread of the run, if there is one, has a positive duration. */
  predicate FirstStartTicks(steps: seq<Step>) {
    steps == [] || if steps[0].Start? then steps[0].t > 0 else FirstStartTicks(steps[1..])
  }

  lemma {:induction false} NoThreadNoCrash(s: Sys, steps: seq<Step>)
    requires CanRun(s, steps) && s.threads == map[] && !s.crashed && FirstStartTicks(steps)
    ensures !Run(s, steps).crashed
    decreases |steps|
  {
    if steps != [] {
      if steps[0].Start? {
        TickerStays(Next(s, steps[0]), steps[1..]);
      } else {
        NoThreadNoCrash(Next(s, steps[0]), steps[1..]);
      }
    }
  }

  /** If the first StartFlushThread has a positive duration there is no crash, whether the calls
      overlap or not. */
  lemma FirstTickIsEnough(elemType: Option<string>, steps: seq<Step>)
    requires CanRun(Initial(elemType), steps) && FirstStartTicks(steps)
    ensures !Run(Initial(elemType), steps).crashed
  {
    NoThreadNoCrash(Initial(elemType), steps);
  }

  /** The program has crashed, or a started thread will crash it as soon as it comes to its select. */
  ghost predicate Doomed(s: Sys) {
    s.crashed || (!s.q.ticker && exists k :: ThreadAt(s, k, Spawned))
  }

  /** The only thread, started without a ticker. */
  ghost predicate Waits(s: Sys, k: nat) {
    && !s.crashed && !s.q.ticker && s.q.f.Some? && s.threads == map[k := Spawned] && s.stop != Awaiting
  }

  lemma {:induction false} StaysDoomed(s: Sys, k: nat, steps: seq<Step>)
    requires CanRun(s, steps) && SerialStarts(s, steps) && Waits(s, k)
    ensures Doomed(Run(s, steps))
    decreases |steps|
  {
    if steps == [] {
      assert ThreadAt(s, k, Spawned);
    } else if steps[0].Arrives? {
      assert steps[1..] == [];
    } else {
      StaysDoomed(Next(s, steps[0]), k, steps[1..]);
    }
  }

  lemma {:induction false} DoomedFromIdle(s: Sys, steps: seq<Step>)
    requires CanRun(s, steps) && SerialStarts(s, steps)
    requires s.threads == map[] && s.q.f.None? && s.stop == Nobody && !s.crashed && !s.q.ticker
    ensures Doomed(Run(s, steps)) <==> !FirstStartTicks(steps)
    decreases |steps|
  {
    if steps != [] {
      var t := Next(s, steps[0]);
      if t.q.ticker {
        TickerStays(t, steps[1..]);
      } else if steps[0].Start? {
        StaysDoomed(t, steps[0].k, steps[1..]);
      } else {
        DoomedFromIdle(t, steps[1..]);
      }
    }
  }

  /** When StartFlushThread calls do not overlap, the program has crashed or is about to if and only if
      the first of them had no positive duration: no later one gets as far as setting the ticker. */
  lemma SerialCrashIff(elemType: Option<string>, steps: seq<Step>)
    requires CanRun(Initial(elemType), steps) && SerialStarts(Initial(elemType), steps)
    ensures Doomed(Run(Initial(elemType), steps)) <==> !FirstStartTicks(steps)
  {
    DoomedFromIdle(Initial(elemType), steps);
  }

  /** When they overlap, the second can set the ticker before the first one's thread needs it. */
  lemma OverlappingStartHelps(f: nat, g: nat) returns (steps: seq<Step>)
    ensures CanRun(Initial(None), steps) && !FirstStartTicks(steps)
    ensures !Doomed(Run(Initial(None), steps)) && ThreadAt(Run(Initial(None), steps), 0, AtSelect)
  {
    var s := Initial(None);
    var s1 := Next(s, Start(0, f, 0, 0));
    var s2 := Next(s1, Start(1, g, 0, 1));
    RunCons(s2, Arrives(0), []);
    RunCons(s1, Start(1, g, 0, 1), [Arrives(0)] + []);
    RunCons(s, Start(0, f, 0, 0), [Start(1, g, 0, 1)] + ([Arrives(0)] + []));
    steps := [Start(0, f, 0, 0)] + ([Start(1, g, 0, 1)] + ([Arrives(0)] + []));
  }

  // ---- when StopFlushThread returns ----

  /** Thread k is at its select, or will get there. */
  predicate CanReachSelect(s: Sys, k: nat) {
    ThreadAt(s, k, AtSelect) || (ThreadAt(s, k, Spawned) && s.q.ticker)
  }

  lemma {:induction false} NobodyTakesTheAbort(s: Sys, steps: seq<Step>)
    requires CanRun(s, steps) && s.stop == Aborting && (s.crashed || forall k :: !CanReachSelect(s, k))
    ensures Run(s, steps).stop == Aborting
    decreases |steps|
  {
    if steps != [] {
      var t := Next(s, steps[0]);
      assert steps[0].AbortTaken? ==> CanReachSelect(s, steps[0].k);
      forall k | !t.crashed
        ensures !CanReachSelect(t, k)
      {
        assert !CanReachSelect(s, k);
      }
      NobodyTakesTheAbort(t, steps[1..]);
    }
  }

  lemma AbortAndEnd(s: Sys, k: nat) returns (steps: seq<Step>)
    requires !s.crashed && s.stop == Aborting && ThreadAt(s, k, AtSelect)
    ensures CanRun(s, steps) && Run(s, steps).stop == Nobody
  {
    var t := Next(s, AbortTaken(k));
    RunCons(t, DoneTaken(k), []);
    RunCons(s, AbortTaken(k), [DoneTaken(k)] + []);
    steps := [AbortTaken(k)] + ([DoneTaken(k)] + []);
  }

  /** A StopFlushThread that waits to abort can return if and only if some flush thread is at its
      select or can get there. One that has taken a tick waits for the lock StopFlushThread holds,
      for ever, and one without a ticker crashes. */
  lemma StopReturnsIff(s: Sys)
    requires s.stop == Aborting && !s.crashed
    ensures (exists steps :: CanRun(s, steps) && Run(s, steps).stop == Nobody) <==>
            (exists k :: CanReachSelect(s, k))
  {
    if k :| CanReachSelect(s, k) {
      if ThreadAt(s, k, AtSelect) {
        var steps := AbortAndEnd(s, k);
      } else {
        var steps := AbortAndEnd(Next(s, Arrives(k)), k);
        RunCons(s, Arrives(k), steps);
      }
    } else {
      forall steps | CanRun(s, steps)
        ensures Run(s, steps).stop != Nobody
      {
        NobodyTakesTheAbort(s, steps);
      }
    }
  }

  /** This does happen: a tick before StopFlushThread, and neither goes on. */
  lemma StopCanHang(elemType: Option<string>, f: nat) returns (steps: seq<Step>)
    ensures CanRun(Initial(elemType), steps)
    ensures var s := Run(Initial(elemType), steps);
            && s.stop == Aborting && !s.crashed
            && forall later :: CanRun(s, later) ==> Run(s, later).stop != Nobody
  {
    var s := Initial(elemType);
    var s1 := Next(s, Start(0, f, 0, 1));
    var s2 := Next(s1, Arrives(0));
    var s3 := Next(s2, TickFires(0));
    var s4 := Next(s3, StopBegins);
    RunCons(s3, StopBegins, []);
    RunCons(s2, TickFires(0), [StopBegins] + []);
    RunCons(s1, Arrives(0), [TickFires(0)] + ([StopBegins] + []));
    RunCons(s, Start(0, f, 0, 1), [Arrives(0)] + ([TickFires(0)] + ([StopBegins] + [])));
    steps := [Start(0, f, 0, 1)] + ([Arrives(0)] + ([TickFires(0)] + ([StopBegins] + [])));
    forall later | CanRun(s4, later)
      ensures Run(s4, later).stop != Nobody
    {
      NobodyTakesTheAbort(s4, later);
    }
  }

  /** When StopFlushThread returns the queue is empty; and of any stretch before, the contents at its
      beginning and everything accepted meanwhile have been delivered, in order, if and only if nothing
      was discarded on that stretch. */
  lemma StopDelivers(s: Sys, steps: seq<Step>, k: nat)
    requires Inv(s) && CanRun(s, steps) && Enabled(Run(s, steps), DoneTaken(k))
    ensures var q, t := s.q, Next(Run(s, steps), DoneTaken(k)).q;
            && t.elems == [] && t.f == None && q.accepted <= t.accepted
            && (Delivered(t.log) == (Delivered(q.log) + q.elems) + t.accepted[|q.accepted|..] <==>
                NeverDiscards(s, steps))
  {
    InvOverRuns(s, steps);
    NothingLostIff(s, steps);
    var q := Run(s, steps).q;
    assert Delivered(q.log) + [] == Delivered(q.log);
  }
}
