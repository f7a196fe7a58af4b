/** The download manager (dlmgr/dlmgr.go): its queue operations as methods, and all interleavings
    of clients, queueLoop and the single worker. The transfer itself only ends. */
module Downloader {
  import opened Options
  import opened Sequences

  /** A *ContentDL: its identity and its name. */
  datatype Entry = Entry(id: nat, name: string)

  const CHANNEL_CAPACITY: nat := 8

  /** The index of the first entry with that name, or -1. */
  function FirstNamed(q: seq<Entry>, name: string): (r: int)
    ensures -1 <= r < |q|
    ensures r >= 0 ==> q[r].name == name
    ensures forall i :: 0 <= i < (if r >= 0 then r else |q|) ==> q[i].name != name
  {
    if q == [] then -1
    else if q[0].name == name then 0
    else
      var r := FirstNamed(q[1..], name);
      if r == -1 then -1 else r + 1
  }

  /** q[i] has the name, and no entry before it has. */
  predicate IsFirstNamed(q: seq<Entry>, name: string, i: int) {
    0 <= i < |q| && q[i].name == name && forall j :: 0 <= j < i ==> q[j].name != name
  }

  lemma FirstNamedIs(q: seq<Entry>, name: string, i: nat)
    requires i < |q| && q[i].name == name && forall j :: 0 <= j < i ==> q[j].name != name
    ensures FirstNamed(q, name) == i
  {
  }

  function RemoveAt(q: seq<Entry>, i: nat): seq<Entry>
    requires i < |q|
  {
    q[..i] + q[i + 1..]
  }

  // ---- all interleavings ----

  /** The worker: about to take the lock; in Wait; signalled and about to take the lock again;
      or at a transfer and its callback. */
  datatype WorkerPC = AtLock | Sleeping | Woken | Doing(job: Entry)

  datatype DL = DL(
    asked: set<Entry>, toSend: set<Entry>, rejected: set<Entry>,
    c: seq<Entry>, held: Option<Entry>, Q: seq<Entry>, worker: WorkerPC,
    finished: seq<Entry>, cancelled: set<Entry>, cleared: set<Entry>,
    sent: seq<Entry>)

  datatype Step =
    | Ask(v: Entry)
    | Send(v: Entry)
    | Cancel(name: string)
    | Clear
    | Receive
    | EnQueue
    | WorkerLocks
    | Finish

  const INITIAL: DL := DL({}, {}, {}, [], None, [], AtLock, [], {}, {}, [])

  predicate Enabled(s: DL, step: Step) {
    match step
    case Ask(v) => v !in s.asked
    case Send(v) => v in s.toSend && |s.c| < CHANNEL_CAPACITY
    case Cancel(_) => true
    case Clear => true
    case Receive => s.held == None && s.c != []
    case EnQueue => s.held.Some?
    case WorkerLocks => s.worker == AtLock || s.worker == Woken
    case Finish => s.worker.Doing?
  }

  function Next(s: DL, step: Step): DL
    requires Enabled(s, step)
  {
    match step
    case Ask(v) =>
      var t := s.(asked := s.asked + {v});
      if FirstNamed(s.Q, v.name) != -1 then t.(rejected := s.rejected + {v}) else t.(toSend := s.toSend + {v})
    case Send(v) => s.(toSend := s.toSend - {v}, c := s.c + [v], sent := s.sent + [v])
    case Cancel(name) =>
      var i := FirstNamed(s.Q, name);
      if i == -1 then s else s.(Q := RemoveAt(s.Q, i), cancelled := s.cancelled + {s.Q[i]})
    case Clear => s.(Q := [], cleared := s.cleared + set e | e in s.Q)
    case Receive => s.(held := Some(s.c[0]), c := s.c[1..])
    case EnQueue =>
      s.(held := None, Q := s.Q + [s.held.value], worker := if s.worker == Sleeping then Woken else s.worker)
    case WorkerLocks =>
      if s.Q == [] then s.(worker := Sleeping) else s.(worker := Doing(s.Q[0]), Q := s.Q[1..])
    case Finish => s.(worker := AtLock, finished := s.finished + [s.worker.job])
  }

  predicate CanRun(s: DL, steps: seq<Step>)
    decreases |steps|
  {
    steps == [] || (Enabled(s, steps[0]) && CanRun(Next(s, steps[0]), steps[1..]))
  }

  function Run(s: DL, steps: seq<Step>): DL
    requires CanRun(s, steps)
    decreases |steps|
  {
    if steps == [] then s else Run(Next(s, steps[0]), steps[1..])
  }

  // ---- the methods, each a step ----

  class DLWorker {
    var Job: Option<Entry>
    /** w.Cancel is set, and whether it has been called. */
    var Cancel: bool
    var CancelCalled: bool

    constructor ()
      ensures Job == None && !Cancel && !CancelCalled
    {
      Job, Cancel, CancelCalled := None, false, false;
    }
  }

  class Downloader {
    var Q: seq<Entry>
    var c: seq<Entry>
    const worker: DLWorker

    ghost var asked: set<Entry>
    ghost var toSend: set<Entry>
    ghost var rejected: set<Entry>
    ghost var held: Option<Entry>
    ghost var pc: WorkerPC
    ghost var finished: seq<Entry>
    ghost var cancelled: set<Entry>
    ghost var cleared: set<Entry>
    ghost var sent: seq<Entry>

    ghost function State(): DL
      reads this
    {
      DL(asked, toSend, rejected, c, held, Q, pc, finished, cancelled, cleared, sent)
    }

    /** The worker's Job is what it is at. */
    ghost predicate Valid()
      reads this, worker
    {
      worker.Job == if pc.Doing? then Some(pc.job) else None
    }

    constructor ()
      ensures Valid() && State() == INITIAL && fresh(worker)
    {
      Q, c := [], [];
      worker := new DLWorker();
      asked, toSend, rejected, held, pc := {}, {}, {}, None, AtLock;
      finished, cancelled, cleared, sent := [], {}, {}, [];
    }

    method FindNamed(name: string) returns (idx: int)
      ensures idx == FirstNamed(Q, name)
    {
      idx := -1;
      var k := 0;
      while k < |Q|
        invariant k <= |Q| && idx == -1
        invariant forall j :: 0 <= j < k ==> Q[j].name != name
      {
        if Q[k].name == name {
          FirstNamedIs(Q, name, k);
          return k;
        }
        k := k + 1;
      }
    }

    /** Download up to the send: a name that is queued is refused. */
    method Ask(v: Entry) returns (existed: bool)
      requires Valid() && v !in asked
      modifies this
      ensures Valid() && State() == Next(old(State()), Step.Ask(v))
      ensures existed <==> exists i :: 0 <= i < |Q| && Q[i].name == v.name
    {
      var idx := FindNamed(v.name);
      existed := idx != -1;
      asked := asked + {v};
      if existed {
        rejected := rejected + {v};
      } else {
        toSend := toSend + {v};
      }
    }

    method SendToLoop(v: Entry)
      requires Valid() && Enabled(State(), Send(v))
      modifies this
      ensures Valid() && State() == Next(old(State()), Send(v))
    {
      c := c + [v];
      toSend, sent := toSend - {v}, sent + [v];
    }

    /** Download of a name that is not queued, when the channel has room. */
    method Download(v: Entry) returns (existed: bool)
      requires Valid() && Enabled(State(), Step.Ask(v)) && |c| < CHANNEL_CAPACITY
      modifies this
      ensures Valid() && (existed <==> FirstNamed(old(Q), v.name) != -1)
      ensures State() == if FirstNamed(old(Q), v.name) != -1 then Next(old(State()), Step.Ask(v))
                         else Next(Next(old(State()), Step.Ask(v)), Send(v))
    {
      existed := Ask(v);
      if !existed {
        SendToLoop(v);
      }
    }

    /** One turn of queueLoop: a receive and then EnQueue under the lock. */
    method ReceiveOne() returns (dl: Entry)
      requires Valid() && Enabled(State(), Receive)
      modifies this
      ensures Valid() && State() == Next(old(State()), Receive) && held == Some(dl)
    {
      dl := c[0];
      c := c[1..];
      held := Some(dl);
    }

    method EnQueue(dl: Entry)
      requires Valid() && held == Some(dl)
      modifies this
      ensures Valid() && State() == Next(old(State()), Step.EnQueue) && Q == old(Q) + [dl]
    {
      Q := Q + [dl];
      held := None;
      pc := if pc == Sleeping then Woken else pc;
    }

    method QueueLoopTurn()
      requires Valid() && Enabled(State(), Receive)
      modifies this
      ensures Valid() && State() == Next(Next(old(State()), Receive), Step.EnQueue)
    {
      var dl := ReceiveOne();
      EnQueue(dl);
    }

    method ClearQueue()
      requires Valid()
      modifies this
      ensures Valid() && State() == Next(old(State()), Clear)
      ensures Q == [] && forall e :: e in cleared <==> e in old(cleared) || e in old(Q)
    {
      cleared := cleared + set e | e in Q;
      Q := [];
    }

    /** Takes the first queued entry of that name out, or else cancels the running transfer of
        that name if it can be cancelled. */
    method CancelDownload(name: string) returns (ok: bool)
      requires Valid()
      modifies this, worker`CancelCalled
      ensures Valid() && State() == Next(old(State()), Step.Cancel(name))
      ensures (forall i :: 0 <= i < |old(Q)| ==> old(Q)[i].name != name) ==> Q == old(Q) && cancelled == old(cancelled)
      ensures forall i :: IsFirstNamed(old(Q), name, i) ==>
                && ok && Q == old(Q)[..i] + old(Q)[i + 1..] && cancelled == old(cancelled) + {old(Q)[i]}
      ensures var queued := FirstNamed(old(Q), name) != -1;
              var running := worker.Job.Some? && worker.Job.value.name == name;
              && (ok <==> queued || (running && worker.Cancel))
              && worker.CancelCalled == (old(worker.CancelCalled) || (!queued && running && worker.Cancel))
    {
      var idx := FindNamed(name);
      if idx != -1 {
        cancelled := cancelled + {Q[idx]};
        Q := Q[..idx] + Q[idx + 1..];
        return true;
      }
      if worker.Job.Some? && worker.Job.value.name == name {
        if worker.Cancel {
          worker.CancelCalled := true;
          return true;
        }
        return false;
      }
      return false;
    }

    /** The locked part of Work: the oldest entry becomes the job; false means Wait. */
    method TakeJob() returns (took: bool)
      requires Valid() && Enabled(State(), WorkerLocks)
      modifies this, worker`Job
      ensures Valid() && State() == Next(old(State()), WorkerLocks) && (took <==> pc.Doing?)
      ensures took <==> old(Q) != []
      ensures took ==> worker.Job == Some(old(Q)[0]) && Q == old(Q)[1..]
    {
      if |Q| == 0 {
        pc := Sleeping;
        return false;
      }
      worker.Job := Some(Q[0]);
      pc := Doing(Q[0]);
      Q := Q[1..];
      return true;
    }

    /** get, up to where it waits: from then on the job can be cancelled. */
    method BeginTransfer()
      requires Valid() && pc.Doing?
      modifies worker`Cancel, worker`CancelCalled
      ensures worker.Cancel && !worker.CancelCalled && State() == old(State())
    {
      worker.Cancel, worker.CancelCalled := true, false;
    }

    /** The end of do, after the callback. */
    method FinishJob()
      requires Valid() && Enabled(State(), Finish)
      modifies this, worker
      ensures Valid() && State() == Next(old(State()), Finish) && !worker.Cancel
      ensures worker.Job == None && finished == old(finished) + [old(pc).job]
    {
      worker.Job, worker.Cancel := None, false;
      finished := finished + [pc.job];
      pc := AtLock;
    }

    /** One turn of Work that finds an entry; a file that is there already is not transferred. */
    method WorkTurn(present: bool)
      requires Valid() && Enabled(State(), WorkerLocks) && Q != []
      modifies this, worker
      ensures Valid() && State() == Next(Next(old(State()), WorkerLocks), Finish) && !worker.Cancel
    {
      var took := TakeJob();
      if !present {
        BeginTransfer();
      }
      FinishJob();
    }
  }

  // ---- what every step keeps ----

  function Places(s: DL, e: Entry): nat {
    One(e in s.rejected) + One(e in s.toSend) + multiset(s.c)[e] + One(s.held == Some(e))
    + multiset(s.Q)[e] + One(s.worker == Doing(e)) + multiset(s.finished)[e]
    + One(e in s.cancelled) + One(e in s.cleared)
  }

  ghost predicate Conserved(s: DL) {
    forall e :: Places(s, e) == One(e in s.asked)
  }

  function OneOf(o: Option<Entry>): seq<Entry> {
    if o.Some? then [o.value] else []
  }

  function Job(s: DL): seq<Entry> {
    if s.worker.Doing? then [s.worker.job] else []
  }

  function Taken(s: DL): seq<Entry> {
    s.finished + Job(s)
  }

  function Arriving(s: DL): seq<Entry> {
    OneOf(s.held) + s.c
  }

  /** Everything on its way, oldest first. */
  function Line(s: DL): seq<Entry> {
    Taken(s) + s.Q + Arriving(s)
  }

  function Kept(q: seq<Entry>, gone: set<Entry>): seq<Entry> {
    if q == [] then []
    else
      var before := Kept(q[..|q| - 1], gone);
      if q[|q| - 1] in gone then before else before + [q[|q| - 1]]
  }

  /** The line is the order of the channel sends, without what was cancelled or cleared. */
  ghost predicate InOrder(s: DL) {
    Line(s) == Kept(s.sent, s.cancelled + s.cleared)
  }

  /** No lost wake-up. */
  predicate AwakeIfWork(s: DL) {
    s.worker == Sleeping ==> s.Q == []
  }

  ghost predicate Inv(s: DL) {
    Conserved(s) && InOrder(s) && AwakeIfWork(s)
  }

  // ---- conservation ----

  lemma CountRemoved(q: seq<Entry>, i: nat)
    requires i < |q|
    ensures multiset(q) == multiset(RemoveAt(q, i)) + multiset{q[i]}
  {
    assert q == q[..i] + [q[i]] + q[i + 1..];
  }

  lemma SamePlaces(s: DL, t: DL)
    requires Conserved(s) && t.asked == s.asked && forall e :: Places(t, e) == Places(s, e)
    ensures Conserved(t)
  {
    forall e
      ensures Places(t, e) == One(e in t.asked)
    {
      assert Places(s, e) == One(e in s.asked);
    }
  }

  lemma ConservedKeptCancel(s: DL, name: string)
    requires Conserved(s)
    ensures Conserved(Next(s, Cancel(name)))
  {
    var i := FirstNamed(s.Q, name);
    if i != -1 {
      CountRemoved(s.Q, i);
      OncePerPlace(s, s.Q[i]);
      SamePlaces(s, Next(s, Cancel(name)));
    }
  }

  lemma ConservedKeptClear(s: DL)
    requires Conserved(s)
    ensures Conserved(Next(s, Clear))
  {
    var t := Next(s, Clear);
    forall e
      ensures Places(t, e) == Places(s, e)
    {
      OncePerPlace(s, e);
      assert e in s.Q <==> multiset(s.Q)[e] > 0;
    }
    SamePlaces(s, t);
  }

  lemma ConservedKeptReceive(s: DL)
    requires Conserved(s) && Enabled(s, Receive)
    ensures Conserved(Next(s, Receive))
  {
    HeadCounts(s.c);
    SamePlaces(s, Next(s, Receive));
  }

  lemma ConservedKeptEnQueue(s: DL)
    requires Conserved(s) && Enabled(s, EnQueue)
    ensures Conserved(Next(s, EnQueue))
  {
    assert multiset(s.Q + [s.held.value]) == multiset(s.Q) + multiset{s.held.value};
    SamePlaces(s, Next(s, EnQueue));
  }

  lemma ConservedKeptWorker(s: DL)
    requires Conserved(s) && Enabled(s, WorkerLocks)
    ensures Conserved(Next(s, WorkerLocks))
  {
    if s.Q != [] { HeadCounts(s.Q); }
    SamePlaces(s, Next(s, WorkerLocks));
  }

  lemma ConservedKeptFinish(s: DL)
    requires Conserved(s) && Enabled(s, Finish)
    ensures Conserved(Next(s, Finish))
  {
    assert multiset(s.finished + [s.worker.job]) == multiset(s.finished) + multiset{s.worker.job};
    SamePlaces(s, Next(s, Finish));
  }

  lemma ConservedKeptSend(s: DL, step: Step)
    requires Conserved(s) && Enabled(s, step) && (step.Ask? || step.Send?)
    ensures Conserved(Next(s, step))
  {
    var t := Next(s, step);
    forall e
      ensures Places(t, e) == One(e in t.asked)
    {
      assert Places(s, e) == One(e in s.asked);
    }
  }

  lemma ConservedKept(s: DL, step: Step)
    requires Conserved(s) && Enabled(s, step)
    ensures Conserved(Next(s, step))
  {
    match step
    case Ask(_) => ConservedKeptSend(s, step);
    case Send(_) => ConservedKeptSend(s, step);
    case Cancel(name) => ConservedKeptCancel(s, name);
    case Clear => ConservedKeptClear(s);
    case Receive => ConservedKeptReceive(s);
    case EnQueue => ConservedKeptEnQueue(s);
    case WorkerLocks => ConservedKeptWorker(s);
    case Finish => ConservedKeptFinish(s);
  }

  // ---- order ----

  lemma {:induction false} KeptConcat(a: seq<Entry>, b: seq<Entry>, gone: set<Entry>)
    ensures Kept(a + b, gone) == Kept(a, gone) + Kept(b, gone)
    decreases |b|
  {
    if b == [] {
      assert a + b == a;
    } else {
      KeptConcat(a, b[..|b| - 1], gone);
      assert (a + b)[..|a + b| - 1] == a + b[..|b| - 1];
    }
  }

  lemma {:induction false} KeptTwice(q: seq<Entry>, first: set<Entry>, second: set<Entry>)
    ensures Kept(q, first + second) == Kept(Kept(q, first), second)
  {
    if q != [] {
      var front, last := q[..|q| - 1], q[|q| - 1];
      KeptTwice(front, first, second);
      if last !in first {
        KeptConcat(Kept(front, first), [last], second);
        assert Kept([last], second) == if last in second then [] else [last];
      }
    }
  }

  predicate Outside(q: seq<Entry>, gone: set<Entry>) {
    forall i :: 0 <= i < |q| ==> q[i] !in gone
  }

  predicate Inside(q: seq<Entry>, gone: set<Entry>) {
    forall i :: 0 <= i < |q| ==> q[i] in gone
  }

  lemma {:induction false} KeptAll(q: seq<Entry>, gone: set<Entry>)
    requires Outside(q, gone)
    ensures Kept(q, gone) == q
  {
    if q != [] {
      KeptAll(q[..|q| - 1], gone);
    }
  }

  lemma {:induction false} KeptNone(q: seq<Entry>, gone: set<Entry>)
    requires Inside(q, gone)
    ensures Kept(q, gone) == []
  {
    if q != [] {
      KeptNone(q[..|q| - 1], gone);
    }
  }

  /** Taking the middle of a line out. */
  lemma KeptMiddle(a: seq<Entry>, b: seq<Entry>, c: seq<Entry>, gone: set<Entry>)
    requires Outside(a, gone) && Inside(b, gone) && Outside(c, gone)
    ensures Kept(a + b + c, gone) == a + c
  {
    KeptConcat(a + b, c, gone);
    KeptConcat(a, b, gone);
    KeptAll(a, gone);
    KeptNone(b, gone);
    KeptAll(c, gone);
    assert a + [] == a;
  }

  /** What is in line is in no other part of the line and has not been taken out. */
  lemma OncePerPlace(s: DL, e: Entry)
    requires Conserved(s)
    ensures One(e in s.finished) + One(e in Job(s)) + One(e in s.Q) + One(e in OneOf(s.held)) + One(e in s.c)
            + One(e in s.cancelled || e in s.cleared) + One(e in s.toSend) <= 1
    ensures multiset(s.Q)[e] <= 1
  {
    assert Places(s, e) == One(e in s.asked);
    assert e in s.finished <==> multiset(s.finished)[e] > 0;
    assert e in s.Q <==> multiset(s.Q)[e] > 0;
    assert e in s.c <==> multiset(s.c)[e] > 0;
  }

  lemma QueueOnce(s: DL, i: nat)
    requires Conserved(s) && i < |s.Q|
    ensures Outside(s.Q[..i], {s.Q[i]}) && Outside(s.Q[i + 1..], {s.Q[i]})
  {
    var a, e, b := s.Q[..i], s.Q[i], s.Q[i + 1..];
    assert s.Q == a + [e] + b;
    OncePerPlace(s, e);
    assert e !in multiset(a) && e !in multiset(b);
  }

  lemma RestOutside(s: DL, gone: set<Entry>)
    requires Conserved(s) && forall e :: e in gone ==> e in s.Q
    ensures Outside(Taken(s), gone) && Outside(Arriving(s), gone)
  {
    forall e | e in gone
      ensures e !in Taken(s) && e !in Arriving(s)
    {
      OncePerPlace(s, e);
    }
  }

  lemma OutsideBoth(a: seq<Entry>, b: seq<Entry>, gone: set<Entry>)
    requires Outside(a, gone) && Outside(b, gone)
    ensures Outside(a + b, gone)
  {
  }

  lemma CutMiddle(a: seq<Entry>, q: seq<Entry>, i: nat, c: seq<Entry>)
    requires i < |q|
    ensures a + q + c == (a + q[..i]) + [q[i]] + (q[i + 1..] + c)
    ensures a + RemoveAt(q, i) + c == (a + q[..i]) + (q[i + 1..] + c)
  {
  }

  lemma KeptWithoutOne(s: DL, i: nat)
    requires Conserved(s) && i < |s.Q|
    ensures Kept(Line(s), {s.Q[i]}) == Taken(s) + RemoveAt(s.Q, i) + Arriving(s)
  {
    var gone := {s.Q[i]};
    QueueOnce(s, i);
    RestOutside(s, gone);
    OutsideBoth(Taken(s), s.Q[..i], gone);
    OutsideBoth(s.Q[i + 1..], Arriving(s), gone);
    CutMiddle(Taken(s), s.Q, i, Arriving(s));
    KeptMiddle(Taken(s) + s.Q[..i], [s.Q[i]], s.Q[i + 1..] + Arriving(s), gone);
  }

  lemma CancelKeepsOrder(s: DL, name: string)
    requires Conserved(s) && InOrder(s)
    ensures InOrder(Next(s, Cancel(name)))
  {
    var i := FirstNamed(s.Q, name);
    if i != -1 {
      var gone := {s.Q[i]};
      KeptWithoutOne(s, i);
      KeptTwice(s.sent, s.cancelled + s.cleared, gone);
      assert s.cancelled + s.cleared + gone == (s.cancelled + gone) + s.cleared;
    }
  }

  lemma Shift(a: seq<Entry>, x: seq<Entry>, b: seq<Entry>)
    ensures (a + x) + b == a + (x + b)
  {
  }

  lemma ClearKeepsOrder(s: DL)
    requires Conserved(s) && InOrder(s)
    ensures InOrder(Next(s, Clear))
  {
    var gone := set e | e in s.Q;
    RestOutside(s, gone);
    KeptMiddle(Taken(s), s.Q, Arriving(s), gone);
    KeptTwice(s.sent, s.cancelled + s.cleared, gone);
    assert s.cancelled + s.cleared + gone == s.cancelled + (s.cleared + gone);
    Shift(Taken(s), [], Arriving(s));
    assert [] + Arriving(s) == Arriving(s);
  }

  lemma AddAtEnd(a: seq<Entry>, q: seq<Entry>, h: seq<Entry>, c: seq<Entry>, v: Entry)
    ensures a + q + (h + (c + [v])) == (a + q + (h + c)) + [v]
  {
  }

  lemma SendKeepsOrder(s: DL, v: Entry)
    requires Conserved(s) && InOrder(s) && Enabled(s, Send(v))
    ensures InOrder(Next(s, Send(v)))
  {
    OncePerPlace(s, v);
    KeptConcat(s.sent, [v], s.cancelled + s.cleared);
    KeptAll([v], s.cancelled + s.cleared);
    AddAtEnd(Taken(s), s.Q, OneOf(s.held), s.c, v);
  }

  lemma ReceiveKeepsLine(s: DL)
    requires Enabled(s, Receive)
    ensures Line(Next(s, Receive)) == Line(s)
  {
    assert [s.c[0]] + s.c[1..] == [] + s.c;
  }

  lemma EnQueueKeepsLine(s: DL)
    requires Enabled(s, EnQueue)
    ensures Line(Next(s, EnQueue)) == Line(s)
  {
    var v := [s.held.value];
    Shift(Taken(s), s.Q, v);
    Shift(Taken(s) + s.Q, v, s.c);
    assert [] + s.c == s.c;
  }

  lemma LockKeepsLine(s: DL)
    requires Enabled(s, WorkerLocks)
    ensures Line(Next(s, WorkerLocks)) == Line(s)
  {
    if s.Q != [] {
      var first := [s.Q[0]];
      assert first + s.Q[1..] == s.Q;
      assert s.finished + [] == s.finished;
      Shift(s.finished, first, s.Q[1..]);
    }
  }

  lemma FinishKeepsLine(s: DL)
    requires Enabled(s, Finish)
    ensures Line(Next(s, Finish)) == Line(s)
  {
    assert Taken(Next(s, Finish)) == Taken(s);
  }

  /** The steps of queueLoop and the worker move entries along the line without reordering it. */
  lemma InternalKeepsLine(s: DL, step: Step)
    requires Enabled(s, step) && Internal(step)
    ensures Line(Next(s, step)) == Line(s)
    ensures Next(s, step).sent == s.sent && Next(s, step).cancelled == s.cancelled && Next(s, step).cleared == s.cleared
  {
    match step
    case Receive => ReceiveKeepsLine(s);
    case EnQueue => EnQueueKeepsLine(s);
    case WorkerLocks => LockKeepsLine(s);
    case Finish => FinishKeepsLine(s);
  }

  predicate Internal(step: Step) {
    step.Receive? || step.EnQueue? || step.WorkerLocks? || step.Finish?
  }

  lemma InvKept(s: DL, step: Step)
    requires Inv(s) && Enabled(s, step)
    ensures Inv(Next(s, step))
  {
    ConservedKept(s, step);
    match step
    case Cancel(name) => CancelKeepsOrder(s, name);
    case Clear => ClearKeepsOrder(s);
    case Send(v) => SendKeepsOrder(s, v);
    case Ask(_) =>
    case _ => InternalKeepsLine(s, step);
  }

  lemma {:induction false} InvOverRuns(s: DL, steps: seq<Step>)
    requires Inv(s) && CanRun(s, steps)
    ensures Inv(Run(s, steps))
    decreases |steps|
  {
    if steps != [] {
      InvKept(s, steps[0]);
      InvOverRuns(Next(s, steps[0]), steps[1..]);
    }
  }

  /** In every reachable state each submitted entry is in exactly one stage, the entries on their
      way stand in the order of the channel sends with only the cancelled and cleared ones
      missing, each finished entry had one callback, and the worker does not sleep on a
      non-empty queue. */
  lemma DownloadsInOrder(steps: seq<Step>, e: Entry)
    requires CanRun(INITIAL, steps)
    ensures var s := Run(INITIAL, steps);
            && Places(s, e) == One(e in s.asked)
            && multiset(s.finished)[e] <= 1
            && (s.finished + Job(s)) + s.Q + (OneOf(s.held) + s.c) == Kept(s.sent, s.cancelled + s.cleared)
            && (s.worker == Sleeping ==> s.Q == [])
  {
    InvOverRuns(INITIAL, steps);
  }

  // ---- progress ----

  function Weight(w: WorkerPC): nat {
    match w
    case Sleeping => 0
    case AtLock => 1
    case Woken => 1
    case Doing(_) => 2
  }

  /** Bounds how many steps queueLoop and the worker can still make on their own. */
  function Measure(s: DL): nat {
    5 * |s.c| + 4 * |OneOf(s.held)| + 2 * |s.Q| + Weight(s.worker)
  }

  predicate Quiet(s: DL) {
    !Enabled(s, Receive) && !Enabled(s, EnQueue) && !Enabled(s, WorkerLocks) && !Enabled(s, Finish)
  }

  lemma InternalStepsEnd(s: DL, step: Step)
    requires Inv(s) && Enabled(s, step) && Internal(step)
    ensures Measure(Next(s, step)) < Measure(s)
  {
  }

  lemma QuietHasFinished(s: DL)
    requires AwakeIfWork(s) && Quiet(s)
    ensures s.finished == Line(s)
  {
    assert s.held == None && s.c == [] by { assert !Enabled(s, EnQueue) && !Enabled(s, Receive); }
    assert s.worker == Sleeping by { assert !Enabled(s, WorkerLocks) && !Enabled(s, Finish); }
    assert Taken(s) == s.finished && Arriving(s) == [];
  }

  /** Left to themselves, queueLoop and the worker always come to rest, and then everything that
      was in line has been finished, in order. */
  lemma {:induction false} EverythingInLineFinishes(s: DL, steps: seq<Step>)
    requires Inv(s) && CanRun(s, steps) && forall i :: 0 <= i < |steps| ==> Internal(steps[i])
    ensures |steps| <= Measure(s)
    ensures Quiet(Run(s, steps)) ==> Run(s, steps).finished == Line(s)
    decreases |steps|
  {
    if steps != [] {
      InvKept(s, steps[0]);
      InternalKeepsLine(s, steps[0]);
      InternalStepsEnd(s, steps[0]);
      EverythingInLineFinishes(Next(s, steps[0]), steps[1..]);
    } else if Quiet(s) {
      QuietHasFinished(s);
    }
  }

  // ---- what is cancelled ----

  /** A cancel takes the first queued entry of the name out and nothing else. */
  lemma CancelTakesNamed(s: DL, name: string)
    ensures var t := Next(s, Cancel(name));
            && ((forall i :: 0 <= i < |s.Q| ==> s.Q[i].name != name) ==> t == s)
            && (forall i :: IsFirstNamed(s.Q, name, i) ==>
                  t == s.(Q := s.Q[..i] + s.Q[i + 1..], cancelled := s.cancelled + {s.Q[i]}))
  {
    forall i | IsFirstNamed(s.Q, name, i)
      ensures FirstNamed(s.Q, name) == i
    {
      FirstNamedIs(s.Q, name, i);
    }
  }

  lemma {:induction false} CancelledSince(s: DL, steps: seq<Step>, e: Entry)
    requires CanRun(s, steps) && e in Run(s, steps).cancelled && e !in s.cancelled
    ensures Cancel(e.name) in steps
    decreases |steps|
  {
    var t := Next(s, steps[0]);
    if e in t.cancelled {
      assert steps[0].Cancel?;
      CancelTakesNamed(s, steps[0].name);
    } else {
      CancelledSince(t, steps[1..], e);
      assert Cancel(e.name) in steps[1..];
    }
  }

  /** In every run each entry that was taken out by a cancel was named by one. */
  lemma CancelledByName(steps: seq<Step>)
    requires CanRun(INITIAL, steps)
    ensures forall e :: e in Run(INITIAL, steps).cancelled ==> Cancel(e.name) in steps
  {
    forall e | e in Run(INITIAL, steps).cancelled
      ensures Cancel(e.name) in steps
    {
      CancelledSince(INITIAL, steps, e);
    }
  }

  // ---- what the duplicate check does not guarantee ----

  lemma RunCons(s: DL, step: Step, steps: seq<Step>)
    requires Enabled(s, step) && CanRun(Next(s, step), steps)
    ensures CanRun(s, [step] + steps) && Run(s, [step] + steps) == Run(Next(s, step), steps)
  {
    assert ([step] + steps)[1..] == steps;
  }

  /** e waits for its channel send, in the channel or in queueLoop's hands. */
  predicate OnItsWay(s: DL, e: Entry) {
    e in s.toSend || e in s.c || s.held == Some(e)
  }

  /** Of the entries not yet taken by the worker no two have one name. */
  ghost predicate NoTwins(s: DL) {
    forall a, b :: (OnItsWay(s, a) || a in s.Q) && (OnItsWay(s, b) || b in s.Q) && a.name == b.name ==> a == b
  }

  /** A Download that passes the check, which looks only at the queue, while an entry of its name is
      on its way there. */
  ghost predicate Races(s: DL, step: Step) {
    step.Ask? && FirstNamed(s.Q, step.v.name) == -1 && exists e :: OnItsWay(s, e) && e.name == step.v.name
  }

  lemma WaitingIsAsked(s: DL, e: Entry)
    requires Conserved(s) && (OnItsWay(s, e) || e in s.Q)
    ensures e in s.asked
  {
    assert Places(s, e) == One(e in s.asked);
    assert e in s.Q <==> multiset(s.Q)[e] > 0;
    assert e in s.c <==> multiset(s.c)[e] > 0;
  }

  lemma AskTwins(s: DL, v: Entry)
    requires Conserved(s) && NoTwins(s) && v !in s.asked
    ensures NoTwins(Next(s, Step.Ask(v))) <==> !Races(s, Step.Ask(v))
  {
    var t := Next(s, Step.Ask(v));
    forall e | OnItsWay(s, e) || e in s.Q
      ensures e != v
    {
      WaitingIsAsked(s, e);
    }
    if FirstNamed(s.Q, v.name) == -1 {
      assert OnItsWay(t, v);
      forall e | OnItsWay(s, e)
        ensures OnItsWay(t, e)
      {
      }
    }
  }

  /** One step makes two of a name out of none exactly when it is such a Download. */
  lemma TwinsIff(s: DL, step: Step)
    requires Conserved(s) && NoTwins(s) && Enabled(s, step)
    ensures NoTwins(Next(s, step)) <==> !Races(s, step)
  {
    if step.Ask? {
      AskTwins(s, step.v);
    } else {
      var t := Next(s, step);
      forall e | OnItsWay(t, e) || e in t.Q
        ensures OnItsWay(s, e) || e in s.Q
      {
      }
    }
  }

  ghost predicate NeverRaces(s: DL, steps: seq<Step>)
    requires CanRun(s, steps)
    decreases |steps|
  {
    steps == [] || (!Races(s, steps[0]) && NeverRaces(Next(s, steps[0]), steps[1..]))
  }

  ghost predicate NoTwinsThroughout(s: DL, steps: seq<Step>)
    requires CanRun(s, steps)
    decreases |steps|
  {
    NoTwins(s) && (steps == [] || NoTwinsThroughout(Next(s, steps[0]), steps[1..]))
  }

  lemma {:induction false} TwinsOverRuns(s: DL, steps: seq<Step>)
    requires Inv(s) && NoTwins(s) && CanRun(s, steps)
    ensures NoTwinsThroughout(s, steps) <==> NeverRaces(s, steps)
    decreases |steps|
  {
    if steps != [] {
      InvKept(s, steps[0]);
      TwinsIff(s, steps[0]);
      if NoTwins(Next(s, steps[0])) {
        TwinsOverRuns(Next(s, steps[0]), steps[1..]);
      } else {
        assert !NoTwinsThroughout(Next(s, steps[0]), steps[1..]);
      }
    }
  }

  /** In a run from the start no two waiting entries ever have one name if and only if no Download
      passes its check while an entry of its name is on its way to the queue. */
  lemma DuplicatesIff(steps: seq<Step>)
    requires CanRun(INITIAL, steps)
    ensures NoTwinsThroughout(INITIAL, steps) <==> NeverRaces(INITIAL, steps)
  {
    TwinsOverRuns(INITIAL, steps);
  }

  /** Download looks only at the queue, not at the channel or at other callers: two entries of
      one name can be queued. */
  lemma SameNameTwice(a: Entry, b: Entry) returns (steps: seq<Step>)
    requires a.name == b.name && a != b
    ensures CanRun(INITIAL, steps) && Run(INITIAL, steps).Q == [a, b]
  {
    var s1 := Next(INITIAL, Ask(a));
    var s2 := Next(s1, Ask(b));
    var s3 := Next(s2, Send(a));
    var s4 := Next(s3, Send(b));
    var s5 := Next(s4, Receive);
    var s6 := Next(s5, EnQueue);
    var s7 := Next(s6, Receive);
    RunCons(s7, EnQueue, []);
    RunCons(s6, Receive, [EnQueue] + []);
    RunCons(s5, EnQueue, [Receive] + ([EnQueue] + []));
    var tail := [EnQueue] + ([Receive] + ([EnQueue] + []));
    RunCons(s4, Receive, tail);
    RunCons(s3, Send(b), [Receive] + tail);
    RunCons(s2, Send(a), [Send(b)] + ([Receive] + tail));
    RunCons(s1, Ask(b), [Send(a)] + ([Send(b)] + ([Receive] + tail)));
    steps := [Ask(a)] + ([Ask(b)] + ([Send(a)] + ([Send(b)] + ([Receive] + tail))));
    RunCons(INITIAL, Ask(a), [Ask(b)] + ([Send(a)] + ([Send(b)] + ([Receive] + tail))));
  }
}
