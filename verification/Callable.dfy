/** Which records of the state machine can still be called: an exact condition for every reachable
    state at which the loop is idle, and what it says about switches of states and about actions that
    are added again. */
module Callable {
  import opened Options
  import opened Sequences
  import opened StateMachine

  /** Between s and u, F of record a is called with FireInState equal to fire. */
  ghost predicate Called(s: SM, u: SM, a: nat, fire: string) {
    |u.ran| == |u.fired| && exists i :: |s.ran| <= i < |u.ran| && u.ran[i] == a && u.fired[i].fireInState == fire
  }

  /** Record a has not come to its end. */
  predicate Alive(s: SM, a: nat) {
    a in s.acts && a !in s.merged && a !in s.stopped && a !in s.ran && a !in s.dropped
  }

  // ---- letting all armed threads go ----

  /** Only threads have moved, with their deletes. */
  predicate ThreadsMoved(s: SM, t: SM) {
    t == s.(elems := t.elems, threads := t.threads, stopped := t.stopped)
  }

  /** x's thread is on its way to actCtrl. */
  predicate Fires(s: SM, x: nat) {
    ThreadAt(s, x, Waiting) || ThreadAt(s, x, TookTimer) || ThreadAt(s, x, Sending)
  }

  lemma DeleteNow(s: SM, x: nat) returns (steps: seq<Step>)
    requires s.loop == Idle && x in s.acts && (ThreadAt(s, x, TookTimer) || ThreadAt(s, x, TookExit))
    ensures CanRun(s, steps) && ThreadsMoved(s, Run(s, steps))
    ensures Run(s, steps).threads == if s.threads[x] == TookExit then s.threads - {x} else s.threads[x := Sending]
  {
    RunCons(s, ThreadDeletes(x), []);
    steps := [ThreadDeletes(x)] + [];
  }

  lemma FireNow(s: SM, x: nat) returns (steps: seq<Step>)
    requires s.loop == Idle && x in s.acts && ThreadAt(s, x, Waiting)
    ensures CanRun(s, steps) && ThreadsMoved(s, Run(s, steps))
    ensures Run(s, steps).threads == s.threads[x := Sending]
  {
    var s1 := s.(threads := s.threads[x := TookTimer]);
    assert Next(s, TimerFires(x)) == s1;
    var more := DeleteNow(s1, x);
    RunCons(s, TimerFires(x), more);
    steps := [TimerFires(x)] + more;
    assert s1.threads[x := Sending] == s.threads[x := Sending];
  }

  function Unsent(s: SM): set<nat> {
    set x | x in s.threads && s.threads[x] != Sending
  }

  lemma ListedIsUnsent(s: SM, id: string)
    requires ListMatchesThreads(s) && s.loop == Idle && id in s.elems
    ensures s.elems[id] in Unsent(s)
  {
    assert Live(s, s.elems[id]);
  }

  lemma NothingListed(s: SM)
    requires ListMatchesThreads(s) && s.loop == Idle && Unsent(s) == {}
    ensures s.elems == map[] && Bound(s) == {}
  {
    forall id | id in s.elems
      ensures s.elems[id] in Unsent(s)
    {
      ListedIsUnsent(s, id);
    }
    assert forall id :: id !in s.elems;
  }

  lemma MovedTwice(s: SM, t: SM, u: SM)
    requires ThreadsMoved(s, t) && ThreadsMoved(t, u)
    ensures ThreadsMoved(s, u)
  {
  }

  lemma LetGo(s: SM, x: nat) returns (steps: seq<Step>)
    requires Known(s) && s.loop == Idle && x in Unsent(s)
    ensures CanRun(s, steps)
    ensures var t := Run(s, steps);
            && ThreadsMoved(s, t) && Unsent(t) == Unsent(s) - {x} && forall y :: Fires(s, y) ==> Fires(t, y)
  {
    if s.threads[x] == Waiting {
      steps := FireNow(s, x);
    } else {
      steps := DeleteNow(s, x);
    }
  }

  /** Every armed thread can go ahead at once; then nothing is listed. */
  lemma {:induction false} Settle(s: SM) returns (steps: seq<Step>)
    requires Inv(s) && s.loop == Idle
    ensures CanRun(s, steps) && Inv(Run(s, steps))
    ensures var t := Run(s, steps);
            && ThreadsMoved(s, t) && t.elems == map[] && Bound(t) == {}
            && forall x :: Fires(s, x) ==> ThreadAt(t, x, Sending)
    decreases |Unsent(s)|
  {
    if x :| x in Unsent(s) {
      var first := LetGo(s, x);
      var t := Run(s, first);
      InvOverRuns(s, first);
      SmallerSet(Unsent(t), Unsent(s));
      var more := Settle(t);
      RunAppend(s, first, more);
      MovedTwice(s, t, Run(t, more));
      steps := first + more;
    } else {
      steps := [];
      NothingListed(s);
      NoneUnsent(s);
    }
  }

  lemma NoneUnsent(s: SM)
    requires Unsent(s) == {}
    ensures forall x :: Fires(s, x) ==> ThreadAt(s, x, Sending)
  {
    forall x | x in s.threads
      ensures s.threads[x] == Sending
    {
      assert x !in Unsent(s);
    }
  }

  // ---- one message ----

  /** The loop has handled messages: what records, actCtrl and the ends of records show is unchanged. */
  predicate MessagesHandled(s: SM, t: SM) {
    && t.loop == Idle && t.registered == s.registered && t.acts == s.acts && t.actCtrl == s.actCtrl
    && t.toMsg == s.toMsg && t.toAct == s.toAct && t.ran == s.ran && t.fired == s.fired
  }

  lemma EnterAfterClear(s: SM) returns (steps: seq<Step>)
    requires s.loop.Clearing? && s.loop.rest == {}
    ensures CanRun(s, steps)
    ensures Run(s, steps) == s.(loop := Idle, calls := s.calls + [Enter(s.curr, s.prev, s.next)])
  {
    var s1 := Next(s, ClearReturns);
    RunCons(s1, EnterReturns, []);
    RunCons(s, ClearReturns, [EnterReturns] + []);
    steps := [ClearReturns] + ([EnterReturns] + []);
  }

  lemma SwitchBound(s: SM, to: string)
    ensures Switch(s, to).loop == Clearing(Bound(s), Bound(s))
  {
    assert Bound(s.(next := None, curr := Some(to), prev := s.curr)) == Bound(s);
  }

  /** The outcome of a SetState message when no state-bound action is listed. */
  predicate StateHandled(s: SM, t: SM, name: string)
    requires s.msgCtrl != []
  {
    && MessagesHandled(s, t) && t.msgCtrl == s.msgCtrl[1..] && t.threads == s.threads
    && t.elems == s.elems && (name in s.registered ==> t.curr == Some(name))
  }

  lemma HandleLeave(s: SM, name: string) returns (steps: seq<Step>)
    requires s.loop == Idle && s.msgCtrl != [] && s.msgCtrl[0] == SetState(name) && Bound(s) == {}
    requires Next(s, TakeMsg).loop.Leaving?
    ensures CanRun(s, steps) && StateHandled(s, Run(s, steps), name)
  {
    var s1 := Next(s, TakeMsg);
    var s2 := Next(s1, LeaveReturns);
    assert Bound(s1) == Bound(s);
    SwitchBound(s1, name);
    var more := EnterAfterClear(s2);
    RunCons(s1, LeaveReturns, more);
    RunCons(s, TakeMsg, [LeaveReturns] + more);
    steps := [TakeMsg] + ([LeaveReturns] + more);
  }

  lemma HandleFirstState(s: SM, name: string) returns (steps: seq<Step>)
    requires s.loop == Idle && s.msgCtrl != [] && s.msgCtrl[0] == SetState(name) && Bound(s) == {}
    requires Next(s, TakeMsg).loop.Clearing?
    ensures CanRun(s, steps) && StateHandled(s, Run(s, steps), name)
  {
    var m := s.(msgCtrl := s.msgCtrl[1..], taken := s.taken + [name]);
    assert Bound(m) == Bound(s);
    SwitchBound(m, name);
    var more := EnterAfterClear(Next(s, TakeMsg));
    RunCons(s, TakeMsg, more);
    steps := [TakeMsg] + more;
  }

  lemma HandleState(s: SM, name: string) returns (steps: seq<Step>)
    requires s.loop == Idle && s.msgCtrl != [] && s.msgCtrl[0] == SetState(name) && Bound(s) == {}
    ensures CanRun(s, steps) && StateHandled(s, Run(s, steps), name)
  {
    if Next(s, TakeMsg).loop.Leaving? {
      steps := HandleLeave(s, name);
    } else if Next(s, TakeMsg).loop.Clearing? {
      steps := HandleFirstState(s, name);
    } else {
      RunCons(s, TakeMsg, []);
      steps := [TakeMsg] + [];
    }
  }

  /** What an AddAction message comes to when nothing is listed. */
  lemma HandleAdd(s: SM, m: nat) returns (steps: seq<Step>)
    requires s.loop == Idle && s.msgCtrl != [] && s.msgCtrl[0] == AddAction(m) && m in s.acts && s.elems == map[]
    ensures CanRun(s, steps)
    ensures var t := Run(s, steps);
            && MessagesHandled(s, t) && t.msgCtrl == s.msgCtrl[1..] && t.threads == s.threads[m := Waiting]
  {
    var s1 := Next(s, TakeMsg);
    var s2 := Next(s1, Insert);
    RunCons(s2, StartThread, []);
    RunCons(s1, Insert, [StartThread] + []);
    RunCons(s, TakeMsg, [Insert] + ([StartThread] + []));
    steps := [TakeMsg] + ([Insert] + ([StartThread] + []));
  }

  lemma HandleMessage(s: SM) returns (steps: seq<Step>)
    requires Inv(s) && s.loop == Idle && s.msgCtrl != [] && s.elems == map[] && Bound(s) == {}
    ensures CanRun(s, steps)
    ensures var t := Run(s, steps);
            && MessagesHandled(s, t) && t.msgCtrl == s.msgCtrl[1..]
            && (forall x :: Fires(s, x) ==> Fires(t, x))
            && (s.msgCtrl[0].AddAction? ==> Fires(t, s.msgCtrl[0].act))
  {
    match s.msgCtrl[0]
    case SetState(name) => steps := HandleState(s, name);
    case AddAction(m) =>
      InMsgCtrl(s);
      steps := HandleAdd(s, m);
    case Other =>
      RunCons(s, TakeMsg, []);
      steps := [TakeMsg] + [];
  }

  /** All messages can be handled, the armed threads going ahead before each. */
  lemma {:induction false} HandleAll(s: SM) returns (steps: seq<Step>)
    requires Inv(s) && s.loop == Idle
    ensures CanRun(s, steps) && Inv(Run(s, steps))
    ensures var t := Run(s, steps);
            && MessagesHandled(s, t) && t.msgCtrl == [] && t.elems == map[] && Bound(t) == {}
            && (forall x :: Fires(s, x) ==> ThreadAt(t, x, Sending))
            && (forall x :: AddAction(x) in s.msgCtrl ==> ThreadAt(t, x, Sending))
    decreases |s.msgCtrl|
  {
    var settle := Settle(s);
    var s1 := Run(s, settle);
    if s.msgCtrl == [] {
      steps := settle;
    } else {
      var handle := HandleMessage(s1);
      var s2 := Run(s1, handle);
      InvOverRuns(s1, handle);
      var more := HandleAll(s2);
      RunAppend(s1, handle, more);
      RunAppend(s, settle, handle + more);
      steps := settle + (handle + more);
      forall x | AddAction(x) in s.msgCtrl
        ensures Fires(s2, x) || AddAction(x) in s2.msgCtrl
      {
        var i :| 0 <= i < |s.msgCtrl| && s.msgCtrl[i] == AddAction(x);
        assert i > 0 ==> s2.msgCtrl[i - 1] == AddAction(x);
      }
    }
  }

  // ---- bringing one record to actCtrl, and the machine to its state ----

  /** The loop idle, no message, nothing listed; a is in actCtrl or can be sent there. */
  ghost predicate Ready(s: SM, t: SM, a: nat) {
    && Inv(t) && t.loop == Idle && t.msgCtrl == [] && Bound(t) == {}
    && t.registered == s.registered && t.acts == s.acts && t.ran == s.ran
    && (a in t.actCtrl || a in t.toAct || ThreadAt(t, a, Sending))
  }

  lemma AliveIsSomewhere(s: SM, a: nat)
    requires Inv(s) && s.loop == Idle && Alive(s, a) && !ThreadAt(s, a, TookExit)
    ensures a in s.toMsg || a in s.toAct || AddAction(a) in s.msgCtrl || a in s.actCtrl || Fires(s, a)
  {
    assert Places(s, a) == One(a in s.acts);
    assert multiset(s.msgCtrl)[AddAction(a)] > 0 <==> AddAction(a) in s.msgCtrl;
    assert multiset(s.actCtrl)[a] > 0 <==> a in s.actCtrl;
    assert multiset(s.ran)[a] > 0 <==> a in s.ran;
    assert multiset(s.dropped)[a] > 0 <==> a in s.dropped;
  }

  lemma MakeReady(s: SM, a: nat) returns (steps: seq<Step>)
    requires Inv(s) && s.loop == Idle && Alive(s, a) && !ThreadAt(s, a, TookExit)
    ensures CanRun(s, steps) && Ready(s, Run(s, steps), a)
  {
    AliveIsSomewhere(s, a);
    var first := HandleAll(s);
    var t := Run(s, first);
    if a in s.toMsg {
      var t1 := Next(t, SendMsg(a));
      InvKept(t, SendMsg(a));
      assert t1.msgCtrl == [AddAction(a)] && t1.msgCtrl[0] == AddAction(a);
      var more := HandleAll(t1);
      RunCons(t, SendMsg(a), more);
      RunAppend(s, first, [SendMsg(a)] + more);
      steps := first + ([SendMsg(a)] + more);
    } else {
      steps := first;
    }
  }

  lemma StillReady(s: SM, t: SM, u: SM, a: nat)
    requires Ready(s, t, a) && MessagesHandled(t, u) && Inv(u)
    requires u.msgCtrl == [] && u.threads == t.threads && u.elems == t.elems
    ensures Ready(s, u, a)
  {
    assert Bound(u) == Bound(t);
  }

  lemma AskForState(t: SM, to: string) returns (steps: seq<Step>)
    requires t.loop == Idle && t.msgCtrl == [] && Bound(t) == {} && to in t.registered
    ensures CanRun(t, steps)
    ensures var u := Run(t, steps);
            && MessagesHandled(t, u) && u.msgCtrl == [] && u.threads == t.threads && u.elems == t.elems
            && u.curr == Some(to)
  {
    var t1 := Next(t, SendState(to));
    assert t1.msgCtrl == [SetState(to)] && Bound(t1) == Bound(t);
    var more := HandleState(t1, to);
    RunCons(t, SendState(to), more);
    steps := [SendState(to)] + more;
  }

  /** From there the machine can be brought into any registered state. */
  lemma BringTo(s: SM, t: SM, a: nat, to: string) returns (steps: seq<Step>)
    requires Ready(s, t, a) && to in s.registered
    ensures CanRun(t, steps) && Ready(s, Run(t, steps), a) && Run(t, steps).curr == Some(to)
  {
    steps := AskForState(t, to);
    InvOverRuns(t, steps);
    StillReady(s, t, Run(t, steps), a);
  }

  // ---- taking the actions ----

  predicate ActionTaken(s: SM, t: SM)
    requires s.actCtrl != []
  {
    && t.loop == Idle && t.acts == s.acts && t.curr == s.curr && t.threads == s.threads && t.toAct == s.toAct
    && t.actCtrl == s.actCtrl[1..] && |t.ran| >= |s.ran|
  }

  lemma TakeOther(s: SM) returns (steps: seq<Step>)
    requires s.loop == Idle && s.actCtrl != [] && s.actCtrl[0] in s.acts
    ensures CanRun(s, steps) && s.actCtrl != [] && ActionTaken(s, Run(s, steps))
  {
    var s1 := Next(s, TakeAct);
    if s1.loop.Running? {
      RunCons(s1, RunReturns, []);
      RunCons(s, TakeAct, [RunReturns] + []);
      steps := [TakeAct] + ([RunReturns] + []);
    } else {
      RunCons(s, TakeAct, []);
      steps := [TakeAct] + [];
    }
  }

  ghost predicate InItsState(s: SM, a: nat) {
    a in s.acts && (s.acts[a].fireInState == "" || s.curr == Some(s.acts[a].fireInState))
  }

  lemma TakeIt(s: SM, a: nat) returns (steps: seq<Step>)
    requires Inv(s) && s.loop == Idle && s.actCtrl != [] && s.actCtrl[0] == a && InItsState(s, a)
    ensures CanRun(s, steps) && Called(s, Run(s, steps), a, s.acts[a].fireInState)
  {
    RunCons(s, TakeAct, []);
    steps := [TakeAct] + [];
    var u := Next(s, TakeAct);
    assert u.ran[|s.ran|] == a && u.fired[|s.ran|] == Fired(s.acts[a].fireInState, s.curr, s.acts[a].f);
  }

  lemma CalledLater(s: SM, t: SM, u: SM, a: nat, fire: string)
    requires |t.ran| >= |s.ran| && Called(t, u, a, fire)
    ensures Called(s, u, a, fire)
  {
  }

  /** a's turn in actCtrl comes, or actCtrl empties. */
  lemma {:induction false} TakeUntil(s: SM, a: nat) returns (steps: seq<Step>)
    requires Inv(s) && s.loop == Idle && InItsState(s, a)
    ensures CanRun(s, steps)
    ensures var t := Run(s, steps);
            if a in s.actCtrl then Called(s, t, a, s.acts[a].fireInState)
            else && Inv(t) && t.loop == Idle && t.actCtrl == [] && t.acts == s.acts && t.curr == s.curr
                 && t.threads == s.threads && t.toAct == s.toAct && |t.ran| >= |s.ran|
    decreases |s.actCtrl|
  {
    if s.actCtrl == [] {
      steps := [];
    } else if s.actCtrl[0] == a {
      steps := TakeIt(s, a);
    } else {
      InActCtrl(s);
      var first := TakeOther(s);
      var t := Run(s, first);
      InvOverRuns(s, first);
      assert a in s.actCtrl <==> a in t.actCtrl by { assert s.actCtrl == [s.actCtrl[0]] + t.actCtrl; }
      var more := TakeUntil(t, a);
      RunAppend(s, first, more);
      steps := first + more;
      if a in s.actCtrl {
        CalledLater(s, t, Run(t, more), a, s.acts[a].fireInState);
      }
    }
  }

  lemma TakeReady(s: SM, a: nat) returns (steps: seq<Step>)
    requires Inv(s) && s.loop == Idle && InItsState(s, a)
    requires a in s.actCtrl || a in s.toAct || ThreadAt(s, a, Sending)
    ensures CanRun(s, steps) && Called(s, Run(s, steps), a, s.acts[a].fireInState)
  {
    var first := TakeUntil(s, a);
    if a in s.actCtrl {
      steps := first;
    } else {
      var t := Run(s, first);
      var send := if a in s.toAct then SendAct(a) else ThreadSends(a);
      var t1 := Next(t, send);
      InvKept(t, send);
      assert t1.actCtrl == [a];
      var last := TakeIt(t1, a);
      RunCons(t, send, last);
      RunAppend(s, first, [send] + last);
      steps := first + ([send] + last);
      CalledLater(s, t1, Run(t1, last), a, s.acts[a].fireInState);
    }
  }

  /** Every record that is alive, has not taken the exit branch and is bound to no state or a
      registered one can be called. */
  lemma CanBeCalled(s: SM, a: nat) returns (steps: seq<Step>)
    requires Inv(s) && s.loop == Idle && Alive(s, a) && !ThreadAt(s, a, TookExit)
    requires s.acts[a].fireInState == "" || s.acts[a].fireInState in s.registered
    ensures CanRun(s, steps) && Called(s, Run(s, steps), a, s.acts[a].fireInState)
  {
    var fire := s.acts[a].fireInState;
    steps := MakeReady(s, a);
    var t := Run(s, steps);
    if fire != "" {
      var bring := BringTo(s, t, a, fire);
      RunAppend(s, steps, bring);
      t := Run(t, bring);
      steps := steps + bring;
    }
    var take := TakeReady(t, a);
    RunAppend(s, steps, take);
    CalledLater(s, t, Run(t, take), a, fire);
    steps := steps + take;
  }

  // ---- and no other ----

  lemma {:induction false} EndsStay(s: SM, steps: seq<Step>)
    requires CanRun(s, steps)
    ensures var u := Run(s, steps); s.ran <= u.ran && s.dropped <= u.dropped && s.registered == u.registered
    decreases |steps|
  {
    if steps != [] {
      EndsStay(Next(s, steps[0]), steps[1..]);
    }
  }

  lemma CurrIsRegistered(s: SM)
    requires Inv(s)
    ensures s.curr.Some? ==> s.curr.value in s.registered
  {
  }

  /** From place n on, what was called was called in a registered state or in none. */
  predicate FiredRegistered(registered: set<string>, fired: seq<Fired>, n: nat) {
    forall i :: n <= i < |fired| && fired[i].curr.Some? ==> fired[i].curr.value in registered
  }

  lemma StepFiresRegistered(s: SM, step: Step)
    requires (s.curr.Some? ==> s.curr.value in s.registered) && Enabled(s, step)
    ensures FiredRegistered(s.registered, Next(s, step).fired, |s.fired|)
    ensures Next(s, step).registered == s.registered && |Next(s, step).fired| >= |s.fired|
  {
    if !step.TakeAct? {
      assert Next(s, step).fired == s.fired;
    }
  }

  lemma FiredJoin(registered: set<string>, first: seq<Fired>, all: seq<Fired>, n: nat)
    requires FiredRegistered(registered, first, n) && first <= all && FiredRegistered(registered, all, |first|)
    ensures FiredRegistered(registered, all, n)
  {
    forall i | n <= i < |all| && all[i].curr.Some?
      ensures all[i].curr.value in registered
    {
      if i < |first| { assert all[i] == first[i]; }
    }
  }

  lemma {:induction false} CalledInRegistered(s: SM, steps: seq<Step>)
    requires Inv(s) && CanRun(s, steps)
    ensures FiredRegistered(s.registered, Run(s, steps).fired, |s.fired|)
    decreases |steps|
  {
    if steps != [] {
      var t := Next(s, steps[0]);
      CurrIsRegistered(s);
      StepFiresRegistered(s, steps[0]);
      InvKept(s, steps[0]);
      CalledInRegistered(t, steps[1..]);
      FiredStay(t, steps[1..]);
      FiredJoin(s.registered, t.fired, Run(s, steps).fired, |s.fired|);
    }
  }

  lemma {:induction false} FiredStay(s: SM, steps: seq<Step>)
    requires CanRun(s, steps)
    ensures s.fired <= Run(s, steps).fired
    decreases |steps|
  {
    if steps != [] {
      FiredStay(Next(s, steps[0]), steps[1..]);
    }
  }

  lemma CalledMeansRegistered(s: SM, steps: seq<Step>, a: nat, fire: string)
    requires Inv(s) && CanRun(s, steps) && Called(s, Run(s, steps), a, fire)
    ensures fire == "" || fire in s.registered
  {
    var u := Run(s, steps);
    InvOverRuns(s, steps);
    CalledInRegistered(s, steps);
    var i :| |s.ran| <= i < |u.ran| && u.ran[i] == a && u.fired[i].fireInState == fire;
    assert fire != "" ==> u.fired[i].curr == Some(fire);
  }

  lemma PrefixMember(p: seq<nat>, q: seq<nat>, a: nat)
    requires p <= q && a !in q
    ensures a !in p
  {
  }

  lemma Twice(q: seq<nat>, i: nat, j: nat)
    requires i < j < |q| && q[i] == q[j]
    ensures multiset(q)[q[i]] >= 2
  {
    var a, b := q[..j], q[j..];
    assert q == a + b && a[i] in a && b[0] in b;
    assert multiset(q)[q[i]] == multiset(a)[q[i]] + multiset(b)[q[i]];
  }

  lemma NotRanBefore(s: SM, u: SM, a: nat, fire: string)
    requires Called(s, u, a, fire) && s.ran <= u.ran && multiset(u.ran)[a] <= 1
    ensures a !in s.ran
  {
    var j :| |s.ran| <= j < |u.ran| && u.ran[j] == a;
    forall i | 0 <= i < |s.ran|
      ensures s.ran[i] != a
    {
      assert s.ran[i] == u.ran[i];
      if u.ran[i] == a { Twice(u.ran, i, j); }
    }
  }

  lemma CalledMeansAlive(s: SM, steps: seq<Step>, a: nat, fire: string)
    requires Inv(s) && CanRun(s, steps) && Called(s, Run(s, steps), a, fire) && a in s.acts
    ensures Alive(s, a) && !ThreadAt(s, a, TookExit)
  {
    var u := Run(s, steps);
    InvOverRuns(s, steps);
    EndsStay(s, steps);
    assert a in u.ran && Places(u, a) == One(a in u.acts);
    assert multiset(u.ran)[a] >= 1;
    assert a !in u.dropped by { assert multiset(u.dropped)[a] == 0; }
    PrefixMember(s.dropped, u.dropped, a);
    NotRanBefore(s, u, a, fire);
    if a in s.merged { StaysMerged(s, steps, a); }
    if Exited(s, a) { StaysExited(s, {a}, steps); }
  }

  /** Some continuation calls record a with the FireInState it holds now. */
  ghost predicate Callable(s: SM, a: nat)
    requires a in s.acts
  {
    exists later :: CanRun(s, later) && Called(s, Run(s, later), a, s.acts[a].fireInState)
  }

  /** At every reachable state at which the loop is idle: a record can still be called if and only if
      it has not come to its end, its thread has not taken the exit branch, and it is bound to no
      state or to a registered one. */
  lemma CallableIff(s: SM, a: nat)
    requires Inv(s) && s.loop == Idle && a in s.acts
    ensures Callable(s, a) <==>
            && Alive(s, a) && !ThreadAt(s, a, TookExit)
            && (s.acts[a].fireInState == "" || s.acts[a].fireInState in s.registered)
  {
    if Alive(s, a) && !ThreadAt(s, a, TookExit)
       && (s.acts[a].fireInState == "" || s.acts[a].fireInState in s.registered) {
      var steps := CanBeCalled(s, a);
    }
    if Callable(s, a) {
      var later :| CanRun(s, later) && Called(s, Run(s, later), a, s.acts[a].fireInState);
      CalledMeansAlive(s, later, a, s.acts[a].fireInState);
      CalledMeansRegistered(s, later, a, s.acts[a].fireInState);
    }
  }

  // ---- which F is called, and when ----

  /** The step takes an AddAction message of another record with a's id. */
  predicate ReAdds(s: SM, step: Step, a: nat)
    requires a in s.acts
  {
    && step.TakeMsg? && s.msgCtrl != [] && s.msgCtrl[0].AddAction? && s.msgCtrl[0].act != a
    && s.msgCtrl[0].act in s.acts && s.acts[s.msgCtrl[0].act].id == s.acts[a].id
  }

  ghost predicate NeverReAdded(s: SM, steps: seq<Step>, a: nat)
    requires CanRun(s, steps)
    decreases |steps|
  {
    a in s.acts && (steps == [] || (!ReAdds(s, steps[0], a) && NeverReAdded(Next(s, steps[0]), steps[1..], a)))
  }

  lemma RecordKept(s: SM, step: Step, a: nat)
    requires ListMatchesThreads(s) && Enabled(s, step) && a in s.acts && !ReAdds(s, step, a)
    ensures a in Next(s, step).acts && Next(s, step).acts[a] == s.acts[a]
  {
  }

  /** A step calls at most one F: that of the record it takes, as the record is then. */
  lemma StepCalls(s: SM, step: Step)
    requires Enabled(s, step) && |s.ran| == |s.fired|
    ensures var t := Next(s, step);
            || (t.ran == s.ran && t.fired == s.fired)
            || exists a :: a in s.acts && t.ran == s.ran + [a]
                           && t.fired == s.fired + [Fired(s.acts[a].fireInState, s.curr, s.acts[a].f)]
  {
    if step.TakeAct? {
      assert s.actCtrl[0] in s.acts;
    }
  }

  /** From place n on, every call of record a is a call of this F in this state or in none. */
  predicate CallsOf(u: SM, a: nat, n: nat, what: Action) {
    && |u.ran| == |u.fired|
    && forall i :: n <= i < |u.ran| && u.ran[i] == a ==>
         u.fired[i].f == what.f && u.fired[i].fireInState == what.fireInState
  }

  lemma CallsFromLater(s: SM, t: SM, u: SM, a: nat)
    requires a in s.acts && |s.ran| == |s.fired| && t.ran <= u.ran && t.fired <= u.fired && |t.ran| == |t.fired|
    requires || (t.ran == s.ran && t.fired == s.fired)
             || exists x :: x in s.acts && t.ran == s.ran + [x]
                            && t.fired == s.fired + [Fired(s.acts[x].fireInState, s.curr, s.acts[x].f)]
    requires CallsOf(u, a, |t.ran|, s.acts[a])
    ensures CallsOf(u, a, |s.ran|, s.acts[a])
  {
    forall i | |s.ran| <= i < |u.ran| && u.ran[i] == a
      ensures u.fired[i].f == s.acts[a].f && u.fired[i].fireInState == s.acts[a].fireInState
    {
      if i < |t.ran| {
        assert u.ran[i] == t.ran[i] && u.fired[i] == t.fired[i];
      }
    }
  }

  /** While no other AddAction of its id is taken, a record's calls are calls of its own F. */
  lemma {:induction false} CallsItsF(s: SM, steps: seq<Step>, a: nat)
    requires Inv(s) && CanRun(s, steps) && NeverReAdded(s, steps, a)
    ensures CallsOf(Run(s, steps), a, |s.ran|, s.acts[a])
    decreases |steps|
  {
    if steps != [] {
      var t := Next(s, steps[0]);
      InvKept(s, steps[0]);
      RecordKept(s, steps[0], a);
      StepCalls(s, steps[0]);
      CallsItsF(t, steps[1..], a);
      EndsStay(t, steps[1..]);
      FiredStay(t, steps[1..]);
      CallsFromLater(s, t, Run(s, steps), a);
    }
  }

  /** What AddAction was given is what is called, unless another AddAction of the id is taken. */
  lemma AddedIsCalled(s: SM, step: Step, a: nat, what: Action, later: seq<Step>)
    requires Inv(s) && Enabled(s, step) && (step == CreateDelayed(a, what) || step == CreateImmediate(a, what))
    requires CanRun(Next(s, step), later) && NeverReAdded(Next(s, step), later, a)
    ensures CallsOf(Run(Next(s, step), later), a, |s.ran|, what)
  {
    InvKept(s, step);
    CallsItsF(Next(s, step), later, a);
  }

  /** After an AddAction of a listed id the listed record is called with the new F and FireInState, until
      a further one. */
  lemma ReAddedCallsNewF(s: SM, later: seq<Step>)
    requires Inv(s) && Enabled(s, TakeMsg) && s.msgCtrl[0].AddAction? && s.acts[s.msgCtrl[0].act].id in s.elems
    requires CanRun(Next(s, TakeMsg), later)
    requires NeverReAdded(Next(s, TakeMsg), later, s.elems[s.acts[s.msgCtrl[0].act].id])
    ensures var m := s.msgCtrl[0].act;
            CallsOf(Run(Next(s, TakeMsg), later), s.elems[s.acts[m].id], |s.ran|, s.acts[m])
  {
    InvKept(s, TakeMsg);
    CallsItsF(Next(s, TakeMsg), later, s.elems[s.acts[s.msgCtrl[0].act].id]);
  }

  /** What the step puts into actCtrl, and which record it calls or drops. */
  function SentBy(step: Step): seq<nat> {
    if step.SendAct? || step.ThreadSends? then [step.act] else []
  }

  function EndedBy(s: SM, t: SM): seq<nat>
    requires |s.ran| <= |t.ran| && |s.dropped| <= |t.dropped|
  {
    t.ran[|s.ran|..] + t.dropped[|s.dropped|..]
  }

  function SentIn(steps: seq<Step>): seq<nat> {
    if steps == [] then [] else SentBy(steps[0]) + SentIn(steps[1..])
  }

  function EndedIn(s: SM, steps: seq<Step>): seq<nat>
    requires CanRun(s, steps)
    decreases |steps|
  {
    if steps == [] then []
    else
      OneEnds(s, steps[0]);
      EndedBy(s, Next(s, steps[0])) + EndedIn(Next(s, steps[0]), steps[1..])
  }

  lemma OneEnds(s: SM, step: Step)
    requires Enabled(s, step)
    ensures s.ran <= Next(s, step).ran && s.dropped <= Next(s, step).dropped
    ensures s.actCtrl + SentBy(step) == EndedBy(s, Next(s, step)) + Next(s, step).actCtrl
  {
    if step.TakeAct? {
      assert s.actCtrl == [s.actCtrl[0]] + s.actCtrl[1..];
    }
  }

  lemma Queued(a: seq<nat>, b: seq<nat>, c: seq<nat>, d: seq<nat>, e: seq<nat>, f: seq<nat>, g: seq<nat>)
    requires a + b == c + d && d + e == f + g
    ensures a + (b + e) == (c + f) + g
  {
    assert a + (b + e) == (a + b) + e == c + (d + e);
  }

  /** Actions are called or dropped in the order in which they were put into actCtrl. */
  lemma {:induction false} ActionsInOrder(s: SM, steps: seq<Step>)
    requires CanRun(s, steps)
    ensures s.actCtrl + SentIn(steps) == EndedIn(s, steps) + Run(s, steps).actCtrl
    decreases |steps|
  {
    if steps != [] {
      var t := Next(s, steps[0]);
      OneEnds(s, steps[0]);
      ActionsInOrder(t, steps[1..]);
      Queued(s.actCtrl, SentBy(steps[0]), EndedBy(s, t), t.actCtrl, SentIn(steps[1..]),
             EndedIn(t, steps[1..]), Run(s, steps).actCtrl);
    }
  }

  // ---- an action added again ----

  lemma MergedIsAlive(s: SM)
    requires Inv(s) && Enabled(s, TakeMsg) && s.msgCtrl[0].AddAction? && s.acts[s.msgCtrl[0].act].id in s.elems
    ensures var m := s.msgCtrl[0].act;
            var a := s.elems[s.acts[m].id];
            var t := Next(s, TakeMsg);
            && Inv(t) && t.loop == Idle && a in t.acts && t.acts[a].fireInState == s.acts[m].fireInState
            && t.registered == s.registered && Alive(t, a) && t.threads == s.threads && m in t.merged
  {
    var a := s.elems[s.acts[s.msgCtrl[0].act].id];
    var t := Next(s, TakeMsg);
    InvKept(s, TakeMsg);
    assert Live(s, a);
    assert Places(t, a) == One(a in t.acts);
    assert multiset(t.ran)[a] == 0 && multiset(t.dropped)[a] == 0;
  }

  /** An AddAction of a listed id: the listed record, which now holds the new FireInState, can be
      called if and only if its thread has not taken the exit branch and that state is none or
      registered; the new record itself never is. */
  lemma ReAddedIff(s: SM)
    requires Inv(s) && Enabled(s, TakeMsg) && s.msgCtrl[0].AddAction? && s.acts[s.msgCtrl[0].act].id in s.elems
    ensures var m := s.msgCtrl[0].act;
            var a := s.elems[s.acts[m].id];
            var t := Next(s, TakeMsg);
            && a in t.acts && m in t.acts && !Callable(t, m)
            && (Callable(t, a) <==>
                !ThreadAt(s, a, TookExit) && (s.acts[m].fireInState == "" || s.acts[m].fireInState in s.registered))
  {
    var m := s.msgCtrl[0].act;
    MergedIsAlive(s);
    InMsgCtrl(s);
    CallableIff(Next(s, TakeMsg), s.elems[s.acts[m].id]);
    CallableIff(Next(s, TakeMsg), m);
  }

  lemma StopAndAddAgain(s: SM, a: nat, b: nat, what: Action) returns (steps: seq<Step>)
    requires s.loop == Idle && s.msgCtrl == [] && ThreadAt(s, a, Waiting) && b !in s.acts && b !in s.toMsg
    ensures CanRun(s, steps)
    ensures Run(s, steps) ==
            s.(threads := s.threads[a := TookExit], acts := s.acts[b := what], msgCtrl := [AddAction(b)])
  {
    var s1 := Next(s, ClientStops(a));
    var s2 := Next(s1, CreateDelayed(b, what));
    assert s2.toMsg - {b} == s.toMsg;
    RunCons(s2, SendMsg(b), []);
    RunCons(s1, CreateDelayed(b, what), [SendMsg(b)] + []);
    RunCons(s, ClientStops(a), [CreateDelayed(b, what)] + ([SendMsg(b)] + []));
    steps := [ClientStops(a)] + ([CreateDelayed(b, what)] + ([SendMsg(b)] + []));
  }

  /** A run from the start that comes to such an AddAction with the thread on the exit branch. */
  lemma ReAddedTooLate(id: string, f: nat, g: nat) returns (steps: seq<Step>)
    ensures CanRun(Initial({}), steps)
    ensures var s := Run(Initial({}), steps);
            && Inv(s) && Enabled(s, TakeMsg) && s.msgCtrl[0] == AddAction(1)
            && s.acts[1] == Action(id, "", g) && id in s.elems && s.acts[s.elems[id]] == Action(id, "", f)
            && ThreadAt(s, s.elems[id], TookExit)
  {
    var s := Initial({});
    var arm := Arm(s, 0, Action(id, "", f));
    var again := StopAndAddAgain(Run(s, arm), 0, 1, Action(id, "", g));
    RunAppend(s, arm, again);
    steps := arm + again;
    InvInitially({});
    InvOverRuns(s, steps);
  }

  // ---- a switch of states ----

  /** ClearActions stops the threads it still has to stop, and Enter returns. */
  lemma {:induction false} FinishSwitch(s: SM) returns (steps: seq<Step>)
    requires s.loop.Clearing? && forall a :: a in s.loop.rest ==> ThreadAt(s, a, Waiting)
    ensures CanRun(s, steps)
    ensures var v := Run(s, steps);
            && v.loop == Idle && v.acts == s.acts && v.registered == s.registered
            && v.merged == s.merged && v.stopped == s.stopped && v.ran == s.ran && v.dropped == s.dropped
            && forall x :: x !in s.loop.rest && ThreadAt(v, x, TookExit) ==> ThreadAt(s, x, TookExit)
    decreases |s.loop.rest|
  {
    if a :| a in s.loop.rest {
      var t := Next(s, ClearOne(a));
      SmallerSet(t.loop.rest, s.loop.rest);
      var more := FinishSwitch(t);
      RunCons(s, ClearOne(a), more);
      steps := [ClearOne(a)] + more;
    } else {
      assert s.loop.rest == {};
      steps := EnterAfterClear(s);
    }
  }

  /** Record a is called on some continuation on which the ClearActions now running has returned. */
  ghost predicate RunsAfterClear(t: SM, a: nat, fire: string) {
    exists steps, later ::
      && CanRun(t, steps) && !Run(t, steps).loop.Clearing?
      && CanRun(Run(t, steps), later) && Called(Run(t, steps), Run(Run(t, steps), later), a, fire)
  }

  /** The state when ClearActions has the lock. */
  ghost predicate SwitchBegun(s: SM, t: SM) {
    && t.loop.Clearing? && t.loop.found == t.loop.rest == Bound(s)
    && t.threads == s.threads && t.acts == s.acts && t.registered == s.registered
    && t.merged == s.merged && t.stopped == s.stopped && t.ran == s.ran && t.dropped == s.dropped
  }

  lemma BegunByMessage(s: SM)
    requires Enabled(s, TakeMsg) && Next(s, TakeMsg).loop.Clearing?
    ensures SwitchBegun(s, Next(s, TakeMsg))
  {
    assert s.msgCtrl[0].SetState?;
    var name := s.msgCtrl[0].name;
    var m := s.(msgCtrl := s.msgCtrl[1..], taken := s.taken + [name]);
    assert Next(s, TakeMsg) == Switch(m, name);
    SwitchFrame(m, name);
    SwitchFindsBound(s, TakeMsg);
  }

  lemma BegunByLeave(s: SM)
    requires Enabled(s, LeaveReturns)
    ensures SwitchBegun(s, Next(s, LeaveReturns))
  {
    SwitchFrame(s, s.loop.to);
    SwitchFindsBound(s, LeaveReturns);
  }

  lemma BoundSince(s: SM, step: Step)
    requires Enabled(s, step) && !s.loop.Clearing? && Next(s, step).loop.Clearing?
    ensures SwitchBegun(s, Next(s, step))
  {
    assert step.TakeMsg? || step.LeaveReturns?;
    if step.TakeMsg? { BegunByMessage(s); } else { BegunByLeave(s); }
  }

  lemma SwitchFrame(s: SM, to: string)
    ensures var t := Switch(s, to);
            && t.loop.Clearing? && t.loop.found == t.loop.rest && t.threads == s.threads && t.acts == s.acts
            && t.registered == s.registered && t.merged == s.merged && t.stopped == s.stopped
            && t.ran == s.ran && t.dropped == s.dropped
  {
  }

  lemma ArmedIsBound(s: SM, a: nat)
    requires Inv(s) && !s.loop.Starting? && a in s.acts && s.acts[a].fireInState != ""
    requires a in s.threads && s.threads[a] != Sending
    ensures a in Bound(s)
  {
    assert Live(s, a);
  }

  lemma UnlistedRunsAfterClear(s: SM, step: Step, a: nat)
    requires Inv(s) && Enabled(s, step) && !s.loop.Clearing? && Next(s, step).loop.Clearing?
    requires forall b :: b in Bound(s) ==> ThreadAt(s, b, Waiting)
    requires Alive(s, a) && s.acts[a].fireInState in s.registered && s.acts[a].fireInState != "" && a !in Bound(s)
    ensures RunsAfterClear(Next(s, step), a, s.acts[a].fireInState)
  {
    var t := Next(s, step);
    BoundSince(s, step);
    if ThreadAt(s, a, TookExit) { ArmedIsBound(s, a); }
    InvKept(s, step);
    var steps := FinishSwitch(t);
    var v := Run(t, steps);
    InvOverRuns(t, steps);
    var later := CanBeCalled(v, a);
  }

  lemma RunsMeansUnlisted(s: SM, step: Step, a: nat, steps: seq<Step>, later: seq<Step>)
    requires Inv(s) && Enabled(s, step) && !s.loop.Clearing? && Next(s, step).loop.Clearing? && a in s.acts
    requires CanRun(Next(s, step), steps) && !Run(Next(s, step), steps).loop.Clearing?
    requires var v := Run(Next(s, step), steps);
             CanRun(v, later) && Called(v, Run(v, later), a, s.acts[a].fireInState)
    ensures a !in Bound(s) && (s.acts[a].fireInState == "" || s.acts[a].fireInState in s.registered)
  {
    var t := Next(s, step);
    NoListedActionOutlivesASwitch(s, step, steps, later);
    InvKept(s, step);
    InvOverRuns(t, steps);
    BoundSince(s, step);
    EndsStay(t, steps);
    CalledMeansRegistered(Run(t, steps), later, a, s.acts[a].fireInState);
  }

  /** A switch of states begins while the threads of all listed state-bound actions are at their
      select, so that its ClearActions can return. A state-bound action alive at that moment can still
      be called afterwards if and only if it is not listed and its state is registered. */
  lemma OutlivesSwitchIff(s: SM, step: Step, a: nat)
    requires Inv(s) && Enabled(s, step) && !s.loop.Clearing? && Next(s, step).loop.Clearing?
    requires forall b :: b in Bound(s) ==> ThreadAt(s, b, Waiting)
    requires Alive(s, a) && s.acts[a].fireInState != ""
    ensures RunsAfterClear(Next(s, step), a, s.acts[a].fireInState) <==>
            a !in Bound(s) && s.acts[a].fireInState in s.registered
  {
    var t, fire := Next(s, step), s.acts[a].fireInState;
    if a !in Bound(s) && fire in s.registered {
      UnlistedRunsAfterClear(s, step, a);
    }
    if RunsAfterClear(t, a, fire) {
      var steps, later :| CanRun(t, steps) && !Run(t, steps).loop.Clearing?
        && CanRun(Run(t, steps), later) && Called(Run(t, steps), Run(Run(t, steps), later), a, fire);
      RunsMeansUnlisted(s, step, a, steps, later);
    }
  }

  // ---- a switch that hangs ----

  /** A run from the start to a ClearActions that never returns: the listed action's timer has fired
      before the switch. */
  lemma ClearCanHang(home: string, away: string, id: string, f: nat) returns (steps: seq<Step>)
    requires home != away && home != ""
    ensures CanRun(Initial({home, away}), steps)
    ensures var s := Run(Initial({home, away}), steps);
            && s.loop.Clearing? && forall later :: CanRun(s, later) ==> Run(s, later).loop != Entering
  {
    var s := Initial({home, away});
    var visit := FirstVisit(home, away);
    var s1 := Run(s, visit);
    var arm := Arm(s1, 0, Action(id, home, f));
    var s2 := Run(s1, arm);
    var s3 := Next(s2, TimerFires(0));
    var s4 := Next(s3, SendState(away));
    var s5 := Next(s4, TakeMsg);
    var s6 := Next(s5, LeaveReturns);
    RunCons(s5, LeaveReturns, []);
    RunCons(s4, TakeMsg, [LeaveReturns] + []);
    RunCons(s3, SendState(away), [TakeMsg] + ([LeaveReturns] + []));
    RunCons(s2, TimerFires(0), [SendState(away)] + ([TakeMsg] + ([LeaveReturns] + [])));
    steps := [TimerFires(0)] + ([SendState(away)] + ([TakeMsg] + ([LeaveReturns] + [])));
    RunAppend(s1, arm, steps);
    RunAppend(s, visit, arm + steps);
    steps := visit + (arm + steps);
    InvInitially({home, away});
    InvOverRuns(s, steps);
    SwitchBound(s5, away);
    assert s5.elems[id] == 0 && 0 in Bound(s5);
    assert Stuck(s6, 0);
    forall later | CanRun(s6, later)
      ensures Run(s6, later).loop != Entering
    {
      StuckForEver(s6, later, 0);
    }
  }
}
