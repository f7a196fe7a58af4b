/** The concurrent state machine (StateMachine/sm.go) as an interleaving transition system: the
    single stateLoop, its two bounded channels, the lock of the action list, one thread per
    delayed action, and any number of clients that call AddAction, SetState or Stop.
    A record (an *Action value) is a number; timers fire at any time. */
module StateMachine {
  import opened Options
  import opened Sequences

  const CHANNEL_CAPACITY: nat := 8

  /** The fields of an Action that decide anything. Only FireInState and F are ever rewritten. */
  datatype Action = Action(id: string, fireInState: string, f: nat)

  datatype Message = SetState(name: string) | AddAction(act: nat) | Other

  /** Where the thread of an action is: at its select; past the select by the timer or by the
      exit channel, waiting for the lock; or done with its delete and sending on actCtrl. */
  datatype ThreadPC = Waiting | TookTimer | TookExit | Sending

  /** Where stateLoop is. Clearing is the only place at which it holds the list's lock over
      several steps: found are the state-bound entries, rest those still to be stopped. */
  datatype LoopPC =
    | Idle
    | Adding(act: nat)
    | Starting(act: nat)
    | Leaving(to: string)
    | Clearing(found: set<nat>, rest: set<nat>)
    | Entering
    | Running(act: nat)

  /** Handler calls with the fields they can read. */
  datatype Call =
    | Enter(state: Option<string>, prev: Option<string>, next: Option<string>)
    | Leave(state: Option<string>, next: Option<string>)

  /** FireInState and the current state at the moment an action's F is called, and which F that is. */
  datatype Fired = Fired(fireInState: string, curr: Option<string>, f: nat)

  datatype SM = SM(
    registered: set<string>,
    curr: Option<string>, prev: Option<string>, next: Option<string>,
    loop: LoopPC,
    msgCtrl: seq<Message>, actCtrl: seq<nat>,
    acts: map<nat, Action>,
    elems: map<string, nat>,
    threads: map<nat, ThreadPC>,
    toMsg: set<nat>, toAct: set<nat>,
    merged: set<nat>, stopped: set<nat>,
    ran: seq<nat>, fired: seq<Fired>, dropped: seq<nat>,
    sent: seq<string>, taken: seq<string>, calls: seq<Call>)

  datatype Step =
    | CreateDelayed(act: nat, what: Action)
    | CreateImmediate(act: nat, what: Action)
    | SendMsg(act: nat)
    | SendAct(act: nat)
    | SendState(name: string)
    | SendOther
    | TakeMsg
    | Insert
    | StartThread
    | LeaveReturns
    | ClearOne(act: nat)
    | ClearReturns
    | EnterReturns
    | TakeAct
    | RunReturns
    | TimerFires(act: nat)
    | ClientStops(act: nat)
    | ThreadDeletes(act: nat)
    | ThreadSends(act: nat)

  function Initial(registered: set<string>): SM {
    SM(registered, None, None, None, Idle, [], [], map[], map[], map[],
       {}, {}, {}, {}, [], [], [], [], [], [])
  }

  // ---- one step ----

  predicate ThreadAt(s: SM, a: nat, pc: ThreadPC) {
    a in s.threads && s.threads[a] == pc
  }

  predicate Enabled(s: SM, step: Step) {
    match step
    case CreateDelayed(a, _) => a !in s.acts
    case CreateImmediate(a, _) => a !in s.acts
    case SendMsg(a) => a in s.toMsg && |s.msgCtrl| < CHANNEL_CAPACITY
    case SendAct(a) => a in s.toAct && |s.actCtrl| < CHANNEL_CAPACITY
    case SendState(_) => |s.msgCtrl| < CHANNEL_CAPACITY
    case SendOther => |s.msgCtrl| < CHANNEL_CAPACITY
    case TakeMsg => s.loop == Idle && s.msgCtrl != [] && (s.msgCtrl[0].AddAction? ==> s.msgCtrl[0].act in s.acts)
    case Insert => s.loop.Adding? && s.loop.act in s.acts
    case StartThread => s.loop.Starting?
    case LeaveReturns => s.loop.Leaving?
    case ClearOne(a) => s.loop.Clearing? && a in s.loop.rest && ThreadAt(s, a, Waiting)
    case ClearReturns => s.loop.Clearing? && s.loop.rest == {}
    case EnterReturns => s.loop == Entering
    case TakeAct => s.loop == Idle && s.actCtrl != [] && s.actCtrl[0] in s.acts
    case RunReturns => s.loop.Running?
    case TimerFires(a) => ThreadAt(s, a, Waiting)
    case ClientStops(a) => ThreadAt(s, a, Waiting)
    case ThreadDeletes(a) =>
      (ThreadAt(s, a, TookTimer) || ThreadAt(s, a, TookExit)) && a in s.acts && !s.loop.Clearing?
    case ThreadSends(a) => ThreadAt(s, a, Sending) && |s.actCtrl| < CHANNEL_CAPACITY
  }

  /** The state-bound entries ClearActions stops. */
  function Bound(s: SM): set<nat> {
    set id | id in s.elems && s.elems[id] in s.acts && s.acts[s.elems[id]].fireInState != "" :: s.elems[id]
  }

  /** onStateMessage from the switch of states to the lock taken by ClearActions. */
  function Switch(s: SM, to: string): SM {
    var t := s.(next := None, curr := Some(to), prev := s.curr);
    t.(loop := Clearing(Bound(t), Bound(t)))
  }

  function OnStateMessage(s: SM, name: string): SM {
    if s.registered == {} then s
    else if name in s.registered && s.curr == Some(name) then s
    else if name !in s.registered then s
    else if s.curr.Some? then
      s.(next := Some(name), loop := Leaving(name), calls := s.calls + [Leave(s.curr, Some(name))])
    else Switch(s, name)
  }

  /** A second AddAction of an id rewrites the listed record and forgets the new one. */
  function OnAddActionMessage(s: SM, m: nat): SM
    requires m in s.acts
  {
    var id := s.acts[m].id;
    if id in s.elems && s.elems[id] in s.acts then
      var a := s.elems[id];
      s.(acts := s.acts[a := s.acts[a].(fireInState := s.acts[m].fireInState, f := s.acts[m].f)],
         merged := s.merged + {m})
    else s.(loop := Adding(m))
  }

  function Next(s: SM, step: Step): SM
    requires Enabled(s, step)
  {
    match step
    case CreateDelayed(a, what) => s.(acts := s.acts[a := what], toMsg := s.toMsg + {a})
    case CreateImmediate(a, what) => s.(acts := s.acts[a := what], toAct := s.toAct + {a})
    case SendMsg(a) => s.(msgCtrl := s.msgCtrl + [AddAction(a)], toMsg := s.toMsg - {a})
    case SendAct(a) => s.(actCtrl := s.actCtrl + [a], toAct := s.toAct - {a})
    case SendState(name) => s.(msgCtrl := s.msgCtrl + [SetState(name)], sent := s.sent + [name])
    case SendOther => s.(msgCtrl := s.msgCtrl + [Other])
    case TakeMsg =>
      var t := s.(msgCtrl := s.msgCtrl[1..]);
      (match s.msgCtrl[0]
       case SetState(name) => OnStateMessage(t.(taken := s.taken + [name]), name)
       case AddAction(m) => OnAddActionMessage(t, m)
       case Other => t)
    case Insert => s.(elems := s.elems[s.acts[s.loop.act].id := s.loop.act], loop := Starting(s.loop.act))
    case StartThread => s.(threads := s.threads[s.loop.act := Waiting], loop := Idle)
    case LeaveReturns => Switch(s, s.loop.to)
    case ClearOne(a) =>
      s.(threads := s.threads[a := TookExit], loop := Clearing(s.loop.found, s.loop.rest - {a}))
    case ClearReturns => s.(loop := Entering, calls := s.calls + [Enter(s.curr, s.prev, s.next)])
    case EnterReturns => s.(loop := Idle)
    case TakeAct =>
      var a := s.actCtrl[0];
      var t := s.(actCtrl := s.actCtrl[1..]);
      var fire := s.acts[a].fireInState;
      if |fire| > 0 && s.curr != Some(fire) then t.(dropped := s.dropped + [a])
      else t.(loop := Running(a), ran := s.ran + [a], fired := s.fired + [Fired(fire, s.curr, s.acts[a].f)])
    case RunReturns => s.(loop := Idle)
    case TimerFires(a) => s.(threads := s.threads[a := TookTimer])
    case ClientStops(a) => s.(threads := s.threads[a := TookExit])
    case ThreadDeletes(a) =>
      var t := s.(elems := s.elems - {s.acts[a].id});
      if s.threads[a] == TookTimer then t.(threads := s.threads[a := Sending])
      else t.(threads := s.threads - {a}, stopped := s.stopped + {a})
    case ThreadSends(a) => s.(threads := s.threads - {a}, actCtrl := s.actCtrl + [a])
  }

  // ---- runs ----

  predicate CanRun(s: SM, steps: seq<Step>)
    decreases |steps|
  {
    steps == [] || (Enabled(s, steps[0]) && CanRun(Next(s, steps[0]), steps[1..]))
  }

  function Run(s: SM, steps: seq<Step>): SM
    requires CanRun(s, steps)
    decreases |steps|
  {
    if steps == [] then s else Run(Next(s, steps[0]), steps[1..])
  }

  // ---- the list and the threads ----

  /** a's thread exists, or the loop is about to start it, and it has not done its delete. */
  predicate Live(s: SM, a: nat) {
    (a in s.threads && s.threads[a] != Sending) || s.loop == Starting(a)
  }

  /** The list holds action a under an id exactly when a has that id and is live. */
  ghost predicate ListMatchesThreads(s: SM) {
    && (forall id :: id in s.elems ==>
          Live(s, s.elems[id]) && s.elems[id] in s.acts && s.acts[s.elems[id]].id == id)
    && (forall a :: Live(s, a) && a in s.acts ==>
          s.acts[a].id in s.elems && s.elems[s.acts[a].id] == a)
  }

  ghost predicate Known(s: SM) {
    && (forall a :: a in s.threads ==> a in s.acts)
    && (s.loop.Adding? || s.loop.Starting? || s.loop.Running? ==> s.loop.act in s.acts)
    && (s.loop.Adding? || s.loop.Starting? ==> s.loop.act !in s.threads)
    && (s.loop.Adding? ==> s.acts[s.loop.act].id !in s.elems)
  }

  /** While ClearActions runs: what it has dealt with took the exit branch and waits for the
      lock; what is left is listed, bound to a state and live. */
  ghost predicate ClearInvariant(s: SM) {
    s.loop.Clearing? ==>
      && s.loop.rest <= s.loop.found
      && (forall a :: a in s.loop.found - s.loop.rest ==> ThreadAt(s, a, TookExit))
      && (forall a :: a in s.loop.rest ==> a in s.threads && s.threads[a] != Sending)
  }

  // ---- every record is in exactly one place ----

  /** In how many places record a is: waiting for a channel, in one, in the loop's hands,
      merged into another record, owned by a thread, stopped, run or dropped. */
  function Places(s: SM, a: nat): nat {
    Waits(s, a) + Held(s, a) + Done(s, a)
  }

  function Waits(s: SM, a: nat): nat {
    One(a in s.toMsg) + One(a in s.toAct) + multiset(s.msgCtrl)[AddAction(a)] + multiset(s.actCtrl)[a]
  }

  function Held(s: SM, a: nat): nat {
    One(s.loop == Adding(a) || s.loop == Starting(a)) + One(a in s.threads)
  }

  function Done(s: SM, a: nat): nat {
    One(a in s.merged) + One(a in s.stopped) + multiset(s.ran)[a] + multiset(s.dropped)[a]
  }

  ghost predicate Conserved(s: SM) {
    forall a :: Places(s, a) == One(a in s.acts)
  }

  // ---- the handler calls are a fold of the SetState messages ----

  /** The states entered: unregistered names skipped, adjacent repeats collapsed. */
  function Path(registered: set<string>, names: seq<string>): (r: seq<string>)
    ensures forall i :: 0 <= i < |r| ==> r[i] in registered
  {
    if names == [] then []
    else
      var before := Path(registered, names[..|names| - 1]);
      var n := Last(names);
      if n in registered && (before == [] || Last(before) != n) then before + [n] else before
  }

  /** Enter s0, Leave s0, Enter s1, ... with what each call sees. */
  function Calls(path: seq<string>): seq<Call> {
    if path == [] then []
    else if |path| == 1 then [Enter(Some(path[0]), None, None)]
    else
      var from, to := path[|path| - 2], Last(path);
      Calls(path[..|path| - 1]) + [Leave(Some(from), Some(to)), Enter(Some(to), Some(from), None)]
  }

  function Names(msgs: seq<Message>): seq<string> {
    if msgs == [] then []
    else Names(msgs[..|msgs| - 1]) + (if Last(msgs).SetState? then [Last(msgs).name] else [])
  }

  function CurrOf(path: seq<string>): Option<string> {
    if path == [] then None else Some(Last(path))
  }

  function PrevOf(path: seq<string>): Option<string> {
    if |path| < 2 then None else Some(path[|path| - 2])
  }

  ghost predicate TraceMatches(s: SM) {
    var path := Path(s.registered, s.taken);
    && s.sent == s.taken + Names(s.msgCtrl)
    && match s.loop
       case Leaving(to) =>
         && |path| >= 2 && to == Last(path)
         && s.curr == CurrOf(path[..|path| - 1]) && s.prev == PrevOf(path[..|path| - 1]) && s.next == Some(to)
         && s.calls + [Enter(Some(to), s.curr, None)] == Calls(path)
       case Clearing(_, _) =>
         && path != [] && s.curr == CurrOf(path) && s.prev == PrevOf(path) && s.next == None
         && s.calls + [Enter(s.curr, s.prev, None)] == Calls(path)
       case _ =>
         s.curr == CurrOf(path) && s.prev == PrevOf(path) && s.next == None && s.calls == Calls(path)
  }

  // ---- when F is called ----

  ghost predicate FiresInItsState(s: SM) {
    && |s.fired| == |s.ran|
    && forall i :: 0 <= i < |s.fired| && s.fired[i].fireInState != "" ==>
                     s.fired[i].curr == Some(s.fired[i].fireInState)
  }

  ghost predicate Inv(s: SM) {
    Known(s) && ListMatchesThreads(s) && ClearInvariant(s) && Conserved(s) && TraceMatches(s) && FiresInItsState(s)
  }

  // ---- each part is kept by every step ----

  /** A record in a channel is nowhere else. */
  lemma InMsgCtrl(s: SM)
    requires Conserved(s) && s.msgCtrl != [] && s.msgCtrl[0].AddAction?
    ensures var m := s.msgCtrl[0].act; m in s.acts && m !in s.threads
  {
    var m := s.msgCtrl[0].act;
    HeadCounts(s.msgCtrl);
    assert Places(s, m) == One(m in s.acts);
  }

  lemma InActCtrl(s: SM)
    requires Conserved(s) && s.actCtrl != []
    ensures s.actCtrl[0] in s.acts
  {
    var a := s.actCtrl[0];
    HeadCounts(s.actCtrl);
    assert Places(s, a) == One(a in s.acts);
  }

  lemma KnownKeptTakeMsg(s: SM)
    requires Known(s) && ListMatchesThreads(s) && Enabled(s, TakeMsg)
    requires s.msgCtrl[0].AddAction? ==> s.msgCtrl[0].act !in s.threads
    ensures Known(Next(s, TakeMsg))
  {
  }

  lemma KnownKept(s: SM, step: Step)
    requires Known(s) && Enabled(s, step) && !step.TakeMsg?
    ensures Known(Next(s, step))
  {
  }

  lemma ListKeptTakeMsg(s: SM)
    requires Known(s) && ListMatchesThreads(s) && Enabled(s, TakeMsg)
    ensures ListMatchesThreads(Next(s, TakeMsg))
  {
    SameList(s, Next(s, TakeMsg));
  }

  lemma ListKeptThread(s: SM, step: Step)
    requires Known(s) && ListMatchesThreads(s) && Enabled(s, step)
    requires step.Insert? || step.StartThread? || step.ThreadDeletes?
    ensures ListMatchesThreads(Next(s, step))
  {
    var t := Next(s, step);
    match step
    case Insert =>
    case StartThread => assert forall a :: Live(t, a) <==> Live(s, a);
    case ThreadDeletes(d) => assert forall a :: Live(t, a) <==> Live(s, a) && a != d;
  }

  lemma SameList(s: SM, t: SM)
    requires Known(s) && ListMatchesThreads(s)
    requires t.elems == s.elems && forall a :: Live(t, a) <==> Live(s, a)
    requires forall a :: a in s.acts ==> a in t.acts && t.acts[a].id == s.acts[a].id
    ensures ListMatchesThreads(t)
  {
  }

  lemma ListKept(s: SM, step: Step)
    requires Known(s) && ListMatchesThreads(s) && Enabled(s, step)
    requires !step.Insert? && !step.StartThread? && !step.ThreadDeletes? && !step.TakeMsg?
    ensures ListMatchesThreads(Next(s, step))
  {
    SameList(s, Next(s, step));
  }

  lemma BoundAreLive(s: SM)
    requires ListMatchesThreads(s) && !s.loop.Starting?
    ensures forall a :: a in Bound(s) ==> a in s.threads && s.threads[a] != Sending
  {
    forall a | a in Bound(s)
      ensures Live(s, a)
    {
    }
  }

  lemma ClearKeptSwitch(s: SM, to: string)
    requires ListMatchesThreads(s) && !s.loop.Starting?
    ensures ClearInvariant(Switch(s, to))
  {
    BoundAreLive(s);
    assert Bound(s.(next := None, curr := Some(to), prev := s.curr)) == Bound(s);
  }

  lemma ClearKept(s: SM, step: Step)
    requires ListMatchesThreads(s) && ClearInvariant(s) && Enabled(s, step)
    ensures ClearInvariant(Next(s, step))
  {
    match step
    case TakeMsg =>
      if s.msgCtrl[0].SetState? {
        var t := s.(msgCtrl := s.msgCtrl[1..], taken := s.taken + [s.msgCtrl[0].name]);
        assert forall a :: Live(t, a) <==> Live(s, a);
        ClearKeptSwitch(t, s.msgCtrl[0].name);
      }
    case LeaveReturns => ClearKeptSwitch(s, s.loop.to);
    case ClearOne(d) =>
      var t := Next(s, step);
      forall a | a in t.loop.found - t.loop.rest
        ensures ThreadAt(t, a, TookExit)
      {
        assert a == d || a in s.loop.found - s.loop.rest;
      }
    case TimerFires(d) => assert !(s.loop.Clearing? && d in s.loop.found - s.loop.rest);
    case ThreadSends(d) => assert !(s.loop.Clearing? && d in s.loop.found - s.loop.rest);
    case _ =>
  }

  lemma ConservedKeptSend(s: SM, step: Step)
    requires Conserved(s) && Enabled(s, step)
    requires step.SendMsg? || step.SendAct? || step.SendState? || step.SendOther? || step.ThreadSends?
    ensures Conserved(Next(s, step))
  {
    var t := Next(s, step);
    forall a
      ensures Places(t, a) == One(a in t.acts)
    {
      assert Places(s, a) == One(a in s.acts);
    }
  }

  lemma SwitchPlaces(s: SM, to: string, a: nat)
    requires !s.loop.Adding? && !s.loop.Starting?
    ensures Places(Switch(s, to), a) == Places(s, a)
    ensures Switch(s, to).acts == s.acts
  {
    var t := Switch(s, to);
    assert t.msgCtrl == s.msgCtrl && t.actCtrl == s.actCtrl && t.ran == s.ran && t.dropped == s.dropped;
  }

  lemma StateMessagePlaces(s: SM, name: string, a: nat)
    requires s.loop == Idle
    ensures Places(OnStateMessage(s, name), a) == Places(s, a)
    ensures OnStateMessage(s, name).acts == s.acts
  {
    if s.curr == None {
      SwitchPlaces(s, name, a);
    } else {
      var t := OnStateMessage(s, name);
      assert t.msgCtrl == s.msgCtrl && t.actCtrl == s.actCtrl && t.ran == s.ran && t.dropped == s.dropped;
    }
  }

  lemma AddMessagePlaces(s: SM, m: nat, a: nat)
    requires s.loop == Idle && m in s.acts && m !in s.merged
    ensures Places(OnAddActionMessage(s, m), a) == Places(s, a) + One(a == m)
    ensures OnAddActionMessage(s, m).acts.Keys == s.acts.Keys
  {
  }

  lemma ConservedKeptTakeMsg(s: SM)
    requires Conserved(s) && Enabled(s, TakeMsg)
    ensures Conserved(Next(s, TakeMsg))
  {
    var head, rest := s.msgCtrl[0], s.(msgCtrl := s.msgCtrl[1..]);
    HeadCounts(s.msgCtrl);
    forall a
      ensures Places(Next(s, TakeMsg), a) == One(a in Next(s, TakeMsg).acts)
    {
      assert Places(s, a) == One(a in s.acts);
      assert Places(rest, a) == Places(s, a) - One(head == AddAction(a));
      match head
      case SetState(name) => StateMessagePlaces(rest.(taken := s.taken + [name]), name, a);
      case AddAction(m) =>
        assert Places(s, m) == 1 && m !in s.merged;
        AddMessagePlaces(rest, m, a);
        assert a in Next(s, TakeMsg).acts <==> a in s.acts;
      case Other =>
    }
  }

  lemma DroppedPlaces(s: SM, x: nat, a: nat)
    ensures Places(s.(dropped := s.dropped + [x]), a) == Places(s, a) + One(x == a)
  {
  }

  lemma RanPlaces(s: SM, x: nat, fired: seq<Fired>, a: nat)
    requires s.loop == Idle
    ensures Places(s.(loop := Running(x), ran := s.ran + [x], fired := fired), a) == Places(s, a) + One(x == a)
  {
  }

  lemma HeadTakenPlaces(s: SM, a: nat)
    requires s.actCtrl != []
    ensures Places(s.(actCtrl := s.actCtrl[1..]), a) + One(s.actCtrl[0] == a) == Places(s, a)
  {
    HeadCounts(s.actCtrl);
  }

  lemma TakeActPlaces(s: SM, a: nat)
    requires Enabled(s, TakeAct)
    ensures Places(Next(s, TakeAct), a) == Places(s, a) && Next(s, TakeAct).acts == s.acts
  {
    var x, t := s.actCtrl[0], s.(actCtrl := s.actCtrl[1..]);
    HeadTakenPlaces(s, a);
    DroppedPlaces(t, x, a);
    RanPlaces(t, x, Next(s, TakeAct).fired, a);
  }

  lemma ConservedKeptTakeAct(s: SM)
    requires Conserved(s) && Enabled(s, TakeAct)
    ensures Conserved(Next(s, TakeAct))
  {
    forall a
      ensures Places(Next(s, TakeAct), a) == One(a in Next(s, TakeAct).acts)
    {
      TakeActPlaces(s, a);
      assert Places(s, a) == One(a in s.acts);
    }
  }

  lemma ConservedKeptLoop(s: SM, step: Step)
    requires Known(s) && Conserved(s) && Enabled(s, step)
    requires step.Insert? || step.StartThread? || step.LeaveReturns? || step.ClearOne? || step.ClearReturns? ||
             step.EnterReturns? || step.RunReturns?
    ensures Conserved(Next(s, step))
  {
    var t := Next(s, step);
    forall a
      ensures Places(t, a) == One(a in t.acts)
    {
      assert Places(s, a) == One(a in s.acts);
    }
  }

  lemma ConservedKeptOther(s: SM, step: Step)
    requires Conserved(s) && Enabled(s, step)
    requires step.CreateDelayed? || step.CreateImmediate? || step.TimerFires? || step.ClientStops? ||
             step.ThreadDeletes?
    ensures Conserved(Next(s, step))
  {
    var t := Next(s, step);
    forall a
      ensures Places(t, a) == One(a in t.acts)
    {
      assert Places(s, a) == One(a in s.acts);
    }
  }

  // ---- the trace ----

  lemma PathAppend(registered: set<string>, names: seq<string>, n: string)
    ensures var before := Path(registered, names);
            Path(registered, names + [n]) ==
            if n in registered && (before == [] || Last(before) != n) then before + [n] else before
  {
    assert (names + [n])[..|names|] == names;
  }

  lemma NamesAppend(msgs: seq<Message>, m: Message)
    ensures Names(msgs + [m]) == Names(msgs) + (if m.SetState? then [m.name] else [])
  {
    assert (msgs + [m])[..|msgs|] == msgs;
  }

  lemma {:induction false} NamesHead(msgs: seq<Message>)
    requires msgs != []
    ensures Names(msgs) == (if msgs[0].SetState? then [msgs[0].name] else []) + Names(msgs[1..])
  {
    if |msgs| > 1 {
      NamesHead(msgs[..|msgs| - 1]);
      assert msgs[..|msgs| - 1][1..] == msgs[1..][..|msgs| - 2];
    } else {
      assert msgs[..0] == [] && msgs[1..] == [];
    }
  }

  lemma CallsAppend(path: seq<string>, n: string)
    ensures Calls(path + [n]) ==
            if path == [] then [Enter(Some(n), None, None)]
            else Calls(path) + [Leave(Some(Last(path)), Some(n)), Enter(Some(n), Some(Last(path)), None)]
    ensures CurrOf(path + [n]) == Some(n) && PrevOf(path + [n]) == CurrOf(path)
  {
    assert (path + [n])[..|path|] == path;
  }

  /** Outside the two places where a switch is under way. */
  ghost predicate Settled(s: SM) {
    var path := Path(s.registered, s.taken);
    s.curr == CurrOf(path) && s.prev == PrevOf(path) && s.next == None && s.calls == Calls(path)
  }

  lemma FirstState(s: SM, name: string)
    requires s.loop == Idle && Settled(s) && Path(s.registered, s.taken) == []
    requires s.sent == s.taken + [name] + Names(s.msgCtrl) && name in s.registered
    ensures TraceMatches(Switch(s.(taken := s.taken + [name]), name))
  {
    PathAppend(s.registered, s.taken, name);
    CallsAppend([], name);
  }

  lemma NextState(s: SM, name: string)
    requires s.loop == Idle && Settled(s) && s.curr.Some?
    requires s.sent == s.taken + [name] + Names(s.msgCtrl) && name in s.registered && s.curr != Some(name)
    ensures TraceMatches(s.(taken := s.taken + [name], next := Some(name), loop := Leaving(name),
                            calls := s.calls + [Leave(s.curr, Some(name))]))
  {
    var path := Path(s.registered, s.taken);
    PathAppend(s.registered, s.taken, name);
    CallsAppend(path, name);
    assert (path + [name])[..|path|] == path;
    assert s.calls + [Leave(s.curr, Some(name))] + [Enter(Some(name), s.curr, None)] ==
           s.calls + [Leave(s.curr, Some(name)), Enter(Some(name), s.curr, None)];
  }

  lemma TraceKeptSetState(s: SM, name: string)
    requires s.loop == Idle && Settled(s) && s.sent == s.taken + [name] + Names(s.msgCtrl)
    ensures TraceMatches(OnStateMessage(s.(taken := s.taken + [name]), name))
  {
    if name in s.registered && s.curr != Some(name) {
      if s.curr == None {
        FirstState(s, name);
      } else {
        NextState(s, name);
      }
    } else {
      PathAppend(s.registered, s.taken, name);
    }
  }

  lemma TraceKeptTakeMsg(s: SM)
    requires TraceMatches(s) && Enabled(s, TakeMsg)
    ensures TraceMatches(Next(s, TakeMsg))
  {
    NamesHead(s.msgCtrl);
    if s.msgCtrl[0].SetState? {
      var name := s.msgCtrl[0].name;
      var t := s.(msgCtrl := s.msgCtrl[1..]);
      assert s.taken + ([name] + Names(t.msgCtrl)) == s.taken + [name] + Names(t.msgCtrl);
      TraceKeptSetState(t, name);
    }
  }

  predicate Switching(s: SM) {
    s.loop.Leaving? || s.loop.Clearing?
  }

  lemma SameTrace(s: SM, t: SM)
    requires TraceMatches(s)
    requires t.registered == s.registered && t.taken == s.taken && t.sent == s.sent && t.msgCtrl == s.msgCtrl
    requires t.curr == s.curr && t.prev == s.prev && t.next == s.next && t.calls == s.calls
    requires t.loop == s.loop || (!Switching(s) && !Switching(t))
    ensures TraceMatches(t)
  {
  }

  lemma TraceKeptSend(s: SM, m: Message)
    requires TraceMatches(s)
    ensures TraceMatches(s.(msgCtrl := s.msgCtrl + [m], sent := s.sent + if m.SetState? then [m.name] else []))
  {
    NamesAppend(s.msgCtrl, m);
    var more := if m.SetState? then [m.name] else [];
    assert s.taken + (Names(s.msgCtrl) + more) == s.taken + Names(s.msgCtrl) + more;
  }

  lemma TraceKeptMessage(s: SM, step: Step)
    requires TraceMatches(s) && Enabled(s, step)
    requires step.SendMsg? || step.SendState? || step.SendOther?
    ensures TraceMatches(Next(s, step))
  {
    assert s.sent + [] == s.sent;
    match step
    case SendMsg(a) =>
      TraceKeptSend(s, AddAction(a));
      SameTrace(s.(msgCtrl := s.msgCtrl + [AddAction(a)]), Next(s, step));
    case SendState(name) => TraceKeptSend(s, SetState(name));
    case SendOther => TraceKeptSend(s, Other);
  }

  lemma TraceKeptSwitch(s: SM, step: Step)
    requires TraceMatches(s) && Enabled(s, step)
    requires step.LeaveReturns? || step.ClearOne? || step.ClearReturns? || step.EnterReturns?
    ensures TraceMatches(Next(s, step))
  {
    if step.LeaveReturns? {
      var path := Path(s.registered, s.taken);
      assert path == path[..|path| - 1] + [Last(path)];
      CallsAppend(path[..|path| - 1], Last(path));
    }
  }

  /** The steps of actions and threads do not touch what the trace is made of. */
  lemma ActionFrame(s: SM, step: Step)
    requires Enabled(s, step)
    requires !step.TakeMsg? && !step.SendMsg? && !step.SendState? && !step.SendOther?
    requires !step.LeaveReturns? && !step.ClearOne? && !step.ClearReturns? && !step.EnterReturns?
    ensures var t := Next(s, step);
            && t.registered == s.registered && t.taken == s.taken && t.sent == s.sent && t.msgCtrl == s.msgCtrl
            && t.curr == s.curr && t.prev == s.prev && t.next == s.next && t.calls == s.calls
            && (t.loop == s.loop || (!Switching(s) && !Switching(t)))
  {
  }

  lemma TraceKeptAction(s: SM, step: Step)
    requires TraceMatches(s) && Enabled(s, step)
    requires !step.TakeMsg? && !step.SendMsg? && !step.SendState? && !step.SendOther?
    requires !step.LeaveReturns? && !step.ClearOne? && !step.ClearReturns? && !step.EnterReturns?
    ensures TraceMatches(Next(s, step))
  {
    ActionFrame(s, step);
    SameTrace(s, Next(s, step));
  }

  lemma TraceKept(s: SM, step: Step)
    requires TraceMatches(s) && Enabled(s, step)
    ensures TraceMatches(Next(s, step))
  {
    match step
    case TakeMsg => TraceKeptTakeMsg(s);
    case SendMsg(_) => TraceKeptMessage(s, step);
    case SendState(_) => TraceKeptMessage(s, step);
    case SendOther => TraceKeptMessage(s, step);
    case LeaveReturns => TraceKeptSwitch(s, step);
    case ClearOne(_) => TraceKeptSwitch(s, step);
    case ClearReturns => TraceKeptSwitch(s, step);
    case EnterReturns => TraceKeptSwitch(s, step);
    case _ => TraceKeptAction(s, step);
  }

  lemma FiresKept(s: SM, step: Step)
    requires FiresInItsState(s) && Enabled(s, step)
    ensures FiresInItsState(Next(s, step))
  {
  }

  // ---- the invariant over all runs ----

  lemma InvInitially(registered: set<string>)
    ensures Inv(Initial(registered))
  {
  }

  lemma ConservedKept(s: SM, step: Step)
    requires Known(s) && Conserved(s) && Enabled(s, step)
    ensures Conserved(Next(s, step))
  {
    match step
    case TakeMsg => ConservedKeptTakeMsg(s);
    case TakeAct => ConservedKeptTakeAct(s);
    case SendMsg(_) => ConservedKeptSend(s, step);
    case SendAct(_) => ConservedKeptSend(s, step);
    case SendState(_) => ConservedKeptSend(s, step);
    case SendOther => ConservedKeptSend(s, step);
    case ThreadSends(_) => ConservedKeptSend(s, step);
    case CreateDelayed(_, _) => ConservedKeptOther(s, step);
    case CreateImmediate(_, _) => ConservedKeptOther(s, step);
    case TimerFires(_) => ConservedKeptOther(s, step);
    case ClientStops(_) => ConservedKeptOther(s, step);
    case ThreadDeletes(_) => ConservedKeptOther(s, step);
    case _ => ConservedKeptLoop(s, step);
  }

  lemma ListAndKnownKept(s: SM, step: Step)
    requires Known(s) && ListMatchesThreads(s) && Conserved(s) && Enabled(s, step)
    ensures Known(Next(s, step)) && ListMatchesThreads(Next(s, step))
  {
    match step
    case TakeMsg =>
      if s.msgCtrl[0].AddAction? { InMsgCtrl(s); }
      KnownKeptTakeMsg(s);
      ListKeptTakeMsg(s);
    case Insert =>
      KnownKept(s, step);
      ListKeptThread(s, step);
    case StartThread =>
      KnownKept(s, step);
      ListKeptThread(s, step);
    case ThreadDeletes(_) =>
      KnownKept(s, step);
      ListKeptThread(s, step);
    case _ =>
      KnownKept(s, step);
      ListKept(s, step);
  }

  lemma InvKept(s: SM, step: Step)
    requires Inv(s) && Enabled(s, step)
    ensures Inv(Next(s, step))
  {
    ClearKept(s, step);
    FiresKept(s, step);
    ListAndKnownKept(s, step);
    ConservedKept(s, step);
    TraceKept(s, step);
  }

  lemma {:induction false} InvOverRuns(s: SM, steps: seq<Step>)
    requires Inv(s) && CanRun(s, steps)
    ensures Inv(Run(s, steps))
    decreases |steps|
  {
    if steps != [] {
      InvKept(s, steps[0]);
      InvOverRuns(Next(s, steps[0]), steps[1..]);
    }
  }

  /** The side conditions of the steps that look a record up always hold: no step of the
      source is excluded by them. */
  lemma LookupsSucceed(s: SM)
    requires Inv(s)
    ensures s.msgCtrl != [] && s.msgCtrl[0].AddAction? ==> s.msgCtrl[0].act in s.acts
    ensures s.actCtrl != [] ==> s.actCtrl[0] in s.acts
    ensures forall a :: a in s.threads ==> a in s.acts
    ensures forall id :: id in s.elems ==> s.elems[id] in s.acts
  {
    if s.msgCtrl != [] && s.msgCtrl[0].AddAction? { InMsgCtrl(s); }
    if s.actCtrl != [] { InActCtrl(s); }
  }

  // ---- main results over runs from the start ----

  predicate LiveUnder(s: SM, a: nat, id: string) {
    Live(s, a) && a in s.acts && s.acts[a].id == id
  }

  /** The list without action a, whatever its id. */
  function Except(elems: map<string, nat>, a: nat): map<string, nat> {
    map id | id in elems && elems[id] != a :: elems[id]
  }

  lemma BijectionFromInvariant(s: SM)
    requires Known(s) && ListMatchesThreads(s)
    ensures forall id, a :: (id in s.elems && s.elems[id] == a) <==> LiveUnder(s, a, id)
    ensures forall id, a, b :: LiveUnder(s, a, id) && LiveUnder(s, b, id) ==> a == b
    ensures forall a :: Enabled(s, ThreadDeletes(a)) ==> s.elems - {s.acts[a].id} == Except(s.elems, a)
  {
    forall a | Enabled(s, ThreadDeletes(a))
      ensures s.elems - {s.acts[a].id} == Except(s.elems, a)
    {
      assert LiveUnder(s, a, s.acts[a].id);
    }
  }

  /** The list and the live threads are in bijection: an id is listed with action a exactly when
      a is live and has that id. So one id never has two live threads, and a thread's delete
      removes its own entry. */
  lemma ListThreadBijection(registered: set<string>, steps: seq<Step>)
    requires CanRun(Initial(registered), steps)
    ensures var s := Run(Initial(registered), steps);
            && (forall id, a :: (id in s.elems && s.elems[id] == a) <==> LiveUnder(s, a, id))
            && (forall id, a, b :: LiveUnder(s, a, id) && LiveUnder(s, b, id) ==> a == b)
            && (forall a :: Enabled(s, ThreadDeletes(a)) ==> s.elems - {s.acts[a].id} == Except(s.elems, a))
  {
    InvInitially(registered);
    InvOverRuns(Initial(registered), steps);
    BijectionFromInvariant(Run(Initial(registered), steps));
  }

  /** Every AddAction record is in exactly one stage, and its F is called at most once. */
  lemma ActionsConserved(registered: set<string>, steps: seq<Step>, a: nat)
    requires CanRun(Initial(registered), steps)
    ensures var s := Run(Initial(registered), steps);
            && (a in s.acts ==> Places(s, a) == 1)
            && (a !in s.acts ==> Places(s, a) == 0)
            && multiset(s.ran)[a] <= 1
            && FiresInItsState(s)
  {
    InvInitially(registered);
    InvOverRuns(Initial(registered), steps);
    var s := Run(Initial(registered), steps);
    assert Places(s, a) == One(a in s.acts);
  }

  /** Whenever the loop is idle, the handler calls so far are exactly those of the SetState
      messages taken so far, which are the first ones sent. */
  lemma HandlerCallsAreAFold(registered: set<string>, steps: seq<Step>)
    requires CanRun(Initial(registered), steps)
    ensures var s := Run(Initial(registered), steps);
            && s.registered == registered
            && s.taken <= s.sent
            && (s.msgCtrl == [] ==> s.taken == s.sent)
            && s.calls <= Calls(Path(registered, s.taken))
            && (!s.loop.Leaving? && !s.loop.Clearing? ==> s.calls == Calls(Path(registered, s.taken)))
  {
    InvInitially(registered);
    InvOverRuns(Initial(registered), steps);
    RegisteredFixed(Initial(registered), steps);
  }

  lemma {:induction false} RegisteredFixed(s: SM, steps: seq<Step>)
    requires CanRun(s, steps)
    ensures Run(s, steps).registered == s.registered
    decreases |steps|
  {
    if steps != [] {
      RegisteredFixed(Next(s, steps[0]), steps[1..]);
    }
  }

  // ---- after ClearActions ----

  /** a's thread took the exit branch. */
  predicate Exited(s: SM, a: nat) {
    ThreadAt(s, a, TookExit) || a in s.stopped
  }

  lemma ExitedKept(s: SM, step: Step, a: nat)
    requires Conserved(s) && Enabled(s, step) && Exited(s, a)
    ensures Exited(Next(s, step), a)
  {
    if a in s.stopped {
      assert a in Next(s, step).stopped;
    } else {
      assert Places(s, a) == One(a in s.acts);
      assert step.StartThread? ==> s.loop.act != a;
    }
  }

  lemma ExitedNeverRuns(s: SM, a: nat)
    requires Inv(s) && Exited(s, a)
    ensures a !in s.actCtrl && a !in s.ran && !ThreadAt(s, a, Sending)
  {
    assert Places(s, a) == One(a in s.acts);
  }

  /** From the lock on: either this ClearActions still runs, or all it found have exited. */
  ghost predicate ClearedOrClearing(s: SM, found: set<nat>) {
    (s.loop.Clearing? && s.loop.found == found) || forall a :: a in found ==> Exited(s, a)
  }

  lemma ClearedKept(s: SM, step: Step, found: set<nat>)
    requires Inv(s) && Enabled(s, step) && ClearedOrClearing(s, found)
    ensures ClearedOrClearing(Next(s, step), found)
  {
    if step.ClearReturns? && s.loop.found == found {
      assert s.loop.found - s.loop.rest == found;
    } else if !s.loop.Clearing? || s.loop.found != found {
      forall a | a in found
        ensures Exited(Next(s, step), a)
      {
        ExitedKept(s, step, a);
      }
    } else {
      assert Next(s, step).loop.Clearing?;
    }
  }

  /** Once ClearActions has returned, no action it found can be called, ever. */
  lemma {:induction false} ClearedActionsNeverRun(s: SM, found: set<nat>, steps: seq<Step>, later: seq<Step>)
    requires Inv(s) && ClearedOrClearing(s, found) && CanRun(s, steps)
    requires !Run(s, steps).loop.Clearing? && CanRun(Run(s, steps), later)
    ensures var u := Run(Run(s, steps), later);
            forall a :: a in found ==> Exited(u, a) && a !in u.actCtrl && a !in u.ran
    decreases |steps|, |later|
  {
    if steps != [] {
      InvKept(s, steps[0]);
      ClearedKept(s, steps[0], found);
      ClearedActionsNeverRun(Next(s, steps[0]), found, steps[1..], later);
    } else if later != [] {
      InvKept(s, later[0]);
      forall a | a in found
        ensures Exited(Next(s, later[0]), a)
      {
        ExitedKept(s, later[0], a);
      }
      StaysExited(Next(s, later[0]), found, later[1..]);
    } else {
      forall a | a in found
        ensures a !in s.actCtrl && a !in s.ran
      {
        ExitedNeverRuns(s, a);
      }
    }
  }

  lemma {:induction false} StaysExited(s: SM, found: set<nat>, later: seq<Step>)
    requires Inv(s) && CanRun(s, later) && forall a :: a in found ==> Exited(s, a)
    ensures var u := Run(s, later);
            forall a :: a in found ==> Exited(u, a) && a !in u.actCtrl && a !in u.ran
    decreases |later|
  {
    if later != [] {
      InvKept(s, later[0]);
      forall a | a in found
        ensures Exited(Next(s, later[0]), a)
      {
        ExitedKept(s, later[0], a);
      }
      StaysExited(Next(s, later[0]), found, later[1..]);
    } else {
      forall a | a in found
        ensures a !in s.actCtrl && a !in s.ran
      {
        ExitedNeverRuns(s, a);
      }
    }
  }

  lemma SwitchFindsBound(s: SM, step: Step)
    requires Enabled(s, step) && !s.loop.Clearing? && Next(s, step).loop.Clearing?
    ensures Next(s, step).loop.found == Bound(s)
  {
    assert step.TakeMsg? || step.LeaveReturns?;
    var t := Next(s, step);
    assert Bound(t) == Bound(s);
    assert Bound(t.(loop := Idle)) == Bound(t);
    if step.TakeMsg? {
      var m := s.(msgCtrl := s.msgCtrl[1..], taken := s.taken + [s.msgCtrl[0].name]);
      assert t == Switch(m, s.msgCtrl[0].name);
      assert Bound(m.(next := None, curr := t.curr, prev := m.curr)) == Bound(s);
    } else {
      assert Bound(s.(next := None, curr := t.curr, prev := s.curr)) == Bound(s);
    }
  }

  /** The step that begins a switch of states: every state-bound action listed at that moment is
      never called on any continuation in which this ClearActions has returned. */
  lemma NoListedActionOutlivesASwitch(s: SM, step: Step, steps: seq<Step>, later: seq<Step>)
    requires Inv(s) && Enabled(s, step) && !s.loop.Clearing? && Next(s, step).loop.Clearing?
    requires CanRun(Next(s, step), steps) && !Run(Next(s, step), steps).loop.Clearing?
    requires CanRun(Run(Next(s, step), steps), later)
    ensures var u := Run(Run(Next(s, step), steps), later);
            forall a :: a in Bound(s) ==> a !in u.ran && a !in u.actCtrl
  {
    var t := Next(s, step);
    InvKept(s, step);
    SwitchFindsBound(s, step);
    ClearedActionsNeverRun(t, t.loop.found, steps, later);
  }

  /** The same after a client's Stop has returned. */
  lemma StoppedActionNeverRuns(s: SM, a: nat, later: seq<Step>)
    requires Inv(s) && Enabled(s, ClientStops(a)) && CanRun(Next(s, ClientStops(a)), later)
    ensures var u := Run(Next(s, ClientStops(a)), later); a !in u.ran && a !in u.actCtrl
  {
    InvKept(s, ClientStops(a));
    StaysExited(Next(s, ClientStops(a)), {a}, later);
  }

  lemma RunCons(s: SM, step: Step, steps: seq<Step>)
    requires Enabled(s, step) && CanRun(Next(s, step), steps)
    ensures CanRun(s, [step] + steps) && Run(s, [step] + steps) == Run(Next(s, step), steps)
  {
    assert ([step] + steps)[1..] == steps;
  }

  lemma {:induction false} RunSnoc(s: SM, steps: seq<Step>, last: Step)
    requires CanRun(s, steps) && Enabled(Run(s, steps), last)
    ensures CanRun(s, steps + [last]) && Run(s, steps + [last]) == Next(Run(s, steps), last)
  {
    RunCons(Run(s, steps), last, []);
    RunAppend(s, steps, [last] + []);
    assert [last] + [] == [last];
  }

  lemma {:induction false} RunAppend(s: SM, first: seq<Step>, second: seq<Step>)
    requires CanRun(s, first) && CanRun(Run(s, first), second)
    ensures CanRun(s, first + second) && Run(s, first + second) == Run(Run(s, first), second)
    decreases |first|
  {
    if first == [] {
      assert first + second == second;
    } else {
      RunAppend(Next(s, first[0]), first[1..], second);
      assert first + second == [first[0]] + (first[1..] + second);
      RunCons(s, first[0], first[1..] + second);
    }
  }

  /** One whole transition, up to the return of Enter, when no state-bound action is listed. */
  lemma Transition(s: SM, to: string) returns (steps: seq<Step>)
    requires s.loop == Idle && s.msgCtrl != [] && s.msgCtrl[0] == SetState(to)
    requires to in s.registered && s.curr.Some? && s.curr != Some(to) && Bound(s) == {}
    ensures CanRun(s, steps)
    ensures Run(s, steps) == s.(msgCtrl := s.msgCtrl[1..], taken := s.taken + [to],
                                curr := Some(to), prev := s.curr, next := None,
                                calls := s.calls + [Leave(s.curr, Some(to))] + [Enter(Some(to), s.curr, None)])
  {
    var s1 := Next(s, TakeMsg);
    var s2 := Next(s1, LeaveReturns);
    assert Bound(s1.(next := None, curr := Some(to), prev := s1.curr)) == Bound(s);
    var s3 := Next(s2, ClearReturns);
    RunCons(s3, EnterReturns, []);
    RunCons(s2, ClearReturns, [EnterReturns] + []);
    RunCons(s1, LeaveReturns, [ClearReturns] + ([EnterReturns] + []));
    steps := [TakeMsg] + ([LeaveReturns] + ([ClearReturns] + ([EnterReturns] + [])));
    RunCons(s, TakeMsg, [LeaveReturns] + ([ClearReturns] + ([EnterReturns] + [])));
  }

  /** An action whose timer has already brought it into actCtrl is not listed any more and does
      outlive the switch: after leaving its state and coming back it is called. */
  lemma QueuedActionOutlivesASwitch(s: SM, a: nat, home: string, away: string) returns (steps: seq<Step>)
    requires s.loop == Idle && s.curr == Some(home) && home != away
    requires home in s.registered && away in s.registered
    requires s.msgCtrl == [SetState(away), SetState(home)] && Bound(s) == {}
    requires s.actCtrl == [a] && a in s.acts && s.acts[a].fireInState == home
    ensures CanRun(s, steps) && Run(s, steps).ran == s.ran + [a] && Run(s, steps).acts == s.acts
    ensures s.calls + [Leave(Some(home), Some(away))] <= Run(s, steps).calls
  {
    var out := Transition(s, away);
    var s1 := Run(s, out);
    assert Bound(s1) == Bound(s);
    var back := Transition(s1, home);
    var s2 := Run(s1, back);
    RunCons(s2, TakeAct, []);
    RunAppend(s1, back, [TakeAct] + []);
    RunAppend(s, out, back + ([TakeAct] + []));
    steps := out + (back + ([TakeAct] + []));
  }

  lemma FirstVisit(home: string, away: string) returns (steps: seq<Step>)
    requires home != away
    ensures CanRun(Initial({home, away}), steps)
    ensures Run(Initial({home, away}), steps) ==
            Initial({home, away}).(sent := [home], taken := [home], curr := Some(home),
                                   calls := [Enter(Some(home), None, None)])
  {
    var s := Initial({home, away});
    var s1 := Next(s, SendState(home));
    var s2 := Next(s1, TakeMsg);
    assert Bound(s1.(msgCtrl := [], taken := [home], next := None, curr := Some(home), prev := None)) == {};
    var s3 := Next(s2, ClearReturns);
    RunCons(s3, EnterReturns, []);
    RunCons(s2, ClearReturns, [EnterReturns] + []);
    RunCons(s1, TakeMsg, [ClearReturns] + ([EnterReturns] + []));
    steps := [SendState(home)] + ([TakeMsg] + ([ClearReturns] + ([EnterReturns] + [])));
    RunCons(s, SendState(home), [TakeMsg] + ([ClearReturns] + ([EnterReturns] + [])));
  }

  lemma Arm(s: SM, a: nat, what: Action) returns (steps: seq<Step>)
    requires s.loop == Idle && s.msgCtrl == [] && a !in s.acts && a !in s.toMsg && what.id !in s.elems
    ensures CanRun(s, steps)
    ensures Run(s, steps) == s.(acts := s.acts[a := what], elems := s.elems[what.id := a],
                                threads := s.threads[a := Waiting])
  {
    var s1 := Next(s, CreateDelayed(a, what));
    var s2 := Next(s1, SendMsg(a));
    var s3 := Next(s2, TakeMsg);
    var s4 := Next(s3, Insert);
    assert s1.toMsg - {a} == s.toMsg;
    RunCons(s4, StartThread, []);
    RunCons(s3, Insert, [StartThread] + []);
    RunCons(s2, TakeMsg, [Insert] + ([StartThread] + []));
    RunCons(s1, SendMsg(a), [TakeMsg] + ([Insert] + ([StartThread] + [])));
    steps := [CreateDelayed(a, what)] + ([SendMsg(a)] + ([TakeMsg] + ([Insert] + ([StartThread] + []))));
    RunCons(s, CreateDelayed(a, what), [SendMsg(a)] + ([TakeMsg] + ([Insert] + ([StartThread] + []))));
  }

  lemma Expire(s: SM, a: nat) returns (steps: seq<Step>)
    requires s.loop == Idle && ThreadAt(s, a, Waiting) && a in s.acts && s.actCtrl == []
    ensures CanRun(s, steps)
    ensures Run(s, steps) == s.(elems := s.elems - {s.acts[a].id}, threads := s.threads - {a}, actCtrl := [a])
  {
    var s1 := Next(s, TimerFires(a));
    var s2 := Next(s1, ThreadDeletes(a));
    assert s2.threads - {a} == s.threads - {a};
    RunCons(s2, ThreadSends(a), []);
    RunCons(s1, ThreadDeletes(a), [ThreadSends(a)] + []);
    steps := [TimerFires(a)] + ([ThreadDeletes(a)] + ([ThreadSends(a)] + []));
    RunCons(s, TimerFires(a), [ThreadDeletes(a)] + ([ThreadSends(a)] + []));
  }

  /** This does happen: an action added in the first visit of a state is called in the second. */
  lemma OldActionRunsInASecondVisit(home: string, away: string, id: string, f: nat) returns (steps: seq<Step>)
    requires home != away && home != ""
    ensures CanRun(Initial({home, away}), steps)
    ensures var u := Run(Initial({home, away}), steps);
            && u.ran == [0] && 0 in u.acts && u.acts[0] == Action(id, home, f)
            && [Enter(Some(home), None, None), Leave(Some(home), Some(away))] <= u.calls
  {
    var s := Initial({home, away});
    var visit := FirstVisit(home, away);
    var s1 := Run(s, visit);
    var arm := Arm(s1, 0, Action(id, home, f));
    var s2 := Run(s1, arm);
    var expire := Expire(s2, 0);
    var s3 := Run(s2, expire);
    var s4 := Next(s3, SendState(away));
    var s5 := Next(s4, SendState(home));
    var queued := QueuedActionOutlivesASwitch(s5, 0, home, away);
    RunCons(s4, SendState(home), queued);
    RunCons(s3, SendState(away), [SendState(home)] + queued);
    RunAppend(s2, expire, [SendState(away)] + ([SendState(home)] + queued));
    RunAppend(s1, arm, expire + ([SendState(away)] + ([SendState(home)] + queued)));
    RunAppend(s, visit, arm + (expire + ([SendState(away)] + ([SendState(home)] + queued))));
    steps := visit + (arm + (expire + ([SendState(away)] + ([SendState(home)] + queued))));
  }

  // ---- when ClearActions can return ----

  /** An entry still to be stopped whose thread has already left its select. */
  ghost predicate Stuck(s: SM, a: nat) {
    s.loop.Clearing? && a in s.loop.rest && a in s.threads && s.threads[a] != Waiting
  }

  lemma StuckKept(s: SM, step: Step, a: nat)
    requires ClearInvariant(s) && Enabled(s, step) && Stuck(s, a)
    ensures Stuck(Next(s, step), a)
  {
    assert s.threads[a] != Sending;
  }

  lemma {:induction false} StuckForEver(s: SM, steps: seq<Step>, a: nat)
    requires Inv(s) && CanRun(s, steps) && Stuck(s, a)
    ensures Stuck(Run(s, steps), a)
    decreases |steps|
  {
    if steps != [] {
      InvKept(s, steps[0]);
      StuckKept(s, steps[0], a);
      StuckForEver(Next(s, steps[0]), steps[1..], a);
    }
  }

  lemma {:induction false} StopAll(s: SM) returns (steps: seq<Step>)
    requires s.loop.Clearing? && forall a :: a in s.loop.rest ==> ThreadAt(s, a, Waiting)
    ensures CanRun(s, steps) && Run(s, steps).loop == Entering
    decreases |s.loop.rest|
  {
    if s.loop.rest == {} {
      steps := [ClearReturns];
      assert steps[1..] == [];
    } else {
      var a :| a in s.loop.rest;
      var t := Next(s, ClearOne(a));
      assert t.loop.rest < s.loop.rest;
      SmallerSet(t.loop.rest, s.loop.rest);
      var more := StopAll(t);
      steps := [ClearOne(a)] + more;
      assert steps[1..] == more;
    }
  }

  lemma SmallerSet(a: set<nat>, b: set<nat>)
    requires a < b
    ensures |a| < |b|
  {
    var d := b - a;
    assert b == a + d && a !! d && d != {};
    assert |b| == |a| + |d|;
  }

  /** ClearActions can return if and only if the threads of all entries it still has to stop are
      at their select. One that has taken its timer or a client's Stop waits for the lock that
      ClearActions holds, and both wait for ever. */
  lemma ClearReturnsIff(s: SM)
    requires Inv(s) && s.loop.Clearing?
    ensures (exists steps :: CanRun(s, steps) && Run(s, steps).loop == Entering) <==>
            (forall a :: a in s.loop.rest ==> ThreadAt(s, a, Waiting))
  {
    if forall a :: a in s.loop.rest ==> ThreadAt(s, a, Waiting) {
      var steps := StopAll(s);
    } else {
      var a :| a in s.loop.rest && !ThreadAt(s, a, Waiting);
      forall steps | CanRun(s, steps)
        ensures Run(s, steps).loop != Entering
      {
        StuckForEver(s, steps, a);
      }
    }
  }

  // ---- what the source does not guarantee ----

  /** An AddAction that meets an entry whose thread has taken the exit branch is lost: neither
      the new record nor the listed one is ever called. */
  lemma ReAddedActionIsLost(s: SM, later: seq<Step>)
    requires Inv(s) && Enabled(s, TakeMsg) && s.msgCtrl[0].AddAction?
    requires var id := s.acts[s.msgCtrl[0].act].id;
             id in s.elems && ThreadAt(s, s.elems[id], TookExit)
    requires CanRun(Next(s, TakeMsg), later)
    ensures var u := Run(Next(s, TakeMsg), later);
            var m := s.msgCtrl[0].act;
            m !in u.ran && s.elems[s.acts[m].id] !in u.ran
  {
    var m := s.msgCtrl[0].act;
    var a := s.elems[s.acts[m].id];
    var t := Next(s, TakeMsg);
    InvKept(s, TakeMsg);
    ExitedKept(s, TakeMsg, a);
    StaysExited(t, {a}, later);
    StaysMerged(t, later, m);
    InvOverRuns(t, later);
    var u := Run(t, later);
    assert Places(u, m) == One(m in u.acts);
  }

  lemma {:induction false} StaysMerged(s: SM, steps: seq<Step>, m: nat)
    requires CanRun(s, steps) && m in s.merged
    ensures m in Run(s, steps).merged
    decreases |steps|
  {
    if steps != [] {
      StaysMerged(Next(s, steps[0]), steps[1..], m);
    }
  }
}
