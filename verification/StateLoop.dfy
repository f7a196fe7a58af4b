/** The state machine object (StateMachine/sm.go) as a class: its fields, and the stretches of
    stateLoop, the client calls and ActionThread between two points where another goroutine can
    come in, as methods. Each is proved to be one step of module StateMachine. */
module StateLoop {
  import opened Options
  import opened StateMachine

  /** A stretch that other goroutines may interrupt, when none does: some steps of the system. */
  ghost predicate Stretch(s: SM, t: SM) {
    exists steps :: CanRun(s, steps) && Run(s, steps) == t
  }

  lemma OneStep(s: SM, step: Step)
    requires Enabled(s, step)
    ensures Stretch(s, Next(s, step))
  {
    RunCons(s, step, []);
  }

  lemma Stretched(s: SM, t: SM, step: Step)
    requires Stretch(s, t) && Enabled(t, step)
    ensures Stretch(s, Next(t, step))
  {
    var steps :| CanRun(s, steps) && Run(s, steps) == t;
    RunSnoc(s, steps, step);
  }

  lemma NoStretch(s: SM)
    ensures Stretch(s, s)
  {
    assert CanRun(s, []);
  }

  /** The state-bound entries under the ids in left. */
  function BoundUnder(s: SM, left: set<string>): set<nat> {
    set id | id in left && id in s.elems && s.elems[id] in s.acts && s.acts[s.elems[id]].fireInState != "" ::
      s.elems[id]
  }

  /** The timers of the records: those that run, and those whose channel T.C holds a value. */
  class Timers {
    var running: set<nat>
    var fired: set<nat>

    constructor ()
      ensures running == {} && fired == {}
    {
      running, fired := {}, {};
    }

    /** NewTimer, and T.Reset. */
    method Set(act: nat)
      modifies this
      ensures running == old(running) + {act} && fired == old(fired)
    {
      running := running + {act};
    }

    /** T.Stop; wasRunning is what it returns. */
    method Stop(act: nat) returns (wasRunning: bool)
      modifies this
      ensures running == old(running) - {act} && fired == old(fired) && (wasRunning <==> act in old(running))
    {
      wasRunning := act in running;
      running := running - {act};
    }

    /** A receive from T.C. */
    method Receive(act: nat)
      requires act in fired
      modifies this
      ensures fired == old(fired) - {act} && running == old(running)
    {
      fired := fired - {act};
    }

    method Expire(act: nat)
      requires act in running
      modifies this
      ensures running == old(running) - {act} && fired == old(fired) + {act}
    {
      running, fired := running - {act}, fired + {act};
    }
  }

  class SMObject {
    var States: set<string>
    var StateNext: Option<string>
    var StateCurr: Option<string>
    var StatePrev: Option<string>
    var msgCtrl: seq<Message>
    var actCtrl: seq<nat>
    /** The fields of the action records; Elems refers to them. */
    var records: map<nat, Action>
    var Elems: map<string, nat>
    const T: Timers

    ghost var loop: LoopPC
    ghost var threads: map<nat, ThreadPC>
    ghost var toMsg: set<nat>
    ghost var toAct: set<nat>
    ghost var merged: set<nat>
    ghost var stopped: set<nat>
    ghost var ran: seq<nat>
    ghost var fired: seq<Fired>
    ghost var dropped: seq<nat>
    ghost var sent: seq<string>
    ghost var taken: seq<string>
    ghost var calls: seq<Call>

    ghost function State(): SM
      reads this
    {
      SM(States, StateCurr, StatePrev, StateNext, loop, msgCtrl, actCtrl, records, Elems, threads,
         toMsg, toAct, merged, stopped, ran, fired, dropped, sent, taken, calls)
    }

    constructor (states: set<string>)
      ensures State() == Initial(states) && fresh(T) && T.running == {} && T.fired == {}
    {
      States, StateNext, StateCurr, StatePrev := states, None, None, None;
      msgCtrl, actCtrl, records, Elems := [], [], map[], map[];
      loop, threads, toMsg, toAct, merged, stopped := Idle, map[], {}, {}, {}, {};
      ran, fired, dropped, sent, taken, calls := [], [], [], [], [], [];
      T := new Timers();
    }

    // ---- client calls ----

    /** AddAction up to its channel send. */
    method CreateAction(act: nat, what: Action, delay: int)
      requires act !in records
      modifies this
      ensures State() == if delay > 0 then Next(old(State()), CreateDelayed(act, what))
                         else Next(old(State()), CreateImmediate(act, what))
    {
      records := records[act := what];
      if delay > 0 {
        toMsg := toMsg + {act};
      } else {
        toAct := toAct + {act};
      }
    }

    /** AddAction as a whole; it waits while the channel is full. */
    method AddAction(act: nat, what: Action, delay: int)
      requires act !in records && act !in toMsg && act !in toAct
      requires |msgCtrl| < CHANNEL_CAPACITY && |actCtrl| < CHANNEL_CAPACITY
      modifies this
      ensures records == old(records)[act := what] && Elems == old(Elems)
      ensures delay > 0 ==> msgCtrl == old(msgCtrl) + [Message.AddAction(act)] && actCtrl == old(actCtrl)
                            && State() == Next(Next(old(State()), CreateDelayed(act, what)), SendMsg(act))
      ensures delay <= 0 ==> actCtrl == old(actCtrl) + [act] && msgCtrl == old(msgCtrl)
                             && State() == Next(Next(old(State()), CreateImmediate(act, what)), SendAct(act))
    {
      CreateAction(act, what, delay);
      if delay > 0 {
        msgCtrl := msgCtrl + [Message.AddAction(act)];
        toMsg := toMsg - {act};
      } else {
        actCtrl := actCtrl + [act];
        toAct := toAct - {act};
      }
    }

    /** SetState; it waits while the channel is full. */
    method SendStateMessage(name: string)
      requires |msgCtrl| < CHANNEL_CAPACITY
      modifies this
      ensures State() == Next(old(State()), SendState(name)) && msgCtrl == old(msgCtrl) + [SetState(name)]
    {
      msgCtrl := msgCtrl + [SetState(name)];
      sent := sent + [name];
    }

    // ---- stateLoop ----

    method FindAction(id: string) returns (act: Option<nat>)
      ensures act == if id in Elems then Some(Elems[id]) else None
    {
      if id in Elems {
        return Some(Elems[id]);
      }
      return None;
    }

    /** The switch itself, up to the point where ClearActions has the lock. */
    method SwitchTo(name: string)
      modifies this
      ensures State() == Switch(old(State()), name)
    {
      StateNext := None;
      StateCurr, StatePrev := Some(name), StateCurr;
      loop := Clearing(Bound(State()), Bound(State()));
    }

    /** onStateMessage up to the call of Leave, or up to ClearActions when there is none. */
    method OnState(name: string) returns (leaving: bool, clearing: bool)
      requires loop == Idle
      modifies this
      ensures State() == OnStateMessage(old(State()), name)
      ensures (leaving <==> loop == Leaving(name)) && (clearing <==> loop.Clearing?)
      ensures !leaving ==> !loop.Leaving?
    {
      leaving, clearing := false, false;
      if |States| == 0 {
        return;
      }
      var next := if name in States then Some(name) else None;
      if StateCurr == next {
        return;
      }
      if next.Some? {
        if StateCurr.Some? {
          StateNext := next;
          calls := calls + [Leave(StateCurr, StateNext)];
          loop := Leaving(name);
          leaving := true;
        } else {
          SwitchTo(name);
          clearing := true;
        }
      }
    }

    /** The timer of a listed record starts again; a value it has already sent is taken back. */
    method RestartTimer(act: nat)
      modifies T
      ensures T.running == old(T.running) + {act}
      ensures T.fired == if act in old(T.running) then old(T.fired) else old(T.fired) - {act}
    {
      var wasRunning := T.Stop(act);
      if !wasRunning {
        if act in T.fired {
          T.Receive(act);
        }
      }
      T.Set(act);
    }

    /** onAddActionMessage up to the lock; an id that is listed has its record rewritten. */
    method OnAddAction(m: nat)
      requires m in records && forall id :: id in Elems ==> Elems[id] in records
      modifies this, T
      ensures State() == OnAddActionMessage(old(State()), m)
      ensures var added := old(records)[m];
              if added.id in Elems then
                var listed := old(records)[Elems[added.id]];
                records == old(records)[Elems[added.id] := Action(listed.id, added.fireInState, added.f)]
              else records == old(records) && loop == Adding(m)
      ensures T.running == old(T.running) + {if records[m].id in Elems then Elems[records[m].id] else m}
    {
      var act := FindAction(records[m].id);
      if act.Some? {
        RestartTimer(act.value);
        var listed := records[act.value];
        records := records[act.value := listed.(fireInState := records[m].fireInState, f := records[m].f)];
        merged := merged + {m};
      } else {
        T.Set(m);
        loop := Adding(m);
      }
    }

    /** One message taken from msgCtrl. */
    method OnMessage() returns (leaving: bool, clearing: bool)
      requires Enabled(State(), TakeMsg) && forall id :: id in Elems ==> Elems[id] in records
      modifies this, T
      ensures old(msgCtrl)[0].SetState? ==> T.running == old(T.running) && T.fired == old(T.fired)
      ensures State() == Next(old(State()), TakeMsg)
      ensures (leaving <==> loop.Leaving?) && (clearing <==> loop.Clearing?)
      ensures leaving ==> old(msgCtrl)[0] == SetState(loop.to)
    {
      leaving, clearing := false, false;
      var msg := msgCtrl[0];
      msgCtrl := msgCtrl[1..];
      match msg
      case SetState(name) =>
        taken := taken + [name];
        leaving, clearing := OnState(name);
      case AddAction(m) => OnAddAction(m);
      case Other =>
    }

    /** The list update of onAddActionMessage, under the lock. */
    method InsertAction(m: nat)
      requires loop == Adding(m) && m in records
      modifies this
      ensures State() == Next(old(State()), Insert) && Elems == old(Elems)[records[m].id := m]
    {
      Elems := Elems[records[m].id := m];
      loop := Starting(m);
    }

    /** A state-bound action needs its state to be the current one. */
    method PassesGuard(fireInState: string) returns (fires: bool)
      ensures fires <==> fireInState == "" || StateCurr == Some(fireInState)
    {
      if |fireInState| > 0 {
        if StateCurr.None? {
          return false;
        }
        if StateCurr.value != fireInState {
          return false;
        }
      }
      return true;
    }

    method DropAction()
      requires actCtrl != []
      modifies this
      ensures State() == old(State()).(actCtrl := old(actCtrl)[1..], dropped := old(dropped) + [old(actCtrl)[0]])
    {
      dropped := dropped + [actCtrl[0]];
      actCtrl := actCtrl[1..];
    }

    method CallF()
      requires actCtrl != [] && actCtrl[0] in records
      modifies this
      ensures var act := old(actCtrl)[0];
              State() == old(State()).(actCtrl := old(actCtrl)[1..], loop := Running(act), ran := old(ran) + [act],
                                       fired := old(fired) + [Fired(old(records)[act].fireInState, old(StateCurr),
                                                                    old(records)[act].f)])
    {
      var act := actCtrl[0];
      actCtrl := actCtrl[1..];
      ran, fired := ran + [act], fired + [Fired(records[act].fireInState, StateCurr, records[act].f)];
      loop := Running(act);
    }

    /** One action taken from actCtrl; fires says that its F is called. */
    method OnAction() returns (fires: bool)
      requires Enabled(State(), TakeAct)
      modifies this
      ensures State() == Next(old(State()), TakeAct)
      ensures fires <==> loop.Running?
      ensures var act := old(actCtrl)[0];
              && (fires <==> records[act].fireInState == "" || StateCurr == Some(records[act].fireInState))
              && (fires ==> ran == old(ran) + [act] && |fired| > 0 && fired[|fired| - 1].f == records[act].f)
              && (!fires ==> dropped == old(dropped) + [act] && ran == old(ran))
    {
      fires := PassesGuard(records[actCtrl[0]].fireInState);
      if fires {
        CallF();
      } else {
        DropAction();
      }
    }

    // ---- a transition, from the return of Leave to the return of Enter ----

    method LeaveReturned(to: string)
      requires loop == Leaving(to)
      modifies this
      ensures State() == Next(old(State()), LeaveReturns)
    {
      SwitchTo(to);
    }

    /** act.Stop() inside ClearActions: the timer is stopped, and the send on Exit meets the thread at
        its select. */
    method StopListed(act: nat)
      requires Enabled(State(), ClearOne(act))
      modifies this, T
      ensures State() == Next(old(State()), ClearOne(act))
      ensures T.running == old(T.running) - {act} && T.fired == old(T.fired)
    {
      var _ := T.Stop(act);
      threads := threads[act := TookExit];
      loop := Clearing(loop.found, loop.rest - {act});
    }

    /** ClearActions from the lock on, when the threads it has to stop are all at their select. */
    method ClearActions()
      requires loop.Clearing? && loop.rest == Bound(State())
      requires forall id :: id in Elems ==> Elems[id] in records && records[Elems[id]].id == id
      requires forall a :: a in loop.rest ==> ThreadAt(State(), a, Waiting)
      modifies this, T
      ensures Stretch(old(State()), State()) && loop.Clearing? && loop.rest == {}
      ensures T.running == old(T.running) - old(loop.rest) && T.fired == old(T.fired)
      ensures forall a :: a in old(loop.rest) ==> ThreadAt(State(), a, TookExit)
      ensures State() == old(State()).(loop := loop, threads := threads)
    {
      ghost var before := State();
      NoStretch(before);
      var left := Elems.Keys;
      assert BoundUnder(before, left) == Bound(before);
      while left != {}
        invariant left <= Elems.Keys && Stretch(before, State())
        invariant State() == before.(loop := loop, threads := threads)
        invariant loop.Clearing? && loop.rest == BoundUnder(before, left) <= before.loop.rest
        invariant T.running == old(T.running) - (before.loop.rest - loop.rest) && T.fired == old(T.fired)
        invariant forall a :: a in loop.rest ==> ThreadAt(State(), a, Waiting)
        invariant forall a :: a in before.loop.rest && a !in loop.rest ==> ThreadAt(State(), a, TookExit)
        decreases left
      {
        var id :| id in left;
        var act := Elems[id];
        OneFewer(before, left, id);
        if records[act].fireInState != "" {
          Stretched(before, State(), ClearOne(act));
          StopListed(act);
        }
        left := left - {id};
      }
      assert BoundUnder(before, {}) == {};
    }

    method CallEnter()
      requires loop.Clearing? && loop.rest == {}
      modifies this
      ensures State() == Next(old(State()), ClearReturns)
    {
      calls := calls + [Enter(StateCurr, StatePrev, StateNext)];
      loop := Entering;
    }

    method EnterReturned()
      requires loop == Entering
      modifies this
      ensures State() == Next(old(State()), EnterReturns)
    {
      loop := Idle;
    }

    /** ClearActions and Enter. */
    method FinishSwitch()
      requires loop.Clearing? && loop.rest == Bound(State())
      requires forall id :: id in Elems ==> Elems[id] in records && records[Elems[id]].id == id
      requires forall a :: a in loop.rest ==> ThreadAt(State(), a, Waiting)
      modifies this, T
      ensures Stretch(old(State()), State()) && loop == Idle && T.running == old(T.running) - old(loop.rest)
      ensures StateCurr == old(StateCurr) && StatePrev == old(StatePrev) && msgCtrl == old(msgCtrl)
      ensures States == old(States)
    {
      ghost var s0 := State();
      ClearActions();
      Stretched(s0, State(), ClearReturns);
      CallEnter();
      Stretched(s0, State(), EnterReturns);
      EnterReturned();
    }

    /** A SetState message from its receive to the return of Enter, when nothing interrupts it. */
    method HandleSetState()
      requires Enabled(State(), TakeMsg) && msgCtrl[0].SetState?
      requires forall id :: id in Elems ==> Elems[id] in records && records[Elems[id]].id == id
      requires forall a :: a in Bound(State()) ==> ThreadAt(State(), a, Waiting)
      modifies this, T
      ensures Stretch(old(State()), State()) && loop == Idle && msgCtrl == old(msgCtrl)[1..]
      ensures StateCurr == (if old(msgCtrl)[0].name in States then Some(old(msgCtrl)[0].name) else old(StateCurr))
      ensures StatePrev == if StateCurr == old(StateCurr) then old(StatePrev) else old(StateCurr)
    {
      ghost var s0 := State();
      OneStep(s0, TakeMsg);
      var name := msgCtrl[0].name;
      var leaving, clearing := OnMessage();
      KeepsBound(s0, State());
      if leaving {
        Stretched(s0, State(), LeaveReturns);
        LeaveReturned(name);
        KeepsBound(s0, State());
      }
      if leaving || clearing {
        ghost var s1 := State();
        FinishSwitch();
        StretchTwice(s0, s1, State());
      }
    }

    method FReturned()
      requires loop.Running?
      modifies this
      ensures State() == Next(old(State()), RunReturns)
    {
      loop := Idle;
    }

    /** One turn of stateLoop for an action, when nothing interrupts it. */
    method HandleAction()
      requires Enabled(State(), TakeAct)
      modifies this
      ensures State() == if Next(old(State()), TakeAct).loop.Running? then Next(Next(old(State()), TakeAct), RunReturns)
                         else Next(old(State()), TakeAct)
    {
      var fires := OnAction();
      if fires {
        FReturned();
      }
    }

    // ---- ActionThread ----

    /** The select takes the value in T.C. */
    method TimerBranch(act: nat)
      requires Enabled(State(), TimerFires(act)) && act in T.fired
      modifies this, T
      ensures State() == Next(old(State()), TimerFires(act))
      ensures T.fired == old(T.fired) - {act} && T.running == old(T.running)
    {
      T.Receive(act);
      threads := threads[act := TookTimer];
    }

    /** A client's Stop: the timer is stopped, and the send on Exit meets the thread at its select, which
        takes the exit branch. A value already in T.C stays there. */
    method Stop(act: nat)
      requires Enabled(State(), ClientStops(act))
      modifies this, T
      ensures State() == Next(old(State()), ClientStops(act))
      ensures T.running == old(T.running) - {act} && T.fired == old(T.fired)
    {
      var _ := T.Stop(act);
      threads := threads[act := TookExit];
    }

    /** The delete under the lock. */
    method DeleteAction(act: nat)
      requires Enabled(State(), ThreadDeletes(act))
      modifies this
      ensures State() == Next(old(State()), ThreadDeletes(act))
    {
      Elems := Elems - {records[act].id};
      if threads[act] == TookTimer {
        threads := threads[act := Sending];
      } else {
        threads, stopped := threads - {act}, stopped + {act};
      }
    }

    method SendFired(act: nat)
      requires Enabled(State(), ThreadSends(act))
      modifies this
      ensures State() == Next(old(State()), ThreadSends(act)) && actCtrl == old(actCtrl) + [act]
    {
      actCtrl := actCtrl + [act];
      threads := threads - {act};
    }

    /** The timer runs out and the thread goes all the way to actCtrl. */
    method TimedOut(act: nat)
      requires ThreadAt(State(), act, Waiting) && act in records && !loop.Clearing? && |actCtrl| < CHANNEL_CAPACITY
      requires act in T.running
      modifies this, T
      ensures State() == Next(Next(Next(old(State()), TimerFires(act)), ThreadDeletes(act)), ThreadSends(act))
    {
      T.Expire(act);
      TimerBranch(act);
      DeleteAction(act);
      SendFired(act);
    }

    method Stopped(act: nat)
      requires ThreadAt(State(), act, Waiting) && act in records && !loop.Clearing?
      modifies this, T
      ensures State() == Next(Next(old(State()), ClientStops(act)), ThreadDeletes(act))
    {
      Stop(act);
      DeleteAction(act);
    }

    /** ActionThread from its select to its end, when nothing interrupts it. */
    method ActionThread(act: nat, timer: bool)
      requires ThreadAt(State(), act, Waiting) && act in records && !loop.Clearing? && |actCtrl| < CHANNEL_CAPACITY
      requires timer ==> act in T.running
      modifies this, T
      ensures act !in threads && actCtrl == (if timer then old(actCtrl) + [act] else old(actCtrl))
      ensures Elems == old(Elems) - {old(records)[act].id} && (!timer ==> act in stopped)
    {
      if timer {
        TimedOut(act);
      } else {
        Stopped(act);
      }
    }
  }

  lemma OneFewer(s: SM, left: set<string>, id: string)
    requires id in left && id in s.elems
    requires forall i :: i in s.elems ==> s.elems[i] in s.acts && s.acts[s.elems[i]].id == i
    ensures BoundUnder(s, left - {id}) ==
            if s.acts[s.elems[id]].fireInState != "" then BoundUnder(s, left) - {s.elems[id]} else BoundUnder(s, left)
    ensures s.acts[s.elems[id]].fireInState != "" ==> s.elems[id] in BoundUnder(s, left)
  {
  }

  lemma StretchTwice(s: SM, t: SM, u: SM)
    requires Stretch(s, t) && Stretch(t, u)
    ensures Stretch(s, u)
  {
    var first :| CanRun(s, first) && Run(s, first) == t;
    var second :| CanRun(t, second) && Run(t, second) == u;
    RunAppend(s, first, second);
  }

  lemma KeepsBound(s: SM, t: SM)
    requires t.elems == s.elems && t.acts == s.acts
    ensures Bound(t) == Bound(s)
  {
  }
}
