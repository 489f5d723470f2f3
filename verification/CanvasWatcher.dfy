/** The watcher object itself: the timers map, the timers the runtime knows and fireWG, as
    fields that scheduleReload, a timer callback and Close's sweep update while they hold mu.
    Each method is tied to the interleaved protocol of module ReloadProtocol. */
module CanvasWatcher {
  import opened ReloadProtocol

  /** What scheduleReload makes of the guarded state: the pending timer is pushed back, or a
      new generation with its own credit replaces whatever entry there was. */
  function Scheduled(c: Core, id: Id, deadline: nat): Core {
    if Pends(c, id) then SetPhase(c, c.entry[id], Pending(deadline))
    else Core(c.entry[id := |c.gens|], c.gens + [Timer(id, Pending(deadline))], c.fireWG + 1)
  }

  /** The actions of one scheduleReload call, with nothing in between. */
  function ScheduleActions(c: Core, id: Id): seq<Action> {
    if Pends(c, id) then [Loop(Lock), Loop(Look), Loop(Reset)]
    else [Loop(Lock), Loop(Look), Loop(AddCredit), Loop(AfterFunc), Loop(Store)]
  }

  lemma RunsOne(s: State, a: Action, acts: seq<Action>, debounce: nat, end: State)
    requires Enabled(s, a) && Runs(Next(s, a, debounce), acts, debounce, end)
    ensures Runs(s, [a] + acts, debounce, end)
  {
    assert ([a] + acts)[1..] == acts;
  }

  lemma PushBackSteps(s: State, debounce: nat) returns (end: State)
    requires s.loop.WantLock? && s.mu.Nobody? && Pends(s.core, s.loop.id)
    ensures Runs(s, [Loop(Lock), Loop(Look), Loop(Reset)], debounce, end)
    ensures end.core == Scheduled(s.core, s.loop.id, s.now + debounce) && end.loop.Idle? && end.mu.Nobody?
  {
    var s1 := Next(s, Loop(Lock), debounce);
    var s2 := Next(s1, Loop(Look), debounce);
    end := Next(s2, Loop(Reset), debounce);
    assert Runs(end, [], debounce, end);
    RunsOne(s2, Loop(Reset), [], debounce, end);
    RunsOne(s1, Loop(Look), [Loop(Reset)], debounce, end);
    RunsOne(s, Loop(Lock), [Loop(Look), Loop(Reset)], debounce, end);
  }

  lemma FreshTimerSteps(s: State, debounce: nat) returns (end: State)
    requires s.loop.WantLock? && s.mu.Nobody? && !Pends(s.core, s.loop.id)
    ensures Runs(s, [Loop(Lock), Loop(Look), Loop(AddCredit), Loop(AfterFunc), Loop(Store)], debounce, end)
    ensures end.core == Scheduled(s.core, s.loop.id, s.now + debounce) && end.loop.Idle? && end.mu.Nobody?
  {
    var s1 := Next(s, Loop(Lock), debounce);
    var s2 := Next(s1, Loop(Look), debounce);
    assert s2.loop == Credit(s.loop.id) && s2.core == s.core;
    end := AfterCredit(s2, s.loop.id, debounce);
    var rest := [Loop(AddCredit), Loop(AfterFunc), Loop(Store)];
    RunsOne(s1, Loop(Look), rest, debounce, end);
    RunsOne(s, Loop(Lock), [Loop(Look)] + rest, debounce, end);
    assert [Loop(Lock)] + ([Loop(Look)] + rest) ==
      [Loop(Lock), Loop(Look), Loop(AddCredit), Loop(AfterFunc), Loop(Store)];
  }

  lemma AfterCredit(s: State, id: Id, debounce: nat) returns (end: State)
    requires s.loop == Credit(id) && !Pends(s.core, id)
    ensures Runs(s, [Loop(AddCredit), Loop(AfterFunc), Loop(Store)], debounce, end)
    ensures end.core == Scheduled(s.core, id, s.now + debounce) && end.loop.Idle? && end.mu.Nobody?
  {
    var s1 := Next(s, Loop(AddCredit), debounce);
    var s2 := Next(s1, Loop(AfterFunc), debounce);
    end := Next(s2, Loop(Store), debounce);
    assert Runs(end, [], debounce, end);
    RunsOne(s2, Loop(Store), [], debounce, end);
    RunsOne(s1, Loop(AfterFunc), [Loop(Store)], debounce, end);
    RunsOne(s, Loop(AddCredit), [Loop(AfterFunc), Loop(Store)], debounce, end);
  }

  /** Run without interruption, the protocol's own steps of scheduleReload compute Scheduled. */
  lemma ScheduleStepsCompute(s: State, debounce: nat) returns (end: State)
    requires s.loop.WantLock? && s.mu.Nobody?
    ensures Runs(s, ScheduleActions(s.core, s.loop.id), debounce, end)
    ensures end.core == Scheduled(s.core, s.loop.id, s.now + debounce)
    ensures end.loop.Idle? && end.mu.Nobody?
  {
    if Pends(s.core, s.loop.id) {
      end := PushBackSteps(s, debounce);
    } else {
      end := FreshTimerSteps(s, debounce);
    }
  }

  class Watcher {
    const debounce: nat
    var timers: map<Id, Gen>
    var gens: seq<Timer>  // the runtime's view of every AfterFunc timer made so far
    var fireWG: int

    ghost function View(): Core
      reads this
    {
      Core(timers, gens, fireWG)
    }

    /** Every generation the map holds exists and belongs to its canvas. */
    ghost predicate Valid()
      reads this
    {
      forall id :: id in timers ==> timers[id] < |gens| && gens[timers[id]].id == id
    }

    constructor (debounce: nat)
      ensures Valid() && View() == Init().core && this.debounce == debounce
    {
      this.debounce := debounce;
      timers, gens, fireWG := map[], [], 0;
    }

    /** time.Timer.Stop: true just when the callback has not been dispatched. */
    method Stop(g: Gen) returns (stopped: bool)
      requires g < |gens|
      modifies this`gens
      ensures stopped == old(gens)[g].phase.Pending?
      ensures gens == if stopped then old(gens)[g := old(gens)[g].(phase := Stopped)] else old(gens)
    {
      stopped := gens[g].phase.Pending?;
      if stopped {
        gens := gens[g := gens[g].(phase := Stopped)];
      }
    }

    /** scheduleReload, called with the present time. */
    method ScheduleReload(id: Id, now: nat)
      requires Valid()
      modifies this
      ensures Valid() && View() == Scheduled(old(View()), id, now + debounce)
    {
      if id in timers {
        var t := timers[id];
        var stopped := Stop(t);
        if stopped {
          gens := gens[t := gens[t].(phase := Pending(now + debounce))];
          return;
        }
      }
      fireWG := fireWG + 1;
      gens := gens + [Timer(id, Pending(now + debounce))];
      timers := timers[id := |gens| - 1];
    }

    /** The callback's critical section: drop the map entry only if it is still this timer. */
    method CleanUp(g: Gen)
      requires Valid() && g < |gens| && gens[g].phase.Cleaning?
      modifies this
      ensures Valid()
      ensures forall s: State :: s.core == old(View()) ==> View() == CallbackNext(s, g, ReloadProtocol.CleanUp).core
    {
      var id := gens[g].id;
      if id in timers && timers[id] == g {
        timers := timers - {id};
      }
      gens := gens[g := gens[g].(phase := Unlocked)];
    }

    /** Close's loop over the map: every stored generation still pending is cancelled and its
        credit returned; nothing else changes. */
    method Sweep()
      requires Valid()
      modifies this
      ensures Valid() && timers == old(timers) && |gens| == |old(gens)|
      ensures forall g :: 0 <= g < |gens| ==>
        gens[g] == if old(gens)[g].phase.Pending? && InMap(old(View()), g)
                   then old(gens)[g].(phase := Cancelled) else old(gens)[g]
      ensures fireWG - LiveCount(gens) == old(fireWG) - LiveCount(old(gens))
    {
      var todo := timers.Keys;
      while todo != {}
        invariant todo <= timers.Keys && timers == old(timers)
        invariant |gens| == |old(gens)|
        invariant forall g :: 0 <= g < |gens| ==>
          gens[g] == if old(gens)[g].phase.Pending? && InMap(old(View()), g) && old(gens)[g].id !in todo
                     then old(gens)[g].(phase := Cancelled) else old(gens)[g]
        invariant fireWG - LiveCount(gens) == old(fireWG) - LiveCount(old(gens))
        decreases todo
      {
        var id :| id in todo;
        var t := timers[id];
        if gens[t].phase.Pending? {
          LiveCountSet(gens, t, gens[t].(phase := Cancelled));
          gens := gens[t := gens[t].(phase := Cancelled)];
          fireWG := fireWG - 1;
        }
        todo := todo - {id};
      }
    }
  }
}
