/** The debounce of the reload protocol, over every run of module ReloadProtocol: no reload starts
    before its timer's time, and a burst of events is answered by one. */
module ReloadDebounce {
  import opened ReloadProtocol

  // ---------------------------------------------------------------- no reload before its time

  /** When each generation was last armed: by its AfterFunc, or by a Reset since. */
  type Armings = map<Gen, nat>

  function NextArmings(s: State, a: Action, armed: Armings): Armings
    requires Enabled(s, a)
  {
    match a
    case Loop(Reset) => armed[s.loop.gen := s.now]
    case Loop(AfterFunc) => armed[|s.core.gens| := s.now]
    case _ => armed
  }

  /** The same at the end of a run. */
  function ArmedAfter(s: State, acts: seq<Action>, debounce: nat, armed: Armings): Armings
    decreases |acts|
  {
    if acts == [] || !Enabled(s, acts[0]) then armed
    else ArmedAfter(Next(s, acts[0], debounce), acts[1..], debounce, NextArmings(s, acts[0], armed))
  }

  /** A generation on its way from dispatch to onReload. */
  predicate Underway(p: Phase) {
    p.Dispatched? || p.Cleaning? || p.Unlocked?
  }

  /** A pending generation is due one window after its latest arming, and one on its way to onReload
      was. */
  predicate InTime(gens: seq<Timer>, now: nat, armed: Armings, debounce: nat, g: Gen) {
    g < |gens| ==>
      && g in armed && armed[g] <= now
      && (gens[g].phase.Pending? ==> gens[g].phase.deadline == armed[g] + debounce)
      && (Underway(gens[g].phase) ==> armed[g] + debounce <= now)
  }

  ghost predicate AllInTime(s: State, armed: Armings, debounce: nat) {
    forall g :: InTime(s.core.gens, s.now, armed, debounce, g)
  }

  ghost predicate InTimeNext(s: State, a: Action, armed: Armings, debounce: nat, g: Gen)
    requires Enabled(s, a)
  {
    InTime(Next(s, a, debounce).core.gens, Next(s, a, debounce).now, NextArmings(s, a, armed), debounce, g)
  }

  lemma LoopStaysInTime(s: State, l: LoopStep, armed: Armings, debounce: nat, g: Gen)
    requires LoopStored(s.core, s.loop) && InTime(s.core.gens, s.now, armed, debounce, g) && LoopEnabled(s, l)
    ensures InTimeNext(s, Loop(l), armed, debounce, g)
  {
  }

  lemma CallbackStaysInTime(s: State, h: Gen, c: CallbackStep, armed: Armings, debounce: nat, g: Gen)
    requires InTime(s.core.gens, s.now, armed, debounce, g) && CallbackEnabled(s, h, c)
    ensures InTimeNext(s, Callback(h, c), armed, debounce, g)
  {
  }

  lemma CloseStaysInTime(s: State, k: CloseStep, armed: Armings, debounce: nat, g: Gen)
    requires InTime(s.core.gens, s.now, armed, debounce, g) && CloseEnabled(s, k)
    ensures InTimeNext(s, Close(k), armed, debounce, g)
  {
  }

  lemma StaysInTime(s: State, a: Action, armed: Armings, debounce: nat)
    requires LoopStored(s.core, s.loop) && AllInTime(s, armed, debounce) && Enabled(s, a)
    ensures AllInTime(Next(s, a, debounce), NextArmings(s, a, armed), debounce)
  {
    var t := Next(s, a, debounce);
    forall g ensures InTime(t.core.gens, t.now, NextArmings(s, a, armed), debounce, g) {
      assert InTime(s.core.gens, s.now, armed, debounce, g);
      match a
      case Loop(l) => LoopStaysInTime(s, l, armed, debounce, g);
      case Callback(h, c) => CallbackStaysInTime(s, h, c, armed, debounce, g);
      case Close(k) => CloseStaysInTime(s, k, armed, debounce, g);
      case _ =>
    }
  }

  lemma {:induction false} RunStaysInTime(s: State, acts: seq<Action>, armed: Armings, debounce: nat, end: State)
    requires Books(s) && AllInTime(s, armed, debounce) && Runs(s, acts, debounce, end)
    ensures Books(end) && AllInTime(end, ArmedAfter(s, acts, debounce, armed), debounce)
    decreases |acts|
  {
    if acts != [] {
      NextKeepsBooks(s, acts[0], debounce);
      StaysInTime(s, acts[0], armed, debounce);
      RunStaysInTime(Next(s, acts[0], debounce), acts[1..], NextArmings(s, acts[0], armed), debounce, end);
    }
  }

  /** In every run, whenever a generation enters onReload a whole window has passed since its latest
      arming. */
  lemma NoReloadBeforeItsTime(acts: seq<Action>, debounce: nat, s: State, g: Gen, end: State)
    requires Runs(Init(), acts, debounce, s) && Runs(s, [Callback(g, EnterReload)], debounce, end)
    ensures var armed := ArmedAfter(Init(), acts, debounce, map[]); g in armed && armed[g] + debounce <= s.now
  {
    RunStaysInTime(Init(), acts, map[], debounce, s);
    assert InTime(s.core.gens, s.now, ArmedAfter(Init(), acts, debounce, map[]), debounce, g);
  }

  // ---------------------------------------------------------------- what is due

  /** Armed or under way, and not yet in onReload. */
  predicate IsDue(t: Timer, id: Id) {
    t.id == id && (t.phase.Pending? || t.phase.Stopped? || Underway(t.phase))
  }

  /** How many reloads of the canvas are still to come. */
  function Due(gens: seq<Timer>, id: Id): nat {
    if gens == [] then 0 else Due(gens[..|gens| - 1], id) + (if IsDue(gens[|gens| - 1], id) then 1 else 0)
  }

  lemma {:induction false} DueSet(gens: seq<Timer>, id: Id, g: Gen, t: Timer)
    requires g < |gens|
    ensures Due(gens[g := t], id) ==
      Due(gens, id) - (if IsDue(gens[g], id) then 1 else 0) + (if IsDue(t, id) then 1 else 0)
  {
    var n := |gens| - 1;
    if g == n {
      assert gens[g := t][..n] == gens[..n];
    } else {
      assert gens[g := t][..n] == gens[..n][g := t];
      DueSet(gens[..n], id, g, t);
    }
  }

  lemma {:induction false} SomeDue(gens: seq<Timer>, id: Id) returns (g: Gen)
    requires Due(gens, id) > 0
    ensures g < |gens| && IsDue(gens[g], id)
  {
    var n := |gens| - 1;
    if IsDue(gens[n], id) {
      g := n;
    } else {
      g := SomeDue(gens[..n], id);
    }
  }

  lemma {:induction false} NoneDue(gens: seq<Timer>, id: Id, g: Gen)
    requires Due(gens, id) == 0 && g < |gens|
    ensures !IsDue(gens[g], id)
  {
    if g < |gens| - 1 {
      NoneDue(gens[..|gens| - 1], id, g);
    }
  }

  predicate Enters(s: State, a: Action, id: Id) {
    a.Callback? && a.c.EnterReload? && a.gen < |s.core.gens| && s.core.gens[a.gen].id == id
  }

  predicate Cancels(s: State, a: Action, id: Id) {
    a.Close? && a.k.Visit? && a.k.id == id && Pends(s.core, id)
  }

  predicate Makes(s: State, a: Action, id: Id) {
    a.Loop? && a.l.AfterFunc? && s.loop.Arm? && s.loop.id == id
  }

  function One(b: bool): nat {
    if b then 1 else 0
  }

  lemma LoopKeepsDue(s: State, l: LoopStep, debounce: nat, id: Id)
    requires LoopStored(s.core, s.loop) && LoopEnabled(s, l)
    ensures Due(LoopNext(s, l, debounce).core.gens, id) == Due(s.core.gens, id) + One(Makes(s, Loop(l), id))
  {
    var t := LoopNext(s, l, debounce);
    match l
    case Look =>
      if t.loop.Rearm? {
        DueSet(s.core.gens, id, t.loop.gen, t.core.gens[t.loop.gen]);
      }
    case Reset => DueSet(s.core.gens, id, s.loop.gen, t.core.gens[s.loop.gen]);
    case AfterFunc => assert t.core.gens[..|s.core.gens|] == s.core.gens;
    case _ =>
  }

  lemma CallbackKeepsDue(s: State, g: Gen, c: CallbackStep, id: Id)
    requires CallbackEnabled(s, g, c)
    ensures Due(CallbackNext(s, g, c).core.gens, id) + One(Enters(s, Callback(g, c), id)) == Due(s.core.gens, id)
  {
    DueSet(s.core.gens, id, g, CallbackNext(s, g, c).core.gens[g]);
  }

  lemma CloseKeepsDue(s: State, k: CloseStep, id: Id)
    requires Stored(s.core, s.loop) && CloseEnabled(s, k)
    ensures Due(CloseNext(s, k).core.gens, id) + One(Cancels(s, Close(k), id)) == Due(s.core.gens, id)
  {
    if k.Visit? && Pends(s.core, k.id) {
      var g := s.core.entry[k.id];
      DueSet(s.core.gens, id, g, s.core.gens[g].(phase := Cancelled));
    }
  }

  /** Reloads that are due are made by AfterFunc alone, and end in onReload or by Close's sweep. */
  lemma DueBalances(s: State, a: Action, debounce: nat, id: Id)
    requires Books(s) && Enabled(s, a)
    ensures Due(Next(s, a, debounce).core.gens, id) + One(Enters(s, a, id)) + One(Cancels(s, a, id)) ==
      Due(s.core.gens, id) + One(Makes(s, a, id))
  {
    match a
    case Loop(l) => LoopKeepsDue(s, l, debounce, id);
    case Callback(g, c) => CallbackKeepsDue(s, g, c, id);
    case Close(k) => CloseKeepsDue(s, k, id);
    case _ =>
  }

  // ---------------------------------------------------------------- over runs

  /** How often a run enters onReload for the canvas. */
  function Entries(s: State, acts: seq<Action>, debounce: nat, id: Id): nat
    decreases |acts|
  {
    if acts == [] || !Enabled(s, acts[0]) then 0
    else One(Enters(s, acts[0], id)) + Entries(Next(s, acts[0], debounce), acts[1..], debounce, id)
  }

  function Cancellations(s: State, acts: seq<Action>, debounce: nat, id: Id): nat
    decreases |acts|
  {
    if acts == [] || !Enabled(s, acts[0]) then 0
    else One(Cancels(s, acts[0], id)) + Cancellations(Next(s, acts[0], debounce), acts[1..], debounce, id)
  }

  /** Each of them at this moment or later. */
  predicate EntersFrom(s: State, acts: seq<Action>, debounce: nat, id: Id, moment: nat)
    decreases |acts|
  {
    acts == [] || !Enabled(s, acts[0]) ||
    ((Enters(s, acts[0], id) ==> moment <= s.now)
     && EntersFrom(Next(s, acts[0], debounce), acts[1..], debounce, id, moment))
  }

  /** No timer of the canvas is dispatched in the run. */
  predicate NoDispatch(s: State, acts: seq<Action>, debounce: nat, id: Id)
    decreases |acts|
  {
    acts == [] || !Enabled(s, acts[0]) ||
    (!(acts[0].Callback? && acts[0].c.Fire? && s.core.gens[acts[0].gen].id == id)
     && NoDispatch(Next(s, acts[0], debounce), acts[1..], debounce, id))
  }

  predicate NoEvent(acts: seq<Action>, id: Id) {
    forall i :: 0 <= i < |acts| ==> acts[i] != Loop(Event(id))
  }

  // ---------------------------------------------------------------- a burst

  predicate AllPending(gens: seq<Timer>, id: Id) {
    forall g :: 0 <= g < |gens| && IsDue(gens[g], id) ==> gens[g].phase.Pending? || gens[g].phase.Stopped?
  }

  /** Inside a burst: at most one reload is due, it is not under way, and with it there nothing new is
      about to be armed. */
  ghost predicate InBurst(s: State, id: Id) {
    && Due(s.core.gens, id) <= 1 && AllPending(s.core.gens, id)
    && (Due(s.core.gens, id) == 1 ==> s.loop != Credit(id) && s.loop != Arm(id))
  }

  predicate Fires(s: State, a: Action, id: Id) {
    a.Callback? && a.c.Fire? && a.gen < |s.core.gens| && s.core.gens[a.gen].id == id
  }

  /** A look with a reload due finds it. */
  lemma DueIsFound(s: State, id: Id)
    requires Books(s) && InBurst(s, id) && Due(s.core.gens, id) == 1 && s.loop == Inspect(id)
    ensures Pends(s.core, id)
  {
    var g := SomeDue(s.core.gens, id);
    assert s.core.gens[g].phase.Pending?;
  }

  lemma LoopStaysInBurst(s: State, l: LoopStep, debounce: nat, id: Id)
    requires Books(s) && InBurst(s, id) && LoopEnabled(s, l)
    ensures InBurst(LoopNext(s, l, debounce), id)
    ensures Handling(s.loop, id) && !Handling(LoopNext(s, l, debounce).loop, id) ==>
      Due(LoopNext(s, l, debounce).core.gens, id) == 1
  {
    LoopKeepsDue(s, l, debounce, id);
    if l.Look? && s.loop == Inspect(id) && Due(s.core.gens, id) == 1 {
      DueIsFound(s, id);
    }
    if s.loop.Install? || s.loop.Rearm? {
      if Due(s.core.gens, id) == 0 && s.loop.id == id {
        NoneDue(s.core.gens, id, s.loop.gen);
      }
    }
  }

  lemma CallbackStaysInBurst(s: State, g: Gen, c: CallbackStep, id: Id)
    requires InBurst(s, id) && CallbackEnabled(s, g, c) && !Fires(s, Callback(g, c), id)
    ensures InBurst(CallbackNext(s, g, c), id) && !Enters(s, Callback(g, c), id)
    ensures Due(CallbackNext(s, g, c).core.gens, id) == Due(s.core.gens, id)
  {
    CallbackKeepsDue(s, g, c, id);
  }

  lemma CloseStaysInBurst(s: State, k: CloseStep, id: Id)
    requires Stored(s.core, s.loop) && InBurst(s, id) && CloseEnabled(s, k) && !Cancels(s, Close(k), id)
    ensures InBurst(CloseNext(s, k), id) && CloseNext(s, k).loop == s.loop
    ensures Due(CloseNext(s, k).core.gens, id) == Due(s.core.gens, id)
  {
    CloseKeepsDue(s, k, id);
  }

  lemma LoopGoesOn(s: State, l: LoopStep, debounce: nat, id: Id)
    requires Books(s) && InBurst(s, id) && LoopEnabled(s, l)
    ensures Due(LoopNext(s, l, debounce).core.gens, id) >= Due(s.core.gens, id)
    ensures l == Event(id) ==> Handling(LoopNext(s, l, debounce).loop, id)
  {
    LoopKeepsDue(s, l, debounce, id);
  }

  /** Unless Close cancels, and with no dispatch, whatever runs leaves the canvas in its burst. */
  lemma StaysInBurst(s: State, a: Action, debounce: nat, id: Id)
    requires Books(s) && InBurst(s, id) && Enabled(s, a) && !Fires(s, a, id) && !Cancels(s, a, id)
    ensures var t := Next(s, a, debounce);
      && InBurst(t, id) && !Enters(s, a, id) && Due(t.core.gens, id) >= Due(s.core.gens, id)
      && (Handling(s.loop, id) && !Handling(t.loop, id) ==> Due(t.core.gens, id) == 1)
      && (a == Loop(Event(id)) ==> Handling(t.loop, id))
  {
    match a
    case Loop(l) =>
      LoopGoesOn(s, l, debounce, id);
      LoopStaysInBurst(s, l, debounce, id);
    case Callback(g, c) => CallbackStaysInBurst(s, g, c, id);
    case Close(k) => CloseStaysInBurst(s, k, id);
    case _ =>
  }

  lemma LoopLeavesClose(s: State, l: LoopStep, debounce: nat)
    requires LoopEnabled(s, l)
    ensures LoopNext(s, l, debounce).closer == s.closer
  {
  }

  lemma CallbackLeavesClose(s: State, g: Gen, c: CallbackStep)
    requires CallbackEnabled(s, g, c)
    ensures CallbackNext(s, g, c).closer == s.closer && CallbackNext(s, g, c).events == s.events
  {
  }

  lemma OnlyCloseCloses(s: State, a: Action, debounce: nat)
    requires Enabled(s, a) && !a.Close?
    ensures Next(s, a, debounce).closer == s.closer
  {
    match a
    case Loop(l) => LoopLeavesClose(s, l, debounce);
    case Callback(g, c) => CallbackLeavesClose(s, g, c);
    case _ =>
  }

  lemma CloseIsFinal(s: State, k: CloseStep)
    requires CloseEnabled(s, k) && BeforeSweep(CloseNext(s, k).closer)
    ensures BeforeSweep(s.closer) && !k.Visit?
  {
  }

  lemma SweepIsFinal(s: State, a: Action, debounce: nat)
    requires Enabled(s, a) && BeforeSweep(Next(s, a, debounce).closer)
    ensures BeforeSweep(s.closer) && forall id :: !Cancels(s, a, id)
  {
    if a.Close? {
      CloseIsFinal(s, a.k);
    } else {
      OnlyCloseCloses(s, a, debounce);
    }
  }

  lemma {:induction false} SweepNotYet(s: State, acts: seq<Action>, debounce: nat, end: State)
    requires Runs(s, acts, debounce, end) && BeforeSweep(end.closer)
    ensures BeforeSweep(s.closer)
    decreases |acts|
  {
    if acts != [] {
      SweepNotYet(Next(s, acts[0], debounce), acts[1..], debounce, end);
      SweepIsFinal(s, acts[0], debounce);
    }
  }

  lemma LoopSees(s: State, l: LoopStep, debounce: nat, id: Id)
    requires LoopEnabled(s, l)
    ensures id in s.events || l == Event(id) ==> id in LoopNext(s, l, debounce).events
  {
  }

  lemma CloseSeesNothing(s: State, k: CloseStep)
    requires CloseEnabled(s, k)
    ensures CloseNext(s, k).events == s.events
  {
  }

  lemma EventsGrow(s: State, a: Action, debounce: nat, id: Id)
    requires Enabled(s, a)
    ensures id in s.events || a == Loop(Event(id)) ==> id in Next(s, a, debounce).events
  {
    match a
    case Loop(l) => LoopSees(s, l, debounce, id);
    case Callback(g, c) => CallbackLeavesClose(s, g, c);
    case Close(k) => CloseSeesNothing(s, k);
    case _ =>
  }

  /** The burst itself: once an event of the canvas has been seen, and when it is not being handled any
      more, exactly one reload is due; and none has been entered. */
  lemma {:induction false} BurstRuns(s: State, acts: seq<Action>, debounce: nat, end: State, id: Id)
    requires Books(s) && InBurst(s, id) && Runs(s, acts, debounce, end)
    requires NoDispatch(s, acts, debounce, id) && BeforeSweep(end.closer) && !Handling(end.loop, id)
    ensures InBurst(end, id) && Entries(s, acts, debounce, id) == 0
    ensures !NoEvent(acts, id) || Handling(s.loop, id) || Due(s.core.gens, id) == 1 ==> Due(end.core.gens, id) == 1
    ensures !NoEvent(acts, id) || id in s.events ==> id in end.events
    decreases |acts|
  {
    if acts != [] {
      var a, next := acts[0], Next(s, acts[0], debounce);
      SweepNotYet(next, acts[1..], debounce, end);
      SweepIsFinal(s, a, debounce);
      StaysInBurst(s, a, debounce, id);
      EventsGrow(s, a, debounce, id);
      NextKeepsBooks(s, a, debounce);
      BurstRuns(next, acts[1..], debounce, end, id);
      if a != Loop(Event(id)) && NoEvent(acts[1..], id) {
        assert forall i :: 1 <= i < |acts| ==> acts[i] == acts[1..][i - 1];
      }
    }
  }

  // ---------------------------------------------------------------- after the burst

  /** Nothing handles an event of the canvas, and each reload that is due was last armed at this moment
      or later. */
  ghost predicate DueSince(s: State, armed: Armings, id: Id, moment: nat) {
    && !Handling(s.loop, id)
    && forall g :: 0 <= g < |s.core.gens| && IsDue(s.core.gens[g], id) ==> g in armed && armed[g] >= moment
  }

  lemma LoopStaysDueSince(s: State, l: LoopStep, armed: Armings, debounce: nat, id: Id, moment: nat)
    requires LoopStored(s.core, s.loop) && DueSince(s, armed, id, moment) && LoopEnabled(s, l) && l != Event(id)
    ensures DueSince(LoopNext(s, l, debounce), NextArmings(s, Loop(l), armed), id, moment)
    ensures !Makes(s, Loop(l), id)
  {
  }

  lemma CloseStaysDueSince(s: State, k: CloseStep, armed: Armings, id: Id, moment: nat)
    requires DueSince(s, armed, id, moment) && CloseEnabled(s, k)
    ensures DueSince(CloseNext(s, k), armed, id, moment)
  {
  }

  lemma CallbackStaysDueSince(s: State, g: Gen, c: CallbackStep, armed: Armings, id: Id, moment: nat)
    requires DueSince(s, armed, id, moment) && CallbackEnabled(s, g, c)
    ensures DueSince(CallbackNext(s, g, c), armed, id, moment)
  {
  }

  lemma StaysDueSince(s: State, a: Action, armed: Armings, debounce: nat, id: Id, moment: nat)
    requires LoopStored(s.core, s.loop) && DueSince(s, armed, id, moment) && Enabled(s, a) && a != Loop(Event(id))
    ensures DueSince(Next(s, a, debounce), NextArmings(s, a, armed), id, moment) && !Makes(s, a, id)
  {
    match a
    case Loop(l) => LoopStaysDueSince(s, l, armed, debounce, id, moment);
    case Callback(g, c) => CallbackStaysDueSince(s, g, c, armed, id, moment);
    case Close(k) => CloseStaysDueSince(s, k, armed, id, moment);
    case _ =>
  }

  /** With no further event of the canvas, what is due is entered, cancelled by Close, or still due; and
      it is entered no sooner than a window after the moment. */
  lemma {:induction false} QuietRuns(s: State, acts: seq<Action>, armed: Armings, debounce: nat, end: State,
                                     id: Id, moment: nat, due: nat)
    requires Books(s) && AllInTime(s, armed, debounce) && DueSince(s, armed, id, moment)
    requires Runs(s, acts, debounce, end) && NoEvent(acts, id) && due == moment + debounce
    ensures Entries(s, acts, debounce, id) + Cancellations(s, acts, debounce, id) + Due(end.core.gens, id) ==
      Due(s.core.gens, id)
    ensures EntersFrom(s, acts, debounce, id, due)
    decreases |acts|
  {
    if acts != [] {
      var a, next := acts[0], Next(s, acts[0], debounce);
      NextKeepsBooks(s, a, debounce);
      StaysInTime(s, a, armed, debounce);
      StaysDueSince(s, a, armed, debounce, id, moment);
      DueBalances(s, a, debounce, id);
      assert forall i :: 0 <= i < |acts| - 1 ==> acts[1..][i] == acts[i + 1];
      QuietRuns(next, acts[1..], NextArmings(s, a, armed), debounce, end, id, moment, due);
      if Enters(s, a, id) {
        assert InTime(s.core.gens, s.now, armed, debounce, a.gen);
      }
    }
  }

  lemma ArmedSinceTheEvent(s: State, armed: Armings, debounce: nat, id: Id)
    requires Inv(s, debounce) && AllInTime(s, armed, debounce) && InBurst(s, id)
    requires id in s.events && !Handling(s.loop, id)
    ensures DueSince(s, armed, id, s.events[id].time)
  {
    forall g | 0 <= g < |s.core.gens| && IsDue(s.core.gens[g], id)
      ensures g in armed && armed[g] >= s.events[id].time
    {
      assert InTime(s.core.gens, s.now, armed, debounce, g);
    }
  }

  lemma QuietIsInBurst(s: State, id: Id)
    requires Due(s.core.gens, id) == 0
    ensures InBurst(s, id)
  {
    forall g | 0 <= g < |s.core.gens| ensures !IsDue(s.core.gens[g], id) {
      NoneDue(s.core.gens, id, g);
    }
  }

  lemma ReachedInTime(before: seq<Action>, s: State, debounce: nat)
    requires Runs(Init(), before, debounce, s)
    ensures Inv(s, debounce) && AllInTime(s, ArmedAfter(Init(), before, debounce, map[]), debounce)
  {
    RunKeepsInv(Init(), before, debounce, s);
    RunStaysInTime(Init(), before, map[], debounce, s);
  }

  lemma BurstSoFar(before: seq<Action>, s: State, burst: seq<Action>, mid: State, debounce: nat, id: Id)
    returns (armed: Armings)
    requires Runs(Init(), before, debounce, s) && Due(s.core.gens, id) == 0 && !Handling(s.loop, id)
    requires Runs(s, burst, debounce, mid) && !NoEvent(burst, id) && NoDispatch(s, burst, debounce, id)
    requires BeforeSweep(mid.closer) && !Handling(mid.loop, id)
    ensures Entries(s, burst, debounce, id) == 0 && Due(mid.core.gens, id) == 1 && id in mid.events
    ensures Books(mid) && AllInTime(mid, armed, debounce) && DueSince(mid, armed, id, mid.events[id].time)
  {
    ReachedInTime(before, s, debounce);
    QuietIsInBurst(s, id);
    BurstRuns(s, burst, debounce, mid, id);
    var first := ArmedAfter(Init(), before, debounce, map[]);
    RunKeepsInv(s, burst, debounce, mid);
    RunStaysInTime(s, burst, first, debounce, mid);
    armed := ArmedAfter(s, burst, debounce, first);
    ArmedSinceTheEvent(mid, armed, debounce, id);
  }

  /** A burst of events is answered by one reload. From any reachable moment s with none due for the
      canvas, let events of it be handled, however many, with no timer of it dispatched in between, up to
      mid, before Close's sweep. Then none has been entered and one is due. In every run from there
      without a further event, that one is entered, or cancelled by Close, or still due; and if it is
      entered, a whole window after the last event of the burst or later. */
  lemma BurstReloadsOnce(before: seq<Action>, s: State, burst: seq<Action>, mid: State, rest: seq<Action>, end: State,
                         debounce: nat, id: Id) returns (due: nat)
    requires Runs(Init(), before, debounce, s) && Due(s.core.gens, id) == 0 && !Handling(s.loop, id)
    requires Runs(s, burst, debounce, mid) && !NoEvent(burst, id) && NoDispatch(s, burst, debounce, id)
    requires BeforeSweep(mid.closer) && !Handling(mid.loop, id)
    requires Runs(mid, rest, debounce, end) && NoEvent(rest, id)
    ensures Entries(s, burst, debounce, id) == 0 && Due(mid.core.gens, id) == 1 && id in mid.events
    ensures Entries(mid, rest, debounce, id) + Cancellations(mid, rest, debounce, id) + Due(end.core.gens, id) == 1
    ensures due == mid.events[id].time + debounce && EntersFrom(mid, rest, debounce, id, due)
  {
    var armed := BurstSoFar(before, s, burst, mid, debounce, id);
    due := mid.events[id].time + debounce;
    QuietRuns(mid, rest, armed, debounce, end, id, mid.events[id].time, due);
  }
}
