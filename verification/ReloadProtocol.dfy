/** The reload debounce protocol: the file-system event loop, one timer generation per
    AfterFunc call, the timers' callbacks, Close, and the SSE client registry, interleaved
    one atomic action at a time.

    A timer generation is one call of time.AfterFunc. The runtime may dispatch a pending
    generation at any moment after its deadline, whoever holds the watcher's mutex, so
    Stop's answer, Reset, fireWG.Add, AfterFunc and the map update are separate actions.
    The fields clock, events, armedAt and servedFrom are history: no action reads them to
    decide anything. */
module ReloadProtocol {

  type Id = string
  type Gen = nat
  type Client = nat

  /** Where one timer generation is in its life. */
  datatype Phase =
    | Pending(deadline: nat)  // armed
    | Stopped                 // Stop answered true, Reset not called yet
    | Dispatched              // the runtime started the callback; it does not hold mu yet
    | Cleaning                // the callback holds mu
    | Unlocked                // mu released, onReload not entered yet
    | Reloading(since: nat)   // inside onReload, entered at history time since
    | Returning               // onReload returned, the deferred fireWG.Done not run yet
    | Finished
    | Cancelled               // Close stopped it

  datatype Timer = Timer(id: Id, phase: Phase)

  /** What mu and the WaitGroup guard: the timers map, every generation ever made, fireWG. */
  datatype Core = Core(entry: map<Id, Gen>, gens: seq<Timer>, fireWG: int)

  datatype Holder = Nobody | LoopHolds | CallbackHolds(gen: Gen) | CloserHolds

  datatype LoopPc =
    | Idle
    | WantLock(id: Id)
    | Inspect(id: Id)            // holds mu: looks the id up and asks Stop
    | Rearm(id: Id, gen: Gen)    // Stop said true: Reset comes next
    | Credit(id: Id)             // fireWG.Add(1) comes next
    | Arm(id: Id)                // AfterFunc comes next
    | Install(id: Id, gen: Gen)  // the map update comes next
    | Exited

  datatype ClosePc =
    | NotClosing
    | DoneClosed
    | FswClosed
    | Joined                     // wg.Wait returned
    | Sweeping(todo: set<Id>)    // holds mu, entries still to visit
    | Uncredit(todo: set<Id>)    // Stop said true: fireWG.Done comes next
    | Draining                   // in fireWG.Wait
    | Closed

  /** One registered SSE client: its one-slot channel and when it registered and last read. */
  datatype Sub = Sub(id: Id, token: bool, since: nat, readAt: nat)

  datatype Stamp = Stamp(at: nat, time: nat)

  datatype State = State(
    core: Core, mu: Holder, loop: LoopPc, closer: ClosePc, now: nat,
    clients: map<Client, Sub>,
    clock: nat, events: map<Id, Stamp>, armedAt: map<Id, nat>, servedFrom: map<Id, nat>)

  datatype LoopStep = Event(id: Id) | Lock | Look | Reset | AddCredit | AfterFunc | Store | Exit
  datatype CallbackStep = Fire | Acquire | CleanUp | EnterReload | Broadcast | Done
  datatype CloseStep = CloseDone | CloseFsw | Join | TakeLock | Visit(id: Id) | DropCredit | ReleaseLock | Return
  datatype ClientStep = Register(client: Client, id: Id) | Unregister(client: Client) | Read(client: Client)

  datatype Action =
    | Tick
    | Loop(l: LoopStep)
    | Callback(gen: Gen, c: CallbackStep)
    | Close(k: CloseStep)
    | Clients(r: ClientStep)

  function Init(): State {
    State(Core(map[], [], 0), Nobody, Idle, NotClosing, 0, map[], 0, map[], map[], map[])
  }

  // ---------------------------------------------------------------- actions

  function SetPhase(c: Core, g: Gen, p: Phase): Core
    requires g < |c.gens|
  {
    c.(gens := c.gens[g := c.gens[g].(phase := p)])
  }

  predicate Pends(c: Core, id: Id) {
    id in c.entry && c.entry[id] < |c.gens| && c.gens[c.entry[id]].phase.Pending?
  }

  predicate LoopEnabled(s: State, l: LoopStep) {
    match l
    case Event(_) => s.loop.Idle?
    case Lock => s.loop.WantLock? && s.mu.Nobody?
    case Look => s.loop.Inspect?
    case Reset => s.loop.Rearm? && s.loop.gen < |s.core.gens|
    case AddCredit => s.loop.Credit?
    case AfterFunc => s.loop.Arm?
    case Store => s.loop.Install?
    case Exit => s.loop.Idle? && !s.closer.NotClosing?
  }

  /** handleEvent and scheduleReload, one step at a time. */
  function LoopNext(s: State, l: LoopStep, debounce: nat): State
    requires LoopEnabled(s, l)
  {
    match l
    case Event(id) => s.(loop := WantLock(id), events := s.events[id := Stamp(s.clock, s.now)])
    case Lock => s.(loop := Inspect(s.loop.id), mu := LoopHolds)
    case Look =>
      var id := s.loop.id;
      if Pends(s.core, id) then
        s.(core := SetPhase(s.core, s.core.entry[id], Stopped), loop := Rearm(id, s.core.entry[id]))
      else s.(loop := Credit(id))
    case Reset =>
      s.(core := SetPhase(s.core, s.loop.gen, Pending(s.now + debounce)), loop := Idle, mu := Nobody,
         armedAt := s.armedAt[s.loop.id := s.now])
    case AddCredit => s.(core := s.core.(fireWG := s.core.fireWG + 1), loop := Arm(s.loop.id))
    case AfterFunc =>
      s.(core := s.core.(gens := s.core.gens + [Timer(s.loop.id, Pending(s.now + debounce))]),
         loop := Install(s.loop.id, |s.core.gens|), armedAt := s.armedAt[s.loop.id := s.now])
    case Store =>
      s.(core := s.core.(entry := s.core.entry[s.loop.id := s.loop.gen]), loop := Idle, mu := Nobody)
    case Exit => s.(loop := Exited)
  }

  predicate CallbackEnabled(s: State, g: Gen, c: CallbackStep) {
    && g < |s.core.gens|
    && var p := s.core.gens[g].phase;
       match c
       case Fire => p.Pending? && p.deadline <= s.now
       case Acquire => p.Dispatched? && s.mu.Nobody?
       case CleanUp => p.Cleaning?
       case EnterReload => p.Unlocked?
       case Broadcast => p.Reloading?
       case Done => p.Returning?
  }

  function CallbackNext(s: State, g: Gen, c: CallbackStep): State
    requires CallbackEnabled(s, g, c)
  {
    var id := s.core.gens[g].id;
    match c
    case Fire => s.(core := SetPhase(s.core, g, Dispatched))
    case Acquire => s.(core := SetPhase(s.core, g, Cleaning), mu := CallbackHolds(g))
    case CleanUp =>
      var own := id in s.core.entry && s.core.entry[id] == g;
      s.(core := SetPhase(s.core, g, Unlocked).(entry := if own then s.core.entry - {id} else s.core.entry),
         mu := Nobody)
    case EnterReload => s.(core := SetPhase(s.core, g, Reloading(s.clock)))
    case Broadcast =>
      s.(core := SetPhase(s.core, g, Returning), clients := Notified(s.clients, id),
         servedFrom := s.servedFrom[id := Later(s.servedFrom, id, s.core.gens[g].phase.since)])
    case Done => s.(core := SetPhase(s.core, g, Finished).(fireWG := s.core.fireWG - 1))
  }

  function Later(m: map<Id, nat>, id: Id, n: nat): nat {
    if id in m && n < m[id] then m[id] else n
  }

  predicate CloseEnabled(s: State, k: CloseStep) {
    match k
    case CloseDone => s.closer.NotClosing?
    case CloseFsw => s.closer.DoneClosed?
    case Join => s.closer.FswClosed? && s.loop.Exited?
    case TakeLock => s.closer.Joined? && s.mu.Nobody?
    case Visit(id) => s.closer.Sweeping? && id in s.closer.todo
    case DropCredit => s.closer.Uncredit?
    case ReleaseLock => s.closer.Sweeping? && s.closer.todo == {}
    case Return => s.closer.Draining? && s.core.fireWG == 0
  }

  function CloseNext(s: State, k: CloseStep): State
    requires CloseEnabled(s, k)
  {
    match k
    case CloseDone => s.(closer := DoneClosed)
    case CloseFsw => s.(closer := FswClosed)
    case Join => s.(closer := Joined)
    case TakeLock => s.(closer := Sweeping(s.core.entry.Keys), mu := CloserHolds)
    case Visit(id) =>
      var rest := s.closer.todo - {id};
      if Pends(s.core, id) then
        s.(core := SetPhase(s.core, s.core.entry[id], Cancelled), closer := Uncredit(rest))
      else s.(closer := Sweeping(rest))
    case DropCredit => s.(core := s.core.(fireWG := s.core.fireWG - 1), closer := Sweeping(s.closer.todo))
    case ReleaseLock => s.(closer := Draining, mu := Nobody)
    case Return => s.(closer := Closed)
  }

  predicate ClientEnabled(s: State, r: ClientStep) {
    match r
    case Register(c, _) => c !in s.clients
    case Unregister(c) => c in s.clients
    case Read(c) => c in s.clients && s.clients[c].token
  }

  function ClientNext(s: State, r: ClientStep): State
    requires ClientEnabled(s, r)
  {
    match r
    case Register(c, id) => s.(clients := s.clients[c := Sub(id, false, s.clock, s.clock)])
    case Unregister(c) => s.(clients := s.clients - {c})
    case Read(c) => s.(clients := s.clients[c := s.clients[c].(token := false, readAt := s.clock)])
  }

  predicate Enabled(s: State, a: Action) {
    match a
    case Tick => true
    case Loop(l) => LoopEnabled(s, l)
    case Callback(g, c) => CallbackEnabled(s, g, c)
    case Close(k) => CloseEnabled(s, k)
    case Clients(r) => ClientEnabled(s, r)
  }

  /** The state after one action; clock counts actions. */
  function Next(s: State, a: Action, debounce: nat): State
    requires Enabled(s, a)
  {
    var t := match a
      case Tick => s.(now := s.now + 1)
      case Loop(l) => LoopNext(s, l, debounce)
      case Callback(g, c) => CallbackNext(s, g, c)
      case Close(k) => CloseNext(s, k)
      case Clients(r) => ClientNext(s, r);
    t.(clock := s.clock + 1)
  }

  /** broadcast: every client of id ends with its slot full, whether or not it was. */
  function Notified(clients: map<Client, Sub>, id: Id): map<Client, Sub> {
    map c | c in clients :: if clients[c].id == id then clients[c].(token := true) else clients[c]
  }

  /** Any interleaving: a sequence of actions, each enabled where it is taken. */
  ghost predicate Runs(s: State, acts: seq<Action>, debounce: nat, end: State)
    decreases |acts|
  {
    if acts == [] then end == s
    else Enabled(s, acts[0]) && Runs(Next(s, acts[0], debounce), acts[1..], debounce, end)
  }

  // ---------------------------------------------------------------- invariant

  predicate Live(p: Phase) {
    !p.Finished? && !p.Cancelled?
  }

  /** How many generations still owe fireWG a Done. */
  function LiveCount(gens: seq<Timer>): nat {
    if gens == [] then 0
    else LiveCount(gens[..|gens| - 1]) + (if Live(gens[|gens| - 1].phase) then 1 else 0)
  }

  ghost predicate LoopHasLock(pc: LoopPc) {
    pc.Inspect? || pc.Rearm? || pc.Credit? || pc.Arm? || pc.Install?
  }

  ghost predicate LoopOver(c: ClosePc) {
    c.Joined? || c.Sweeping? || c.Uncredit? || c.Draining? || c.Closed?
  }

  ghost predicate Locking(s: State) {
    && (s.mu.LoopHolds? <==> LoopHasLock(s.loop))
    && (s.mu.CloserHolds? <==> s.closer.Sweeping? || s.closer.Uncredit?)
    && (LoopOver(s.closer) ==> s.loop.Exited?)
    && (s.mu.CallbackHolds? ==> s.mu.gen < |s.core.gens|)
    && CleaningHolds(s.core.gens, s.mu)
  }

  /** The generation in its critical section is the one that holds mu. */
  ghost predicate CleaningHolds(gens: seq<Timer>, mu: Holder) {
    forall g :: 0 <= g < |gens| ==> (gens[g].phase.Cleaning? <==> mu == CallbackHolds(g))
  }

  /** fireWG counts exactly the generations neither finished nor cancelled, plus the one
      Add (or Done) whose own AfterFunc (or Stop) is the neighbouring action. */
  ghost predicate Credited(c: Core, pc: LoopPc, closer: ClosePc) {
    c.fireWG == LiveCount(c.gens) + (if pc.Arm? then 1 else 0) + (if closer.Uncredit? then 1 else 0)
  }

  ghost predicate InMap(c: Core, g: Gen)
    requires g < |c.gens|
  {
    c.gens[g].id in c.entry && c.entry[c.gens[g].id] == g
  }

  /** A stored generation is a generation of that id; a pending one is the one the map holds,
      or the one about to be stored; a stopped one is about to be reset. */
  ghost predicate Stored(c: Core, pc: LoopPc) {
    && (forall id :: id in c.entry ==> c.entry[id] < |c.gens| && c.gens[c.entry[id]].id == id)
    && (forall g :: 0 <= g < |c.gens| && c.gens[g].phase.Pending? ==> InMap(c, g) || pc == Install(c.gens[g].id, g))
    && (forall g :: 0 <= g < |c.gens| && c.gens[g].phase.Stopped? ==> InMap(c, g) && pc == Rearm(c.gens[g].id, g))
    && LoopStored(c, pc)
  }

  ghost predicate LoopStored(c: Core, pc: LoopPc) {
    && (pc.Rearm? ==> pc.gen < |c.gens| && c.gens[pc.gen] == Timer(pc.id, Stopped) && InMap(c, pc.gen))
    && (pc.Install? ==> pc.gen < |c.gens| && c.gens[pc.gen].id == pc.id && !InMap(c, pc.gen)
                        && (c.gens[pc.gen].phase.Pending? || c.gens[pc.gen].phase.Dispatched?))
    && (pc.Credit? || pc.Arm? || pc.Install? ==> !Pends(c, pc.id))
  }

  /** Once Close holds mu, a pending generation is one it has still to visit. */
  ghost predicate Swept(c: Core, closer: ClosePc) {
    && (closer.Sweeping? || closer.Uncredit? ==>
         forall g :: 0 <= g < |c.gens| && c.gens[g].phase.Pending? ==> c.gens[g].id in closer.todo)
    && (closer.Draining? || closer.Closed? ==>
         forall g :: 0 <= g < |c.gens| ==> !c.gens[g].phase.Pending?)
    && (closer.Closed? ==> c.fireWG == 0)
  }

  ghost predicate Handling(pc: LoopPc, id: Id) {
    (pc.WantLock? || LoopHasLock(pc)) && pc.id == id
  }

  /** A pending generation's deadline is its latest arming plus the debounce window. */
  ghost predicate Timed(gens: seq<Timer>, armedAt: map<Id, nat>, debounce: nat) {
    forall g :: 0 <= g < |gens| && gens[g].phase.Pending? ==>
      gens[g].id in armedAt && gens[g].phase.deadline == armedAt[gens[g].id] + debounce
  }

  /** That arming is no earlier than the latest event the loop has finished handling. */
  ghost predicate Coalesced(s: State) {
    && (forall id :: id in s.events ==> s.events[id].time <= s.now)
    && (forall id :: id in s.events && id in s.armedAt && (!Handling(s.loop, id) || s.loop.Install?) ==>
         s.events[id].time <= s.armedAt[id])
  }

  /** A generation of id that will enter onReload after the moment e, or has entered it after e
      and not broadcast yet. */
  ghost predicate Owes(c: Core, g: Gen, id: Id, e: nat) {
    && g < |c.gens| && c.gens[g].id == id
    && match c.gens[g].phase
       case Pending(_) | Stopped | Dispatched | Cleaning | Unlocked => true
       case Reloading(since) => since > e
       case _ => false
  }

  ghost predicate Outstanding(s: State, id: Id, e: nat) {
    Handling(s.loop, id) || exists g :: Owes(s.core, g, id, e)
  }

  ghost predicate Served(s: State, id: Id, e: nat) {
    id in s.servedFrom && s.servedFrom[id] > e
  }

  ghost predicate BeforeSweep(closer: ClosePc) {
    closer.NotClosing? || closer.DoneClosed? || closer.FswClosed? || closer.Joined?
  }

  ghost predicate NoLostReload(s: State) {
    && (forall id :: id in s.events ==> s.events[id].at < s.clock)
    && (BeforeSweep(s.closer) ==>
         forall id :: id in s.events ==> Outstanding(s, id, s.events[id].at) || Served(s, id, s.events[id].at))
  }

  /** A client that was registered when the latest completed reload of its canvas began has
      an unread token or has read one since. */
  ghost predicate Delivered(s: State) {
    && (forall id :: id in s.servedFrom ==> s.servedFrom[id] < s.clock)
    && (forall g :: 0 <= g < |s.core.gens| && s.core.gens[g].phase.Reloading? ==> s.core.gens[g].phase.since < s.clock)
    && (forall c :: c in s.clients ==> Notice(s.clients[c], s.servedFrom))
  }

  ghost predicate Notice(sub: Sub, servedFrom: map<Id, nat>) {
    sub.id in servedFrom && sub.since <= servedFrom[sub.id] ==> sub.token || sub.readAt > servedFrom[sub.id]
  }

  /** Who holds what, and what fireWG counts. */
  ghost predicate Books(s: State) {
    Locking(s) && Stored(s.core, s.loop) && Credited(s.core, s.loop, s.closer) && Swept(s.core, s.closer)
  }

  /** What is promised to the canvas's viewers. */
  ghost predicate Promises(s: State, debounce: nat) {
    Timed(s.core.gens, s.armedAt, debounce) && Coalesced(s) && NoLostReload(s) && Delivered(s)
  }

  ghost predicate Inv(s: State, debounce: nat) {
    Books(s) && Promises(s, debounce)
  }

  // ---------------------------------------------------------------- counting

  lemma {:induction false} LiveCountSet(gens: seq<Timer>, g: Gen, t: Timer)
    requires g < |gens|
    ensures LiveCount(gens[g := t]) ==
            LiveCount(gens) - (if Live(gens[g].phase) then 1 else 0) + (if Live(t.phase) then 1 else 0)
  {
    var n := |gens| - 1;
    if g == n {
      assert gens[g := t][..n] == gens[..n];
    } else {
      assert gens[g := t][..n] == gens[..n][g := t];
      LiveCountSet(gens[..n], g, t);
    }
  }

  lemma {:induction false} NoneLive(gens: seq<Timer>, g: Gen)
    requires LiveCount(gens) == 0 && g < |gens|
    ensures !Live(gens[g].phase)
  {
    if g < |gens| - 1 {
      NoneLive(gens[..|gens| - 1], g);
    }
  }

  // ---------------------------------------------------------------- preservation

  lemma MoveKeepsStored(c: Core, pc: LoopPc, g: Gen, p: Phase)
    requires Stored(c, pc) && g < |c.gens| && !c.gens[g].phase.Stopped? && !p.Pending? && !p.Stopped?
    requires pc.Install? && pc.gen == g ==> p.Dispatched?
    ensures Stored(SetPhase(c, g, p), pc)
  {
  }

  lemma CleanUpKeepsStored(c: Core, pc: LoopPc, g: Gen)
    requires Stored(c, pc) && g < |c.gens| && c.gens[g].phase.Unlocked? && InMap(c, g)
    requires !pc.Rearm? && !pc.Install?
    ensures Stored(c.(entry := c.entry - {c.gens[g].id}), pc)
  {
  }

  lemma LookKeepsStored(c: Core, id: Id)
    requires Stored(c, Inspect(id))
    ensures Pends(c, id) ==> Stored(SetPhase(c, c.entry[id], Stopped), Rearm(id, c.entry[id]))
    ensures !Pends(c, id) ==> Stored(c, Credit(id))
  {
  }

  lemma ResetKeepsStored(c: Core, id: Id, g: Gen, deadline: nat)
    requires Stored(c, Rearm(id, g))
    ensures Stored(SetPhase(c, g, Pending(deadline)), Idle)
  {
  }

  lemma AfterFuncKeepsStored(c: Core, id: Id, deadline: nat)
    requires Stored(c, Arm(id))
    ensures Stored(c.(gens := c.gens + [Timer(id, Pending(deadline))]), Install(id, |c.gens|))
  {
  }

  lemma StoreKeepsStored(c: Core, id: Id, g: Gen)
    requires Stored(c, Install(id, g))
    ensures Stored(c.(entry := c.entry[id := g]), Idle)
  {
  }

  lemma LoopKeepsStored(s: State, l: LoopStep, debounce: nat)
    requires Stored(s.core, s.loop) && LoopEnabled(s, l)
    ensures var t := LoopNext(s, l, debounce); Stored(t.core, t.loop)
  {
    match l
    case Look => LookKeepsStored(s.core, s.loop.id);
    case Reset => ResetKeepsStored(s.core, s.loop.id, s.loop.gen, s.now + debounce);
    case AfterFunc => AfterFuncKeepsStored(s.core, s.loop.id, s.now + debounce);
    case Store => StoreKeepsStored(s.core, s.loop.id, s.loop.gen);
    case _ =>
  }

  lemma CallbackKeepsStored(s: State, g: Gen, c: CallbackStep)
    requires Locking(s) && Stored(s.core, s.loop) && CallbackEnabled(s, g, c)
    ensures var t := CallbackNext(s, g, c); Stored(t.core, t.loop)
  {
    var t := CallbackNext(s, g, c);
    MoveKeepsStored(s.core, s.loop, g, t.core.gens[g].phase);
    if c.CleanUp? && InMap(s.core, g) {
      CleanUpKeepsStored(SetPhase(s.core, g, Unlocked), s.loop, g);
    }
  }

  lemma CloseKeepsStored(s: State, k: CloseStep)
    requires Stored(s.core, s.loop) && CloseEnabled(s, k)
    ensures var t := CloseNext(s, k); Stored(t.core, t.loop)
  {
    if k.Visit? && Pends(s.core, k.id) {
      MoveKeepsStored(s.core, s.loop, s.core.entry[k.id], Cancelled);
    }
  }

  lemma CleaningMoves(gens: seq<Timer>, mu: Holder, g: Gen, p: Phase, mu': Holder)
    requires CleaningHolds(gens, mu) && g < |gens|
    requires p.Cleaning? <==> mu' == CallbackHolds(g)
    requires mu' == mu || (!mu.CallbackHolds? && mu' == CallbackHolds(g))
      || (mu == CallbackHolds(g) && !mu'.CallbackHolds?)
    ensures CleaningHolds(gens[g := gens[g].(phase := p)], mu')
  {
  }

  lemma LoopKeepsLocking(s: State, l: LoopStep, debounce: nat)
    requires Locking(s) && LoopEnabled(s, l)
    ensures Locking(LoopNext(s, l, debounce))
  {
  }

  lemma CallbackKeepsLocking(s: State, g: Gen, c: CallbackStep)
    requires Locking(s) && CallbackEnabled(s, g, c)
    ensures Locking(CallbackNext(s, g, c))
  {
    var t := CallbackNext(s, g, c);
    CleaningMoves(s.core.gens, s.mu, g, t.core.gens[g].phase, t.mu);
  }

  lemma CloseKeepsLocking(s: State, k: CloseStep)
    requires Locking(s) && CloseEnabled(s, k)
    ensures Locking(CloseNext(s, k))
  {
    if k.Visit? && Pends(s.core, k.id) {
      CleaningMoves(s.core.gens, s.mu, s.core.entry[k.id], Cancelled, s.mu);
    }
  }

  lemma LookKeepsCredit(c: Core, id: Id, closer: ClosePc)
    requires Credited(c, Inspect(id), closer)
    ensures Pends(c, id) ==> Credited(SetPhase(c, c.entry[id], Stopped), Rearm(id, c.entry[id]), closer)
    ensures !Pends(c, id) ==> Credited(c, Credit(id), closer)
  {
    if Pends(c, id) {
      LiveCountSet(c.gens, c.entry[id], Timer(c.gens[c.entry[id]].id, Stopped));
    }
  }

  lemma ResetKeepsCredit(c: Core, id: Id, g: Gen, deadline: nat, closer: ClosePc)
    requires Credited(c, Rearm(id, g), closer) && g < |c.gens| && c.gens[g].phase.Stopped?
    ensures Credited(SetPhase(c, g, Pending(deadline)), Idle, closer)
  {
    LiveCountSet(c.gens, g, Timer(c.gens[g].id, Pending(deadline)));
  }

  lemma AfterFuncKeepsCredit(c: Core, id: Id, deadline: nat, closer: ClosePc)
    requires Credited(c, Arm(id), closer)
    ensures Credited(c.(gens := c.gens + [Timer(id, Pending(deadline))]), Install(id, |c.gens|), closer)
  {
    assert (c.gens + [Timer(id, Pending(deadline))])[..|c.gens|] == c.gens;
  }

  /** Every action changes the credit and the count of unfinished generations together. */
  lemma LoopKeepsCredit(s: State, l: LoopStep, debounce: nat)
    requires Stored(s.core, s.loop) && Credited(s.core, s.loop, s.closer) && LoopEnabled(s, l)
    ensures var t := LoopNext(s, l, debounce); Credited(t.core, t.loop, t.closer)
  {
    match l
    case Look => LookKeepsCredit(s.core, s.loop.id, s.closer);
    case Reset => ResetKeepsCredit(s.core, s.loop.id, s.loop.gen, s.now + debounce, s.closer);
    case AfterFunc => AfterFuncKeepsCredit(s.core, s.loop.id, s.now + debounce, s.closer);
    case _ =>
  }

  lemma CallbackKeepsCredit(s: State, g: Gen, c: CallbackStep)
    requires Credited(s.core, s.loop, s.closer) && CallbackEnabled(s, g, c)
    ensures var t := CallbackNext(s, g, c); Credited(t.core, t.loop, t.closer)
  {
    LiveCountSet(s.core.gens, g, CallbackNext(s, g, c).core.gens[g]);
  }

  lemma CloseKeepsCredit(s: State, k: CloseStep)
    requires Credited(s.core, s.loop, s.closer) && CloseEnabled(s, k)
    ensures var t := CloseNext(s, k); Credited(t.core, t.loop, t.closer)
  {
    if k.Visit? && Pends(s.core, k.id) {
      var g := s.core.entry[k.id];
      LiveCountSet(s.core.gens, g, s.core.gens[g].(phase := Cancelled));
    }
  }

  lemma CallbackKeepsSwept(s: State, g: Gen, c: CallbackStep)
    requires Credited(s.core, s.loop, s.closer) && Swept(s.core, s.closer) && CallbackEnabled(s, g, c)
    ensures var t := CallbackNext(s, g, c); Swept(t.core, t.closer)
  {
    if s.closer.Closed? {
      NoneLive(s.core.gens, g);
    }
  }

  lemma CloseKeepsSwept(s: State, k: CloseStep)
    requires Locking(s) && Stored(s.core, s.loop) && Swept(s.core, s.closer) && CloseEnabled(s, k)
    ensures var t := CloseNext(s, k); Swept(t.core, t.closer)
  {
  }

  lemma LoopKeepsTimed(s: State, l: LoopStep, debounce: nat)
    requires Stored(s.core, s.loop) && Timed(s.core.gens, s.armedAt, debounce) && LoopEnabled(s, l)
    ensures var t := LoopNext(s, l, debounce); Timed(t.core.gens, t.armedAt, debounce)
  {
  }

  lemma LoopKeepsCoalesced(s: State, l: LoopStep, debounce: nat)
    requires Coalesced(s) && LoopEnabled(s, l)
    ensures Coalesced(LoopNext(s, l, debounce))
  {
  }

  lemma LoopStillOwes(s: State, l: LoopStep, debounce: nat, id: Id, e: nat)
    requires Stored(s.core, s.loop) && LoopEnabled(s, l) && Outstanding(s, id, e)
    ensures Outstanding(LoopNext(s, l, debounce), id, e)
  {
    var t := LoopNext(s, l, debounce);
    if Handling(s.loop, id) {
      if l.Reset? || l.Store? {
        assert Owes(t.core, s.loop.gen, id, e);
      }
    } else {
      var g :| Owes(s.core, g, id, e);
      assert Owes(t.core, g, id, e);
    }
  }

  lemma LoopKeepsReloads(s: State, l: LoopStep, debounce: nat)
    requires Stored(s.core, s.loop) && NoLostReload(s) && LoopEnabled(s, l)
    ensures NoLostReload(LoopNext(s, l, debounce).(clock := s.clock + 1))
  {
    var t := LoopNext(s, l, debounce);
    if BeforeSweep(s.closer) {
      forall id | id in s.events && Outstanding(s, id, s.events[id].at)
        ensures Outstanding(t, id, s.events[id].at)
      {
        LoopStillOwes(s, l, debounce, id, s.events[id].at);
      }
      forall id | id in t.events
        ensures Outstanding(t, id, t.events[id].at) || Served(t, id, t.events[id].at)
      {
      }
    }
  }

  lemma CallbackStillOwes(s: State, g: Gen, c: CallbackStep, id: Id, e: nat)
    requires CallbackEnabled(s, g, c) && e < s.clock
    requires Outstanding(s, id, e) || Served(s, id, e)
    ensures var t := CallbackNext(s, g, c); Outstanding(t, id, e) || Served(t, id, e)
  {
    var t := CallbackNext(s, g, c);
    if !Served(s, id, e) && !Handling(s.loop, id) {
      var h :| Owes(s.core, h, id, e);
      assert Owes(t.core, h, id, e) || Served(t, id, e);
    }
  }

  lemma CallbackKeepsReloads(s: State, g: Gen, c: CallbackStep)
    requires NoLostReload(s) && CallbackEnabled(s, g, c)
    ensures NoLostReload(CallbackNext(s, g, c).(clock := s.clock + 1))
  {
    var t := CallbackNext(s, g, c);
    if BeforeSweep(s.closer) {
      forall id | id in s.events
        ensures Outstanding(t, id, s.events[id].at) || Served(t, id, s.events[id].at)
      {
        CallbackStillOwes(s, g, c, id, s.events[id].at);
      }
      var t' := t.(clock := s.clock + 1);
      assert forall id, e :: Outstanding(t, id, e) ==> Outstanding(t', id, e);
      assert forall id, e :: Served(t, id, e) ==> Served(t', id, e);
    }
  }

  lemma CallbackKeepsDelivered(s: State, g: Gen, c: CallbackStep)
    requires Delivered(s) && CallbackEnabled(s, g, c)
    ensures Delivered(CallbackNext(s, g, c).(clock := s.clock + 1))
  {
  }

  lemma ClientKeepsDelivered(s: State, r: ClientStep)
    requires Delivered(s) && ClientEnabled(s, r)
    ensures Delivered(ClientNext(s, r).(clock := s.clock + 1))
  {
  }

  /** What does not touch timers, the loop, events or servedFrom keeps every reload owed. */
  lemma ReloadsFrame(s: State, t: State)
    requires NoLostReload(s) && t.loop == s.loop && t.events == s.events && t.servedFrom == s.servedFrom
    requires t.clock >= s.clock && (BeforeSweep(t.closer) ==> BeforeSweep(s.closer) && t.core == s.core)
    ensures NoLostReload(t)
  {
    assert BeforeSweep(t.closer) ==> forall id, e :: Outstanding(s, id, e) ==> Outstanding(t, id, e);
  }

  lemma CloseKeepsTimed(s: State, k: CloseStep, debounce: nat)
    requires Timed(s.core.gens, s.armedAt, debounce) && CloseEnabled(s, k)
    ensures var t := CloseNext(s, k); Timed(t.core.gens, t.armedAt, debounce)
  {
  }

  lemma CloseKeepsDelivered(s: State, k: CloseStep)
    requires Delivered(s) && CloseEnabled(s, k)
    ensures Delivered(CloseNext(s, k))
  {
  }

  lemma LoopKeepsBooks(s: State, l: LoopStep, debounce: nat)
    requires Books(s) && LoopEnabled(s, l)
    ensures Books(LoopNext(s, l, debounce))
  {
    LoopKeepsLocking(s, l, debounce);
    LoopKeepsStored(s, l, debounce);
    LoopKeepsCredit(s, l, debounce);
  }

  lemma LoopKeepsPromises(s: State, l: LoopStep, debounce: nat)
    requires Inv(s, debounce) && LoopEnabled(s, l)
    ensures Promises(Next(s, Loop(l), debounce), debounce)
  {
    LoopKeepsTimed(s, l, debounce);
    LoopKeepsCoalesced(s, l, debounce);
    LoopKeepsReloads(s, l, debounce);
  }

  lemma CallbackKeepsBooks(s: State, g: Gen, c: CallbackStep)
    requires Books(s) && CallbackEnabled(s, g, c)
    ensures Books(CallbackNext(s, g, c))
  {
    CallbackKeepsLocking(s, g, c);
    CallbackKeepsStored(s, g, c);
    CallbackKeepsCredit(s, g, c);
    CallbackKeepsSwept(s, g, c);
  }

  lemma CallbackKeepsPromises(s: State, g: Gen, c: CallbackStep, debounce: nat)
    requires Promises(s, debounce) && CallbackEnabled(s, g, c)
    ensures Promises(Next(s, Callback(g, c), debounce), debounce)
  {
    CallbackKeepsReloads(s, g, c);
    CallbackKeepsDelivered(s, g, c);
  }

  lemma CloseKeepsBooks(s: State, k: CloseStep)
    requires Books(s) && CloseEnabled(s, k)
    ensures Books(CloseNext(s, k))
  {
    CloseKeepsLocking(s, k);
    CloseKeepsStored(s, k);
    CloseKeepsCredit(s, k);
    CloseKeepsSwept(s, k);
  }

  lemma CloseKeepsPromises(s: State, k: CloseStep, debounce: nat)
    requires Promises(s, debounce) && CloseEnabled(s, k)
    ensures Promises(Next(s, Close(k), debounce), debounce)
  {
    CloseKeepsTimed(s, k, debounce);
    CloseKeepsDelivered(s, k);
    ReloadsFrame(s, CloseNext(s, k).(clock := s.clock + 1));
  }

  lemma ClientKeepsPromises(s: State, r: ClientStep, debounce: nat)
    requires Promises(s, debounce) && ClientEnabled(s, r)
    ensures Promises(Next(s, Clients(r), debounce), debounce)
  {
    ClientKeepsDelivered(s, r);
    ReloadsFrame(s, ClientNext(s, r).(clock := s.clock + 1));
  }

  lemma NextKeepsBooks(s: State, a: Action, debounce: nat)
    requires Books(s) && Enabled(s, a)
    ensures Books(Next(s, a, debounce))
  {
    match a
    case Tick =>
    case Loop(l) => LoopKeepsBooks(s, l, debounce);
    case Callback(g, c) => CallbackKeepsBooks(s, g, c);
    case Close(k) => CloseKeepsBooks(s, k);
    case Clients(r) =>
  }

  lemma TickKeepsPromises(s: State, debounce: nat)
    requires Promises(s, debounce) && Enabled(s, Tick)
    ensures Promises(Next(s, Tick, debounce), debounce)
  {
    ReloadsFrame(s, Next(s, Tick, debounce));
  }

  lemma NextKeepsPromises(s: State, a: Action, debounce: nat)
    requires Inv(s, debounce) && Enabled(s, a)
    ensures Promises(Next(s, a, debounce), debounce)
  {
    match a
    case Tick => TickKeepsPromises(s, debounce);
    case Loop(l) => LoopKeepsPromises(s, l, debounce);
    case Callback(g, c) => CallbackKeepsPromises(s, g, c, debounce);
    case Close(k) => CloseKeepsPromises(s, k, debounce);
    case Clients(r) => ClientKeepsPromises(s, r, debounce);
  }

  lemma {:induction false} RunKeepsInv(s: State, acts: seq<Action>, debounce: nat, end: State)
    requires Inv(s, debounce) && Runs(s, acts, debounce, end)
    ensures Inv(end, debounce)
    decreases |acts|
  {
    if acts != [] {
      NextKeepsBooks(s, acts[0], debounce);
      NextKeepsPromises(s, acts[0], debounce);
      RunKeepsInv(Next(s, acts[0], debounce), acts[1..], debounce, end);
    }
  }

  // ---------------------------------------------------------------- main results

  ghost predicate Reachable(s: State, debounce: nat) {
    exists acts :: Runs(Init(), acts, debounce, s)
  }

  lemma ReachableInv(s: State, debounce: nat)
    requires Reachable(s, debounce)
    ensures Inv(s, debounce)
  {
    var acts :| Runs(Init(), acts, debounce, s);
    RunKeepsInv(Init(), acts, debounce, s);
  }

  /** No event is lost, in any interleaving, until Close starts cancelling: the loop is still
      handling it, or a generation of its canvas is still to enter onReload (or entered it after
      the event and has not broadcast yet), or a reload that began after the event has been
      broadcast and every client that was registered by then has an unread token or has read
      one since the event. */
  lemma NoReloadIsLost(s: State, debounce: nat, id: Id)
    requires Reachable(s, debounce) && BeforeSweep(s.closer) && id in s.events
    ensures var e := s.events[id].at;
            || Outstanding(s, id, e)
            || (Served(s, id, e)
                && forall c :: c in s.clients && s.clients[c].id == id && s.clients[c].since <= e ==>
                     s.clients[c].token || s.clients[c].readAt > e)
  {
    ReachableInv(s, debounce);
    var e := s.events[id].at;
    if Served(s, id, e) {
      forall c | c in s.clients && s.clients[c].id == id && s.clients[c].since <= e
        ensures s.clients[c].token || s.clients[c].readAt > e
      {
        assert Notice(s.clients[c], s.servedFrom);
      }
    }
  }

  /** At most one generation of a canvas is pending, at its latest arming plus the debounce
      window and no sooner than that window after the latest event; and it is the one the
      timers map holds, unless the loop is inside scheduleReload about to store it. */
  lemma OnePendingPerCanvas(s: State, debounce: nat, g: Gen, h: Gen)
    requires Reachable(s, debounce) && g < |s.core.gens| && h < |s.core.gens|
    requires s.core.gens[g].phase.Pending? && s.core.gens[h].phase.Pending?
    ensures s.core.gens[g].id == s.core.gens[h].id ==> g == h
    ensures var id := s.core.gens[g].id;
            && ((id in s.core.entry && s.core.entry[id] == g) || s.loop == Install(id, g))
            && (id in s.events && !Handling(s.loop, id) ==>
                 s.events[id].time + debounce <= s.core.gens[g].phase.deadline)
    ensures var id := s.core.gens[g].id;
            id in s.armedAt && s.core.gens[g].phase.deadline == s.armedAt[id] + debounce
  {
    ReachableInv(s, debounce);
  }

  /** fireWG never goes negative: it is the number of generations neither finished nor
      cancelled, plus the Add or Done in flight beside its own AfterFunc or Stop. */
  lemma FireCountBalances(s: State, debounce: nat)
    requires Reachable(s, debounce)
    ensures s.core.fireWG == LiveCount(s.core.gens) + (if s.loop.Arm? then 1 else 0)
      + (if s.closer.Uncredit? then 1 else 0)
    ensures s.core.fireWG >= 0
    ensures forall g :: Enabled(s, Callback(g, Done)) ==> s.core.fireWG > 0
    ensures s.closer.Draining? ==> forall l :: l != Exit ==> !LoopEnabled(s, l)
  {
    ReachableInv(s, debounce);
    forall g | Enabled(s, Callback(g, Done)) ensures s.core.fireWG > 0 {
      if s.core.fireWG <= 0 {
        NoneLive(s.core.gens, g);
      }
    }
  }

  lemma ClosedIsQuiet(s: State, g: Gen)
    requires Books(s) && s.closer.Closed? && g < |s.core.gens|
    ensures s.core.gens[g].phase.Finished? || s.core.gens[g].phase.Cancelled?
  {
    NoneLive(s.core.gens, g);
  }

  lemma ClosedStays(s: State, a: Action, debounce: nat)
    requires Books(s) && s.closer.Closed? && Enabled(s, a)
    ensures a.Tick? || a.Clients?
    ensures var t := Next(s, a, debounce); t.core == s.core && t.closer == s.closer && t.servedFrom == s.servedFrom
  {
    if a.Callback? {
      ClosedIsQuiet(s, a.gen);
    }
  }

  /** Close is a quiescence barrier: once it has returned every generation is finished or
      cancelled, and whatever happens next neither dispatches a timer nor enters, broadcasts in
      or leaves an onReload call. */
  lemma {:induction false} CloseIsABarrier(s: State, acts: seq<Action>, debounce: nat, end: State)
    requires Reachable(s, debounce) && s.closer.Closed? && Runs(s, acts, debounce, end)
    ensures forall g :: 0 <= g < |s.core.gens| ==> s.core.gens[g].phase.Finished? || s.core.gens[g].phase.Cancelled?
    ensures end.closer.Closed? && end.core == s.core && end.servedFrom == s.servedFrom
    ensures forall i :: 0 <= i < |acts| ==> acts[i].Tick? || acts[i].Clients?
  {
    ReachableInv(s, debounce);
    forall g | 0 <= g < |s.core.gens|
      ensures s.core.gens[g].phase.Finished? || s.core.gens[g].phase.Cancelled?
    {
      ClosedIsQuiet(s, g);
    }
    ClosedRuns(s, acts, debounce, end);
  }

  lemma {:induction false} ClosedRuns(s: State, acts: seq<Action>, debounce: nat, end: State)
    requires Books(s) && s.closer.Closed? && Runs(s, acts, debounce, end)
    ensures end.closer.Closed? && end.core == s.core && end.servedFrom == s.servedFrom
    ensures forall i :: 0 <= i < |acts| ==> acts[i].Tick? || acts[i].Clients?
    decreases |acts|
  {
    if acts != [] {
      ClosedStays(s, acts[0], debounce);
      NextKeepsBooks(s, acts[0], debounce);
      ClosedRuns(Next(s, acts[0], debounce), acts[1..], debounce, end);
    }
  }

  // ---------------------------------------------------------------- nothing gets stuck

  /** Actions that no file-system event, client or caller of Close has to supply. */
  predicate Inner(a: Action) {
    a.Tick? || a.Callback? || (a.Loop? && !a.l.Event? && !a.l.Exit?)
  }

  ghost predicate LeadsTo(s: State, debounce: nat, t: State) {
    exists acts :: Runs(s, acts, debounce, t) && forall i :: 0 <= i < |acts| ==> Inner(acts[i])
  }

  lemma LeadsToSelf(s: State, debounce: nat)
    ensures LeadsTo(s, debounce, s)
  {
    assert Runs(s, [], debounce, s);
  }

  lemma LeadsToStep(s: State, a: Action, debounce: nat, t: State)
    requires Enabled(s, a) && Inner(a) && LeadsTo(Next(s, a, debounce), debounce, t)
    ensures LeadsTo(s, debounce, t)
  {
    var acts :| Runs(Next(s, a, debounce), acts, debounce, t) && forall i :: 0 <= i < |acts| ==> Inner(acts[i]);
    assert ([a] + acts)[1..] == acts;
    assert Runs(s, [a] + acts, debounce, t);
  }

  predicate Settled(s: State) {
    s.mu.Nobody? && (s.loop.Idle? || s.loop.Exited?)
  }

  /** How far scheduleReload and the callback inside its critical section have to go. */
  function LoopRank(pc: LoopPc): nat {
    match pc
    case WantLock(_) => 6 case Inspect(_) => 5 case Credit(_) => 4 case Arm(_) => 3
    case Install(_, _) => 2 case Rearm(_, _) => 2 case Idle => 0 case Exited => 0
  }

  /** A generation that still owes its reload gets there. */
  function TimerRank(s: State, g: Gen): nat
    requires g < |s.core.gens|
  {
    match s.core.gens[g].phase
    case Pending(d) => 6 + (if d > s.now then d - s.now else 0)
    case Stopped => 6 case Dispatched => 5 case Cleaning => 4 case Unlocked => 3
    case Reloading(_) => 2 case Returning => 1 case Finished => 0 case Cancelled => 0
  }

  function SettleStep(s: State): Action {
    if s.mu.CallbackHolds? then Callback(s.mu.gen, CleanUp)
    else Loop(match s.loop
              case WantLock(_) => Lock case Inspect(_) => Look case Rearm(_, _) => Reset
              case Credit(_) => AddCredit case Arm(_) => AfterFunc case _ => Store)
  }

  function SettleRank(s: State): nat {
    LoopRank(s.loop) + (if s.mu.CallbackHolds? then 1 else 0)
  }

  lemma LoopSettles(s: State, debounce: nat)
    requires Books(s) && BeforeSweep(s.closer) && !Settled(s) && !s.mu.CallbackHolds?
    ensures var l := SettleStep(s).l;
            && LoopEnabled(s, l) && l != Exit && !l.Event?
            && var t := LoopNext(s, l, debounce);
               SettleRank(t) < SettleRank(s) && t.events == s.events && t.closer == s.closer
  {
  }

  lemma SettleStepWorks(s: State, debounce: nat)
    requires Books(s) && BeforeSweep(s.closer) && !Settled(s)
    ensures var a := SettleStep(s);
            && Enabled(s, a) && Inner(a)
            && var t := Next(s, a, debounce);
               SettleRank(t) < SettleRank(s) && t.events == s.events && t.closer == s.closer
  {
    if !s.mu.CallbackHolds? {
      LoopSettles(s, debounce);
    }
  }

  /** From any point before Close starts cancelling, the loop and a callback in its critical
      section can finish, and the events recorded are still the same. */
  lemma {:induction false} CanSettle(s: State, debounce: nat) returns (t: State)
    requires Inv(s, debounce) && BeforeSweep(s.closer)
    ensures LeadsTo(s, debounce, t) && Inv(t, debounce) && Settled(t)
    ensures t.events == s.events && t.closer == s.closer
    decreases SettleRank(s)
  {
    if Settled(s) {
      LeadsToSelf(s, debounce);
      t := s;
    } else {
      var a := SettleStep(s);
      SettleStepWorks(s, debounce);
      NextKeepsBooks(s, a, debounce);
      NextKeepsPromises(s, a, debounce);
      t := CanSettle(Next(s, a, debounce), debounce);
      LeadsToStep(s, a, debounce, t);
    }
  }

  function ReloadStep(s: State, g: Gen): Action
    requires g < |s.core.gens|
  {
    match s.core.gens[g].phase
    case Pending(d) => if d <= s.now then Callback(g, Fire) else Tick
    case Dispatched => Callback(g, Acquire)
    case Cleaning => Callback(g, CleanUp)
    case Unlocked => Callback(g, EnterReload)
    case _ => Callback(g, Broadcast)
  }

  /** The loop is not inside scheduleReload and nobody but g can be holding mu. */
  predicate Clear(s: State, g: Gen) {
    (s.loop.Idle? || s.loop.Exited?) && (s.mu.Nobody? || s.mu == CallbackHolds(g))
  }

  lemma ReloadStepWorks(s: State, debounce: nat, g: Gen, id: Id, e: nat)
    requires Books(s) && Clear(s, g) && e < s.clock && Owes(s.core, g, id, e)
    ensures var a := ReloadStep(s, g);
            && Enabled(s, a) && Inner(a)
            && var t := Next(s, a, debounce);
               && Clear(t, g) && e < t.clock && TimerRank(t, g) < TimerRank(s, g)
               && (if s.core.gens[g].phase.Reloading? then Served(t, id, e) else Owes(t.core, g, id, e))
  {
  }

  lemma {:induction false} CanReload(s: State, debounce: nat, g: Gen, id: Id, e: nat) returns (t: State)
    requires Inv(s, debounce) && Clear(s, g) && e < s.clock && Owes(s.core, g, id, e)
    ensures LeadsTo(s, debounce, t) && Served(t, id, e)
    decreases TimerRank(s, g)
  {
    var a := ReloadStep(s, g);
    ReloadStepWorks(s, debounce, g, id, e);
    var n := Next(s, a, debounce);
    if s.core.gens[g].phase.Reloading? {
      t := n;
      LeadsToSelf(t, debounce);
    } else {
      NextKeepsBooks(s, a, debounce);
      NextKeepsPromises(s, a, debounce);
      t := CanReload(n, debounce, g, id, e);
    }
    LeadsToStep(s, a, debounce, t);
  }

  lemma {:induction false} LeadsOn(s: State, debounce: nat, t: State, u: State, acts: seq<Action>)
    requires Runs(s, acts, debounce, t) && (forall i :: 0 <= i < |acts| ==> Inner(acts[i]))
    requires LeadsTo(t, debounce, u)
    ensures LeadsTo(s, debounce, u)
    decreases |acts|
  {
    if acts != [] {
      LeadsOn(Next(s, acts[0], debounce), debounce, t, u, acts[1..]);
      LeadsToStep(s, acts[0], debounce, u);
    }
  }

  /** The protocol is never wedged: from every reachable state before Close starts cancelling,
      the loop, the timers and the callbacks on their own can carry any recorded event to a
      reload that began after it. */
  lemma EveryEventCanBeServed(s: State, debounce: nat, id: Id) returns (end: State)
    requires Reachable(s, debounce) && BeforeSweep(s.closer) && id in s.events
    ensures LeadsTo(s, debounce, end) && Served(end, id, s.events[id].at)
  {
    ReachableInv(s, debounce);
    var e := s.events[id].at;
    var t := CanSettle(s, debounce);
    if Served(t, id, e) {
      end := t;
    } else {
      var g :| Owes(t.core, g, id, e);
      end := CanReload(t, debounce, g, id, e);
      var acts :| Runs(s, acts, debounce, t) && forall i :: 0 <= i < |acts| ==> Inner(acts[i]);
      LeadsOn(s, debounce, t, end, acts);
    }
  }

  lemma {:induction false} SomeLive(gens: seq<Timer>) returns (g: Gen)
    requires LiveCount(gens) > 0
    ensures g < |gens| && Live(gens[g].phase)
  {
    var n := |gens| - 1;
    if Live(gens[n].phase) {
      g := n;
    } else {
      g := SomeLive(gens[..n]);
    }
  }

  // ---------------------------------------------------------------- what stays open, what is left behind

  /** A callback past its critical section, or one that is over. */
  predicate PastCleanUp(p: Phase) {
    p.Unlocked? || p.Reloading? || p.Returning? || p.Finished?
  }

  /** The loop listens until Close has begun, and the map keeps no generation whose callback has
      been through its critical section. */
  ghost predicate Tended(s: State) {
    && (s.loop.Exited? ==> !s.closer.NotClosing?)
    && forall id :: id in s.core.entry ==>
         s.core.entry[id] < |s.core.gens| && !PastCleanUp(s.core.gens[s.core.entry[id]].phase)
  }

  lemma LoopKeepsTended(s: State, l: LoopStep, debounce: nat)
    requires LoopStored(s.core, s.loop) && Tended(s) && LoopEnabled(s, l)
    ensures Tended(LoopNext(s, l, debounce))
  {
  }

  lemma CallbackKeepsTended(s: State, g: Gen, c: CallbackStep)
    requires Stored(s.core, s.loop) && Tended(s) && CallbackEnabled(s, g, c)
    ensures Tended(CallbackNext(s, g, c))
  {
  }

  lemma CloseKeepsTended(s: State, k: CloseStep)
    requires Tended(s) && CloseEnabled(s, k)
    ensures Tended(CloseNext(s, k))
  {
  }

  lemma NextKeepsTended(s: State, a: Action, debounce: nat)
    requires Books(s) && Tended(s) && Enabled(s, a)
    ensures Tended(Next(s, a, debounce))
  {
    match a
    case Loop(l) => LoopKeepsTended(s, l, debounce);
    case Callback(g, c) => CallbackKeepsTended(s, g, c);
    case Close(k) => CloseKeepsTended(s, k);
    case _ =>
  }

  lemma {:induction false} RunKeepsTended(s: State, acts: seq<Action>, debounce: nat, end: State)
    requires Books(s) && Tended(s) && Runs(s, acts, debounce, end)
    ensures Tended(end)
    decreases |acts|
  {
    if acts != [] {
      NextKeepsBooks(s, acts[0], debounce);
      NextKeepsTended(s, acts[0], debounce);
      RunKeepsTended(Next(s, acts[0], debounce), acts[1..], debounce, end);
    }
  }

  /** Once every callback has returned, the timers map is empty again: no interleaving leaves an
      entry behind, not even one whose id a later generation took over. */
  lemma NothingLingers(s: State, debounce: nat)
    requires Reachable(s, debounce) && forall g :: 0 <= g < |s.core.gens| ==> s.core.gens[g].phase.Finished?
    ensures s.core.entry == map[]
  {
    var acts :| Runs(Init(), acts, debounce, s);
    RunKeepsTended(Init(), acts, debounce, s);
  }

  lemma {:induction false} StaysReachable(s: State, acts: seq<Action>, debounce: nat, end: State)
    requires Reachable(s, debounce) && Runs(s, acts, debounce, end)
    ensures Reachable(end, debounce)
  {
    var before :| Runs(Init(), before, debounce, s);
    RunsOn(Init(), before, s, acts, debounce, end);
  }

  lemma CanListen(s: State, debounce: nat) returns (t: State)
    requires Reachable(s, debounce) && s.closer.NotClosing?
    ensures LeadsTo(s, debounce, t) && Reachable(t, debounce) && t.loop.Idle? && t.closer.NotClosing?
  {
    ReachableInv(s, debounce);
    t := CanSettle(s, debounce);
    var acts :| Runs(s, acts, debounce, t) && forall i :: 0 <= i < |acts| ==> Inner(acts[i]);
    StaysReachable(s, acts, debounce, t);
    var before :| Runs(Init(), before, debounce, t);
    RunKeepsTended(Init(), before, debounce, t);
  }

  /** Until Close begins, the watcher never stops listening: from every reachable state it can come by
      itself to take a new event of any canvas, and go on to a reload that began after it. */
  lemma NextEventIsServed(s: State, debounce: nat, id: Id) returns (t: State, u: State, end: State)
    requires Reachable(s, debounce) && s.closer.NotClosing?
    ensures LeadsTo(s, debounce, t) && Runs(t, [Loop(Event(id))], debounce, u) && LeadsTo(u, debounce, end)
    ensures Served(end, id, t.clock)
  {
    t := CanListen(s, debounce);
    u := Next(t, Loop(Event(id)), debounce);
    assert Runs(t, [Loop(Event(id))], debounce, u);
    StaysReachable(t, [Loop(Event(id))], debounce, u);
    end := EveryEventCanBeServed(u, debounce, id);
  }

  // ---------------------------------------------------------------- Close returns

  /** Actions of the watcher's own goroutines: no file-system event, client, or passing of time. */
  predicate Unaided(a: Action) {
    a.Callback? || a.Close? || (a.Loop? && !a.l.Event?)
  }

  function PhaseRank(p: Phase): nat {
    match p
    case Pending(_) => 6 case Stopped => 6 case Dispatched => 5 case Cleaning => 4 case Unlocked => 3
    case Reloading(_) => 2 case Returning => 1 case Finished => 0 case Cancelled => 0
  }

  /** All the steps the generations still have to take. */
  function DrainRank(gens: seq<Timer>): nat {
    if gens == [] then 0 else DrainRank(gens[..|gens| - 1]) + PhaseRank(gens[|gens| - 1].phase)
  }

  lemma {:induction false} DrainRankSet(gens: seq<Timer>, g: Gen, t: Timer)
    requires g < |gens|
    ensures DrainRank(gens[g := t]) == DrainRank(gens) - PhaseRank(gens[g].phase) + PhaseRank(t.phase)
  {
    var n := |gens| - 1;
    if g == n {
      assert gens[g := t][..n] == gens[..n];
    } else {
      assert gens[g := t][..n] == gens[..n][g := t];
      DrainRankSet(gens[..n], g, t);
    }
  }

  function CloseRank(c: ClosePc): nat {
    match c
    case NotClosing => 6 case DoneClosed => 5 case FswClosed => 4 case Joined => 3
    case Sweeping(_) => 2 case Uncredit(_) => 2 case Draining => 1 case Closed => 0
  }

  /** What is left of the phase of Close under way. */
  function CloseWork(s: State): nat {
    match s.closer
    case FswClosed => SettleRank(s) + (if s.loop.Exited? then 0 else 1)
    case Joined => if s.mu.CallbackHolds? then 1 else 0
    case Sweeping(todo) => 2 * |todo|
    case Uncredit(todo) => 2 * |todo| + 1
    case Draining => DrainRank(s.core.gens)
    case _ => 0
  }

  predicate Closer(t: State, s: State) {
    CloseRank(t.closer) < CloseRank(s.closer)
      || (CloseRank(t.closer) == CloseRank(s.closer) && CloseWork(t) < CloseWork(s))
  }

  ghost predicate Advances(s: State, a: Action, debounce: nat) {
    Enabled(s, a) && Unaided(a) && Closer(Next(s, a, debounce), s)
  }

  lemma JoinAdvances(s: State, debounce: nat) returns (a: Action)
    requires Books(s) && s.closer.FswClosed?
    ensures Advances(s, a, debounce)
  {
    if s.loop.Exited? {
      a := Close(Join);
    } else if Settled(s) {
      a := Loop(Exit);
    } else {
      a := SettleStep(s);
      SettleStepWorks(s, debounce);
    }
  }

  lemma SweepAdvances(s: State, debounce: nat) returns (a: Action)
    requires s.closer.Sweeping?
    ensures Advances(s, a, debounce)
  {
    if s.closer.todo == {} {
      a := Close(ReleaseLock);
    } else {
      var id :| id in s.closer.todo;
      a := Close(Visit(id));
    }
  }

  function DrainStep(p: Phase): CallbackStep {
    match p
    case Dispatched => Acquire case Cleaning => CleanUp case Unlocked => EnterReload
    case Reloading(_) => Broadcast case _ => Done
  }

  lemma CallbackLowersRank(s: State, g: Gen, c: CallbackStep)
    requires CallbackEnabled(s, g, c) && !c.Fire?
    ensures var t := CallbackNext(s, g, c);
      && PhaseRank(t.core.gens[g].phase) < PhaseRank(s.core.gens[g].phase)
      && t.core.gens == s.core.gens[g := t.core.gens[g]] && t.closer == s.closer
  {
  }

  lemma CallbackAdvances(s: State, g: Gen, c: CallbackStep, debounce: nat)
    requires s.closer.Draining? && CallbackEnabled(s, g, c) && !c.Fire?
    ensures Advances(s, Callback(g, c), debounce)
  {
    CallbackLowersRank(s, g, c);
    DrainRankSet(s.core.gens, g, CallbackNext(s, g, c).core.gens[g]);
  }

  lemma DrainAdvances(s: State, debounce: nat) returns (a: Action)
    requires Books(s) && s.closer.Draining?
    ensures Advances(s, a, debounce)
  {
    if s.core.fireWG == 0 {
      a := Close(Return);
    } else {
      var g := SomeLive(s.core.gens);
      if s.mu.CallbackHolds? {
        g := s.mu.gen;
      }
      var c := DrainStep(s.core.gens[g].phase);
      CallbackAdvances(s, g, c, debounce);
      a := Callback(g, c);
    }
  }

  /** Close never waits for something that cannot happen: while it is under way the loop, a callback
      or Close itself has a step that brings its return closer. */
  lemma CloseAdvances(s: State, debounce: nat) returns (a: Action)
    requires Books(s) && !s.closer.NotClosing? && !s.closer.Closed?
    ensures Advances(s, a, debounce)
  {
    match s.closer
    case DoneClosed => a := Close(CloseFsw);
    case FswClosed => a := JoinAdvances(s, debounce);
    case Joined => a := if s.mu.CallbackHolds? then Callback(s.mu.gen, CleanUp) else Close(TakeLock);
    case Sweeping(_) => a := SweepAdvances(s, debounce);
    case Uncredit(_) => a := Close(DropCredit);
    case Draining => a := DrainAdvances(s, debounce);
  }

  lemma {:induction false} CloseRunsOut(s: State, debounce: nat) returns (acts: seq<Action>, end: State)
    requires Books(s) && !s.closer.NotClosing?
    ensures Runs(s, acts, debounce, end) && end.closer.Closed? && forall i :: 0 <= i < |acts| ==> Unaided(acts[i])
    decreases CloseRank(s.closer), CloseWork(s)
  {
    if s.closer.Closed? {
      acts, end := [], s;
    } else {
      var a := CloseAdvances(s, debounce);
      NextKeepsBooks(s, a, debounce);
      var rest;
      rest, end := CloseRunsOut(Next(s, a, debounce), debounce);
      acts := [a] + rest;
      assert acts[0] == a && acts[1..] == rest;
    }
  }

  /** From every reachable state in which Close has been called, whatever callbacks are running and
      timers armed, it can return, with no more events, clients or time needed. */
  lemma CloseCanReturn(s: State, debounce: nat) returns (acts: seq<Action>, end: State)
    requires Reachable(s, debounce) && !s.closer.NotClosing?
    ensures Runs(s, acts, debounce, end) && end.closer.Closed? && forall i :: 0 <= i < |acts| ==> Unaided(acts[i])
  {
    ReachableInv(s, debounce);
    acts, end := CloseRunsOut(s, debounce);
  }

  // ---------------------------------------------------------------- a state these speak of

  /** One event, handled to its end, and then a call of Close. */
  function OneEventThenClose(id: Id): seq<Action> {
    [Loop(Event(id)), Loop(Lock), Loop(Look), Loop(AddCredit), Loop(AfterFunc), Loop(Store), Close(CloseDone)]
  }

  lemma EventThenLook(id: Id, debounce: nat) returns (s: State)
    ensures Runs(Init(), OneEventThenClose(id)[..3], debounce, s)
    ensures s == Init().(loop := Credit(id), mu := LoopHolds, clock := 3, events := map[id := Stamp(0, 0)])
  {
    var s1 := Next(Init(), Loop(Event(id)), debounce);
    var s2 := Next(s1, Loop(Lock), debounce);
    s := Next(s2, Loop(Look), debounce);
    assert Runs(s2, [Loop(Look)], debounce, s);
    assert Runs(s1, [Loop(Lock), Loop(Look)], debounce, s);
    assert OneEventThenClose(id)[..3] == [Loop(Event(id)), Loop(Lock), Loop(Look)];
  }

  lemma StoreThenClose(s: State, id: Id, debounce: nat) returns (end: State)
    requires s == Init().(loop := Credit(id), mu := LoopHolds, clock := 3, events := map[id := Stamp(0, 0)])
    ensures Runs(s, OneEventThenClose(id)[3..], debounce, end)
    ensures end.closer.DoneClosed? && end.core == Core(map[id := 0], [Timer(id, Pending(debounce))], 1)
    ensures end.events == map[id := Stamp(0, 0)]
  {
    var s4 := Next(s, Loop(AddCredit), debounce);
    var s5 := Next(s4, Loop(AfterFunc), debounce);
    var s6 := Next(s5, Loop(Store), debounce);
    end := Next(s6, Close(CloseDone), debounce);
    assert Runs(s6, [Close(CloseDone)], debounce, end);
    assert Runs(s5, [Loop(Store), Close(CloseDone)], debounce, end);
    assert Runs(s4, [Loop(AfterFunc), Loop(Store), Close(CloseDone)], debounce, end);
    assert OneEventThenClose(id)[3..] == [Loop(AddCredit), Loop(AfterFunc), Loop(Store), Close(CloseDone)];
  }

  lemma {:induction false} RunsOn(s: State, acts: seq<Action>, mid: State, more: seq<Action>, debounce: nat, end: State)
    requires Runs(s, acts, debounce, mid) && Runs(mid, more, debounce, end)
    ensures Runs(s, acts + more, debounce, end)
    decreases |acts|
  {
    if acts == [] {
      assert acts + more == more;
    } else {
      RunsOn(Next(s, acts[0], debounce), acts[1..], mid, more, debounce, end);
      assert (acts + more)[1..] == acts[1..] + more;
    }
  }

  /** Such a state is one with Close called and a generation pending, whatever the canvas and the
      window: from here all of the above applies. */
  lemma PendingWhileClosing(id: Id, debounce: nat) returns (s: State)
    ensures Reachable(s, debounce) && BeforeSweep(s.closer) && !s.closer.NotClosing? && id in s.events
    ensures s.core.gens == [Timer(id, Pending(debounce))] && s.core.entry == map[id := 0] && s.core.fireWG == 1
  {
    var mid := EventThenLook(id, debounce);
    s := StoreThenClose(mid, id, debounce);
    var acts := OneEventThenClose(id);
    RunsOn(Init(), acts[..3], mid, acts[3..], debounce, s);
    assert acts[..3] + acts[3..] == acts;
  }
}
