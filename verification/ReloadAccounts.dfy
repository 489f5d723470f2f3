/** Where reloads come from, over every run of module ReloadProtocol: each broadcast is owed to an event
    of its own, and each reload a client reads to a broadcast. */
module ReloadAccounts {
  import opened ReloadProtocol
  import opened ReloadDebounce

  // ---------------------------------------------------------------- what is owed

  /** A reload of the canvas that is yet to be broadcast. */
  predicate IsComing(t: Timer, id: Id) {
    IsDue(t, id) || (t.id == id && t.phase.Reloading?)
  }

  function Coming(gens: seq<Timer>, id: Id): nat {
    if gens == [] then 0
    else Coming(gens[..|gens| - 1], id) + One(IsComing(gens[|gens| - 1], id))
  }

  lemma {:induction false} ComingSet(gens: seq<Timer>, id: Id, g: Gen, t: Timer)
    requires g < |gens|
    ensures Coming(gens[g := t], id) == Coming(gens, id) - One(IsComing(gens[g], id)) + One(IsComing(t, id))
  {
    var n := |gens| - 1;
    if g == n {
      assert gens[g := t][..n] == gens[..n];
    } else {
      assert gens[g := t][..n] == gens[..n][g := t];
      ComingSet(gens[..n], id, g, t);
    }
  }

  /** Those, and the event in the loop's hands that has no generation yet. */
  function Owed(s: State, id: Id): nat {
    Coming(s.core.gens, id)
    + One((s.loop.WantLock? || s.loop.Inspect? || s.loop.Credit? || s.loop.Arm?) && s.loop.id == id)
  }

  predicate Broadcasts(s: State, a: Action, id: Id) {
    a.Callback? && a.c.Broadcast? && a.gen < |s.core.gens| && s.core.gens[a.gen].id == id
  }

  lemma LoopOwes(s: State, l: LoopStep, debounce: nat, id: Id)
    requires LoopStored(s.core, s.loop) && LoopEnabled(s, l)
    ensures Owed(LoopNext(s, l, debounce), id) <= Owed(s, id) + One(l == Event(id))
  {
    var t := LoopNext(s, l, debounce);
    match l
    case Look =>
      if t.loop.Rearm? {
        ComingSet(s.core.gens, id, t.loop.gen, t.core.gens[t.loop.gen]);
      }
    case Reset => ComingSet(s.core.gens, id, s.loop.gen, t.core.gens[s.loop.gen]);
    case AfterFunc => assert t.core.gens[..|s.core.gens|] == s.core.gens;
    case _ =>
  }

  lemma CallbackOwes(s: State, g: Gen, c: CallbackStep, id: Id)
    requires CallbackEnabled(s, g, c)
    ensures Owed(CallbackNext(s, g, c), id) + One(Broadcasts(s, Callback(g, c), id)) == Owed(s, id)
  {
    ComingSet(s.core.gens, id, g, CallbackNext(s, g, c).core.gens[g]);
  }

  lemma CloseOwes(s: State, k: CloseStep, id: Id)
    requires CloseEnabled(s, k)
    ensures Owed(CloseNext(s, k), id) <= Owed(s, id)
  {
    if k.Visit? && Pends(s.core, k.id) {
      var g := s.core.entry[k.id];
      ComingSet(s.core.gens, id, g, s.core.gens[g].(phase := Cancelled));
    }
  }

  lemma NextOwes(s: State, a: Action, debounce: nat, id: Id)
    requires LoopStored(s.core, s.loop) && Enabled(s, a)
    ensures Owed(Next(s, a, debounce), id) + One(Broadcasts(s, a, id)) <= Owed(s, id) + One(a == Loop(Event(id)))
  {
    match a
    case Loop(l) => LoopOwes(s, l, debounce, id);
    case Callback(g, c) => CallbackOwes(s, g, c, id);
    case Close(k) => CloseOwes(s, k, id);
    case _ =>
  }

  // ---------------------------------------------------------------- over runs

  /** How often the run broadcasts a reload of the canvas, and sees an event of it. */
  function Sent(s: State, acts: seq<Action>, debounce: nat, id: Id): nat
    decreases |acts|
  {
    if acts == [] || !Enabled(s, acts[0]) then 0
    else One(Broadcasts(s, acts[0], id)) + Sent(Next(s, acts[0], debounce), acts[1..], debounce, id)
  }

  function Seen(acts: seq<Action>, id: Id): nat {
    if acts == [] then 0 else One(acts[0] == Loop(Event(id))) + Seen(acts[1..], id)
  }

  function Reads(acts: seq<Action>, c: Client): nat {
    if acts == [] then 0 else One(acts[0] == Clients(Read(c))) + Reads(acts[1..], c)
  }

  /** Every broadcast is owed to an event, and to one of its own. */
  lemma {:induction false} BroadcastsFollowEvents(s: State, acts: seq<Action>, debounce: nat, end: State, id: Id)
    requires Books(s) && Runs(s, acts, debounce, end)
    ensures Sent(s, acts, debounce, id) + Owed(end, id) <= Owed(s, id) + Seen(acts, id)
    decreases |acts|
  {
    if acts != [] {
      NextOwes(s, acts[0], debounce, id);
      NextKeepsBooks(s, acts[0], debounce);
      BroadcastsFollowEvents(Next(s, acts[0], debounce), acts[1..], debounce, end, id);
    }
  }

  ghost predicate Listens(s: State, c: Client, id: Id) {
    c in s.clients && s.clients[c].id == id
  }

  /** A client that stays reads at most once for each broadcast, and, with a full slot counted, at least
      once if there was one. */
  lemma {:induction false} ReadsFollowBroadcasts(s: State, acts: seq<Action>, debounce: nat, end: State,
                                                c: Client, id: Id)
    requires Listens(s, c, id) && Runs(s, acts, debounce, end) && Clients(Unregister(c)) !in acts
    ensures Listens(end, c, id)
    ensures Reads(acts, c) + One(end.clients[c].token) <= Sent(s, acts, debounce, id) + One(s.clients[c].token)
    ensures Sent(s, acts, debounce, id) > 0 || s.clients[c].token ==> Reads(acts, c) + One(end.clients[c].token) > 0
    decreases |acts|
  {
    if acts != [] {
      ReadsFollowBroadcasts(Next(s, acts[0], debounce), acts[1..], debounce, end, c, id);
    }
  }

  /** No client is told of a reload out of nowhere: from any reachable moment s at which it registers, it
      reads at most once for each event of its canvas since, and for each reload that was then already
      coming. */
  lemma ReadsAreOwedToEvents(before: seq<Action>, s: State, c: Client, id: Id, rest: seq<Action>, debounce: nat,
                             end: State)
    requires Runs(Init(), before, debounce, s) && Runs(s, [Clients(Register(c, id))] + rest, debounce, end)
    requires Clients(Unregister(c)) !in rest
    ensures Listens(end, c, id)
    ensures Reads(rest, c) + One(end.clients[c].token) <= Owed(s, id) + Seen(rest, id)
  {
    assert ([Clients(Register(c, id))] + rest)[1..] == rest;
    var t := Next(s, Clients(Register(c, id)), debounce);
    RunKeepsInv(Init(), before, debounce, s);
    NextKeepsBooks(s, Clients(Register(c, id)), debounce);
    BroadcastsFollowEvents(t, rest, debounce, end, id);
    ReadsFollowBroadcasts(t, rest, debounce, end, c, id);
  }
}
