/** The registry of connected SSE clients: one-slot channels per canvas, two optional caps and
    an incrementally kept total. */
module SseHub {
  import ReloadProtocol

  type Id = string
  /** The identity of one channel. */
  datatype Chan = Chan(n: nat)

  /** Each canvas's channels; true means the slot holds an unread reload. */
  type Registry = map<Id, map<Chan, bool>>

  /** Every connected client, once. */
  function Connected(clients: Registry): set<(Id, Chan)> {
    set id, ch | id in clients && ch in clients[id] :: (id, ch)
  }

  function CountOf(clients: Registry, id: Id): nat {
    if id in clients then |clients[id]| else 0
  }

  ghost predicate NoEmptyCanvas(clients: Registry) {
    forall id :: id in clients ==> |clients[id]| > 0
  }

  /** register's answer: neither ceiling is reached yet (0 means no ceiling). */
  predicate HasRoom(clients: Registry, total: int, maxGlobal: nat, maxPerCanvas: nat, id: Id) {
    (maxGlobal > 0 ==> total < maxGlobal) && (maxPerCanvas > 0 ==> CountOf(clients, id) < maxPerCanvas)
  }

  function Added(clients: Registry, id: Id, ch: Chan): Registry {
    clients[id := (if id in clients then clients[id] else map[])[ch := false]]
  }

  function Removed(clients: Registry, id: Id, ch: Chan): Registry
    requires id in clients
  {
    if clients[id] - {ch} == map[] then clients - {id} else clients[id := clients[id] - {ch}]
  }

  function Filled(clients: Registry, id: Id): Registry {
    if id in clients then clients[id := map ch | ch in clients[id] :: true] else clients
  }

  lemma AddedSet(clients: Registry, id: Id, ch: Chan)
    ensures Connected(Added(clients, id, ch)) == Connected(clients) + {(id, ch)}
  {
    var more := Added(clients, id, ch);
    forall p: (Id, Chan)
      ensures p in Connected(more) <==> p in Connected(clients) + {(id, ch)}
    {
      if p.0 != id {
        assert p.0 in more <==> p.0 in clients;
      }
    }
  }

  lemma AddedConnects(clients: Registry, id: Id, ch: Chan)
    requires id in clients ==> ch !in clients[id]
    ensures Connected(Added(clients, id, ch)) == Connected(clients) + {(id, ch)}
    ensures (id, ch) !in Connected(clients)
    ensures |Connected(Added(clients, id, ch))| == |Connected(clients)| + 1
    ensures CountOf(Added(clients, id, ch), id) == CountOf(clients, id) + 1
    ensures NoEmptyCanvas(clients) ==> NoEmptyCanvas(Added(clients, id, ch))
  {
    AddedSet(clients, id, ch);
    AddedToOne(if id in clients then clients[id] else map[], ch);
  }

  lemma AddedToOne(chans: map<Chan, bool>, ch: Chan)
    requires ch !in chans
    ensures |chans[ch := false]| == |chans| + 1
  {
  }

  lemma RemovedSet(clients: Registry, id: Id, ch: Chan)
    requires id in clients && ch in clients[id]
    ensures Connected(Removed(clients, id, ch)) == Connected(clients) - {(id, ch)}
  {
    var less := Removed(clients, id, ch);
    forall p: (Id, Chan)
      ensures p in Connected(less) <==> p in Connected(clients) - {(id, ch)}
    {
      if p.0 != id {
        assert p.0 in less <==> p.0 in clients;
      } else {
        assert p.1 in clients[id] - {ch} <==> p.1 in clients[id] && p.1 != ch;
      }
    }
  }

  lemma RemovedDisconnects(clients: Registry, id: Id, ch: Chan)
    requires id in clients && ch in clients[id]
    ensures Connected(Removed(clients, id, ch)) == Connected(clients) - {(id, ch)}
    ensures |Connected(Removed(clients, id, ch))| == |Connected(clients)| - 1
    ensures CountOf(Removed(clients, id, ch), id) == CountOf(clients, id) - 1
    ensures NoEmptyCanvas(clients) ==> NoEmptyCanvas(Removed(clients, id, ch))
  {
    RemovedSet(clients, id, ch);
    RemovedFromOne(clients[id], ch);
    assert (id, ch) in Connected(clients);
  }

  lemma RemovedFromOne(chans: map<Chan, bool>, ch: Chan)
    requires ch in chans
    ensures |chans - {ch}| == |chans| - 1
  {
    assert (chans - {ch}).Keys == chans.Keys - {ch};
  }

  /** Unregistering what was just registered gives back the very same registry. */
  lemma RegisterThenUnregister(clients: Registry, id: Id, ch: Chan)
    requires NoEmptyCanvas(clients) && (id in clients ==> ch !in clients[id])
    ensures Removed(Added(clients, id, ch), id, ch) == clients
  {
    var inner := if id in clients then clients[id] else map[];
    assert inner[ch := false] - {ch} == inner;
    if id !in clients {
      assert Added(clients, id, ch) - {id} == clients;
    } else {
      assert inner != map[] by {
        assert |inner| > 0;
      }
    }
  }

  /** total is the number of connected clients, no canvas is kept with none, channels are not
      reused, and no count is past its ceiling. */
  ghost predicate Counted(clients: Registry, total: int, nextChan: nat, maxGlobal: nat, maxPerCanvas: nat) {
    && total == |Connected(clients)|
    && NoEmptyCanvas(clients)
    && (forall p :: p in Connected(clients) ==> p.1.n < nextChan)
    && (maxGlobal > 0 ==> total <= maxGlobal)
    && WithinCap(clients, maxPerCanvas)
  }

  ghost predicate WithinCap(clients: Registry, maxPerCanvas: nat) {
    maxPerCanvas > 0 ==> forall id :: id in clients ==> |clients[id]| <= maxPerCanvas
  }

  lemma NewChannel(clients: Registry, total: int, nextChan: nat, maxGlobal: nat, maxPerCanvas: nat, id: Id)
    requires Counted(clients, total, nextChan, maxGlobal, maxPerCanvas) && id in clients
    ensures Chan(nextChan) !in clients[id]
  {
    assert Chan(nextChan) in clients[id] ==> (id, Chan(nextChan)) in Connected(clients);
  }

  /** A registration with room keeps the books. */
  lemma AddedCounts(clients: Registry, total: int, nextChan: nat, maxGlobal: nat, maxPerCanvas: nat, id: Id)
    requires Counted(clients, total, nextChan, maxGlobal, maxPerCanvas)
    requires HasRoom(clients, total, maxGlobal, maxPerCanvas, id)
    ensures Counted(Added(clients, id, Chan(nextChan)), total + 1, nextChan + 1, maxGlobal, maxPerCanvas)
  {
    if id in clients {
      NewChannel(clients, total, nextChan, maxGlobal, maxPerCanvas, id);
    }
    AddedConnects(clients, id, Chan(nextChan));
    AddedWithinCap(clients, maxPerCanvas, id, Chan(nextChan));
  }

  lemma NoRoomAtTheCap(clients: Registry, maxPerCanvas: nat, id: Id, ch: Chan)
    requires (id in clients ==> ch !in clients[id]) && WithinCap(Added(clients, id, ch), maxPerCanvas)
    ensures maxPerCanvas > 0 ==> CountOf(clients, id) < maxPerCanvas
  {
    AddedToOne(if id in clients then clients[id] else map[], ch);
    assert id in Added(clients, id, ch);
  }

  /** There is room exactly if the registration keeps them: one is refused just where a ceiling would be
      passed. */
  lemma RoomExactly(clients: Registry, total: int, nextChan: nat, maxGlobal: nat, maxPerCanvas: nat, id: Id)
    requires Counted(clients, total, nextChan, maxGlobal, maxPerCanvas)
    ensures HasRoom(clients, total, maxGlobal, maxPerCanvas, id) <==>
      Counted(Added(clients, id, Chan(nextChan)), total + 1, nextChan + 1, maxGlobal, maxPerCanvas)
  {
    if HasRoom(clients, total, maxGlobal, maxPerCanvas, id) {
      AddedCounts(clients, total, nextChan, maxGlobal, maxPerCanvas, id);
    } else if Counted(Added(clients, id, Chan(nextChan)), total + 1, nextChan + 1, maxGlobal, maxPerCanvas) {
      if id in clients {
        NewChannel(clients, total, nextChan, maxGlobal, maxPerCanvas, id);
      }
      NoRoomAtTheCap(clients, maxPerCanvas, id, Chan(nextChan));
      assert false;
    }
  }

  lemma AddedWithinCap(clients: Registry, maxPerCanvas: nat, id: Id, ch: Chan)
    requires WithinCap(clients, maxPerCanvas) && (maxPerCanvas > 0 ==> CountOf(clients, id) < maxPerCanvas)
    requires id in clients ==> ch !in clients[id]
    ensures WithinCap(Added(clients, id, ch), maxPerCanvas)
  {
    AddedToOne(if id in clients then clients[id] else map[], ch);
  }

  lemma RemovedCounts(clients: Registry, total: int, nextChan: nat, maxGlobal: nat, maxPerCanvas: nat, id: Id, ch: Chan)
    requires Counted(clients, total, nextChan, maxGlobal, maxPerCanvas) && id in clients && ch in clients[id]
    ensures Counted(Removed(clients, id, ch), total - 1, nextChan, maxGlobal, maxPerCanvas)
  {
    RemovedDisconnects(clients, id, ch);
    RemovedWithinCap(clients, maxPerCanvas, id, ch);
  }

  lemma RemovedWithinCap(clients: Registry, maxPerCanvas: nat, id: Id, ch: Chan)
    requires WithinCap(clients, maxPerCanvas) && id in clients && ch in clients[id]
    ensures WithinCap(Removed(clients, id, ch), maxPerCanvas)
  {
    RemovedFromOne(clients[id], ch);
  }

  lemma RemovedInPlace(clients: Registry, id: Id, ch: Chan)
    requires id in clients
    ensures var less := clients[id := clients[id] - {ch}];
      Removed(clients, id, ch) == if |less[id]| == 0 then less - {id} else less
  {
    assert clients[id := clients[id] - {ch}] - {id} == clients - {id};
  }

  /** Only slots differ: the same clients are connected. */
  lemma SlotsDoNotCount(clients: Registry, after: Registry, total: int, nextChan: nat, maxGlobal: nat,
                        maxPerCanvas: nat)
    requires Counted(clients, total, nextChan, maxGlobal, maxPerCanvas)
    requires after.Keys == clients.Keys && forall id :: id in clients ==> after[id].Keys == clients[id].Keys
    ensures Connected(after) == Connected(clients)
    ensures Counted(after, total, nextChan, maxGlobal, maxPerCanvas)
  {
    forall id | id in clients ensures |after[id]| == |clients[id]| {
      assert |after[id].Keys| == |clients[id].Keys|;
    }
    assert Connected(after) == Connected(clients);
  }

  class Hub {
    const maxGlobal: nat
    const maxPerCanvas: nat
    var clients: Registry
    var total: int
    var nextChan: nat

    ghost predicate Valid()
      reads this
    {
      Counted(clients, total, nextChan, maxGlobal, maxPerCanvas)
    }

    constructor (maxGlobal: nat, maxPerCanvas: nat)
      ensures Valid() && clients == map[]
      ensures this.maxGlobal == maxGlobal && this.maxPerCanvas == maxPerCanvas
    {
      this.maxGlobal, this.maxPerCanvas := maxGlobal, maxPerCanvas;
      clients, total, nextChan := map[], 0, 0;
    }

    /** ok exactly when neither ceiling is reached; then one new channel, never used before, is
        connected, and otherwise nothing changes. */
    method Register(id: Id) returns (ch: Chan, ok: bool)
      requires Valid()
      modifies this
      ensures Valid()
      ensures ok == HasRoom(old(clients), |Connected(old(clients))|, maxGlobal, maxPerCanvas, id)
      ensures !ok ==> clients == old(clients)
      ensures ok ==> clients == Added(old(clients), id, ch) && (id in old(clients) ==> ch !in old(clients)[id])
    {
      ch := Chan(nextChan);
      if maxGlobal > 0 && total >= maxGlobal {
        return ch, false;
      }
      if maxPerCanvas > 0 && CountOf(clients, id) >= maxPerCanvas {
        return ch, false;
      }
      AddedCounts(clients, total, nextChan, maxGlobal, maxPerCanvas, id);
      var inner := map[];
      if id in clients {
        NewChannel(clients, total, nextChan, maxGlobal, maxPerCanvas, id);
        inner := clients[id];
      }
      clients := clients[id := inner[ch := false]];
      total := total + 1;
      nextChan := nextChan + 1;
      return ch, true;
    }

    /** The closure register hands out, called once when its connection closes. */
    method Unregister(id: Id, ch: Chan)
      requires Valid() && id in clients && ch in clients[id]
      modifies this
      ensures Valid() && clients == Removed(old(clients), id, ch)
    {
      RemovedCounts(clients, total, nextChan, maxGlobal, maxPerCanvas, id, ch);
      RemovedInPlace(clients, id, ch);
      clients := clients[id := clients[id] - {ch}];
      if |clients[id]| == 0 {
        clients := clients - {id};
      }
      total := total - 1;
    }

    /** Every channel of the canvas ends up full and no other channel is touched. */
    method Broadcast(id: Id)
      requires Valid()
      modifies this`clients
      ensures Valid() && clients == Filled(old(clients), id)
      ensures Connected(clients) == Connected(old(clients))
    {
      if id !in clients {
        return;
      }
      var slots := clients[id];
      var todo := slots.Keys;
      while todo != {}
        invariant slots.Keys == clients[id].Keys && todo <= slots.Keys
        invariant forall ch :: ch in slots ==> slots[ch] == if ch in todo then clients[id][ch] else true
        decreases todo
      {
        var ch :| ch in todo;
        if !slots[ch] {
          slots := slots[ch := true];
        }
        todo := todo - {ch};
      }
      assert slots == map ch | ch in clients[id] :: true;
      clients := clients[id := slots];
      SlotsDoNotCount(old(clients), clients, total, nextChan, maxGlobal, maxPerCanvas);
    }

    /** A client takes the reload out of its channel, if there is one. */
    method Receive(id: Id, ch: Chan) returns (got: bool)
      requires Valid() && id in clients && ch in clients[id]
      modifies this`clients
      ensures Valid() && got == old(clients)[id][ch]
      ensures clients == old(clients)[id := old(clients)[id][ch := false]]
    {
      got := clients[id][ch];
      clients := clients[id := clients[id][ch := false]];
      assert clients[id].Keys == old(clients)[id].Keys;
      SlotsDoNotCount(old(clients), clients, total, nextChan, maxGlobal, maxPerCanvas);
    }

    method ClientCount() returns (n: int)
      requires Valid()
      ensures n == |Connected(clients)|
    {
      n := total;
    }

    method CanvasClientCount(id: Id) returns (n: nat)
      requires Valid()
      ensures n == |set p | p in Connected(clients) && p.0 == id|
    {
      n := CountOf(clients, id);
      ghost var mine := set p | p in Connected(clients) && p.0 == id;
      if id in clients {
        PairsOfOne(id, clients[id].Keys);
        assert mine == set ch | ch in clients[id].Keys :: (id, ch);
      } else {
        assert mine == {};
      }
    }
  }

  lemma {:induction false} PairsOfOne(id: Id, chans: set<Chan>)
    ensures |set ch | ch in chans :: (id, ch)| == |chans|
  {
    var pairs := set ch | ch in chans :: (id, ch);
    if chans != {} {
      var c :| c in chans;
      PairsOfOne(id, chans - {c});
      assert pairs == (set ch | ch in chans - {c} :: (id, ch)) + {(id, c)};
    }
  }

  // ---------------------------------------------------------------- the protocol's client steps

  /** The protocol's clients are the registry's channels, with the same canvas and the same slot. */
  ghost predicate Represents(clients: Registry, subs: map<ReloadProtocol.Client, ReloadProtocol.Sub>) {
    && (forall id, ch :: id in clients && ch in clients[id] ==>
         ch.n in subs && subs[ch.n].id == id && subs[ch.n].token == clients[id][ch])
    && (forall n :: n in subs ==> subs[n].id in clients && Chan(n) in clients[subs[n].id])
  }

  lemma BroadcastIsNotified(clients: Registry, subs: map<ReloadProtocol.Client, ReloadProtocol.Sub>, id: Id)
    requires Represents(clients, subs)
    ensures Represents(Filled(clients, id), ReloadProtocol.Notified(subs, id))
  {
  }

  lemma RegisterIsStep(clients: Registry, s: ReloadProtocol.State, id: Id, ch: Chan)
    requires Represents(clients, s.clients) && ch.n !in s.clients
    ensures Represents(Added(clients, id, ch), ReloadProtocol.ClientNext(s, ReloadProtocol.Register(ch.n, id)).clients)
  {
  }

  lemma UnregisterIsStep(clients: Registry, s: ReloadProtocol.State, id: Id, ch: Chan)
    requires Represents(clients, s.clients) && id in clients && ch in clients[id]
    ensures Represents(Removed(clients, id, ch), ReloadProtocol.ClientNext(s, ReloadProtocol.Unregister(ch.n)).clients)
  {
    var less, subs := Removed(clients, id, ch), s.clients - {ch.n};
    forall n | n in subs ensures subs[n].id in less && Chan(n) in less[subs[n].id] {
      assert Chan(n) != ch && Chan(n) in clients[subs[n].id];
      if subs[n].id == id {
        assert Chan(n) in clients[id] - {ch};
      }
    }
  }

  lemma ReadIsStep(clients: Registry, s: ReloadProtocol.State, id: Id, ch: Chan)
    requires Represents(clients, s.clients) && id in clients && ch in clients[id] && clients[id][ch]
    ensures Represents(clients[id := clients[id][ch := false]],
      ReloadProtocol.ClientNext(s, ReloadProtocol.Read(ch.n)).clients)
  {
  }

  /** Registering, unregistering, reading and broadcasting on the registry are the protocol's
      steps on its clients. */
  lemma HubStepsAreProtocolSteps(clients: Registry, s: ReloadProtocol.State, id: Id, ch: Chan)
    requires Represents(clients, s.clients)
    ensures Represents(Filled(clients, id), ReloadProtocol.Notified(s.clients, id))
    ensures ch.n !in s.clients ==>
      Represents(Added(clients, id, ch), ReloadProtocol.ClientNext(s, ReloadProtocol.Register(ch.n, id)).clients)
    ensures id in clients && ch in clients[id] ==>
      && Represents(Removed(clients, id, ch), ReloadProtocol.ClientNext(s, ReloadProtocol.Unregister(ch.n)).clients)
      && (clients[id][ch] ==>
           Represents(clients[id := clients[id][ch := false]],
             ReloadProtocol.ClientNext(s, ReloadProtocol.Read(ch.n)).clients))
  {
    BroadcastIsNotified(clients, s.clients, id);
    if ch.n !in s.clients {
      RegisterIsStep(clients, s, id, ch);
    }
    if id in clients && ch in clients[id] {
      UnregisterIsStep(clients, s, id, ch);
      if clients[id][ch] {
        ReadIsStep(clients, s, id, ch);
      }
    }
  }
}
