/** One mutex per key, handed out from a table that is itself guarded by a mutex. The class is
    the table as a single goroutine sees it; the step system below is any number of goroutines
    locking and unlocking, and it is proved to behave as one atomic lock per key. */
module KeyedMutex {
  import opened Prelude

  type Key = string
  datatype Mutex = Mutex(serial: nat)
  datatype Thread = Thread(name: nat)

  // ---------------------------------------------------------------- the table

  class Table {
    var m: map<Key, Mutex>
    var made: nat

    ghost predicate Valid()
      reads this
    {
      TableOk(m, made)
    }

    constructor ()
      ensures Valid() && m == map[]
    {
      m, made := map[], 0;
    }

    /** The part of lock that runs under the table's own mutex: find the key's mutex, or make one
        and keep it for good. */
    method Entry(key: Key) returns (mu: Mutex)
      requires Valid()
      modifies this
      ensures Valid() && key in m && m[key] == mu
      ensures (m, made) == WithEntry(old(m), old(made), key)
      ensures forall k :: k in old(m) ==> k in m && m[k] == old(m[k])
      ensures key !in old(m) ==> mu !in old(m.Values)
    {
      if key in m {
        mu := m[key];
      } else {
        mu := Mutex(made);
        m, made := m[key := mu], made + 1;
      }
    }
  }

  predicate TableOk(m: map<Key, Mutex>, made: nat) {
    && (forall k :: k in m ==> m[k].serial < made)
    && (forall k, l :: k in m && l in m && m[k] == m[l] ==> k == l)
  }

  function WithEntry(m: map<Key, Mutex>, made: nat, key: Key): (map<Key, Mutex>, nat) {
    if key in m then (m, made) else (m[key := Mutex(made)], made + 1)
  }

  // ---------------------------------------------------------------- goroutines

  /** Where a goroutine is: outside lock, waiting for the table, inside the table's critical
      section, or waiting for the key's mutex. */
  datatype Pc = Out | AtTable(key: Key) | InTable(key: Key) | AtMutex(key: Key, mu: Mutex)

  /** held: the unlock functions it still has to call. */
  datatype Local = Local(pc: Pc, held: map<Key, Mutex>)

  datatype State = State(
    table: Option<Thread>,
    m: map<Key, Mutex>,
    made: nat,
    owner: map<Mutex, Thread>,
    threads: map<Thread, Local>)

  datatype Action = Call(t: Thread, key: Key) | EnterTable(t: Thread) | LeaveTable(t: Thread)
                  | Take(t: Thread) | Release(t: Thread, key: Key)

  predicate Enabled(s: State, a: Action) {
    a.t in s.threads &&
    var l := s.threads[a.t];
    match a
    case Call(_, _) => l.pc.Out?
    case EnterTable(_) => l.pc.AtTable? && s.table == None
    case LeaveTable(_) => l.pc.InTable?
    case Take(_) => l.pc.AtMutex? && l.pc.mu !in s.owner
    case Release(_, key) => l.pc.Out? && key in l.held
  }

  function Do(s: State, a: Action): State
    requires Enabled(s, a)
  {
    var l := s.threads[a.t];
    match a
    case Call(t, key) => s.(threads := s.threads[t := l.(pc := AtTable(key))])
    case EnterTable(t) => s.(table := Some(t), threads := s.threads[t := l.(pc := InTable(l.pc.key))])
    case LeaveTable(t) =>
      var next := WithEntry(s.m, s.made, l.pc.key);
      s.(table := None, m := next.0, made := next.1,
         threads := s.threads[t := l.(pc := AtMutex(l.pc.key, next.0[l.pc.key]))])
    case Take(t) =>
      s.(owner := s.owner[l.pc.mu := t],
         threads := s.threads[t := Local(Out, l.held[l.pc.key := l.pc.mu])])
    case Release(t, key) =>
      s.(owner := s.owner - {l.held[key]}, threads := s.threads[t := l.(held := l.held - {key})])
  }

  predicate Init(s: State) {
    && s.table == None && s.m == map[] && s.made == 0 && s.owner == map[]
    && forall t :: t in s.threads ==> s.threads[t] == Local(Out, map[])
  }

  // ---------------------------------------------------------------- what every step keeps

  ghost predicate TableInv(s: State) {
    && TableOk(s.m, s.made)
    && (s.table.Some? ==> s.table.value in s.threads)
    && forall t :: t in s.threads ==> (s.threads[t].pc.InTable? <==> s.table == Some(t))
  }

  predicate LocalOk(m: map<Key, Mutex>, owner: map<Mutex, Thread>, t: Thread, l: Local) {
    && (l.pc.AtMutex? ==> l.pc.key in m && m[l.pc.key] == l.pc.mu)
    && (forall k :: k in l.held ==> k in m && l.held[k] == m[k] && l.held[k] in owner && owner[l.held[k]] == t)
  }

  predicate LocalInv(s: State, t: Thread)
    requires t in s.threads
  {
    LocalOk(s.m, s.owner, t, s.threads[t])
  }

  ghost predicate Held(held: map<Key, Mutex>, mu: Mutex) {
    exists k :: k in held && held[k] == mu
  }

  ghost predicate OwnerInv(s: State) {
    forall mu :: mu in s.owner ==> s.owner[mu] in s.threads && Held(s.threads[s.owner[mu]].held, mu)
  }

  ghost predicate Inv(s: State) {
    && TableInv(s)
    && (forall t :: t in s.threads ==> LocalInv(s, t))
    && OwnerInv(s)
  }

  lemma InitInv(s: State)
    requires Init(s)
    ensures Inv(s)
  {
  }

  lemma StepKeepsTable(s: State, a: Action)
    requires Inv(s) && Enabled(s, a)
    ensures TableInv(Do(s, a))
  {
  }

  lemma EntryKeepsLocal(m: map<Key, Mutex>, made: nat, key: Key, owner: map<Mutex, Thread>, t: Thread, l: Local)
    requires TableOk(m, made) && LocalOk(m, owner, t, l)
    ensures LocalOk(WithEntry(m, made, key).0, owner, t, l)
  {
  }

  lemma TakeKeepsLocal(m: map<Key, Mutex>, owner: map<Mutex, Thread>, mu: Mutex, u: Thread, t: Thread, l: Local)
    requires mu !in owner && LocalOk(m, owner, t, l)
    ensures LocalOk(m, owner[mu := u], t, l)
  {
  }

  lemma ReleaseKeepsLocal(m: map<Key, Mutex>, owner: map<Mutex, Thread>, key: Key, u: Thread, t: Thread, l: Local)
    requires key in m && m[key] in owner && owner[m[key]] == u && LocalOk(m, owner, t, l)
    requires forall k, k' :: k in m && k' in m && m[k] == m[k'] ==> k == k'
    requires t == u ==> key !in l.held
    ensures LocalOk(m, owner - {m[key]}, t, l)
  {
  }

  lemma StepKeepsLocal(s: State, a: Action, t: Thread)
    requires Inv(s) && Enabled(s, a) && t in s.threads
    ensures LocalInv(Do(s, a), t)
  {
    var l := s.threads[t];
    assert LocalInv(s, t) && LocalInv(s, a.t);
    match a
    case Call(_, _) =>
    case EnterTable(_) =>
    case LeaveTable(u) =>
      EntryKeepsLocal(s.m, s.made, s.threads[u].pc.key, s.owner, t, l);
    case Take(u) =>
      TakeKeepsLocal(s.m, s.owner, s.threads[u].pc.mu, u, t, l);
    case Release(u, key) =>
      ReleaseKeepsLocal(s.m, s.owner, key, u, t, if t == u then l.(held := l.held - {key}) else l);
  }

  function HeldAfter(l: Local, a: Action, u: Thread): map<Key, Mutex>
    requires a.Take? && a.t == u ==> l.pc.AtMutex?
  {
    if a.t != u then l.held
    else
      match a
      case Take(_) => l.held[l.pc.key := l.pc.mu]
      case Release(_, key) => l.held - {key}
      case _ => l.held
  }

  lemma StepHeld(s: State, a: Action, u: Thread)
    requires Enabled(s, a) && u in s.threads
    ensures u in Do(s, a).threads && Do(s, a).threads[u].held == HeldAfter(s.threads[u], a, u)
  {
  }

  lemma StepOwner(s: State, a: Action, mu: Mutex)
    requires Enabled(s, a) && mu in s.owner && mu in Do(s, a).owner
    requires a.Take? ==> s.threads[a.t].pc.mu !in s.owner
    ensures Do(s, a).owner[mu] == s.owner[mu]
    ensures a.Release? ==> s.threads[a.t].held[a.key] != mu
  {
  }

  lemma StillHeld(l: Local, a: Action, u: Thread, k: Key)
    requires k in l.held
    requires a.Take? && a.t == u ==> l.pc.AtMutex? && l.pc.key != k
    requires a.Release? && a.t == u ==> a.key in l.held && l.held[a.key] != l.held[k]
    ensures Held(HeldAfter(l, a, u), l.held[k])
  {
    assert k in HeldAfter(l, a, u) && HeldAfter(l, a, u)[k] == l.held[k];
  }

  lemma StepKeepsHolder(s: State, a: Action, mu: Mutex)
    requires Inv(s) && Enabled(s, a) && mu in s.owner && mu in Do(s, a).owner
    ensures Do(s, a).owner[mu] == s.owner[mu] && s.owner[mu] in Do(s, a).threads
    ensures Held(Do(s, a).threads[s.owner[mu]].held, mu)
  {
    var u := s.owner[mu];
    assert Held(s.threads[u].held, mu);
    var l := s.threads[u];
    var k :| k in l.held && l.held[k] == mu;
    assert LocalInv(s, u);
    StepHeld(s, a, u);
    StepOwner(s, a, mu);
    StillHeld(l, a, u, k);
  }

  lemma StepKeepsOwner(s: State, a: Action)
    requires Inv(s) && Enabled(s, a)
    ensures OwnerInv(Do(s, a))
  {
    var s' := Do(s, a);
    forall mu | mu in s'.owner ensures s'.owner[mu] in s'.threads && Held(s'.threads[s'.owner[mu]].held, mu) {
      if mu in s.owner {
        StepKeepsHolder(s, a, mu);
      } else {
        assert s'.threads[a.t].held[s.threads[a.t].pc.key] == mu;
      }
    }
  }

  lemma StepKeepsInv(s: State, a: Action)
    requires Inv(s) && Enabled(s, a)
    ensures Inv(Do(s, a))
  {
    StepKeepsTable(s, a);
    StepKeepsOwner(s, a);
    forall t | t in Do(s, a).threads ensures LocalInv(Do(s, a), t) {
      StepKeepsLocal(s, a, t);
    }
  }

  // ---------------------------------------------------------------- one atomic lock per key

  /** Who holds each key. */
  function Holders(s: State): map<Key, Thread> {
    HoldersOf(s.m, s.owner)
  }

  function HoldersOf(m: map<Key, Mutex>, owner: map<Mutex, Thread>): map<Key, Thread> {
    map k | k in m && m[k] in owner :: owner[m[k]]
  }

  lemma TakeHolders(m: map<Key, Mutex>, made: nat, owner: map<Mutex, Thread>, key: Key, t: Thread)
    requires TableOk(m, made) && key in m && m[key] !in owner
    ensures HoldersOf(m, owner[m[key] := t]) == HoldersOf(m, owner)[key := t]
  {
  }

  lemma ReleaseHolders(m: map<Key, Mutex>, made: nat, owner: map<Mutex, Thread>, key: Key)
    requires TableOk(m, made) && key in m && m[key] in owner
    ensures HoldersOf(m, owner - {m[key]}) == HoldersOf(m, owner) - {key}
  {
  }

  lemma EntryHolders(m: map<Key, Mutex>, made: nat, owner: map<Mutex, Thread>, key: Key)
    requires TableOk(m, made) && Mutex(made) !in owner
    ensures HoldersOf(WithEntry(m, made, key).0, owner) == HoldersOf(m, owner)
  {
  }

  ghost predicate AtomicStep(before: map<Key, Thread>, after: map<Key, Thread>, a: Action, key: Key) {
    match a
    case Take(t) => key !in before && after == before[key := t]
    case Release(t, _) => key in before && before[key] == t && after == before - {key}
    case _ => after == before
  }

  function KeyOf(s: State, a: Action): Key
    requires a.t in s.threads
  {
    match a
    case Call(_, key) => key
    case Release(_, key) => key
    case _ => if s.threads[a.t].pc.Out? then "" else s.threads[a.t].pc.key
  }

  lemma OwnedAreMade(s: State, mu: Mutex)
    requires Inv(s) && mu in s.owner
    ensures mu.serial < s.made
  {
    var u := s.owner[mu];
    assert Held(s.threads[u].held, mu) && LocalInv(s, u);
  }

  /** Every step is the atomic lock's step on that one key, or changes no holder: taking needs
      the key free and gives it to the taker, releasing gives up a key of one's own, and making a
      new mutex for an absent key frees and takes nothing. */
  lemma StepIsAtomic(s: State, a: Action)
    requires Inv(s) && Enabled(s, a)
    ensures AtomicStep(Holders(s), Holders(Do(s, a)), a, KeyOf(s, a))
  {
    assert LocalInv(s, a.t);
    match a
    case Take(t) =>
      TakeHolders(s.m, s.made, s.owner, s.threads[t].pc.key, t);
    case Release(t, key) =>
      ReleaseHolders(s.m, s.made, s.owner, key);
    case LeaveTable(t) =>
      if Mutex(s.made) in s.owner {
        OwnedAreMade(s, Mutex(s.made));
      }
      EntryHolders(s.m, s.made, s.owner, s.threads[t].pc.key);
    case _ =>
  }

  /** No two goroutines ever hold one key. */
  lemma MutualExclusion(s: State, t: Thread, u: Thread, key: Key)
    requires Inv(s) && t in s.threads && u in s.threads
    requires key in s.threads[t].held && key in s.threads[u].held
    ensures t == u && Holders(s)[key] == t
  {
    assert LocalInv(s, t) && LocalInv(s, u);
  }

  /** A goroutine is held up at the mutex only by a holder of the very same key. */
  lemma WaitsForSameKey(s: State, t: Thread)
    requires Inv(s) && t in s.threads && s.threads[t].pc.AtMutex?
    ensures !Enabled(s, Take(t)) <==> s.threads[t].pc.key in Holders(s)
    ensures !Enabled(s, Take(t)) ==>
      var u := Holders(s)[s.threads[t].pc.key]; u in s.threads && s.threads[t].pc.key in s.threads[u].held
  {
    var l := s.threads[t];
    assert LocalInv(s, t);
    if l.pc.mu in s.owner {
      var u := s.owner[l.pc.mu];
      var k :| k in s.threads[u].held && s.threads[u].held[k] == l.pc.mu;
      assert LocalInv(s, u);
    }
  }

  /** The table's mutex holds nobody up for long: whoever waits for it can enter, or whoever is
      inside can leave. */
  lemma TableNeverBlocks(s: State, t: Thread)
    requires Inv(s) && t in s.threads && s.threads[t].pc.AtTable?
    ensures Enabled(s, EnterTable(t)) || (s.table.Some? && Enabled(s, LeaveTable(s.table.value)))
  {
  }

  // ---------------------------------------------------------------- runs

  ghost predicate Runs(s: State, acts: seq<Action>, end: State)
    decreases |acts|
  {
    if acts == [] then s == end
    else Enabled(s, acts[0]) && Runs(Do(s, acts[0]), acts[1..], end)
  }

  lemma StepKeepsEntries(s: State, a: Action)
    requires Enabled(s, a)
    ensures forall k :: k in s.m ==> k in Do(s, a).m && Do(s, a).m[k] == s.m[k]
  {
  }

  /** In every run each key keeps the mutex it was first given. */
  lemma {:induction false} RunKeepsInv(s: State, acts: seq<Action>, end: State)
    requires Inv(s) && Runs(s, acts, end)
    ensures Inv(end)
    ensures forall k :: k in s.m ==> k in end.m && end.m[k] == s.m[k]
    decreases |acts|
  {
    if acts != [] {
      StepKeepsInv(s, acts[0]);
      StepKeepsEntries(s, acts[0]);
      RunKeepsInv(Do(s, acts[0]), acts[1..], end);
    }
  }

  /** Over every run from an empty table: a key has at most one holder, and another goroutine is
      held up exactly while the key it asks for has one. */
  lemma RunsExclude(s: State, acts: seq<Action>, end: State, t: Thread, u: Thread, key: Key)
    requires Init(s) && Runs(s, acts, end) && t in end.threads && u in end.threads
    ensures key in end.threads[t].held && key in end.threads[u].held ==> t == u
    ensures end.threads[t].pc.AtMutex? ==>
      (Enabled(end, Take(t)) <==> end.threads[t].pc.key !in Holders(end))
  {
    InitInv(s);
    RunKeepsInv(s, acts, end);
    if key in end.threads[t].held && key in end.threads[u].held {
      MutualExclusion(end, t, u, key);
    }
    if end.threads[t].pc.AtMutex? {
      WaitsForSameKey(end, t);
    }
  }

  // ---------------------------------------------------------------- a free key can be taken

  lemma RunsOne(s: State, a: Action, acts: seq<Action>, end: State)
    requires Enabled(s, a) && Runs(Do(s, a), acts, end)
    ensures Runs(s, [a] + acts, end)
  {
    assert ([a] + acts)[1..] == acts;
  }

  /** t has locked key and is outside again, and everyone else holds what they held. */
  ghost predicate Got(s: State, end: State, t: Thread, key: Key) {
    && t in end.threads && end.threads[t].pc.Out? && key in end.threads[t].held
    && Holders(end) == Holders(s)[key := t]
  }

  lemma TakesAtMutex(s: State, t: Thread, key: Key) returns (acts: seq<Action>, end: State)
    requires Inv(s) && t in s.threads && s.threads[t].pc.AtMutex? && s.threads[t].pc.key == key
    requires key !in Holders(s)
    ensures Runs(s, acts, end) && |acts| == 1 && Inv(end)
    ensures Got(s, end, t, key)
  {
    WaitsForSameKey(s, t);
    StepIsAtomic(s, Take(t));
    StepKeepsInv(s, Take(t));
    acts, end := [Take(t)], Do(s, Take(t));
  }

  lemma TakesInTable(s: State, t: Thread, key: Key) returns (acts: seq<Action>, end: State)
    requires Inv(s) && t in s.threads && s.threads[t].pc == InTable(key) && key !in Holders(s)
    ensures Runs(s, acts, end) && |acts| == 2 && Inv(end)
    ensures Got(s, end, t, key)
  {
    StepIsAtomic(s, LeaveTable(t));
    StepKeepsInv(s, LeaveTable(t));
    var rest;
    rest, end := TakesAtMutex(Do(s, LeaveTable(t)), t, key);
    RunsOne(s, LeaveTable(t), rest, end);
    acts := [LeaveTable(t)] + rest;
  }

  lemma TakesFromFreeTable(s: State, t: Thread, key: Key) returns (acts: seq<Action>, end: State)
    requires Inv(s) && t in s.threads && s.threads[t].pc.Out? && s.table == None && key !in Holders(s)
    ensures Runs(s, acts, end) && |acts| == 4 && Inv(end)
    ensures Got(s, end, t, key)
  {
    var s1 := Do(s, Call(t, key));
    StepIsAtomic(s, Call(t, key));
    StepKeepsInv(s, Call(t, key));
    StepIsAtomic(s1, EnterTable(t));
    StepKeepsInv(s1, EnterTable(t));
    var rest;
    rest, end := TakesInTable(Do(s1, EnterTable(t)), t, key);
    RunsOne(s1, EnterTable(t), rest, end);
    RunsOne(s, Call(t, key), [EnterTable(t)] + rest, end);
    acts := [Call(t, key)] + ([EnterTable(t)] + rest);
  }

  lemma AddedThenRemoved(holders: map<Key, Thread>, key: Key, t: Thread)
    requires key !in holders
    ensures holders[key := t] - {key} == holders
  {
  }

  lemma UnlockingGivesBack(s: State, end: State, t: Thread, key: Key)
    requires Inv(end) && key !in Holders(s) && Got(s, end, t, key)
    ensures Enabled(end, Release(t, key)) && Holders(Do(end, Release(t, key))) == Holders(s)
  {
    var a := Release(t, key);
    assert Enabled(end, a);
    StepIsAtomic(end, a);
    AddedThenRemoved(Holders(s), key, t);
    assert AtomicStep(Holders(end), Holders(Do(end, a)), a, key);
  }

  lemma CanLock(s: State, t: Thread, key: Key) returns (acts: seq<Action>, end: State)
    requires Inv(s) && t in s.threads && s.threads[t].pc.Out? && key !in Holders(s)
    ensures Runs(s, acts, end) && |acts| <= 5 && Inv(end) && Got(s, end, t, key)
  {
    if s.table == None {
      acts, end := TakesFromFreeTable(s, t, key);
    } else {
      var a := LeaveTable(s.table.value);
      StepIsAtomic(s, a);
      StepKeepsInv(s, a);
      var rest;
      rest, end := TakesFromFreeTable(Do(s, a), t, key);
      RunsOne(s, a, rest, end);
      acts := [a] + rest;
    }
  }

  /** In any state a goroutine that is outside can lock a key nobody holds, within five steps and with
      nobody else letting go of anything; and unlocking it then leaves every key held as it was. */
  lemma FreeKeyCanBeLocked(s: State, t: Thread, key: Key) returns (acts: seq<Action>, end: State)
    requires Inv(s) && t in s.threads && s.threads[t].pc.Out? && key !in Holders(s)
    ensures Runs(s, acts, end) && |acts| <= 5 && Holders(end) == Holders(s)[key := t]
    ensures Enabled(end, Release(t, key)) && Holders(Do(end, Release(t, key))) == Holders(s)
  {
    acts, end := CanLock(s, t, key);
    UnlockingGivesBack(s, end, t, key);
  }
}
