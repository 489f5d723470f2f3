/** Any number of goroutines changing the metadata of any canvases at once, each under the lock of
    its canvas: lock, read the file, write it (or fail, or find nothing to write), unlock. The lock
    is the atomic one per key that module KeyedMutex is proved to be. */
module MetaConcurrency {
  import opened Prelude
  import opened CanvasMeta

  datatype Thread = Thread(name: nat)

  /** Where a goroutine is in one of the four operations. */
  datatype Pc = Out
              | Waiting(id: string, op: Op)
              | Locked(id: string, op: Op)
              | HasRead(id: string, op: Op, read: Meta, readable: bool)
              | Finished(id: string)

  /** One canvas: its lock, its file, the operations in the order they took the lock, and the
      writes that succeeded. The last two are history only. */
  datatype Cell = Cell(holder: Option<Thread>, file: File, turns: seq<Op>, log: seq<Write>)

  datatype State = State(cells: map<string, Cell>, threads: map<Thread, Pc>)

  datatype Action = Start(t: Thread, id: string, op: Op)
                  | Take(t: Thread)
                  | Read(t: Thread, readable: bool)
                  | Rewrite(t: Thread, written: bool)
                  | Unlock(t: Thread)

  function IdOf(s: State, a: Action): string
    requires a.t in s.threads
  {
    if a.Start? then a.id else if s.threads[a.t].Out? then "" else s.threads[a.t].id
  }

  ghost predicate Enabled(s: State, a: Action) {
    && a.t in s.threads && IdOf(s, a) in s.cells
    && var pc := s.threads[a.t];
       match a
       case Start(_, _, _) => pc.Out?
       case Take(_) => pc.Waiting? && s.cells[pc.id].holder == None
       case Read(_, _) => pc.Locked?
       case Rewrite(_, _) => pc.HasRead?
       case Unlock(_) => pc.Finished?
  }

  function NextPc(pc: Pc, a: Action, c: Cell): Pc {
    match a
    case Start(_, id, op) => Waiting(id, op)
    case Take(_) => if pc.Waiting? then Locked(pc.id, pc.op) else pc
    case Read(_, readable) => if pc.Locked? then HasRead(pc.id, pc.op, ReadMeta(c.file, readable), readable) else pc
    case Rewrite(_, _) => if pc.HasRead? then Finished(pc.id) else pc
    case Unlock(_) => Out
  }

  /** The write step puts back what the operation makes of the metadata it read earlier. */
  function NextCell(pc: Pc, a: Action, c: Cell): Cell {
    match a
    case Take(t) => if pc.Waiting? then c.(holder := Some(t), turns := c.turns + [pc.op]) else c
    case Rewrite(_, written) =>
      if !pc.HasRead? || !written || Mutated(pc.op, pc.read).None? then c
      else c.(file := Holds(Mutated(pc.op, pc.read).value),
              log := c.log + [Write(pc.op, pc.readable, |c.turns|)])
    case Unlock(_) => c.(holder := None)
    case _ => c
  }

  ghost function Do(s: State, a: Action): State
    requires Enabled(s, a)
  {
    var pc, id := s.threads[a.t], IdOf(s, a);
    State(s.cells[id := NextCell(pc, a, s.cells[id])], s.threads[a.t := NextPc(pc, a, s.cells[id])])
  }

  ghost predicate Init(s: State) {
    && (forall id :: id in s.cells ==> s.cells[id].holder == None && s.cells[id].turns == [] && s.cells[id].log == [])
    && (forall t :: t in s.threads ==> s.threads[t] == Out)
  }

  // ---------------------------------------------------------------- what every step keeps

  /** Each write was made under a lock turn of its own operation, and the writes are in the order
      of the turns. */
  ghost predicate InLockOrder(turns: seq<Op>, log: seq<Write>) {
    && (forall i :: 0 <= i < |log| ==> 0 < log[i].turn <= |turns| && turns[log[i].turn - 1] == log[i].op)
    && (forall i, j :: 0 <= i < j < |log| ==> log[i].turn < log[j].turn)
  }

  /** The last turn taken has written nothing yet. */
  ghost predicate LastTurnUnused(turns: seq<Op>, log: seq<Write>) {
    turns != [] && forall i :: 0 <= i < |log| ==> log[i].turn < |turns|
  }

  /** The file is the history replayed. */
  ghost predicate IsReplay(was: File, file: File, log: seq<Write>) {
    file == Replay(was, log) && AllWrote(was, log)
  }

  ghost predicate CellOk(was: File, c: Cell) {
    IsReplay(was, c.file, c.log) && InLockOrder(c.turns, c.log)
  }

  predicate Inside(pc: Pc) {
    pc.Locked? || pc.HasRead? || pc.Finished?
  }

  /** A goroutine inside holds the lock; before it has written, its turn is the last and unused,
      and what it has read is still what the file holds. */
  ghost predicate PcOk(t: Thread, pc: Pc, c: Cell) {
    && (Inside(pc) <==> c.holder == Some(t))
    && (pc.Locked? || pc.HasRead? ==>
          LastTurnUnused(c.turns, c.log) && c.turns[|c.turns| - 1] == pc.op)
    && (pc.HasRead? ==> pc.read == ReadMeta(c.file, pc.readable))
  }

  ghost predicate ThreadOk(s: State, t: Thread)
    requires t in s.threads
  {
    var pc := s.threads[t];
    && (!pc.Out? ==> pc.id in s.cells && PcOk(t, pc, s.cells[pc.id]))
    && forall id :: id in s.cells && s.cells[id].holder == Some(t) ==> !pc.Out? && pc.id == id
  }

  ghost predicate CellsOk(init: State, s: State) {
    s.cells.Keys == init.cells.Keys && forall id :: id in s.cells ==> CellOk(init.cells[id].file, s.cells[id])
  }

  ghost predicate ThreadsOk(s: State) {
    forall t :: t in s.threads ==> ThreadOk(s, t)
  }

  ghost predicate Inv(init: State, s: State) {
    CellsOk(init, s) && ThreadsOk(s)
  }

  lemma TakeTurn(turns: seq<Op>, log: seq<Write>, op: Op)
    requires InLockOrder(turns, log)
    ensures InLockOrder(turns + [op], log) && LastTurnUnused(turns + [op], log)
  {
  }

  lemma UseTurn(turns: seq<Op>, log: seq<Write>, w: Write)
    requires InLockOrder(turns, log) && LastTurnUnused(turns, log)
    requires w.turn == |turns| && w.op == turns[|turns| - 1]
    ensures InLockOrder(turns, log + [w])
  {
  }

  lemma ReplayAnother(was: File, file: File, log: seq<Write>, w: Write, m: Meta)
    requires IsReplay(was, file, log) && Mutated(w.op, ReadMeta(file, w.readable)) == Some(m)
    ensures IsReplay(was, Holds(m), log + [w])
  {
    ReplayOne(was, log, w);
  }

  lemma RewriteKeepsCell(was: File, c: Cell, w: Write, m: Meta)
    requires CellOk(was, c) && LastTurnUnused(c.turns, c.log)
    requires w.turn == |c.turns| && w.op == c.turns[|c.turns| - 1]
    requires Mutated(w.op, ReadMeta(c.file, w.readable)) == Some(m)
    ensures CellOk(was, c.(file := Holds(m), log := c.log + [w]))
  {
    ReplayAnother(was, c.file, c.log, w, m);
    UseTurn(c.turns, c.log, w);
  }

  lemma NextKeepsCell(was: File, pc: Pc, a: Action, c: Cell)
    requires CellOk(was, c) && (!pc.Out? ==> PcOk(a.t, pc, c))
    ensures CellOk(was, NextCell(pc, a, c))
  {
    match a
    case Take(_) =>
      if pc.Waiting? {
        TakeTurn(c.turns, c.log, pc.op);
      }
    case Rewrite(_, written) =>
      if pc.HasRead? && written && Mutated(pc.op, pc.read).Some? {
        RewriteKeepsCell(was, c, Write(pc.op, pc.readable, |c.turns|), Mutated(pc.op, pc.read).value);
      }
    case _ =>
  }

  lemma StepKeepsCell(init: State, s: State, a: Action, id: string)
    requires Inv(init, s) && Enabled(s, a) && id in s.cells
    ensures CellOk(init.cells[id].file, Do(s, a).cells[id])
  {
    assert CellOk(init.cells[id].file, s.cells[id]) && ThreadOk(s, a.t);
    if id == IdOf(s, a) {
      if !s.threads[a.t].Out? {
        NextKeepsCell(init.cells[id].file, s.threads[a.t], a, s.cells[id]);
      }
    }
  }

  lemma StepKeepsActor(s: State, a: Action)
    requires Enabled(s, a) && ThreadOk(s, a.t)
    requires InLockOrder(s.cells[IdOf(s, a)].turns, s.cells[IdOf(s, a)].log)
    ensures ThreadOk(Do(s, a), a.t)
  {
    if a.Take? {
      var pc := s.threads[a.t];
      TakeTurn(s.cells[pc.id].turns, s.cells[pc.id].log, pc.op);
    }
  }

  lemma StepKeepsOther(s: State, a: Action, t: Thread)
    requires Enabled(s, a) && ThreadOk(s, a.t) && t in s.threads && t != a.t && ThreadOk(s, t)
    ensures ThreadOk(Do(s, a), t)
  {
  }

  lemma StepKeepsCells(init: State, s: State, a: Action)
    requires Inv(init, s) && Enabled(s, a)
    ensures CellsOk(init, Do(s, a))
  {
    var s' := Do(s, a);
    assert s'.cells.Keys == s.cells.Keys;
    forall id | id in s'.cells ensures CellOk(init.cells[id].file, s'.cells[id]) {
      StepKeepsCell(init, s, a, id);
    }
  }

  lemma StepKeepsThreads(init: State, s: State, a: Action)
    requires Inv(init, s) && Enabled(s, a)
    ensures ThreadsOk(Do(s, a))
  {
    assert CellOk(init.cells[IdOf(s, a)].file, s.cells[IdOf(s, a)]) && ThreadOk(s, a.t);
    forall t | t in Do(s, a).threads ensures ThreadOk(Do(s, a), t) {
      if t == a.t {
        StepKeepsActor(s, a);
      } else {
        StepKeepsOther(s, a, t);
      }
    }
  }

  lemma StepKeepsInv(init: State, s: State, a: Action)
    requires Inv(init, s) && Enabled(s, a)
    ensures Inv(init, Do(s, a))
  {
    StepKeepsCells(init, s, a);
    StepKeepsThreads(init, s, a);
  }

  // ---------------------------------------------------------------- runs

  ghost predicate Runs(s: State, acts: seq<Action>, end: State)
    decreases |acts|
  {
    if acts == [] then s == end
    else Enabled(s, acts[0]) && Runs(Do(s, acts[0]), acts[1..], end)
  }

  lemma {:induction false} RunKeepsInv(init: State, s: State, acts: seq<Action>, end: State)
    requires Inv(init, s) && Runs(s, acts, end)
    ensures Inv(init, end)
    decreases |acts|
  {
    if acts != [] {
      StepKeepsInv(init, s, acts[0]);
      RunKeepsInv(init, Do(s, acts[0]), acts[1..], end);
    }
  }

  /** However the goroutines interleave, at every moment each canvas's file is the first file with
      the successful writes applied in the order their makers took the canvas's lock, each write
      by the operation that took that turn. A reader without the lock sees just that file. */
  lemma Linearizable(init: State, acts: seq<Action>, end: State, id: string)
    requires Init(init) && Runs(init, acts, end) && id in init.cells
    ensures id in end.cells
    ensures IsReplay(init.cells[id].file, end.cells[id].file, end.cells[id].log)
    ensures InLockOrder(end.cells[id].turns, end.cells[id].log)
  {
    assert Inv(init, init);
    RunKeepsInv(init, init, acts, end);
    assert CellOk(init.cells[id].file, end.cells[id]);
  }

  /** So no share is lost or duplicated, and none comes back: with every read of the file
      succeeding, a grant is in the file exactly as often as it was added since its last removal,
      and if it was never removed, as often as at first plus the times it was added. */
  lemma SharesAreExact(init: State, acts: seq<Action>, end: State, id: string, g: Grant, k: nat)
    requires Init(init) && Runs(init, acts, end) && id in init.cells && id in end.cells
    requires var log := end.cells[id].log;
      && k <= |log| && (forall i :: 0 <= i < |log| ==> log[i].readable)
      && (forall i :: k <= i < |log| ==> !Clears(log[i], g))
      && (k > 0 ==> Clears(log[k - 1], g))
    ensures var c := end.cells[id];
      Count(g, Grants(c.file)) ==
        (if k > 0 then 0 else Count(g, Grants(init.cells[id].file))) + AddsIn(c.log[k..], g)
  {
    Linearizable(init, acts, end, id);
    var log := end.cells[id].log;
    GrantHistory(init.cells[id].file, log, g, k);
    if k > 0 {
      assert log[k - 1].readable && !Adds(log[k - 1], g);
    } else {
      assert log[..0] == [];
    }
  }

  // ---------------------------------------------------------------- one operation by itself

  /** The five steps of an operation whose read and write go as told. */
  function Steps(t: Thread, id: string, op: Op, readable: bool, written: bool): seq<Action> {
    [Start(t, id, op), Take(t), Read(t, readable), Rewrite(t, written), Unlock(t)]
  }

  lemma {:induction false} RunsInOrder(s: State, a: Action, acts: seq<Action>, end: State)
    requires Enabled(s, a) && Runs(Do(s, a), acts, end)
    ensures Runs(s, [a] + acts, end)
  {
    assert ([a] + acts)[1..] == acts;
  }

  lemma InsideSteps(s: State, t: Thread, id: string, op: Op, readable: bool, written: bool) returns (end: State)
    requires t in s.threads && s.threads[t] == Locked(id, op) && id in s.cells
    ensures Runs(s, [Read(t, readable), Rewrite(t, written), Unlock(t)], end)
    ensures end.threads == s.threads[t := Out] && end.cells.Keys == s.cells.Keys
    ensures end.cells[id].file == After(op, s.cells[id].file, readable, written) && end.cells[id].holder == None
    ensures forall other :: other in s.cells && other != id ==> end.cells[other] == s.cells[other]
  {
    var s1 := Do(s, Read(t, readable));
    var s2 := Do(s1, Rewrite(t, written));
    end := Do(s2, Unlock(t));
    assert Runs(s2, [Unlock(t)], end);
    RunsInOrder(s1, Rewrite(t, written), [Unlock(t)], end);
    RunsInOrder(s, Read(t, readable), [Rewrite(t, written), Unlock(t)], end);
  }

  /** While nobody has a canvas's lock, whatever goes on at the others, an operation can go through: it
      leaves the file as the operation by itself does, the lock free, and all else as it was. */
  lemma OneOperation(s: State, t: Thread, id: string, op: Op, readable: bool, written: bool) returns (end: State)
    requires t in s.threads && s.threads[t].Out? && id in s.cells && s.cells[id].holder == None
    ensures Runs(s, Steps(t, id, op, readable, written), end)
    ensures end.threads == s.threads && end.cells.Keys == s.cells.Keys
    ensures end.cells[id].file == After(op, s.cells[id].file, readable, written) && end.cells[id].holder == None
    ensures forall other :: other in s.cells && other != id ==> end.cells[other] == s.cells[other]
  {
    var s1 := Do(s, Start(t, id, op));
    var s2 := Do(s1, Take(t));
    end := InsideSteps(s2, t, id, op, readable, written);
    var rest := [Read(t, readable), Rewrite(t, written), Unlock(t)];
    RunsInOrder(s1, Take(t), rest, end);
    RunsInOrder(s, Start(t, id, op), [Take(t)] + rest, end);
    assert Steps(t, id, op, readable, written) == [Start(t, id, op)] + ([Take(t)] + rest);
  }

  // ---------------------------------------------------------------- readers without the lock

  lemma StepGrowsLog(s: State, a: Action, id: string)
    requires Enabled(s, a) && id in s.cells
    ensures id in Do(s, a).cells && s.cells[id].log <= Do(s, a).cells[id].log
  {
  }

  lemma {:induction false} LogOnlyGrows(s: State, acts: seq<Action>, end: State, id: string)
    requires Runs(s, acts, end) && id in s.cells
    ensures id in end.cells && s.cells[id].log <= end.cells[id].log
    decreases |acts|
  {
    if acts != [] {
      StepGrowsLog(s, acts[0], id);
      LogOnlyGrows(Do(s, acts[0]), acts[1..], end, id);
    }
  }

  ghost predicate SeesPrefix(was: File, seen: File, log: seq<Write>, k: nat) {
    k <= |log| && seen == Replay(was, log[..k])
  }

  /** A reader that takes no lock, at any moment of any run, finds the first file with a prefix of
      the run's writes applied in lock order: never half a write, nor one that is not in the
      history; and reads its owner and grants from that. */
  lemma UnlockedReadsSeeAPrefix(init: State, before: seq<Action>, moment: State, after: seq<Action>, end: State,
                                id: string, readable: bool)
    requires Init(init) && Runs(init, before, moment) && Runs(moment, after, end) && id in init.cells
    ensures id in moment.cells && id in end.cells
    ensures exists k :: SeesPrefix(init.cells[id].file, moment.cells[id].file, end.cells[id].log, k)
    ensures var m := ReadMeta(moment.cells[id].file, readable);
      readable || (m.owner == "" && m.grants == [])
  {
    Linearizable(init, before, moment, id);
    LogOnlyGrows(moment, after, end, id);
    var k := |moment.cells[id].log|;
    assert end.cells[id].log[..k] == moment.cells[id].log;
    assert SeesPrefix(init.cells[id].file, moment.cells[id].file, end.cells[id].log, k);
  }
}
