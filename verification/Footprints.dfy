/** What each kind of handler does to the shared file system of module SharedTrees: the names it may
    change are those its request is about, a swap it has got ready can go through, and after a failed
    rollback there is nothing but an empty directory at the canvas's name. */
module Footprints {
  import opened Prelude
  import opened FileSystem
  import opened SharedTrees
  import HL = HandlerLocks

  // ---------------------------------------------------------------- the names of a request

  /** Whatever it stages aside, a push and a create change their canvas alone, a copy its target and the
      target's snapshots, and a file or revert handler what bears the name of its canvas. */
  predicate MayTouch(r: HL.Request, p: Path) {
    p.Staging? ||
    match r
    case PushTo(id, _) => p == Canvas(id)
    case Copy(_, to) => p == Canvas(to) || (p.Version? && p.id == to)
    case Single(id, _) => p.id == id
    case OnlyMeta(id, _) => p == Canvas(id)
  }

  predicate WorksOn(r: HL.Request, id: string) {
    match r
    case PushTo(own, _) => id == own
    case Copy(from, to) => id == from || id == to
    case Single(own, _) => id == own
    case OnlyMeta(_, _) => false
  }

  lemma ActsOfItsOwn(r: HL.Request, id: string)
    requires id in HL.ActsOf(HL.Script(r))
    ensures WorksOn(r, id)
  {
    HL.ScriptsDo(r);
  }

  lemma ActsAreOwn(s: State, t: Thread)
    requires HL.Inv(s.hl) && HL.Serves(s.hl, t) && AtSome(s.hl, t)
    ensures t in s.hl.requests && WorksOn(s.hl.requests[t], Here(s.hl, t))
  {
    HL.AtWork(s.hl, t);
    ActsOfItsOwn(s.hl.requests[t], Here(s.hl, t));
  }

  /** What a handler has staged, moved aside or is to put back is under the names of its request. */
  predicate OwnNames(r: HL.Request, j: Job) {
    && (j.staged.Some? ==> MayTouch(r, j.staged.value) && !j.staged.value.Canvas?)
    && (j.staged.Some? && j.staged.value.RevertTmp? ==> r.Single?)
    && (j.phase.Aside? ==> MayTouch(r, Canvas(j.phase.id)) && MayTouch(r, j.phase.aside))
    && (j.phase.Swapped? && j.phase.spare.Some? ==> MayTouch(r, j.phase.spare.value))
  }

  ghost predicate AllOwnNames(s: State) {
    forall t :: t in s.jobs ==> t in s.hl.requests && OwnNames(s.hl.requests[t], s.jobs[t])
  }

  lemma SwapKeepsNames(s: State, a: Action)
    requires Enabled(s, a) && (a.MoveAside? || a.RenameIn? || a.RollBack?)
    requires OwnNames(s.hl.requests[a.t], s.jobs[a.t])
    requires AtSome(s.hl, a.t) ==> WorksOn(s.hl.requests[a.t], Here(s.hl, a.t))
    ensures OwnNames(s.hl.requests[a.t], NextJob(s, a))
  {
  }

  lemma OtherActsKeepNames(s: State, a: Action)
    requires Enabled(s, a) && !a.Lock? && !a.MoveAside? && !a.RenameIn? && !a.RollBack?
    requires OwnNames(s.hl.requests[a.t], s.jobs[a.t])
    requires AtSome(s.hl, a.t) ==> WorksOn(s.hl.requests[a.t], Here(s.hl, a.t))
    ensures OwnNames(s.hl.requests[a.t], NextJob(s, a))
  {
  }

  lemma LeavesOwnNames(r: HL.Request, j: Job)
    requires OwnNames(r, j)
    ensures OwnNames(r, Leaves(j))
  {
  }

  lemma SameRequest(hl: HL.State, a: HL.Action)
    requires HL.Enabled(hl, a) && (a.Step? && hl.threads[a.t].todo.now.Give? ==> hl.threads[a.t].held != [])
    ensures if a.Begin? then a.t in HL.Do(hl, a).requests else HL.Do(hl, a).requests == hl.requests
  {
  }

  lemma LockKeepsNames(s: State, a: HL.Action)
    requires Enabled(s, Lock(a)) && AllOwnNames(s)
    ensures a.t in NextHl(s, Lock(a)).requests
    ensures OwnNames(NextHl(s, Lock(a)).requests[a.t], NextJob(s, Lock(a)))
  {
    SameRequest(s.hl, a);
    if !a.Begin? {
      LeavesOwnNames(s.hl.requests[a.t], s.jobs[a.t]);
    }
  }

  lemma ActorKeepsNames(s: State, a: Action)
    requires Inv(s) && Enabled(s, a) && AllOwnNames(s)
    ensures var t := Actor(a);
      t in NextHl(s, a).requests && OwnNames(NextHl(s, a).requests[t], NextJob(s, a))
  {
    if a.Lock? {
      LockKeepsNames(s, a.a);
    } else {
      SameTodo(s, a);
      if AtSome(s.hl, a.t) {
        assert HL.Serves(s.hl, a.t);
        ActsAreOwn(s, a.t);
      }
      if a.MoveAside? || a.RenameIn? || a.RollBack? {
        SwapKeepsNames(s, a);
      } else {
        OtherActsKeepNames(s, a);
      }
    }
  }

  lemma OthersKeepNames(s: State, a: Action, u: Thread)
    requires Inv(s) && Enabled(s, a) && AllOwnNames(s) && u in s.jobs && u != Actor(a)
    ensures u in NextHl(s, a).requests && OwnNames(NextHl(s, a).requests[u], s.jobs[u])
  {
    OthersKeepTodo(s, a, u);
  }

  lemma StepKeepsNames(s: State, a: Action)
    requires Inv(s) && Enabled(s, a) && AllOwnNames(s)
    ensures AllOwnNames(Do(s, a))
  {
    forall u | u in Do(s, a).jobs
      ensures u in NextHl(s, a).requests && OwnNames(NextHl(s, a).requests[u], Do(s, a).jobs[u])
    {
      if u == Actor(a) {
        ActorKeepsNames(s, a);
      } else {
        OthersKeepNames(s, a, u);
      }
    }
  }

  lemma {:induction false} RunKeepsNames(s: State, acts: seq<Action>, end: State)
    requires Inv(s) && AllOwnNames(s) && Runs(s, acts, end)
    ensures AllOwnNames(end)
    decreases |acts|
  {
    if acts != [] {
      StepKeepsInv(s, acts[0]);
      StepKeepsNames(s, acts[0]);
      RunKeepsNames(Do(s, acts[0]), acts[1..], end);
    }
  }

  lemma ReachableHasNames(s: State)
    requires Reachable(s)
    ensures Inv(s) && AllOwnNames(s)
  {
    var init, acts :| Init(init) && Runs(init, acts, s);
    InitHasInv(init);
    RunKeepsInv(init, acts, s);
    RunKeepsNames(init, acts, s);
  }

  lemma CleansItsOwn(s: State, t: Thread, p: Path)
    requires t in s.jobs && t in s.hl.requests && OwnNames(s.hl.requests[t], s.jobs[t]) && MayClean(s, t, p)
    requires AtSome(s.hl, t) ==> WorksOn(s.hl.requests[t], Here(s.hl, t))
    ensures MayTouch(s.hl.requests[t], p)
  {
  }

  lemma WritesAreOwn(s: State, a: Action, p: Path)
    requires Enabled(s, a) && !a.Lock? && OwnNames(s.hl.requests[a.t], s.jobs[a.t]) && p in Writes(s, a)
    requires AtSome(s.hl, a.t) ==> WorksOn(s.hl.requests[a.t], Here(s.hl, a.t))
    ensures MayTouch(s.hl.requests[a.t], p)
  {
    if a.Clean? {
      CleansItsOwn(s, a.t, p);
    }
  }

  /** In every run, whatever a handler does changes nothing but the names of its own request: no other
      canvas, no other canvas's snapshots, and of a copy's source nothing at all. */
  lemma HandlersKeepToTheirOwn(s: State, a: Action, p: Path)
    requires Reachable(s) && Enabled(s, a) && At(NextFs(s, a), p) != At(s.fs, p)
    ensures !a.Lock? && MayTouch(s.hl.requests[a.t], p)
  {
    ReachableHasNames(s);
    WritesOnly(s, a);
    if AtSome(s.hl, a.t) {
      assert HL.Serves(s.hl, a.t);
      ActsAreOwn(s, a.t);
    }
    WritesAreOwn(s, a, p);
  }

  // ---------------------------------------------------------------- a swap goes through

  /** The name a handler moves the old tree to: a new staging name, but a revert its own. */
  predicate GoodAside(s: State, t: Thread, aside: Path)
    requires t in s.hl.requests
  {
    && aside !in s.fs
    && if s.hl.requests[t].Single? then aside == RevertOld(Here(s.hl, t)) else aside.Staging? && aside !in s.made
  }

  /** A push, a copy at its target, or a revert, that is at its canvas and has its new tree whole. */
  predicate HasReady(s: State, t: Thread) {
    && t in s.jobs && AtSome(s.hl, t) && t in s.hl.requests
    && s.jobs[t].phase.Quiet? && s.jobs[t].staged.Some? && s.jobs[t].ready.Some?
    && (s.hl.requests[t].Copy? ==> Here(s.hl, t) == s.hl.requests[t].to)
  }

  lemma ReadyMayReplace(s: State, t: Thread)
    requires Inv(s) && HasReady(s, t)
    ensures Replaces(s.hl.requests[t], Here(s.hl, t))
    ensures s.jobs[t].staged.value in s.fs && Some(s.fs[s.jobs[t].staged.value]) == s.jobs[t].ready
    ensures !s.jobs[t].staged.value.Canvas?
  {
    assert HL.Serves(s.hl, t);
    ActsAreOwn(s, t);
    HandlerOk(s, t);
  }

  /** Between the renames: the old tree is at the name aside, and the new one still staged. */
  ghost predicate Midway(mid: State, s: State, t: Thread, aside: Path)
    requires t in s.jobs && s.jobs[t].staged.Some?
  {
    var id := Here(s.hl, t);
    && mid.faults == s.faults && Canvas(id) !in mid.fs && At(mid.fs, aside) == At(s.fs, Canvas(id))
    && mid.hl.threads == s.hl.threads && mid.hl.requests == s.hl.requests
    && t in mid.jobs && mid.jobs[t].staged == s.jobs[t].staged && mid.jobs[t].ready == s.jobs[t].ready
    && mid.jobs[t].phase.Aside? && mid.jobs[t].phase.aside == aside && !mid.jobs[t].phase.refused
    && At(mid.fs, s.jobs[t].staged.value) == s.jobs[t].ready
  }

  lemma MovesAside(s: State, t: Thread, aside: Path)
    requires HasReady(s, t) && GoodAside(s, t, aside) && Canvas(Here(s.hl, t)) in s.fs
    requires Replaces(s.hl.requests[t], Here(s.hl, t)) && !s.jobs[t].staged.value.Canvas?
    requires At(s.fs, s.jobs[t].staged.value) == s.jobs[t].ready
    ensures Enabled(s, MoveAside(t, aside)) && Midway(Do(s, MoveAside(t, aside)), s, t, aside)
  {
    SameTodo(s, MoveAside(t, aside));
  }

  lemma PutsInPlace(s: State, t: Thread)
    requires t in s.jobs && AtSome(s.hl, t) && t in s.hl.requests && Replaces(s.hl.requests[t], Here(s.hl, t))
    requires s.jobs[t].phase.Quiet? || (s.jobs[t].phase.Aside? && !s.jobs[t].phase.refused)
    requires s.jobs[t].ready.Some? && s.jobs[t].staged.Some? && At(s.fs, s.jobs[t].staged.value) == s.jobs[t].ready
    requires Canvas(Here(s.hl, t)) !in s.fs
    ensures Enabled(s, RenameIn(t, true)) && Do(s, RenameIn(t, true)).faults == s.faults
    ensures At(NextFs(s, RenameIn(t, true)), Canvas(Here(s.hl, t))) == s.jobs[t].ready
    ensures forall p :: p != Canvas(Here(s.hl, t)) && p != s.jobs[t].staged.value ==>
      At(NextFs(s, RenameIn(t, true)), p) == At(s.fs, p)
  {
  }

  lemma RunOne(s: State, a: Action)
    requires Enabled(s, a)
    ensures Runs(s, [a], Do(s, a))
  {
    assert Runs(Do(s, a), [], Do(s, a));
  }

  /** How the swap of such a handler goes through. */
  ghost predicate GoesThrough(s: State, t: Thread, aside: Path, acts: seq<Action>, end: State)
    requires t in s.jobs
  {
    var id := Here(s.hl, t);
    && acts == (if Canvas(id) in s.fs then [MoveAside(t, aside), RenameIn(t, true)] else [RenameIn(t, true)])
    && Runs(s, acts, end) && end.faults == s.faults
    && At(end.fs, Canvas(id)) == s.jobs[t].ready && At(end.fs, aside) == At(s.fs, Canvas(id))
    && (Canvas(id) in s.fs ==> MayRemove(end, t, aside))
  }

  /** One more step removes what is at that name. */
  ghost predicate MayRemove(s: State, t: Thread, p: Path) {
    Enabled(s, Clean(t, p, None)) && p !in NextFs(s, Clean(t, p, None))
  }

  lemma OldOneMayGo(s: State, t: Thread, aside: Path)
    requires Enabled(s, RenameIn(t, true)) && s.jobs[t].phase.Aside? && s.jobs[t].phase.aside == aside
    ensures MayRemove(Do(s, RenameIn(t, true)), t, aside)
  {
    SameTodo(s, RenameIn(t, true));
  }

  lemma SwapsByTwo(s: State, t: Thread, aside: Path) returns (acts: seq<Action>, end: State)
    requires HasReady(s, t) && GoodAside(s, t, aside) && Canvas(Here(s.hl, t)) in s.fs
    requires Replaces(s.hl.requests[t], Here(s.hl, t)) && !s.jobs[t].staged.value.Canvas?
    requires At(s.fs, s.jobs[t].staged.value) == s.jobs[t].ready
    ensures GoesThrough(s, t, aside, acts, end)
  {
    MovesAside(s, t, aside);
    var mid := Do(s, MoveAside(t, aside));
    PutsInPlace(mid, t);
    OldOneMayGo(mid, t, aside);
    RunTwo(s, MoveAside(t, aside), RenameIn(t, true));
    acts, end := [MoveAside(t, aside), RenameIn(t, true)], Do(mid, RenameIn(t, true));
  }

  lemma SwapsByOne(s: State, t: Thread, aside: Path) returns (acts: seq<Action>, end: State)
    requires HasReady(s, t) && GoodAside(s, t, aside) && Canvas(Here(s.hl, t)) !in s.fs
    requires Replaces(s.hl.requests[t], Here(s.hl, t))
    requires At(s.fs, s.jobs[t].staged.value) == s.jobs[t].ready
    ensures GoesThrough(s, t, aside, acts, end)
  {
    PutsInPlace(s, t);
    RunOne(s, RenameIn(t, true));
    acts, end := [RenameIn(t, true)], Do(s, RenameIn(t, true));
  }

  /** The swap of a push, of a copy or of a revert can go through once its new tree is whole, whatever
      everyone else is in the middle of: the old tree, if there is one, to the name aside, from where it
      may then be removed, and its own in the canvas's place. */
  lemma SwapsGoThrough(s: State, t: Thread, aside: Path) returns (acts: seq<Action>, end: State)
    requires Reachable(s) && HasReady(s, t) && GoodAside(s, t, aside)
    ensures GoesThrough(s, t, aside, acts, end)
  {
    ReachableHasInv(s);
    ReadyMayReplace(s, t);
    if Canvas(Here(s.hl, t)) in s.fs {
      acts, end := SwapsByTwo(s, t, aside);
    } else {
      acts, end := SwapsByOne(s, t, aside);
    }
  }

  // ---------------------------------------------------------------- a tree gets ready

  /** A handler with a name to stage at: a copy in the middle of its walk, any other at its canvas. */
  predicate HasStaged(s: State, t: Thread, tree: Tree) {
    && t in s.jobs && AtSome(s.hl, t) && t in s.hl.requests && s.jobs[t].staged.Some?
    && if s.hl.requests[t].Copy? then s.jobs[t].phase.Reading? && s.jobs[t].phase.seen == tree
       else s.jobs[t].phase.Quiet?
  }

  /** Such a handler can get its tree ready, and a copy the very tree it walks. */
  lemma TreesGetReady(s: State, t: Thread, tree: Tree)
    requires HasStaged(s, t, tree)
    ensures Enabled(s, Fill(t, tree, true))
    ensures var end := Do(s, Fill(t, tree, true));
      && end.hl == s.hl && end.faults == s.faults && end.made == s.made && end.jobs.Keys == s.jobs.Keys
      && end.jobs[t] == Job(s.jobs[t].staged, Some(tree), Quiet)
      && SameExcept(end.fs, s.fs, {s.jobs[t].staged.value})
  {
  }

  /** A copy that has come to its source, with somewhere to stage it. */
  predicate AtSource(s: State, t: Thread) {
    && t in s.jobs && AtSome(s.hl, t) && t in s.hl.requests && s.hl.requests[t].Copy?
    && Here(s.hl, t) == s.hl.requests[t].from && Canvas(Here(s.hl, t)) in s.fs
    && s.jobs[t].phase.Quiet? && s.jobs[t].staged.Some?
  }

  /** Only what one handler has staged is new. */
  ghost predicate OnlyStages(after: State, s: State, t: Thread, staged: set<Path>) {
    && after.hl.threads == s.hl.threads && after.hl.requests == s.hl.requests && after.made == s.made
    && after.faults == s.faults && t in after.jobs && SameExcept(after.fs, s.fs, staged)
  }

  lemma WalkBegins(s: State, t: Thread)
    requires AtSource(s, t)
    ensures Enabled(s, StartReading(t))
    ensures var next := Do(s, StartReading(t));
      && HasStaged(next, t, s.fs[Canvas(Here(s.hl, t))]) && OnlyStages(next, s, t, {})
      && next.jobs[t].staged == s.jobs[t].staged
  {
    SameTodo(s, StartReading(t));
  }

  /** It can stage just what its source holds. */
  lemma CopiesGetReady(s: State, t: Thread) returns (end: State)
    requires Reachable(s) && AtSource(s, t)
    ensures var tree := s.fs[Canvas(Here(s.hl, t))];
      && Runs(s, [StartReading(t), Fill(t, tree, true)], end) && Reachable(end)
      && OnlyStages(end, s, t, {s.jobs[t].staged.value})
      && end.jobs[t] == Job(s.jobs[t].staged, Some(tree), Quiet)
  {
    var tree := s.fs[Canvas(Here(s.hl, t))];
    var start, fill := StartReading(t), Fill(t, tree, true);
    WalkBegins(s, t);
    ReachableStep(s, start);
    var walking := Do(s, start);
    TreesGetReady(walking, t, tree);
    ReachableStep(walking, fill);
    RunTwo(s, start, fill);
    end := Do(walking, fill);
  }

  lemma StepOn(s: State, t: Thread)
    requires t in s.jobs && AtSome(s.hl, t) && t in s.hl.requests && s.jobs[t].phase.Quiet?
    requires s.hl.threads[t].todo.rest.Then? && s.hl.threads[t].todo.rest.now.Touch?
    requires s.jobs[t].staged.Some? ==> !s.jobs[t].staged.value.RevertTmp?
    ensures var step := Lock(HL.Step(t));
      && Enabled(s, step) && AtCanvas(Do(s, step).hl, t, s.hl.threads[t].todo.rest.now.id)
      && Do(s, step).hl.requests == s.hl.requests && Do(s, step).jobs == s.jobs
      && Do(s, step).fs == s.fs && Do(s, step).faults == s.faults && Do(s, step).made == s.made
  {
  }

  lemma TargetIsNext(s: State, t: Thread, from: string, to: string)
    requires HL.Inv(s.hl) && HL.Serving(s.hl) && AtCanvas(s.hl, t, from)
    requires t in s.hl.requests && s.hl.requests[t] == HL.Copy(from, to)
    ensures s.hl.threads[t].todo.rest.Then? && s.hl.threads[t].todo.rest.now == HL.Touch(to)
  {
    CopyHoldsBoth(s, t, from, to);
    assert HL.Serves(s.hl, t);
    HL.TargetIsNext(from, to, s.hl.threads[t]);
  }

  /** A push about to start. */
  predicate Starting(s: State, t: Thread, p: Path) {
    && t in s.jobs && s.jobs[t] == IDLE && AtSome(s.hl, t) && t in s.hl.requests && s.hl.requests[t].PushTo?
    && p.Staging? && p !in s.fs && p !in s.made
  }

  lemma StagingIsMade(s: State, t: Thread, p: Path)
    requires Starting(s, t, p)
    ensures Enabled(s, MakeStaging(t, p))
    ensures var mid := Do(s, MakeStaging(t, p));
      && mid.hl == s.hl && mid.faults == s.faults && mid.made == s.made[p := t] && SameExcept(mid.fs, s.fs, {p})
      && t in mid.jobs && mid.jobs[t] == Job(Some(p), None, Quiet)
  {
  }

  lemma PushGetsReady(s: State, t: Thread, p: Path, tree: Tree) returns (mid: State)
    requires Reachable(s) && Starting(s, t, p)
    ensures Runs(s, [MakeStaging(t, p), Fill(t, tree, true)], mid) && Reachable(mid) && mid.hl == s.hl
    ensures mid.faults == s.faults && mid.made == s.made[p := t] && SameExcept(mid.fs, s.fs, {p})
    ensures t in mid.jobs && mid.jobs[t] == Job(Some(p), Some(tree), Quiet)
  {
    var stage, fill := MakeStaging(t, p), Fill(t, tree, true);
    StagingIsMade(s, t, p);
    ReachableStep(s, stage);
    TreesGetReady(Do(s, stage), t, tree);
    ReachableStep(Do(s, stage), fill);
    RunTwo(s, stage, fill);
    mid := Do(Do(s, stage), fill);
  }

  /** So from every reachable state in which a push has come to its canvas, it can put any tree there, with
      no fault and no one else's help. */
  lemma PushesGoThrough(s: State, t: Thread, p: Path, tree: Tree, aside: Path)
    returns (mid: State, more: seq<Action>, end: State)
    requires Reachable(s) && Starting(s, t, p)
    requires aside.Staging? && aside != p && aside !in s.fs && aside !in s.made
    ensures Runs(s, [MakeStaging(t, p), Fill(t, tree, true)], mid) && Runs(mid, more, end) && end.faults == s.faults
    ensures At(end.fs, Canvas(Here(s.hl, t))) == Some(tree) && At(end.fs, aside) == At(s.fs, Canvas(Here(s.hl, t)))
  {
    mid := PushGetsReady(s, t, p, tree);
    more, end := SwapsGoThrough(mid, t, aside);
  }

  lemma StagedIsMade(s: State, t: Thread)
    requires Inv(s) && AllOwnNames(s) && t in s.jobs && s.hl.requests[t].Copy? && s.jobs[t].staged.Some?
    ensures s.jobs[t].staged.value.Staging? && s.jobs[t].staged.value in s.made
  {
    HandlerOk(s, t);
  }

  /** The copy's tree is whole, and it stands at its target. */
  ghost predicate CopyReady(mid: State, s: State, t: Thread)
    requires AtSource(s, t)
  {
    && Reachable(mid) && mid.faults == s.faults && mid.made == s.made && mid.hl.requests == s.hl.requests
    && AtCanvas(mid.hl, t, s.hl.requests[t].to) && t in mid.jobs
    && mid.jobs[t] == Job(s.jobs[t].staged, At(s.fs, Canvas(s.hl.requests[t].from)), Quiet)
    && SameExcept(mid.fs, s.fs, {s.jobs[t].staged.value})
  }

  lemma CopyStepsOn(s: State, t: Thread, ready: State) returns (mid: State)
    requires AtSource(s, t) && Reachable(ready) && OnlyStages(ready, s, t, {s.jobs[t].staged.value})
    requires ready.jobs[t] == Job(s.jobs[t].staged, At(s.fs, Canvas(s.hl.requests[t].from)), Quiet)
    requires s.jobs[t].staged.value.Staging?
    ensures Enabled(ready, Lock(HL.Step(t))) && mid == Do(ready, Lock(HL.Step(t))) && CopyReady(mid, s, t)
  {
    var r := s.hl.requests[t];
    ReachableHasInv(ready);
    TargetIsNext(ready, t, r.from, r.to);
    StepOn(ready, t);
    ReachableStep(ready, Lock(HL.Step(t)));
    mid := Do(ready, Lock(HL.Step(t)));
  }

  lemma CopyIsReady(s: State, t: Thread) returns (acts: seq<Action>, mid: State)
    requires Reachable(s) && AtSource(s, t) && s.jobs[t].staged.value.Staging?
    ensures Runs(s, acts, mid) && CopyReady(mid, s, t)
  {
    var first := [StartReading(t), Fill(t, s.fs[Canvas(Here(s.hl, t))], true)];
    var ready := CopiesGetReady(s, t);
    mid := CopyStepsOn(s, t, ready);
    RunSnoc(s, first, ready, Lock(HL.Step(t)));
    acts := first + [Lock(HL.Step(t))];
  }

  lemma CopyMayReplace(s: State, mid: State, t: Thread, aside: Path)
    requires AtSource(s, t) && CopyReady(mid, s, t) && s.jobs[t].staged.value in s.made
    requires aside.Staging? && aside !in s.fs && aside !in s.made && s.jobs[t].staged.value.Staging?
    ensures HasReady(mid, t) && GoodAside(mid, t, aside)
    ensures At(mid.fs, Canvas(s.hl.requests[t].to)) == At(s.fs, Canvas(s.hl.requests[t].to))
  {
  }

  /** So from every reachable state in which a copy has come to its source, it can put what that holds at
      its target, with no fault and no one else's help. */
  lemma CopiesGoThrough(s: State, t: Thread, aside: Path)
    returns (acts: seq<Action>, mid: State, more: seq<Action>, end: State)
    requires Reachable(s) && AtSource(s, t) && aside.Staging? && aside !in s.fs && aside !in s.made
    ensures Runs(s, acts, mid) && Runs(mid, more, end) && end.faults == s.faults
    ensures At(end.fs, Canvas(s.hl.requests[t].to)) == At(s.fs, Canvas(s.hl.requests[t].from))
    ensures At(end.fs, aside) == At(s.fs, Canvas(s.hl.requests[t].to))
  {
    ReachableHasNames(s);
    StagedIsMade(s, t);
    acts, mid := CopyIsReady(s, t);
    CopyMayReplace(s, mid, t, aside);
    more, end := SwapsGoThrough(mid, t, aside);
  }

  // ---------------------------------------------------------------- what a failed rollback leaves

  predicate EmptyAt(fs: FS, id: string) {
    Canvas(id) in fs ==> fs[Canvas(id)] == EMPTY_DIR
  }

  /** There is no more than a create's empty directory at the canvas, nor is one who moved that aside going
      to put back more. */
  ghost predicate StrandedAt(fs: FS, jobs: map<Thread, Job>, id: string) {
    && EmptyAt(fs, id)
    && forall t :: t in jobs && jobs[t].phase.Aside? && jobs[t].phase.id == id ==> jobs[t].phase.moved == EMPTY_DIR
  }

  ghost predicate AllStranded(s: State) {
    forall id :: id in s.stranded ==> StrandedAt(s.fs, s.jobs, id)
  }

  lemma SwapStaysEmpty(s: State, a: Action, id: string)
    requires Enabled(s, a) && (a.MoveAside? || a.RenameIn? || a.RollBack?) && StrandedAt(s.fs, s.jobs, id)
    requires a.MoveAside? ==> !a.aside.Canvas?
    requires s.jobs[a.t].phase.Aside? ==> At(s.fs, s.jobs[a.t].phase.aside) == Some(s.jobs[a.t].phase.moved)
    ensures id in NextStranded(s, a) ==> EmptyAt(NextFs(s, a), id)
  {
  }

  lemma OtherActsStayEmpty(s: State, a: Action, id: string)
    requires Enabled(s, a) && !a.Lock? && !a.MoveAside? && !a.RenameIn? && !a.RollBack? && EmptyAt(s.fs, id)
    requires s.jobs[a.t].staged.Some? ==> !s.jobs[a.t].staged.value.Canvas?
    requires a.Clean? ==> !a.p.Canvas?
    ensures id in NextStranded(s, a) ==> EmptyAt(NextFs(s, a), id)
  {
  }

  lemma StaysEmpty(s: State, a: Action, id: string)
    requires Inv(s) && Enabled(s, a) && StrandedAt(s.fs, s.jobs, id)
    ensures id in NextStranded(s, a) ==> EmptyAt(NextFs(s, a), id)
  {
    if !a.Lock? {
      HandlerOk(s, a.t);
      if a.MoveAside? || a.RenameIn? || a.RollBack? {
        SwapStaysEmpty(s, a, id);
      } else {
        if a.Clean? {
          CleanWritesMine(s, a.t, a.p);
        }
        OtherActsStayEmpty(s, a, id);
      }
    }
  }

  lemma StillMovedEmpty(s: State, a: Action, id: string)
    requires Enabled(s, a) && StrandedAt(s.fs, s.jobs, id)
    ensures var j := NextJob(s, a); j.phase.Aside? && j.phase.id == id ==> j.phase.moved == EMPTY_DIR
  {
  }

  lemma StaysStranded(s: State, a: Action, id: string)
    requires Inv(s) && Enabled(s, a) && StrandedAt(s.fs, s.jobs, id) && id in NextStranded(s, a)
    ensures StrandedAt(NextFs(s, a), Do(s, a).jobs, id)
  {
    StaysEmpty(s, a, id);
    StillMovedEmpty(s, a, id);
  }

  lemma NewlyStranded(s: State, a: Action, id: string)
    requires Inv(s) && Enabled(s, a) && id !in s.stranded && id in NextStranded(s, a)
    ensures StrandedAt(NextFs(s, a), Do(s, a).jobs, id)
  {
    HandlerOk(s, a.t);
    forall u | u in s.jobs && u != a.t && s.jobs[u].phase.Aside? ensures s.jobs[u].phase.id != id {
      HandlerOk(s, u);
      assert AtSome(s.hl, u) && AtSome(s.hl, a.t);
    }
  }

  lemma StepKeepsStranded(s: State, a: Action)
    requires Inv(s) && Enabled(s, a) && AllStranded(s)
    ensures AllStranded(Do(s, a))
  {
    forall id | id in NextStranded(s, a) ensures StrandedAt(NextFs(s, a), Do(s, a).jobs, id) {
      if id in s.stranded {
        StaysStranded(s, a, id);
      } else {
        NewlyStranded(s, a, id);
      }
    }
  }

  lemma {:induction false} RunKeepsStranded(s: State, acts: seq<Action>, end: State)
    requires Inv(s) && AllStranded(s) && Runs(s, acts, end)
    ensures AllStranded(end)
    decreases |acts|
  {
    if acts != [] {
      StepKeepsInv(s, acts[0]);
      StepKeepsStranded(s, acts[0]);
      RunKeepsStranded(Do(s, acts[0]), acts[1..], end);
    }
  }

  /** In every run, a canvas whose last swap could not be rolled back has nothing at its name, or a create's
      empty directory, until a swap or an edit puts a new tree there. */
  lemma StrandedIsEmpty(s: State, id: string)
    requires Reachable(s) && id in s.stranded
    ensures At(s.fs, Canvas(id)) in {None, Some(EMPTY_DIR)}
  {
    var init, acts :| Init(init) && Runs(init, acts, s);
    InitHasInv(init);
    RunKeepsStranded(init, acts, s);
    assert StrandedAt(s.fs, s.jobs, id);
  }
}
