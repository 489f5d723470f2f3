/** Any number of hub handlers on one file system. The handlers, their locks and their scripts are
    those of module HandlerLocks; each act on a canvas's tree is here its file system call, atomic
    and free to fail, and the calls of all handlers interleave. */
module SharedTrees {
  import opened Prelude
  import opened FileSystem
  import HL = HandlerLocks

  type Thread = HL.Thread

  /** How far a handler's work on a canvas's tree is. Reading: a copy walks its source. Aside: the old
      tree, moved, is at the name aside and nothing has been put in its place, or that has been refused.
      Swapped: the new tree is in place. Over: the swap has failed, or is done with. */
  datatype Phase =
    | Quiet
    | Reading(id: string, seen: Tree)
    | Aside(id: string, aside: Path, moved: Tree, refused: bool)
    | Swapped(id: string, spare: Option<Path>)
    | Over

  /** staged: where a handler puts its new tree together; ready: that tree, once it is whole. */
  datatype Job = Job(staged: Option<Path>, ready: Option<Tree>, phase: Phase)

  const IDLE := Job(None, None, Quiet)

  /** made: who made each staging name; faults: the calls that failed though nothing stood in their way.
      The rest is history: the last complete tree of each canvas, the staging names to which a tree of
      it was ever moved aside, and the canvases whose last swap could not be rolled back. */
  datatype State = State(
    hl: HL.State,
    fs: FS,
    jobs: map<Thread, Job>,
    made: map<Path, Thread>,
    faults: nat,
    current: map<string, Tree>,
    asides: map<Path, string>,
    stranded: set<string>)

  datatype Action =
    | Lock(a: HL.Action)                               // begin, take, give, go on, or return early
    | MakeStaging(t: Thread, p: Path)                  // os.MkdirTemp under the staging root
    | UseTmp(t: Thread)                                // a revert's fixed name beside its canvas
    | Fill(t: Thread, tree: Tree, whole: bool)         // extract or copy into the staged directory
    | StartReading(t: Thread)                          // copy: the walk of the source begins
    | StopReading(t: Thread)                           // and fails
    | MoveAside(t: Thread, aside: Path)                // os.Rename of the old tree
    | RenameIn(t: Thread, ok: bool)                    // os.Rename of the new one
    | RollBack(t: Thread, ok: bool)                    // os.Rename of the old one back
    | Edit(t: Thread, tree: Tree)                      // one call that changes a canvas's contents
    | Snapshot(t: Thread, name: string, left: Option<Tree>)
    | Clean(t: Thread, p: Path, left: Option<Tree>)    // os.RemoveAll, perhaps of only a part
    | Appear(t: Thread, id: string)                    // os.MkdirAll, by a create without push lock

  function Actor(a: Action): Thread {
    if a.Lock? then a.a.t else a.t
  }

  /** The handler is at acts on some canvas's tree: on that of Here. */
  predicate AtSome(hl: HL.State, t: Thread) {
    t in hl.threads && hl.threads[t].todo != HL.Done && hl.threads[t].todo.now.Touch?
  }

  function Here(hl: HL.State, t: Thread): string {
    if AtSome(hl, t) then hl.threads[t].todo.now.id else ""
  }

  /** A revert that has not staged its tree yet. */
  predicate Reverting(s: State, t: Thread)
    requires t in s.jobs
  {
    AtSome(s.hl, t) && s.jobs[t] == Job(Some(RevertTmp(Here(s.hl, t))), None, Quiet)
  }

  /** What a handler removes: the old tree once the new one is in place, the backup name when it is a
      revert about to stage, and before and after that what it has staged. */
  predicate MayClean(s: State, t: Thread, p: Path)
    requires t in s.jobs
  {
    var job := s.jobs[t];
    match job.phase
    case Swapped(_, spare) => spare == Some(p)
    case Quiet => job.staged == Some(p) || (Reverting(s, t) && p == RevertOld(Here(s.hl, t)))
    case Over => job.staged == Some(p)
    case _ => false
  }

  /** os.Rename can put a directory at a name: it refuses any that is there, an empty one too. */
  predicate Free(fs: FS, p: Path) {
    p !in fs
  }

  predicate MidSwap(p: Phase) {
    p.Aside? || p.Reading?
  }

  predicate LockEnabled(s: State, a: HL.Action) {
    && !a.Again? && HL.Enabled(s.hl, a)
    && (!a.Begin? ==> a.t in s.jobs && !MidSwap(s.jobs[a.t].phase))
    && (a.Step? && s.hl.threads[a.t].todo.now.Give? ==> s.hl.threads[a.t].held != [])
  }

  /** The canvases whose trees a request replaces: not a copy's source. */
  predicate Replaces(r: HL.Request, id: string) {
    match r
    case PushTo(_, _) => true
    case Copy(_, to) => id == to
    case Single(_, _) => true
    case OnlyMeta(_, _) => false
  }

  /** A push stages what it extracts, a copy what it reads on its walk, a revert what it reads of a
      snapshot. A push or copy moves the old tree to a staging name, a revert to its own. Only file and
      revert handlers edit in place, and only creates make a canvas's directory. */
  predicate Suits(s: State, a: Action, r: HL.Request)
    requires !a.Lock? && a.t in s.jobs
  {
    var here := Here(s.hl, a.t);
    match a
    case MakeStaging(_, _) => r.PushTo? || r.Copy?
    case UseTmp(_) => r.Single?
    case Fill(t, _, _) => r.Copy? ==> s.jobs[t].phase.Reading?
    case StartReading(_) => r.Copy? && here == r.from
    case MoveAside(_, aside) => Replaces(r, here) && (aside.Staging? <==> !r.Single?)
    case RenameIn(_, _) => Replaces(r, here)
    case Edit(_, _) => r.Single?
    case Snapshot(_, _, _) => r.Single? || (r.Copy? && here == r.to)
    case Appear(_, id) => r.OnlyMeta? && r.id == id
    case _ => true
  }

  predicate Enabled(s: State, a: Action) {
    if a.Lock? then LockEnabled(s, a.a)
    else
      a.t in s.jobs && a.t in s.hl.requests && Suits(s, a, s.hl.requests[a.t]) &&
      var job := s.jobs[a.t];
      var here := Canvas(Here(s.hl, a.t));
      match a
      case MakeStaging(_, p) => job.phase.Quiet? && job.staged.None? && p.Staging? && p !in s.fs && p !in s.made
      case UseTmp(t) => AtSome(s.hl, t) && job.phase.Quiet? && job.staged.None?
      case Fill(_, tree, whole) =>
        && job.staged.Some? && (job.phase.Quiet? || job.phase.Reading?)
        && (whole && job.phase.Reading? ==> tree == job.phase.seen)
      case StartReading(t) => AtSome(s.hl, t) && job.phase.Quiet? && here in s.fs
      case StopReading(_) => job.phase.Reading?
      case MoveAside(t, aside) =>
        && AtSome(s.hl, t) && job.phase.Quiet? && job.ready.Some? && here in s.fs && Free(s.fs, aside)
        && ((aside.Staging? && aside !in s.made) || aside == RevertOld(Here(s.hl, t)))
      case RenameIn(t, ok) =>
        && AtSome(s.hl, t) && job.ready.Some? && job.staged.Some?
        && (job.phase.Quiet? || (job.phase.Aside? && !job.phase.refused))
        && (ok ==> job.staged.value in s.fs && Free(s.fs, here))
      case RollBack(_, ok) =>
        && job.phase.Aside? && job.phase.refused
        && (ok ==> job.phase.aside in s.fs && Free(s.fs, Canvas(job.phase.id)))
      case Edit(t, _) => AtSome(s.hl, t) && job.phase.Quiet? && here in s.fs
      case Snapshot(t, _, _) => AtSome(s.hl, t) && job.phase.Quiet?
      case Clean(t, p, _) => MayClean(s, t, p)
      case Appear(_, _) => job.phase.Quiet?
  }

  /** Every act on a canvas is recorded as one in its holder's section. */
  predicate OnTree(a: Action) {
    a.MoveAside? || a.RenameIn? || a.RollBack? || a.Edit? || a.Snapshot? || a.StartReading? || a.Clean?
  }

  function Put(fs: FS, p: Path, tree: Option<Tree>): FS {
    if tree.Some? then fs[p := tree.value] else fs - {p}
  }

  /** os.Rename. */
  function Moved(fs: FS, p: Path, q: Path): FS
    requires p in fs
  {
    (fs - {p})[q := fs[p]]
  }

  function NextFs(s: State, a: Action): FS
    requires Enabled(s, a)
  {
    if a.Lock? then s.fs
    else
      var job := s.jobs[a.t];
      var here := Canvas(Here(s.hl, a.t));
      match a
      case MakeStaging(_, p) => s.fs[p := EMPTY_DIR]
      case Fill(_, tree, _) => s.fs[job.staged.value := tree]
      case MoveAside(_, aside) => Moved(s.fs, here, aside)
      case RenameIn(_, ok) => if ok then Moved(s.fs, job.staged.value, here) else s.fs
      case RollBack(_, ok) => if ok then Moved(s.fs, job.phase.aside, Canvas(job.phase.id)) else s.fs
      case Edit(_, tree) => s.fs[here := tree]
      case Snapshot(t, name, left) => Put(s.fs, Version(Here(s.hl, t), name), left)
      case Clean(_, p, left) => Put(s.fs, p, if p in s.fs then left else None)
      case Appear(_, id) => if Canvas(id) in s.fs then s.fs else s.fs[Canvas(id) := EMPTY_DIR]
      case _ => s.fs
  }

  function NextJob(s: State, a: Action): Job
    requires Enabled(s, a)
  {
    if a.Lock? then
      if a.a.Begin? then Job(None, None, Quiet) else Leaves(s.jobs[a.a.t])
    else
      var job := s.jobs[a.t];
      var id := Here(s.hl, a.t);
      match a
      case MakeStaging(_, p) => Job(Some(p), None, Quiet)
      case UseTmp(_) => Job(Some(RevertTmp(id)), None, Quiet)
      case Fill(_, tree, whole) =>
        Job(job.staged, if whole then Some(tree) else None, if whole then Quiet else job.phase)
      case StartReading(_) => job.(phase := Reading(id, s.fs[Canvas(id)]))
      case StopReading(_) => job.(phase := Quiet)
      case MoveAside(_, aside) => job.(phase := Aside(id, aside, s.fs[Canvas(id)], false))
      case RenameIn(_, ok) =>
        if ok then Job(None, None, Swapped(id, if job.phase.Aside? then Some(job.phase.aside) else None))
        else job.(phase := if job.phase.Aside? then job.phase.(refused := true) else Over)
      case RollBack(_, _) => job.(phase := Over)
      case Clean(_, p, _) => if job.phase.Swapped? then job.(phase := Over) else job.(ready := None)
      case _ => job
  }

  /** A handler that goes on to its next step is done with the swap, and with its revert's name. */
  function Leaves(job: Job): Job {
    var phase := if job.phase.Swapped? then Over else job.phase;
    if job.staged.Some? && job.staged.value.RevertTmp? then Job(None, None, phase) else job.(phase := phase)
  }

  function NextMade(s: State, a: Action): map<Path, Thread> {
    match a
    case MakeStaging(t, p) => s.made[p := t]
    case MoveAside(t, aside) => if aside.Staging? then s.made[aside := t] else s.made
    case _ => s.made
  }

  function NextAsides(s: State, a: Action): map<Path, string> {
    if a.MoveAside? && a.aside.Staging? then s.asides[a.aside := Here(s.hl, a.t)] else s.asides
  }

  /** A rename that fails is a fault unless its new name is taken; so is a removal that leaves
      something. */
  function NextFaults(s: State, a: Action): nat
    requires Enabled(s, a)
  {
    match a
    case RenameIn(t, ok) => if ok || !Free(s.fs, Canvas(Here(s.hl, t))) then s.faults else s.faults + 1
    case RollBack(t, ok) => if ok || !Free(s.fs, Canvas(s.jobs[t].phase.id)) then s.faults else s.faults + 1
    case Clean(_, p, left) => if p in s.fs && left.Some? then s.faults + 1 else s.faults
    case _ => s.faults
  }

  /** Only a swap or an edit replaces a canvas's tree; a create's directory is one where there has been
      none. */
  function NextCurrent(s: State, a: Action): map<string, Tree>
    requires Enabled(s, a)
  {
    match a
    case RenameIn(t, ok) => if ok then s.current[Here(s.hl, t) := s.jobs[t].ready.value] else s.current
    case Edit(t, tree) => s.current[Here(s.hl, t) := tree]
    case Appear(_, id) => if id in s.current then s.current else s.current[id := EMPTY_DIR]
    case _ => s.current
  }

  function NextStranded(s: State, a: Action): set<string>
    requires Enabled(s, a)
  {
    match a
    case RenameIn(t, ok) => if ok then s.stranded - {Here(s.hl, t)} else s.stranded
    case Edit(t, _) => s.stranded - {Here(s.hl, t)}
    case RollBack(t, ok) => if ok then s.stranded else s.stranded + {s.jobs[t].phase.id}
    case _ => s.stranded
  }

  function NextHl(s: State, a: Action): HL.State
    requires Enabled(s, a)
  {
    if a.Lock? then HL.Do(s.hl, a.a)
    else if OnTree(a) && AtSome(s.hl, a.t) then HL.Do(s.hl, HL.Again(a.t))
    else s.hl
  }

  function Do(s: State, a: Action): State
    requires Enabled(s, a)
  {
    State(NextHl(s, a), NextFs(s, a), s.jobs[Actor(a) := NextJob(s, a)], NextMade(s, a),
          NextFaults(s, a), NextCurrent(s, a), NextAsides(s, a), NextStranded(s, a))
  }

  ghost predicate Init(s: State) {
    && HL.Init(s.hl) && s.jobs == map[] && s.made == map[] && s.asides == map[] && s.stranded == {}
    && forall id :: At(s.fs, Canvas(id)) == if id in s.current then Some(s.current[id]) else None
  }

  // ---------------------------------------------------------------- what every step keeps

  /** The names a tree of the canvas is at, or has been moved aside to. */
  predicate IsHome(asides: map<Path, string>, id: string, p: Path) {
    p == Canvas(id) || p == RevertOld(id) || (p in asides && asides[p] == id)
  }

  /** What is in place is the canvas's complete tree, or a create's empty directory. */
  predicate CanvasOk(fs: FS, current: map<string, Tree>, id: string) {
    Canvas(id) in fs ==> id in current && fs[Canvas(id)] in {current[id], EMPTY_DIR}
  }

  predicate AtCanvas(hl: HL.State, t: Thread, id: string) {
    AtSome(hl, t) && Here(hl, t) == id
  }

  predicate ReadsFrom(hl: HL.State, t: Thread, id: string) {
    t in hl.requests && hl.requests[t].Copy? && hl.requests[t].from == id
  }

  predicate MayReplace(hl: HL.State, t: Thread, id: string) {
    t in hl.requests && Replaces(hl.requests[t], id)
  }

  /** In the middle of a copy or a swap the handler is at that canvas, and what it has moved aside
      is still there. */
  predicate PhaseOk(hl: HL.State, fs: FS, current: map<string, Tree>, asides: map<Path, string>,
                    made: map<Path, Thread>, t: Thread, phase: Phase)
  {
    match phase
    case Reading(id, seen) => AtCanvas(hl, t, id) && ReadsFrom(hl, t, id) && At(fs, Canvas(id)) == Some(seen)
    case Aside(id, aside, moved, _) =>
      && AtCanvas(hl, t, id) && MayReplace(hl, t, id)
      && AsideOk(asides, made, t, id, aside) && At(fs, aside) == Some(moved)
      && id in current && moved in {current[id], EMPTY_DIR}
      && (Canvas(id) in fs ==> fs[Canvas(id)] == EMPTY_DIR)
    case Swapped(id, spare) =>
      && AtCanvas(hl, t, id) && (spare.Some? ==> AsideOk(asides, made, t, id, spare.value))
      && id in current && At(fs, Canvas(id)) == Some(current[id])
    case _ => true
  }

  predicate AsideOk(asides: map<Path, string>, made: map<Path, Thread>, t: Thread, id: string, aside: Path) {
    aside == RevertOld(id) || (aside in asides && asides[aside] == id && aside in made && made[aside] == t)
  }

  predicate OwnStaged(hl: HL.State, made: map<Path, Thread>, t: Thread, p: Path) {
    || (p.Staging? && p in made && made[p] == t)
    || (AtSome(hl, t) && p == RevertTmp(Here(hl, t)))
  }

  /** Staged names are the handler's own, no tree has been moved aside to them, and a staged tree is
      whole. */
  predicate StagedOk(hl: HL.State, fs: FS, made: map<Path, Thread>, asides: map<Path, string>, t: Thread, j: Job) {
    && (j.staged.Some? ==> OwnStaged(hl, made, t, j.staged.value) && j.staged.value !in asides)
    && (j.ready.Some? ==> j.staged.Some? && At(fs, j.staged.value) == j.ready)
    && (j.phase.Swapped? ==> j.staged.None?)
    && (j.phase.Aside? ==> j.ready.Some?)
  }

  /** While a copy has acts left to do, what it has staged whole is what its source still is. */
  predicate SourceOk(hl: HL.State, fs: FS, t: Thread, j: Job) {
    t in hl.requests && hl.requests[t].Copy? && j.ready.Some? && t in hl.threads ==>
      HL.ActsOf(hl.threads[t].todo) == [] || (AtSome(hl, t) && At(fs, Canvas(hl.requests[t].from)) == j.ready)
  }

  /** In the middle of a swap of this canvas, with its complete tree aside. */
  predicate Holds(current: map<string, Tree>, id: string, phase: Phase) {
    phase.Aside? && phase.id == id && id in current && phase.moved == current[id]
  }

  predicate InPlace(fs: FS, current: map<string, Tree>, id: string) {
    id in current && At(fs, Canvas(id)) == Some(current[id])
  }

  /** A complete tree that is not in place has been moved aside by a swap under way, or by one that
      could not be rolled back. */
  ghost predicate PlaceOk(fs: FS, current: map<string, Tree>, jobs: map<Thread, Job>, stranded: set<string>,
                          id: string)
  {
    id in current ==>
      || InPlace(fs, current, id)
      || id in stranded
      || exists t :: t in jobs && Holds(current, id, jobs[t].phase)
  }

  ghost predicate Exclusive(hl: HL.State) {
    forall t, u :: AtSome(hl, t) && AtSome(hl, u) && Here(hl, t) == Here(hl, u) ==> t == u
  }

  ghost predicate Trees(s: State) {
    && s.jobs.Keys == s.hl.threads.Keys
    && (forall t :: t in s.jobs ==> PhaseOk(s.hl, s.fs, s.current, s.asides, s.made, t, s.jobs[t].phase))
    && (forall t :: t in s.jobs ==> StagedOk(s.hl, s.fs, s.made, s.asides, t, s.jobs[t]))
    && (forall t :: t in s.jobs ==> SourceOk(s.hl, s.fs, t, s.jobs[t]))
    && (forall id :: CanvasOk(s.fs, s.current, id))
    && (forall id :: PlaceOk(s.fs, s.current, s.jobs, s.stranded, id))
    && NamesOk(s.made, s.asides)
  }

  ghost predicate NamesOk(made: map<Path, Thread>, asides: map<Path, string>) {
    (forall p :: p in made ==> p.Staging?) && (forall p :: p in asides ==> p in made)
  }

  ghost predicate Inv(s: State) {
    HL.Inv(s.hl) && HL.Serving(s.hl) && Exclusive(s.hl) && Trees(s)
  }

  // ---------------------------------------------------------------- who may write where

  /** The paths an action may change. */
  function Writes(s: State, a: Action): set<Path>
    requires Enabled(s, a)
  {
    if a.Lock? then {}
    else
      var job := s.jobs[a.t];
      var here := Canvas(Here(s.hl, a.t));
      match a
      case MakeStaging(_, p) => {p}
      case Fill(_, _, _) => {job.staged.value}
      case MoveAside(_, aside) => {here, aside}
      case RenameIn(_, ok) => if ok then {here, job.staged.value} else {}
      case RollBack(_, ok) => if ok then {Canvas(job.phase.id), job.phase.aside} else {}
      case Edit(_, _) => {here}
      case Snapshot(t, name, _) => {Version(Here(s.hl, t), name)}
      case Clean(_, p, _) => {p}
      case Appear(_, id) => if Canvas(id) in s.fs then {} else {Canvas(id)}
      case _ => {}
  }

  lemma WritesOnly(s: State, a: Action)
    requires Enabled(s, a)
    ensures SameExcept(NextFs(s, a), s.fs, Writes(s, a))
  {
  }

  /** A path this handler, and no other, may change: of the canvas it is at, or of its own making,
      or new. */
  ghost predicate Mine(s: State, t: Thread, p: Path) {
    match p
    case Staging(_) => if p in s.made then s.made[p] == t else p !in s.fs
    case Canvas(id) => AtCanvas(s.hl, t, id)
    case RevertTmp(id) => AtCanvas(s.hl, t, id)
    case RevertOld(id) => AtCanvas(s.hl, t, id)
    case Version(id, _) => AtCanvas(s.hl, t, id)
  }

  lemma AsideIsMine(s: State, t: Thread)
    requires Inv(s) && t in s.jobs && s.jobs[t].phase.Aside?
    ensures AtCanvas(s.hl, t, s.jobs[t].phase.id)
    ensures Mine(s, t, Canvas(s.jobs[t].phase.id)) && Mine(s, t, s.jobs[t].phase.aside)
  {
    assert PhaseOk(s.hl, s.fs, s.current, s.asides, s.made, t, s.jobs[t].phase);
  }

  lemma StagedIsMine(s: State, t: Thread)
    requires Inv(s) && t in s.jobs && s.jobs[t].staged.Some?
    ensures Mine(s, t, s.jobs[t].staged.value) && s.jobs[t].staged.value !in s.asides
    ensures s.jobs[t].staged.value.Staging? || s.jobs[t].staged.value.RevertTmp?
  {
    assert StagedOk(s.hl, s.fs, s.made, s.asides, t, s.jobs[t]);
  }

  lemma CleanWritesMine(s: State, t: Thread, p: Path)
    requires Inv(s) && t in s.jobs && MayClean(s, t, p)
    ensures Mine(s, t, p) && !p.Canvas?
  {
    if s.jobs[t].staged == Some(p) {
      StagedIsMine(s, t);
    }
    if s.jobs[t].phase.Swapped? {
      assert PhaseOk(s.hl, s.fs, s.current, s.asides, s.made, t, s.jobs[t].phase);
    }
  }

  lemma WritesAreMine(s: State, a: Action, p: Path)
    requires Inv(s) && Enabled(s, a) && !a.Appear? && p in Writes(s, a)
    ensures Mine(s, a.t, p)
  {
    match a
    case RollBack(t, _) => AsideIsMine(s, t);
    case Clean(t, _, _) => CleanWritesMine(s, t, p);
    case Fill(t, _, _) => StagedIsMine(s, t);
    case RenameIn(t, _) => StagedIsMine(s, t);
    case _ =>
  }

  lemma OthersPathsAreNotMine(s: State, t: Thread, u: Thread, p: Path)
    requires Inv(s) && Mine(s, t, p) && u in s.jobs && t != u
    ensures s.jobs[u].staged != Some(p)
    ensures forall id :: AtCanvas(s.hl, u, id) ==> p != Canvas(id) && p != RevertOld(id)
    ensures p in s.made ==> s.made[p] != u
  {
    assert StagedOk(s.hl, s.fs, s.made, s.asides, u, s.jobs[u]);
    assert AtSome(s.hl, t) && AtSome(s.hl, u) ==> Here(s.hl, t) != Here(s.hl, u);
  }

  predicate SameTree(a: map<string, Tree>, b: map<string, Tree>, id: string) {
    (id in a <==> id in b) && (id in a ==> a[id] == b[id])
  }

  lemma CurrentElsewhere(s: State, a: Action, id: string)
    requires Enabled(s, a) && !a.Appear? && (a.Lock? || !AtCanvas(s.hl, a.t, id))
    ensures SameTree(NextCurrent(s, a), s.current, id)
    ensures id in s.stranded ==> id in NextStranded(s, a)
  {
  }

  // ---------------------------------------------------------------- canvases

  ghost predicate CanvasNext(s: State, a: Action, id: string)
    requires Enabled(s, a)
  {
    CanvasOk(NextFs(s, a), NextCurrent(s, a), id)
  }

  lemma CanvasUntouched(s: State, a: Action, id: string)
    requires Inv(s) && Enabled(s, a) && !a.Appear? && (a.Lock? || !AtCanvas(s.hl, a.t, id))
    ensures At(NextFs(s, a), Canvas(id)) == At(s.fs, Canvas(id))
    ensures At(NextFs(s, a), RevertOld(id)) == At(s.fs, RevertOld(id))
  {
    WritesOnly(s, a);
    if Canvas(id) in Writes(s, a) {
      WritesAreMine(s, a, Canvas(id));
    }
    if RevertOld(id) in Writes(s, a) {
      WritesAreMine(s, a, RevertOld(id));
    }
  }

  /** What replaces or moves the tree that is in place. */
  predicate Swaps(a: Action) {
    a.MoveAside? || a.RenameIn? || a.RollBack?
  }

  lemma HistorySpared(s: State, a: Action)
    requires Enabled(s, a) && !a.Appear? && !a.Edit? && (Swaps(a) ==> a.RenameIn? && !a.ok)
    ensures NextCurrent(s, a) == s.current && NextStranded(s, a) == s.stranded
  {
  }

  lemma NoCanvasWritten(s: State, a: Action, id: string)
    requires Enabled(s, a) && !a.Appear? && !a.Edit? && (Swaps(a) ==> a.RenameIn? && !a.ok)
    requires a.Fill? ==> !s.jobs[a.t].staged.value.Canvas?
    requires a.Clean? ==> !a.p.Canvas?
    ensures At(NextFs(s, a), Canvas(id)) == At(s.fs, Canvas(id))
  {
  }

  /** Staging, reading, saving, removing and a refused rename leave every canvas as it is. */
  lemma CanvasSpared(s: State, a: Action, id: string)
    requires Inv(s) && Enabled(s, a) && !a.Appear? && !a.Edit? && (Swaps(a) ==> a.RenameIn? && !a.ok)
    ensures At(NextFs(s, a), Canvas(id)) == At(s.fs, Canvas(id))
    ensures NextCurrent(s, a) == s.current && NextStranded(s, a) == s.stranded
  {
    if a.Fill? {
      StagedIsMine(s, a.t);
    } else if a.Clean? {
      CleanWritesMine(s, a.t, a.p);
    }
    HistorySpared(s, a);
    NoCanvasWritten(s, a, id);
  }

  lemma SwappedCanvasOk(s: State, a: Action, id: string)
    requires Enabled(s, a) && Swaps(a) && AtCanvas(s.hl, a.t, id) && CanvasOk(s.fs, s.current, id)
    requires StagedOk(s.hl, s.fs, s.made, s.asides, a.t, s.jobs[a.t])
    requires PhaseOk(s.hl, s.fs, s.current, s.asides, s.made, a.t, s.jobs[a.t].phase)
    ensures CanvasNext(s, a, id)
  {
  }

  lemma SwapKeepsCanvas(s: State, a: Action, id: string)
    requires Inv(s) && Enabled(s, a) && Swaps(a) && AtCanvas(s.hl, a.t, id)
    ensures CanvasNext(s, a, id)
  {
    assert CanvasOk(s.fs, s.current, id);
    HandlerOk(s, a.t);
    SwappedCanvasOk(s, a, id);
  }

  lemma AppearKeepsCanvas(s: State, a: Action, id: string)
    requires Enabled(s, a) && a.Appear? && CanvasOk(s.fs, s.current, id)
    ensures CanvasNext(s, a, id)
  {
  }

  lemma StepKeepsCanvas(s: State, a: Action, id: string)
    requires Inv(s) && Enabled(s, a)
    ensures CanvasNext(s, a, id)
  {
    assert CanvasOk(s.fs, s.current, id);
    if a.Appear? {
      AppearKeepsCanvas(s, a, id);
    } else if a.Lock? || !AtCanvas(s.hl, a.t, id) {
      CanvasUntouched(s, a, id);
      CurrentElsewhere(s, a, id);
    } else if Swaps(a) {
      SwapKeepsCanvas(s, a, id);
    } else if !a.Edit? {
      CanvasSpared(s, a, id);
    }
  }

  // ---------------------------------------------------------------- the locks

  lemma ExclusiveHolds(hl: HL.State)
    requires HL.Inv(hl)
    ensures Exclusive(hl)
  {
    forall t, u | AtSome(hl, t) && AtSome(hl, u) && Here(hl, t) == Here(hl, u) ensures t == u {
      HL.TouchersHold(hl, t);
      HL.TouchersHold(hl, u);
    }
  }

  lemma StepKeepsLocks(s: State, a: Action)
    requires HL.Inv(s.hl) && HL.Serving(s.hl) && Enabled(s, a)
    ensures HL.Inv(NextHl(s, a)) && HL.Serving(NextHl(s, a)) && Exclusive(NextHl(s, a))
  {
    LockStepsLead(s, a);
    var locks := LockSteps(s.hl, a);
    if locks != [] {
      HL.StepKeepsInv(s.hl, locks[0]);
      HL.StepKeepsServing(s.hl, locks[0]);
    }
    ExclusiveHolds(NextHl(s, a));
  }

  /** Only a handler's own lock steps take it to another canvas. */
  lemma StaysAt(s: State, a: Action, u: Thread)
    requires Enabled(s, a) && (!a.Lock? || u != a.a.t)
    ensures AtSome(NextHl(s, a), u) == AtSome(s.hl, u) && Here(NextHl(s, a), u) == Here(s.hl, u)
    ensures SameRequest(NextHl(s, a), s.hl, u)
  {
  }

  predicate SameRequest(after: HL.State, before: HL.State, u: Thread) {
    u in before.requests ==> u in after.requests && after.requests[u] == before.requests[u]
  }

  /** The locks of a run are a run of module HandlerLocks. */
  function LockSteps(s: HL.State, a: Action): seq<HL.Action> {
    if a.Lock? then [a.a] else if OnTree(a) && AtSome(s, a.t) then [HL.Again(a.t)] else []
  }

  lemma LockStepsLead(s: State, a: Action)
    requires Enabled(s, a)
    ensures var locks := LockSteps(s.hl, a);
      if locks == [] then NextHl(s, a) == s.hl else
        && locks == [locks[0]] && HL.Enabled(s.hl, locks[0])
        && (locks[0].Step? && s.hl.threads[locks[0].t].todo.now.Give? ==> s.hl.threads[locks[0].t].held != [])
        && HL.Do(s.hl, locks[0]) == NextHl(s, a)
  {
  }

  lemma LocksSameHandlers(hl: HL.State, x: HL.Action)
    requires HL.Enabled(hl, x)
    requires x.Step? && hl.threads[x.t].todo.now.Give? ==> hl.threads[x.t].held != []
    ensures HL.Do(hl, x).threads.Keys == hl.threads.Keys + {x.t}
  {
  }

  lemma SameHandlers(s: State, a: Action)
    requires Enabled(s, a) && s.jobs.Keys == s.hl.threads.Keys
    ensures Do(s, a).jobs.Keys == Do(s, a).hl.threads.Keys
  {
    LockStepsLead(s, a);
    if LockSteps(s.hl, a) != [] {
      LocksSameHandlers(s.hl, LockSteps(s.hl, a)[0]);
    }
  }

  // ---------------------------------------------------------------- handlers

  lemma NamesOnlyGrow(s: State, a: Action)
    requires Enabled(s, a) && NamesOk(s.made, s.asides)
    ensures forall p :: p in s.made ==> p in NextMade(s, a) && NextMade(s, a)[p] == s.made[p]
    ensures forall p :: p in s.asides ==> p in NextAsides(s, a) && NextAsides(s, a)[p] == s.asides[p]
    ensures NamesOk(NextMade(s, a), NextAsides(s, a))
  {
  }

  ghost predicate PhaseNext(s: State, a: Action, u: Thread, phase: Phase)
    requires Enabled(s, a)
  {
    PhaseOk(NextHl(s, a), NextFs(s, a), NextCurrent(s, a), NextAsides(s, a), NextMade(s, a), u, phase)
  }

  /** The path a handler in the middle of a copy or a swap counts on, besides its canvas. */
  function AsideOf(phase: Phase): set<Path> {
    if phase.Aside? then {phase.aside} else {}
  }

  lemma PhaseFrame(s: State, hl: HL.State, fs: FS, writes: set<Path>, current: map<string, Tree>,
                   asides: map<Path, string>, made: map<Path, Thread>, u: Thread, phase: Phase)
    requires PhaseOk(s.hl, s.fs, s.current, s.asides, s.made, u, phase) && SameExcept(fs, s.fs, writes)
    requires AtSome(hl, u) == AtSome(s.hl, u) && Here(hl, u) == Here(s.hl, u) && SameRequest(hl, s.hl, u)
    requires forall p :: p in s.made ==> p in made && made[p] == s.made[p]
    requires forall p :: p in s.asides ==> p in asides && asides[p] == s.asides[p]
    requires phase.Aside? || phase.Swapped? || phase.Reading? ==>
      Canvas(phase.id) !in writes && AsideOf(phase) !! writes && SameTree(current, s.current, phase.id)
    ensures PhaseOk(hl, fs, current, asides, made, u, phase)
  {
  }

  predicate Busy(phase: Phase) {
    phase.Aside? || phase.Swapped? || phase.Reading?
  }

  lemma BusyAtCanvas(s: State, u: Thread)
    requires Inv(s) && u in s.jobs && Busy(s.jobs[u].phase)
    ensures AtCanvas(s.hl, u, s.jobs[u].phase.id)
    ensures forall p :: p in AsideOf(s.jobs[u].phase) ==>
      p == RevertOld(s.jobs[u].phase.id) || (p in s.made && s.made[p] == u)
  {
    assert PhaseOk(s.hl, s.fs, s.current, s.asides, s.made, u, s.jobs[u].phase);
  }

  lemma OthersMissPhase(s: State, a: Action, u: Thread, p: Path)
    requires Inv(s) && Enabled(s, a) && !a.Appear? && !a.Lock? && u in s.jobs && u != a.t && Busy(s.jobs[u].phase)
    requires p == Canvas(s.jobs[u].phase.id) || p in AsideOf(s.jobs[u].phase)
    ensures p !in Writes(s, a)
  {
    BusyAtCanvas(s, u);
    if p in Writes(s, a) {
      WritesAreMine(s, a, p);
      OthersPathsAreNotMine(s, a.t, u, p);
    }
  }

  lemma OthersKeepPhase(s: State, a: Action, u: Thread)
    requires Inv(s) && Enabled(s, a) && !a.Appear? && u in s.jobs && u != Actor(a)
    ensures PhaseNext(s, a, u, s.jobs[u].phase)
  {
    var phase := s.jobs[u].phase;
    assert PhaseOk(s.hl, s.fs, s.current, s.asides, s.made, u, phase);
    WritesOnly(s, a);
    StaysAt(s, a, u);
    NamesOnlyGrow(s, a);
    if Busy(phase) {
      BusyAtCanvas(s, u);
      if !a.Lock? {
        OthersMissPhase(s, a, u, Canvas(phase.id));
        forall p | p in AsideOf(phase) ensures p !in Writes(s, a) {
          OthersMissPhase(s, a, u, p);
        }
      }
      CurrentElsewhere(s, a, phase.id);
    }
    PhaseFrame(s, NextHl(s, a), NextFs(s, a), Writes(s, a), NextCurrent(s, a), NextAsides(s, a), NextMade(s, a),
               u, phase);
  }

  lemma AppearKeepsPhase(s: State, a: Action, u: Thread, phase: Phase)
    requires Enabled(s, a) && a.Appear? && PhaseOk(s.hl, s.fs, s.current, s.asides, s.made, u, phase)
    ensures PhaseNext(s, a, u, phase)
  {
  }

  lemma FillKeepsPhase(s: State, a: Action)
    requires Enabled(s, a) && a.Fill? && !s.jobs[a.t].staged.value.Canvas?
    requires PhaseOk(s.hl, s.fs, s.current, s.asides, s.made, a.t, s.jobs[a.t].phase)
    ensures PhaseNext(s, a, a.t, NextJob(s, a).phase)
  {
  }

  lemma MoveAsideKeepsPhase(s: State, a: Action)
    requires Enabled(s, a) && a.MoveAside? && CanvasOk(s.fs, s.current, Here(s.hl, a.t))
    ensures PhaseNext(s, a, a.t, NextJob(s, a).phase)
  {
    StaysAt(s, a, a.t);
  }

  lemma RenameInKeepsPhase(s: State, a: Action)
    requires Enabled(s, a) && a.RenameIn?
    requires PhaseOk(s.hl, s.fs, s.current, s.asides, s.made, a.t, s.jobs[a.t].phase)
    requires StagedOk(s.hl, s.fs, s.made, s.asides, a.t, s.jobs[a.t])
    ensures PhaseNext(s, a, a.t, NextJob(s, a).phase)
  {
    StaysAt(s, a, a.t);
  }

  lemma IdleAfter(s: State, a: Action)
    requires Enabled(s, a) && !a.Fill? && !a.StartReading? && !a.MoveAside? && !a.RenameIn?
    ensures NextJob(s, a).phase.Quiet? || NextJob(s, a).phase.Over?
  {
  }

  lemma ActorKeepsPhase(s: State, a: Action)
    requires Inv(s) && Enabled(s, a)
    ensures PhaseNext(s, a, Actor(a), NextJob(s, a).phase)
  {
    if a.Fill? {
      StagedIsMine(s, a.t);
      assert PhaseOk(s.hl, s.fs, s.current, s.asides, s.made, a.t, s.jobs[a.t].phase);
      FillKeepsPhase(s, a);
    } else if a.StartReading? {
      StaysAt(s, a, a.t);
    } else if a.MoveAside? {
      assert CanvasOk(s.fs, s.current, Here(s.hl, a.t));
      MoveAsideKeepsPhase(s, a);
    } else if a.RenameIn? {
      assert PhaseOk(s.hl, s.fs, s.current, s.asides, s.made, a.t, s.jobs[a.t].phase);
      assert StagedOk(s.hl, s.fs, s.made, s.asides, a.t, s.jobs[a.t]);
      RenameInKeepsPhase(s, a);
    } else {
      IdleAfter(s, a);
    }
  }

  lemma StepKeepsPhase(s: State, a: Action, u: Thread)
    requires Inv(s) && Enabled(s, a) && u in Do(s, a).jobs
    ensures PhaseNext(s, a, u, Do(s, a).jobs[u].phase)
  {
    if u == Actor(a) {
      ActorKeepsPhase(s, a);
    } else if a.Appear? {
      assert PhaseOk(s.hl, s.fs, s.current, s.asides, s.made, u, s.jobs[u].phase);
      AppearKeepsPhase(s, a, u, s.jobs[u].phase);
    } else {
      OthersKeepPhase(s, a, u);
    }
  }

  ghost predicate StagedNext(s: State, a: Action, u: Thread, j: Job)
    requires Enabled(s, a)
  {
    StagedOk(NextHl(s, a), NextFs(s, a), NextMade(s, a), NextAsides(s, a), u, j)
  }

  lemma StagedFrame(s: State, hl: HL.State, fs: FS, writes: set<Path>, made: map<Path, Thread>,
                    asides: map<Path, string>, u: Thread, j: Job)
    requires StagedOk(s.hl, s.fs, s.made, s.asides, u, j) && SameExcept(fs, s.fs, writes)
    requires AtSome(hl, u) == AtSome(s.hl, u) && Here(hl, u) == Here(s.hl, u)
    requires forall p :: p in s.made ==> p in made && made[p] == s.made[p]
    requires j.staged.Some? ==> j.staged.value !in writes && j.staged.value !in asides
    ensures StagedOk(hl, fs, made, asides, u, j)
  {
  }

  /** A tree is never moved aside to where another is being staged. */
  lemma StagedNotAside(s: State, a: Action, u: Thread)
    requires Inv(s) && Enabled(s, a) && u in s.jobs && s.jobs[u].staged.Some?
    ensures s.jobs[u].staged.value !in NextAsides(s, a)
    ensures a.MoveAside? ==> s.jobs[u].staged.value != a.aside
  {
    assert StagedOk(s.hl, s.fs, s.made, s.asides, u, s.jobs[u]);
  }

  lemma OthersKeepStaged(s: State, a: Action, u: Thread)
    requires Inv(s) && Enabled(s, a) && u in s.jobs && u != Actor(a)
    ensures StagedNext(s, a, u, s.jobs[u])
  {
    var j := s.jobs[u];
    assert StagedOk(s.hl, s.fs, s.made, s.asides, u, j);
    WritesOnly(s, a);
    NamesOnlyGrow(s, a);
    StaysAt(s, a, u);
    if j.staged.Some? {
      StagedNotAside(s, a, u);
      StagedIsMine(s, u);
      if j.staged.value in Writes(s, a) && !a.Appear? {
        WritesAreMine(s, a, j.staged.value);
        OthersPathsAreNotMine(s, a.t, u, j.staged.value);
      }
    }
    StagedFrame(s, NextHl(s, a), NextFs(s, a), Writes(s, a), NextMade(s, a), NextAsides(s, a), u, j);
  }

  lemma LockKeepsStaged(s: State, a: Action)
    requires Inv(s) && Enabled(s, a) && a.Lock?
    ensures StagedNext(s, a, a.a.t, NextJob(s, a))
  {
    assert !a.a.Begin? ==> StagedOk(s.hl, s.fs, s.made, s.asides, a.a.t, s.jobs[a.a.t]);
  }

  /** What is being staged is not touched by the rest of a handler's work. */
  lemma StagedIsApart(s: State, a: Action)
    requires Inv(s) && Enabled(s, a) && !a.Lock? && s.jobs[a.t].staged.Some?
    requires a.MoveAside? || a.RollBack? || a.Edit? || a.Snapshot? || a.Appear?
    ensures s.jobs[a.t].staged.value !in Writes(s, a)
  {
    StagedIsMine(s, a.t);
    if a.RollBack? {
      assert PhaseOk(s.hl, s.fs, s.current, s.asides, s.made, a.t, s.jobs[a.t].phase);
    } else {
      StagedNotAside(s, a, a.t);
    }
  }

  lemma SwapKeepsStaged(s: State, a: Action)
    requires Inv(s) && Enabled(s, a)
    requires a.MoveAside? || a.RollBack? || a.Edit? || a.Snapshot? || a.Appear?
    ensures StagedNext(s, a, a.t, NextJob(s, a))
  {
    var j := s.jobs[a.t];
    assert StagedOk(s.hl, s.fs, s.made, s.asides, a.t, j);
    WritesOnly(s, a);
    NamesOnlyGrow(s, a);
    StaysAt(s, a, a.t);
    if j.staged.Some? {
      StagedIsApart(s, a);
      StagedNotAside(s, a, a.t);
    }
    StagedFrame(s, NextHl(s, a), NextFs(s, a), Writes(s, a), NextMade(s, a), NextAsides(s, a), a.t, j);
  }

  lemma StagingKeepsStaged(s: State, a: Action)
    requires Enabled(s, a) && !a.Lock? && StagedOk(s.hl, s.fs, s.made, s.asides, a.t, s.jobs[a.t])
    requires NamesOk(s.made, s.asides)
    requires a.MakeStaging? || a.UseTmp? || a.Fill? || a.StartReading? || a.StopReading? || a.RenameIn?
    ensures StagedNext(s, a, a.t, NextJob(s, a))
  {
    StaysAt(s, a, a.t);
  }

  lemma CleanKeepsStaged(s: State, a: Action)
    requires Enabled(s, a) && a.Clean? && StagedOk(s.hl, s.fs, s.made, s.asides, a.t, s.jobs[a.t])
    ensures StagedNext(s, a, a.t, NextJob(s, a))
  {
    StaysAt(s, a, a.t);
  }

  lemma NamesAreOk(s: State)
    requires Inv(s)
    ensures NamesOk(s.made, s.asides)
  {
  }

  lemma ActorKeepsStaged(s: State, a: Action)
    requires Inv(s) && Enabled(s, a)
    ensures StagedNext(s, a, Actor(a), NextJob(s, a))
  {
    if a.Lock? {
      LockKeepsStaged(s, a);
    } else if a.MoveAside? || a.RollBack? || a.Edit? || a.Snapshot? || a.Appear? {
      SwapKeepsStaged(s, a);
    } else {
      HandlerOk(s, a.t);
      NamesAreOk(s);
      if a.Clean? {
        CleanKeepsStaged(s, a);
      } else {
        StagingKeepsStaged(s, a);
      }
    }
  }

  lemma StepKeepsStaged(s: State, a: Action, u: Thread)
    requires Inv(s) && Enabled(s, a) && u in Do(s, a).jobs
    ensures StagedNext(s, a, u, Do(s, a).jobs[u])
  {
    if u == Actor(a) {
      ActorKeepsStaged(s, a);
    } else {
      OthersKeepStaged(s, a, u);
    }
  }

  // ---------------------------------------------------------------- copies

  ghost predicate SourceNext(s: State, a: Action, u: Thread, j: Job)
    requires Enabled(s, a)
  {
    SourceOk(NextHl(s, a), NextFs(s, a), u, j)
  }

  /** A copy at an act holds the locks of both its canvases, which are two. */
  lemma CopyHoldsBoth(s: State, t: Thread, from: string, to: string)
    requires HL.Inv(s.hl) && HL.Serving(s.hl) && AtSome(s.hl, t)
    requires t in s.hl.requests && s.hl.requests[t] == HL.Copy(from, to)
    ensures from != to && HasLock(s, t, from) && HasLock(s, t, to) && Here(s.hl, t) in {from, to}
  {
    assert HL.Serves(s.hl, t);
    HL.CopyHoldsBoth(s.hl, t, from, to);
  }

  /** So nobody else changes its source. */
  lemma SourceStays(s: State, a: Action, u: Thread)
    requires Inv(s) && Enabled(s, a) && AtSome(s.hl, u) && u in s.hl.requests && s.hl.requests[u].Copy?
    requires u != Actor(a) && Canvas(s.hl.requests[u].from) in s.fs
    ensures At(NextFs(s, a), Canvas(s.hl.requests[u].from)) == At(s.fs, Canvas(s.hl.requests[u].from))
  {
    if !a.Appear? {
      var r := s.hl.requests[u];
      CopyHoldsBoth(s, u, r.from, r.to);
      if !a.Lock? && AtCanvas(s.hl, a.t, r.from) {
        AtSomeHasLock(s, a.t);
      }
      CanvasUntouched(s, a, r.from);
    }
  }

  lemma OthersKeepTodo(s: State, a: Action, u: Thread)
    requires Enabled(s, a) && u != Actor(a) && u in s.hl.threads
    ensures u in NextHl(s, a).threads && NextHl(s, a).threads[u] == s.hl.threads[u]
    ensures u in s.hl.requests ==> u in NextHl(s, a).requests && NextHl(s, a).requests[u] == s.hl.requests[u]
  {
    LockStepsLead(s, a);
    if LockSteps(s.hl, a) != [] {
      HL.OthersStay(s.hl, LockSteps(s.hl, a)[0], u);
    }
  }

  lemma OthersKeepSource(s: State, a: Action, u: Thread)
    requires Inv(s) && Enabled(s, a) && u in s.jobs && u != Actor(a)
    ensures SourceNext(s, a, u, s.jobs[u])
  {
    assert SourceOk(s.hl, s.fs, u, s.jobs[u]);
    assert HL.Serves(s.hl, u);
    OthersKeepTodo(s, a, u);
    if s.hl.requests[u].Copy? && s.jobs[u].ready.Some? && HL.ActsOf(s.hl.threads[u].todo) != [] {
      SourceStays(s, a, u);
    }
  }

  /** A handler that goes on from an act to anything but another has no acts left. */
  lemma StepKeepsOwnSource(hl: HL.State, fs: FS, t: Thread, j: Job)
    requires HL.Enabled(hl, HL.Step(t)) && (hl.threads[t].todo.now.Give? ==> hl.threads[t].held != [])
    requires HL.Serves(hl, t) && SourceOk(hl, fs, t, j)
    ensures SourceOk(HL.Do(hl, HL.Step(t)), fs, t, j)
  {
  }

  lemma LeavesReady(job: Job)
    ensures Leaves(job).ready.Some? ==> Leaves(job).ready == job.ready
  {
  }

  lemma LockKeepsSource(s: State, a: Action)
    requires Inv(s) && Enabled(s, a) && a.Lock?
    ensures SourceNext(s, a, a.a.t, NextJob(s, a))
  {
    var t := a.a.t;
    if !a.a.Begin? {
      assert SourceOk(s.hl, s.fs, t, s.jobs[t]);
      assert HL.Serves(s.hl, t);
      LeavesReady(s.jobs[t]);
      if a.a.Bail? {
        HL.UnwindDoesNothing(s.hl.threads[t].held);
      } else {
        StepKeepsOwnSource(s.hl, s.fs, t, s.jobs[t]);
      }
    }
  }

  lemma CopyWritesToTarget(s: State, a: Action, from: string, to: string)
    requires Enabled(s, a) && !a.Lock? && s.hl.requests[a.t] == HL.Copy(from, to) && from != to
    requires s.jobs[a.t].staged.Some? ==> !s.jobs[a.t].staged.value.Canvas?
    requires a.Clean? ==> !a.p.Canvas?
    requires a.RollBack? ==> s.jobs[a.t].phase.id == to && !s.jobs[a.t].phase.aside.Canvas?
    ensures Canvas(from) !in Writes(s, a)
  {
  }

  /** A copy writes to its source in no act of its own. */
  lemma OwnSourceSpared(s: State, a: Action)
    requires Inv(s) && Enabled(s, a) && !a.Lock? && AtSome(s.hl, a.t) && s.hl.requests[a.t].Copy?
    ensures At(NextFs(s, a), Canvas(s.hl.requests[a.t].from)) == At(s.fs, Canvas(s.hl.requests[a.t].from))
  {
    var r := s.hl.requests[a.t];
    CopyHoldsBoth(s, a.t, r.from, r.to);
    CopySwapsItsTarget(s, a.t, r.from, r.to);
    if a.Clean? {
      CleanWritesMine(s, a.t, a.p);
    }
    CopyWritesToTarget(s, a, r.from, r.to);
    WritesOnly(s, a);
  }

  lemma CopySwapsItsTarget(s: State, t: Thread, from: string, to: string)
    requires Inv(s) && t in s.jobs && t in s.hl.requests && s.hl.requests[t] == HL.Copy(from, to)
    ensures s.jobs[t].staged.Some? ==> !s.jobs[t].staged.value.Canvas?
    ensures s.jobs[t].phase.Aside? ==> s.jobs[t].phase.id == to && !s.jobs[t].phase.aside.Canvas?
  {
    HandlerOk(s, t);
  }

  lemma SameTodo(s: State, a: Action)
    requires Enabled(s, a) && !a.Lock?
    ensures NextHl(s, a).threads == s.hl.threads && NextHl(s, a).requests == s.hl.requests
  {
  }

  lemma WalkKeepsSource(s: State, a: Action)
    requires Inv(s) && Enabled(s, a) && a.Fill?
    ensures SourceNext(s, a, a.t, NextJob(s, a))
  {
    assert SourceOk(s.hl, s.fs, a.t, s.jobs[a.t]);
    SameTodo(s, a);
    if s.hl.requests[a.t].Copy? {
      assert PhaseOk(s.hl, s.fs, s.current, s.asides, s.made, a.t, s.jobs[a.t].phase);
      OwnSourceSpared(s, a);
    }
  }

  lemma KeptReady(s: State, a: Action)
    requires Enabled(s, a) && !a.Lock? && !a.Fill?
    ensures NextJob(s, a).ready.Some? ==> NextJob(s, a).ready == s.jobs[a.t].ready
  {
  }

  lemma ActorKeepsSource(s: State, a: Action)
    requires Inv(s) && Enabled(s, a) && !a.Lock? && !a.Fill?
    ensures SourceNext(s, a, a.t, NextJob(s, a))
  {
    assert SourceOk(s.hl, s.fs, a.t, s.jobs[a.t]);
    SameTodo(s, a);
    KeptReady(s, a);
    if s.hl.requests[a.t].Copy? && AtSome(s.hl, a.t) {
      OwnSourceSpared(s, a);
    }
  }

  lemma StepKeepsSource(s: State, a: Action, u: Thread)
    requires Inv(s) && Enabled(s, a) && u in Do(s, a).jobs
    ensures SourceNext(s, a, u, Do(s, a).jobs[u])
  {
    if u != Actor(a) {
      OthersKeepSource(s, a, u);
    } else if a.Lock? {
      LockKeepsSource(s, a);
    } else if a.Fill? {
      WalkKeepsSource(s, a);
    } else {
      ActorKeepsSource(s, a);
    }
  }

  // ---------------------------------------------------------------- where the complete tree is

  ghost predicate PlaceNext(s: State, a: Action, id: string)
    requires Enabled(s, a)
  {
    PlaceOk(NextFs(s, a), NextCurrent(s, a), Do(s, a).jobs, NextStranded(s, a), id)
  }

  /** A handler in the middle of a swap can do nothing but go on with it. */
  lemma HolderGoesOn(s: State, a: Action, id: string, u: Thread)
    requires Enabled(s, a) && u in s.jobs && Holds(s.current, id, s.jobs[u].phase)
    requires SameTree(NextCurrent(s, a), s.current, id)
    requires !(Actor(a) == u && (a.RollBack? || (a.RenameIn? && a.ok)))
    ensures (a.Lock? && a.a.Begin? ==> a.a.t != u) ==>
      u in Do(s, a).jobs && Holds(NextCurrent(s, a), id, Do(s, a).jobs[u].phase)
  {
  }

  lemma KeptInPlace(s: State, a: Action, id: string)
    requires Inv(s) && Enabled(s, a) && id in s.current && SameTree(NextCurrent(s, a), s.current, id)
    requires At(NextFs(s, a), Canvas(id)) == At(s.fs, Canvas(id))
    requires id in s.stranded ==> id in NextStranded(s, a)
    requires !(a.RollBack? || (a.RenameIn? && a.ok)) || !AtCanvas(s.hl, a.t, id)
    ensures PlaceNext(s, a, id)
  {
    assert PlaceOk(s.fs, s.current, s.jobs, s.stranded, id);
    if !InPlace(s.fs, s.current, id) && id !in s.stranded {
      var u :| u in s.jobs && Holds(s.current, id, s.jobs[u].phase);
      BusyAtCanvas(s, u);
      HolderGoesOn(s, a, id, u);
    }
  }

  lemma OnlyHolder(s: State, t: Thread, id: string)
    requires Inv(s) && t in s.jobs && AtCanvas(s.hl, t, id) && id in s.current
    ensures InPlace(s.fs, s.current, id) || id in s.stranded || Holds(s.current, id, s.jobs[t].phase)
  {
    assert PlaceOk(s.fs, s.current, s.jobs, s.stranded, id);
    if !InPlace(s.fs, s.current, id) && id !in s.stranded {
      var u :| u in s.jobs && Holds(s.current, id, s.jobs[u].phase);
      BusyAtCanvas(s, u);
    }
  }

  lemma MoveAsideKeepsPlace(s: State, a: Action, id: string)
    requires Inv(s) && Enabled(s, a) && a.MoveAside? && AtCanvas(s.hl, a.t, id)
    ensures PlaceNext(s, a, id)
  {
    assert CanvasOk(s.fs, s.current, id);
    OnlyHolder(s, a.t, id);
    if id !in s.stranded {
      assert Holds(s.current, id, Do(s, a).jobs[a.t].phase);
    }
  }

  lemma RollBackKeepsPlace(s: State, a: Action, id: string)
    requires Inv(s) && Enabled(s, a) && a.RollBack? && AtCanvas(s.hl, a.t, id)
    ensures PlaceNext(s, a, id)
  {
    assert PhaseOk(s.hl, s.fs, s.current, s.asides, s.made, a.t, s.jobs[a.t].phase);
    OnlyHolder(s, a.t, id);
  }

  lemma ReplacedIsInPlace(s: State, a: Action, id: string)
    requires Inv(s) && Enabled(s, a) && (a.Edit? || (a.RenameIn? && a.ok)) && AtCanvas(s.hl, a.t, id)
    ensures InPlace(NextFs(s, a), NextCurrent(s, a), id)
  {
    assert StagedOk(s.hl, s.fs, s.made, s.asides, a.t, s.jobs[a.t]);
  }

  lemma AppearKeepsPlace(s: State, a: Action, id: string)
    requires Inv(s) && Enabled(s, a) && a.Appear?
    ensures PlaceNext(s, a, id)
  {
    assert CanvasOk(s.fs, s.current, id);
    assert PlaceOk(s.fs, s.current, s.jobs, s.stranded, id);
    if id in s.current && !InPlace(s.fs, s.current, id) && id !in s.stranded {
      var u :| u in s.jobs && Holds(s.current, id, s.jobs[u].phase);
      HolderGoesOn(s, a, id, u);
    }
  }

  lemma StepKeepsPlace(s: State, a: Action, id: string)
    requires Inv(s) && Enabled(s, a)
    ensures PlaceNext(s, a, id)
  {
    if a.Appear? {
      AppearKeepsPlace(s, a, id);
    } else if a.Lock? || !AtCanvas(s.hl, a.t, id) {
      CanvasUntouched(s, a, id);
      CurrentElsewhere(s, a, id);
      if id in s.current {
        KeptInPlace(s, a, id);
      }
    } else if a.Edit? || (a.RenameIn? && a.ok) {
      ReplacedIsInPlace(s, a, id);
    } else if a.MoveAside? {
      MoveAsideKeepsPlace(s, a, id);
    } else if a.RollBack? {
      RollBackKeepsPlace(s, a, id);
    } else {
      CanvasSpared(s, a, id);
      if id in s.current {
        KeptInPlace(s, a, id);
      }
    }
  }

  // ---------------------------------------------------------------- steps and runs

  lemma StepKeepsTrees(s: State, a: Action)
    requires Inv(s) && Enabled(s, a)
    ensures Trees(Do(s, a))
  {
    var s' := Do(s, a);
    SameHandlers(s, a);
    NamesOnlyGrow(s, a);
    forall u | u in s'.jobs ensures PhaseOk(s'.hl, s'.fs, s'.current, s'.asides, s'.made, u, s'.jobs[u].phase) {
      StepKeepsPhase(s, a, u);
    }
    forall u | u in s'.jobs ensures StagedOk(s'.hl, s'.fs, s'.made, s'.asides, u, s'.jobs[u]) {
      StepKeepsStaged(s, a, u);
    }
    forall u | u in s'.jobs ensures SourceOk(s'.hl, s'.fs, u, s'.jobs[u]) {
      StepKeepsSource(s, a, u);
    }
    forall id ensures CanvasOk(s'.fs, s'.current, id) {
      StepKeepsCanvas(s, a, id);
    }
    forall id ensures PlaceOk(s'.fs, s'.current, s'.jobs, s'.stranded, id) {
      StepKeepsPlace(s, a, id);
    }
  }

  lemma StepKeepsInv(s: State, a: Action)
    requires Inv(s) && Enabled(s, a)
    ensures Inv(Do(s, a))
  {
    StepKeepsLocks(s, a);
    StepKeepsTrees(s, a);
  }

  lemma InitHasInv(s: State)
    requires Init(s)
    ensures Inv(s)
  {
    ExclusiveHolds(s.hl);
    forall id ensures CanvasOk(s.fs, s.current, id) && PlaceOk(s.fs, s.current, s.jobs, s.stranded, id) {
      assert At(s.fs, Canvas(id)) == if id in s.current then Some(s.current[id]) else None;
    }
  }

  ghost predicate Runs(s: State, acts: seq<Action>, end: State)
    decreases |acts|
  {
    if acts == [] then s == end else Enabled(s, acts[0]) && Runs(Do(s, acts[0]), acts[1..], end)
  }

  lemma {:induction false} RunKeepsInv(s: State, acts: seq<Action>, end: State)
    requires Inv(s) && Runs(s, acts, end)
    ensures Inv(end)
    decreases |acts|
  {
    if acts != [] {
      StepKeepsInv(s, acts[0]);
      RunKeepsInv(Do(s, acts[0]), acts[1..], end);
    }
  }

  ghost predicate Reachable(s: State) {
    exists init, acts :: Init(init) && Runs(init, acts, s)
  }

  lemma ReachableHasInv(s: State)
    requires Reachable(s)
    ensures Inv(s)
  {
    var init, acts :| Init(init) && Runs(init, acts, s);
    InitHasInv(init);
    RunKeepsInv(init, acts, s);
  }

  // ---------------------------------------------------------------- what a reader of the disk sees

  predicate HasLock(s: State, t: Thread, id: string) {
    HL.Push(id) in s.hl.holder && s.hl.holder[HL.Push(id)] == t
  }

  lemma AtSomeHasLock(s: State, t: Thread)
    requires Inv(s) && AtSome(s.hl, t)
    ensures HasLock(s, t, Here(s.hl, t))
  {
    HL.TouchersHold(s.hl, t);
  }

  /** The holder of the canvas's lock has moved the complete tree aside, where it is. */
  predicate MovedBy(s: State, id: string, t: Thread) {
    && t in s.jobs && Holds(s.current, id, s.jobs[t].phase) && HasLock(s, t, id)
    && At(s.fs, s.jobs[t].phase.aside) == Some(s.current[id]) && !s.jobs[t].phase.aside.Canvas?
  }

  lemma HolderHasMoved(s: State, id: string, t: Thread)
    requires Inv(s) && t in s.jobs && Holds(s.current, id, s.jobs[t].phase)
    ensures MovedBy(s, id, t)
  {
    assert PhaseOk(s.hl, s.fs, s.current, s.asides, s.made, t, s.jobs[t].phase);
    AtSomeHasLock(s, t);
  }

  /** At every moment of every interleaving what is at a canvas's name is its complete tree, or an empty
      directory that a create has made where nothing was; and where the complete tree is not, the holder
      of the canvas's lock is in the middle of a swap, or the last swap could not be rolled back. */
  lemma EveryCanvasIsWhole(s: State, id: string)
    requires Reachable(s)
    ensures Canvas(id) in s.fs ==> id in s.current && s.fs[Canvas(id)] in {s.current[id], EMPTY_DIR}
    ensures id in s.current ==>
      InPlace(s.fs, s.current, id) || id in s.stranded || exists t :: MovedBy(s, id, t)
  {
    ReachableHasInv(s);
    assert CanvasOk(s.fs, s.current, id);
    assert PlaceOk(s.fs, s.current, s.jobs, s.stranded, id);
    if id in s.current && !InPlace(s.fs, s.current, id) && id !in s.stranded {
      var t :| t in s.jobs && Holds(s.current, id, s.jobs[t].phase);
      HolderHasMoved(s, id, t);
    }
  }

  // ---------------------------------------------------------------- who changes a canvas

  /** A canvas's complete tree, or what is in its place, is about to change. */
  predicate Changes(s: State, a: Action, id: string)
    requires Enabled(s, a)
  {
    At(NextFs(s, a), Canvas(id)) != At(s.fs, Canvas(id)) || !SameTree(NextCurrent(s, a), s.current, id)
  }

  lemma ActsAreRecorded(s: State, a: Action)
    requires Enabled(s, a) && OnTree(a) && AtSome(s.hl, a.t)
    ensures Do(s, a).hl.acts == HL.Acted(s.hl, a.t, Here(s.hl, a.t))
  {
  }

  lemma CreateOnlyFillsGaps(s: State, a: Action, id: string)
    requires Inv(s) && Enabled(s, a) && a.Appear? && Changes(s, a, id)
    ensures a.id == id && Canvas(id) !in s.fs && NextFs(s, a) == s.fs[Canvas(id) := EMPTY_DIR]
  {
    assert CanvasOk(s.fs, s.current, id);
  }

  lemma ChangesAreActs(s: State, a: Action, id: string)
    requires Inv(s) && Enabled(s, a) && !a.Appear? && Changes(s, a, id)
    ensures !a.Lock? && OnTree(a) && AtCanvas(s.hl, a.t, id)
  {
    if a.Lock? || !AtCanvas(s.hl, a.t, id) {
      CanvasUntouched(s, a, id);
      CurrentElsewhere(s, a, id);
    } else if !OnTree(a) {
      CanvasSpared(s, a, id);
    }
  }

  /** Only the holder of its push lock changes a canvas, and that is recorded as an act of its
      turn, so that module HandlerLocks orders all changes; but for the empty directory a create
      puts where nothing is. */
  lemma OnlyTheHolderChanges(s: State, a: Action, id: string)
    requires Reachable(s) && Enabled(s, a) && Changes(s, a, id)
    ensures
      || (a.Appear? && a.id == id && Canvas(id) !in s.fs && NextFs(s, a) == s.fs[Canvas(id) := EMPTY_DIR])
      || (!a.Lock? && HasLock(s, a.t, id) && Do(s, a).hl.acts == HL.Acted(s.hl, a.t, id))
  {
    ReachableHasInv(s);
    if a.Appear? {
      CreateOnlyFillsGaps(s, a, id);
    } else {
      ChangesAreActs(s, a, id);
      AtSomeHasLock(s, a.t);
      ActsAreRecorded(s, a);
    }
  }

  lemma {:induction false} LocksRun(s: State, acts: seq<Action>, end: State) returns (locks: seq<HL.Action>)
    requires Runs(s, acts, end)
    ensures HL.Runs(s.hl, locks, end.hl)
    decreases |acts|
  {
    locks := [];
    if acts != [] {
      var rest := LocksRun(Do(s, acts[0]), acts[1..], end);
      var first := LockSteps(s.hl, acts[0]);
      LockStepsLead(s, acts[0]);
      locks := first + rest;
      assert first != [] ==> locks[0] == first[0] && locks[1..] == rest;
      assert first == [] ==> locks == rest;
    }
  }

  /** So the acts that change one canvas come in the order of the turns with its lock, those of one
      turn together. */
  lemma ChangesAreSerial(init: State, acts: seq<Action>, end: State, id: string, i: nat, j: nat)
    requires Init(init) && Runs(init, acts, end) && i <= j < |HL.SeqAt(end.hl.acts, id)|
    ensures var done, turns := HL.SeqAt(end.hl.acts, id), HL.SeqAt(end.hl.sections, id);
      && 0 < done[i].section <= |turns| && turns[done[i].section - 1] == done[i].t
      && done[i].section <= done[j].section
      && (done[i].section == done[j].section ==>
            forall k :: i <= k <= j ==> done[k].section == done[i].section && done[k].t == done[i].t)
  {
    var locks := LocksRun(init, acts, end);
    HL.ActsAreSerial(init.hl, locks, end.hl, id, i, j);
  }

  /** What a copy has staged when its walk ends is what is at its source's name, then and all through
      the walk: its complete tree, unless a create has taken the name of one that is stranded. */
  lemma CopiesAreWhole(s: State, a: Action)
    requires Reachable(s) && Enabled(s, a) && a.Fill? && a.whole && s.jobs[a.t].phase.Reading?
    ensures var id := s.jobs[a.t].phase.id;
      && HasLock(s, a.t, id) && id in s.current
      && NextJob(s, a).ready == At(s.fs, Canvas(id)) == Some(s.jobs[a.t].phase.seen)
      && At(NextFs(s, a), s.jobs[a.t].staged.value) == At(s.fs, Canvas(id))
      && (InPlace(s.fs, s.current, id) || (id in s.stranded && s.fs[Canvas(id)] == EMPTY_DIR))
  {
    ReachableHasInv(s);
    var phase := s.jobs[a.t].phase;
    assert PhaseOk(s.hl, s.fs, s.current, s.asides, s.made, a.t, phase);
    assert CanvasOk(s.fs, s.current, phase.id);
    OnlyHolder(s, a.t, phase.id);
    AtSomeHasLock(s, a.t);
  }

  /** While a copy stands at an act, both its locks have it as holder, and what it walks is its source. */
  lemma CopiesAtWork(s: State, t: Thread, from: string, to: string)
    requires Reachable(s) && AtSome(s.hl, t) && t in s.jobs
    requires t in s.hl.requests && s.hl.requests[t] == HL.Copy(from, to)
    ensures from != to && HasLock(s, t, from) && HasLock(s, t, to) && Here(s.hl, t) in {from, to}
    ensures s.jobs[t].phase.Reading? ==> s.jobs[t].phase.id == from
    ensures s.jobs[t].phase.Aside? ==> s.jobs[t].phase.id == to
  {
    ReachableHasInv(s);
    CopyHoldsBoth(s, t, from, to);
    HandlerOk(s, t);
  }

  /** What a copy's swap puts at its target is the tree its source has, which is there at the moment of
      the swap as it was all through the walk. */
  lemma CopiesPutTheirSource(s: State, a: Action, from: string, to: string)
    requires Reachable(s) && Enabled(s, a) && a.RenameIn? && a.ok && s.hl.requests[a.t] == HL.Copy(from, to)
    ensures Here(s.hl, a.t) == to != from && Canvas(from) in s.fs
    ensures At(NextFs(s, a), Canvas(to)) == At(NextFs(s, a), Canvas(from)) == At(s.fs, Canvas(from))
  {
    ReachableHasInv(s);
    CopyHoldsBoth(s, a.t, from, to);
    HandlerOk(s, a.t);
    assert SourceOk(s.hl, s.fs, a.t, s.jobs[a.t]);
    OwnSourceSpared(s, a);
  }

  /** What a swap moves into place is the handler's own staged tree, whole, whatever the other handlers
      have done since it was staged. */
  lemma SwapsAreWhole(s: State, a: Action)
    requires Reachable(s) && Enabled(s, a) && a.RenameIn? && a.ok
    ensures var id := Here(s.hl, a.t);
      && s.jobs[a.t].ready.Some? && At(s.fs, s.jobs[a.t].staged.value) == s.jobs[a.t].ready
      && At(NextFs(s, a), Canvas(id)) == s.jobs[a.t].ready && InPlace(NextFs(s, a), NextCurrent(s, a), id)
  {
    ReachableHasInv(s);
    assert StagedOk(s.hl, s.fs, s.made, s.asides, a.t, s.jobs[a.t]);
  }

  /** What can come in a complete tree's place: the whole staged tree, or the edit, of the holder of the
      canvas's lock. No create, rollback or removal replaces it. */
  lemma ReplacedExactly(s: State, a: Action, id: string)
    requires Reachable(s) && Enabled(s, a) && id in s.current
    ensures id in NextCurrent(s, a)
    ensures NextCurrent(s, a)[id] != s.current[id] ==>
      && (a.Edit? || (a.RenameIn? && a.ok)) && AtCanvas(s.hl, a.t, id) && HasLock(s, a.t, id)
      && InPlace(NextFs(s, a), NextCurrent(s, a), id)
      && Some(NextCurrent(s, a)[id]) == if a.Edit? then Some(a.tree) else s.jobs[a.t].ready
  {
    CurrentOnlyGrows(s, a, id);
    if NextCurrent(s, a)[id] != s.current[id] {
      ReachableHasInv(s);
      OnlyTheseReplace(s, a, id);
      AtSomeHasLock(s, a.t);
      ReplacedIsInPlace(s, a, id);
    }
  }

  lemma OnlyTheseReplace(s: State, a: Action, id: string)
    requires Enabled(s, a) && id in s.current && id in NextCurrent(s, a) && NextCurrent(s, a)[id] != s.current[id]
    ensures (a.Edit? || (a.RenameIn? && a.ok)) && AtCanvas(s.hl, a.t, id)
  {
  }

  // ---------------------------------------------------------------- a create in the middle of a swap

  predicate IsCreate(a: Action, id: string) {
    a.Appear? && a.id == id
  }

  predicate Created(acts: seq<Action>, id: string) {
    acts != [] && (IsCreate(acts[0], id) || Created(acts[1..], id))
  }

  predicate Ended(phase: Phase) {
    phase.Swapped? || phase.Over?
  }

  lemma EndedStays(s: State, a: Action, t: Thread)
    requires Enabled(s, a) && s.jobs.Keys == s.hl.threads.Keys && t in s.jobs && Ended(s.jobs[t].phase)
    ensures Ended(Do(s, a).jobs[t].phase)
  {
  }

  lemma {:induction false} EndedThroughout(s: State, acts: seq<Action>, end: State, t: Thread)
    requires Inv(s) && Runs(s, acts, end) && t in s.jobs && Ended(s.jobs[t].phase)
    ensures t in end.jobs && Ended(end.jobs[t].phase)
    decreases |acts|
  {
    if acts != [] {
      EndedStays(s, acts[0], t);
      StepKeepsInv(s, acts[0]);
      EndedThroughout(Do(s, acts[0]), acts[1..], end, t);
    }
  }

  /** The same swap, refused or not. */
  predicate SameSwap(p: Phase, q: Phase) {
    p.Aside? && q.Aside? && p.id == q.id && p.aside == q.aside && p.moved == q.moved
  }

  lemma SwapGoesOn(s: State, a: Action, t: Thread)
    requires Enabled(s, a) && s.jobs.Keys == s.hl.threads.Keys && t in s.jobs && s.jobs[t].phase.Aside?
    ensures var next := Do(s, a).jobs[t].phase; SameSwap(next, s.jobs[t].phase) || Ended(next)
    ensures Do(s, a).jobs[t].phase.Aside? && !a.Lock? && a.t == t ==> NextFs(s, a) == s.fs
  {
  }

  lemma AppearTakesTheName(s: State, a: Action, id: string)
    requires Enabled(s, a) && a.Appear?
    ensures Canvas(id) in NextFs(s, a) <==> Canvas(id) in s.fs || a.id == id
  {
  }

  /** While a swap is under way only a create takes the canvas's name. */
  lemma OnlyACreateTakesTheName(s: State, a: Action, t: Thread)
    requires Inv(s) && Enabled(s, a) && t in s.jobs && s.jobs[t].phase.Aside? && Do(s, a).jobs[t].phase.Aside?
    ensures var name := Canvas(s.jobs[t].phase.id);
      name in NextFs(s, a) <==> name in s.fs || IsCreate(a, s.jobs[t].phase.id)
  {
    var id := s.jobs[t].phase.id;
    if a.Appear? {
      AppearTakesTheName(s, a, id);
    } else if !a.Lock? && a.t == t {
      SwapGoesOn(s, a, t);
    } else {
      BusyAtCanvas(s, t);
      CanvasUntouched(s, a, id);
    }
  }

  lemma {:induction false} NameTakenExactly(s: State, acts: seq<Action>, end: State, t: Thread)
    requires Inv(s) && Runs(s, acts, end) && t in s.jobs && s.jobs[t].phase.Aside?
    requires t in end.jobs && end.jobs[t].phase.Aside?
    ensures SameSwap(end.jobs[t].phase, s.jobs[t].phase)
    ensures var id := s.jobs[t].phase.id; Canvas(id) in end.fs <==> Canvas(id) in s.fs || Created(acts, id)
    decreases |acts|
  {
    if acts != [] {
      var next := Do(s, acts[0]);
      SwapGoesOn(s, acts[0], t);
      StepKeepsInv(s, acts[0]);
      if next.jobs[t].phase.Aside? {
        OnlyACreateTakesTheName(s, acts[0], t);
        NameTakenExactly(next, acts[1..], end, t);
      } else {
        EndedThroughout(next, acts[1..], end, t);
      }
    }
  }

  /** From the moment its tree is moved aside: mid is any later moment of the same swap. */
  ghost predicate Swapping(s: State, t: Thread, aside: Path, acts: seq<Action>, mid: State) {
    && Reachable(s) && Enabled(s, MoveAside(t, aside)) && Runs(Do(s, MoveAside(t, aside)), acts, mid)
    && t in mid.jobs && mid.jobs[t].phase.Aside?
  }

  lemma SwapStarts(s: State, t: Thread, aside: Path)
    requires Enabled(s, MoveAside(t, aside)) && aside != Canvas(Here(s.hl, t))
    ensures var id, first := Here(s.hl, t), Do(s, MoveAside(t, aside));
      && t in first.jobs && first.jobs[t].phase == Aside(id, aside, s.fs[Canvas(id)], false)
      && Canvas(id) in s.fs && Canvas(id) !in first.fs
  {
  }

  lemma SwapHasInv(s: State, t: Thread, aside: Path, acts: seq<Action>, mid: State)
    requires Swapping(s, t, aside, acts, mid)
    ensures Inv(s) && Inv(Do(s, MoveAside(t, aside))) && Inv(mid)
  {
    ReachableHasInv(s);
    StepKeepsInv(s, MoveAside(t, aside));
    RunKeepsInv(Do(s, MoveAside(t, aside)), acts, mid);
  }

  lemma SwapSoFar(s: State, t: Thread, aside: Path, acts: seq<Action>, mid: State)
    requires Swapping(s, t, aside, acts, mid)
    ensures Inv(s) && Inv(mid)
    ensures var id := Here(s.hl, t); var p := mid.jobs[t].phase;
      && p.id == id && p.aside == aside && Some(p.moved) == At(s.fs, Canvas(id))
      && (Canvas(id) in mid.fs <==> Created(acts, id))
  {
    SwapHasInv(s, t, aside, acts, mid);
    SwapStarts(s, t, aside);
    NameTakenExactly(Do(s, MoveAside(t, aside)), acts, mid, t);
  }

  lemma HandlerOk(s: State, t: Thread)
    requires Inv(s) && t in s.jobs
    ensures PhaseOk(s.hl, s.fs, s.current, s.asides, s.made, t, s.jobs[t].phase)
    ensures StagedOk(s.hl, s.fs, s.made, s.asides, t, s.jobs[t])
  {
  }

  lemma RenameInOutcome(s: State, t: Thread, ok: bool)
    requires Enabled(s, RenameIn(t, ok)) && StagedOk(s.hl, s.fs, s.made, s.asides, t, s.jobs[t])
    ensures var name := Canvas(Here(s.hl, t));
      && (Enabled(s, RenameIn(t, true)) <==> name !in s.fs)
      && (NextFaults(s, RenameIn(t, ok)) == s.faults ==> (ok <==> name !in s.fs))
      && (ok ==> At(NextFs(s, RenameIn(t, ok)), name) == s.jobs[t].ready)
  {
  }

  lemma RollBackOutcome(s: State, t: Thread, ok: bool)
    requires Enabled(s, RollBack(t, ok))
    requires PhaseOk(s.hl, s.fs, s.current, s.asides, s.made, t, s.jobs[t].phase)
    ensures var p, after := s.jobs[t].phase, NextFs(s, RollBack(t, ok));
      && (Enabled(s, RollBack(t, true)) <==> Canvas(p.id) !in s.fs)
      && (NextFaults(s, RollBack(t, ok)) == s.faults ==> (ok <==> Canvas(p.id) !in s.fs))
      && if ok then At(after, Canvas(p.id)) == Some(p.moved)
         else && At(after, p.aside) == Some(p.moved)
              && At(after, Canvas(p.id)) == if Canvas(p.id) in s.fs then Some(EMPTY_DIR) else None
  {
  }

  /** Whatever all handlers do meanwhile, a swap can put its tree in place, and without a fault does,
      exactly when no create has taken the canvas's name since the old tree was moved aside. */
  lemma SwapSucceedsExactly(s: State, t: Thread, aside: Path, acts: seq<Action>, mid: State, ok: bool)
    requires Swapping(s, t, aside, acts, mid) && Enabled(mid, RenameIn(t, ok))
    ensures Enabled(mid, RenameIn(t, true)) <==> !Created(acts, Here(s.hl, t))
    ensures NextFaults(mid, RenameIn(t, ok)) == mid.faults ==> (ok <==> !Created(acts, Here(s.hl, t)))
    ensures ok ==> At(NextFs(mid, RenameIn(t, ok)), Canvas(Here(s.hl, t))) == mid.jobs[t].ready
  {
    SwapSoFar(s, t, aside, acts, mid);
    BusyAtCanvas(mid, t);
    HandlerOk(mid, t);
    RenameInOutcome(mid, t, ok);
  }

  /** The same of the rollback of a refused swap. If it works the canvas is as the swap found it; if
      not, its name is taken by a create's empty directory, or is free and there was a fault, and
      the old tree is where it was moved. */
  lemma RollBackWorksExactly(s: State, t: Thread, aside: Path, acts: seq<Action>, mid: State, ok: bool)
    requires Swapping(s, t, aside, acts, mid) && Enabled(mid, RollBack(t, ok))
    ensures Enabled(mid, RollBack(t, true)) <==> !Created(acts, Here(s.hl, t))
    ensures NextFaults(mid, RollBack(t, ok)) == mid.faults ==> (ok <==> !Created(acts, Here(s.hl, t)))
    ensures var id, after := Here(s.hl, t), NextFs(mid, RollBack(t, ok));
      if ok then At(after, Canvas(id)) == At(s.fs, Canvas(id))
      else && At(after, aside) == At(s.fs, Canvas(id))
           && At(after, Canvas(id)) == if Created(acts, id) then Some(EMPTY_DIR) else None
  {
    SwapSoFar(s, t, aside, acts, mid);
    HandlerOk(mid, t);
    RollBackOutcome(mid, t, ok);
  }

  // ---------------------------------------------------------------- what is never lost

  /** The complete tree is at p, one of the canvas's own names. */
  predicate KeptAt(s: State, id: string, p: Path) {
    id in s.current && IsHome(s.asides, id, p) && At(s.fs, p) == Some(s.current[id])
  }

  ghost predicate Safe(s: State, id: string) {
    exists p :: KeptAt(s, id, p)
  }

  /** Outside its canvas a handler writes to none of the names a canvas's trees are moved to. */
  lemma HomesElsewhere(s: State, a: Action, id: string, p: Path)
    requires Inv(s) && Enabled(s, a) && !a.Lock? && !AtCanvas(s.hl, a.t, id) && KeptAt(s, id, p)
    ensures p !in Writes(s, a)
  {
    if p.Staging? {
      AsidesElsewhere(s, a, id, p);
    } else if p in Writes(s, a) && !a.Appear? {
      WritesAreMine(s, a, p);
    }
  }

  lemma AsidesElsewhere(s: State, a: Action, id: string, p: Path)
    requires Inv(s) && Enabled(s, a) && !a.Lock? && !AtCanvas(s.hl, a.t, id) && KeptAt(s, id, p) && p.Staging?
    ensures p !in Writes(s, a)
  {
    if a.Fill? || a.RenameIn? {
      StagedIsMine(s, a.t);
    } else if a.RollBack? {
      assert PhaseOk(s.hl, s.fs, s.current, s.asides, s.made, a.t, s.jobs[a.t].phase);
    } else if a.Clean? {
      CleanElsewhere(s, a.t, a.p, id, p);
    }
  }

  lemma CleanElsewhere(s: State, t: Thread, q: Path, id: string, p: Path)
    requires Inv(s) && t in s.jobs && MayClean(s, t, q) && !AtCanvas(s.hl, t, id) && KeptAt(s, id, p) && p.Staging?
    ensures p != q
  {
    if s.jobs[t].staged == Some(q) {
      StagedIsMine(s, t);
    }
    assert PhaseOk(s.hl, s.fs, s.current, s.asides, s.made, t, s.jobs[t].phase);
  }

  lemma UnwrittenIsKept(s: State, a: Action, id: string, p: Path)
    requires Inv(s) && Enabled(s, a) && KeptAt(s, id, p) && p !in Writes(s, a)
    requires SameTree(NextCurrent(s, a), s.current, id)
    ensures KeptAt(Do(s, a), id, p)
  {
    WritesOnly(s, a);
    NamesOnlyGrow(s, a);
  }

  lemma AppearKeepsHome(s: State, a: Action, id: string, p: Path)
    requires Inv(s) && Enabled(s, a) && a.Appear? && KeptAt(s, id, p)
    ensures KeptAt(Do(s, a), id, p)
  {
    UnwrittenIsKept(s, a, id, p);
  }

  /** A move within the canvas's own names takes the tree along. */
  lemma MoveKeepsHome(s: State, a: Action, id: string, p: Path)
    requires Inv(s) && Enabled(s, a) && (a.MoveAside? || a.RollBack?) && AtCanvas(s.hl, a.t, id) && KeptAt(s, id, p)
    ensures Safe(Do(s, a), id)
  {
    if p !in Writes(s, a) {
      UnwrittenIsKept(s, a, id, p);
    } else if a.MoveAside? {
      MovedAsideIsKept(s, a, id);
    } else {
      BusyAtCanvas(s, a.t);
      RolledBackIsKept(s, a, id);
    }
  }

  lemma RolledBackIsKept(s: State, a: Action, id: string)
    requires Enabled(s, a) && a.RollBack? && a.ok && s.jobs[a.t].phase.id == id
    requires KeptAt(s, id, s.jobs[a.t].phase.aside)
    ensures KeptAt(Do(s, a), id, Canvas(id))
  {
  }

  lemma MovedAsideIsKept(s: State, a: Action, id: string)
    requires Enabled(s, a) && a.MoveAside? && AtCanvas(s.hl, a.t, id) && KeptAt(s, id, Canvas(id))
    ensures KeptAt(Do(s, a), id, a.aside)
  {
  }

  /** Removing the complete tree at the name reverts move it to. */
  predicate Clears(s: State, a: Action, id: string) {
    a.Clean? && a.p == RevertOld(id) && KeptAt(s, id, a.p) && a.left != Some(s.current[id])
  }

  lemma CleanKeepsHome(s: State, a: Action, id: string, p: Path)
    requires Inv(s) && Enabled(s, a) && a.Clean? && AtCanvas(s.hl, a.t, id) && KeptAt(s, id, p)
    ensures KeptAt(Do(s, a), id, p) || KeptAt(Do(s, a), id, Canvas(id)) || (Clears(s, a, id) && p == a.p)
  {
    CleanWritesMine(s, a.t, a.p);
    if p != a.p {
      UnwrittenIsKept(s, a, id, p);
    } else if s.jobs[a.t].phase.Swapped? {
      assert PhaseOk(s.hl, s.fs, s.current, s.asides, s.made, a.t, s.jobs[a.t].phase);
      UnwrittenIsKept(s, a, id, Canvas(id));
    } else {
      StagedIsNoHome(s, a.t, id);
    }
  }

  lemma StagedIsNoHome(s: State, t: Thread, id: string)
    requires Inv(s) && t in s.jobs
    ensures s.jobs[t].staged.Some? ==> !IsHome(s.asides, id, s.jobs[t].staged.value)
  {
    if s.jobs[t].staged.Some? {
      StagedIsMine(s, t);
    }
  }

  lemma ReplacingKeepsHome(s: State, a: Action, id: string)
    requires Inv(s) && Enabled(s, a) && (a.Edit? || (a.RenameIn? && a.ok)) && AtCanvas(s.hl, a.t, id)
    ensures KeptAt(Do(s, a), id, Canvas(id))
  {
    ReplacedIsInPlace(s, a, id);
  }

  lemma OtherActsKeepHome(s: State, a: Action, id: string, p: Path)
    requires Inv(s) && Enabled(s, a) && KeptAt(s, id, p) && !a.Appear? && !a.Edit? && !a.Clean?
    requires Swaps(a) ==> a.RenameIn? && !a.ok
    ensures KeptAt(Do(s, a), id, p)
  {
    CanvasSpared(s, a, id);
    if a.Fill? {
      StagedIsMine(s, a.t);
    }
    UnwrittenIsKept(s, a, id, p);
  }

  lemma HomeKept(s: State, a: Action, id: string, p: Path)
    requires Inv(s) && Enabled(s, a) && KeptAt(s, id, p)
    ensures Safe(Do(s, a), id) || (Clears(s, a, id) && p == a.p)
  {
    if a.Appear? {
      AppearKeepsHome(s, a, id, p);
    } else if !a.Lock? && !AtCanvas(s.hl, a.t, id) {
      HomesElsewhere(s, a, id, p);
      CurrentElsewhere(s, a, id);
      UnwrittenIsKept(s, a, id, p);
    } else if a.Edit? || (a.RenameIn? && a.ok) {
      ReplacingKeepsHome(s, a, id);
    } else if a.MoveAside? || a.RollBack? {
      MoveKeepsHome(s, a, id, p);
    } else if a.Clean? {
      CleanKeepsHome(s, a, id, p);
    } else {
      OtherActsKeepHome(s, a, id, p);
    }
  }

  /** A removal of the complete tree at the revert's name when it is at no other of the canvas's: its
      canvas is empty, or absent. */
  ghost predicate ClearsTheLast(s: State, a: Action, id: string) {
    Clears(s, a, id) && forall p :: KeptAt(s, id, p) ==> p == RevertOld(id)
  }

  lemma ClearedIsLost(s: State, a: Action, id: string)
    requires Enabled(s, a) && ClearsTheLast(s, a, id)
    ensures !Safe(Do(s, a), id)
  {
    forall p ensures !KeptAt(Do(s, a), id, p) {
      if p != RevertOld(id) {
        assert !KeptAt(s, id, p);
      }
    }
  }

  lemma LostStep(s: State, a: Action, id: string)
    requires Inv(s) && Enabled(s, a) && Safe(s, id)
    ensures !Safe(Do(s, a), id) <==> ClearsTheLast(s, a, id)
  {
    if ClearsTheLast(s, a, id) {
      ClearedIsLost(s, a, id);
    } else {
      var p :| KeptAt(s, id, p) && (Clears(s, a, id) ==> p != RevertOld(id));
      HomeKept(s, a, id, p);
    }
  }

  /** Whatever any handler does, a complete tree is no longer at any of its canvas's names exactly if a
      revert has removed it from the name reverts move it to, where alone it was. That revert holds the
      canvas's lock and has staged nothing yet, and the rollback of an earlier swap has failed. */
  lemma LostExactly(s: State, a: Action, id: string)
    requires Reachable(s) && Enabled(s, a) && Safe(s, id)
    ensures !Safe(Do(s, a), id) <==> ClearsTheLast(s, a, id)
    ensures ClearsTheLast(s, a, id) ==> HasLock(s, a.t, id) && Reverting(s, a.t) && id in s.stranded
    ensures ClearsTheLast(s, a, id) && Canvas(id) in s.fs ==> s.fs[Canvas(id)] == EMPTY_DIR
  {
    ReachableHasInv(s);
    LostStep(s, a, id);
    if ClearsTheLast(s, a, id) {
      ClearedByARevert(s, a, id);
    }
  }

  lemma ClearedByARevert(s: State, a: Action, id: string)
    requires Inv(s) && Enabled(s, a) && ClearsTheLast(s, a, id)
    ensures HasLock(s, a.t, id) && Reverting(s, a.t) && id in s.stranded
    ensures Canvas(id) in s.fs ==> s.fs[Canvas(id)] == EMPTY_DIR
  {
    CleanWritesMine(s, a.t, a.p);
    AtSomeHasLock(s, a.t);
    assert !KeptAt(s, id, Canvas(id));
    assert CanvasOk(s.fs, s.current, id);
    if s.jobs[a.t].staged == Some(a.p) {
      StagedIsMine(s, a.t);
    }
    assert PhaseOk(s.hl, s.fs, s.current, s.asides, s.made, a.t, s.jobs[a.t].phase);
    OnlyHolder(s, a.t, id);
  }

  predicate Somewhere(fs: FS, tree: Tree, p: Path) {
    At(fs, p) == Some(tree)
  }

  /** Nor is it left anywhere on the disk, exactly if what that revert has removed was the only copy. */
  lemma GoneExactly(s: State, a: Action, id: string)
    requires Reachable(s) && Enabled(s, a) && Safe(s, id)
    ensures id in NextCurrent(s, a)
    ensures !(exists p :: Somewhere(NextFs(s, a), NextCurrent(s, a)[id], p)) <==>
      && a.Clean? && a.p == RevertOld(id) && a.left != Some(s.current[id])
      && forall p :: Somewhere(s.fs, s.current[id], p) ==> p == RevertOld(id)
  {
    var home :| KeptAt(s, id, home);
    if exists q :: KeptAt(Do(s, a), id, q) {
      var q :| KeptAt(Do(s, a), id, q);
      assert Somewhere(NextFs(s, a), NextCurrent(s, a)[id], q);
      if a.Clean? && a.p == RevertOld(id) && a.left != Some(s.current[id]) {
        assert q != RevertOld(id) && Somewhere(s.fs, s.current[id], q);
      }
    } else {
      LostExactly(s, a, id);
      forall p | p != RevertOld(id)
        ensures Somewhere(NextFs(s, a), NextCurrent(s, a)[id], p) <==> Somewhere(s.fs, s.current[id], p)
      {
      }
      assert Somewhere(s.fs, s.current[id], RevertOld(id));
    }
  }

  ghost predicate SafeThroughout(s: State, acts: seq<Action>, id: string)
    decreases |acts|
  {
    && (id in s.current ==> Safe(s, id))
    && (acts == [] || (Enabled(s, acts[0]) && SafeThroughout(Do(s, acts[0]), acts[1..], id)))
  }

  ghost predicate NeverCleared(s: State, acts: seq<Action>, id: string)
    decreases |acts|
  {
    acts == [] ||
    (!ClearsTheLast(s, acts[0], id) && (Enabled(s, acts[0]) ==> NeverCleared(Do(s, acts[0]), acts[1..], id)))
  }

  lemma FirstTreeIsSafe(s: State, a: Action, id: string)
    requires Inv(s) && Enabled(s, a) && id !in s.current && id in NextCurrent(s, a)
    ensures Safe(Do(s, a), id)
  {
    assert CanvasOk(s.fs, s.current, id);
    if a.RenameIn? || a.Edit? {
      ReplacedIsInPlace(s, a, id);
    }
    assert KeptAt(Do(s, a), id, Canvas(id));
  }

  lemma CurrentOnlyGrows(s: State, a: Action, id: string)
    requires Enabled(s, a) && id in s.current
    ensures id in NextCurrent(s, a)
  {
  }

  lemma {:induction false} SafeAlong(s: State, acts: seq<Action>, end: State, id: string)
    requires Inv(s) && Runs(s, acts, end) && (id in s.current ==> Safe(s, id))
    ensures SafeThroughout(s, acts, id) <==> NeverCleared(s, acts, id)
    decreases |acts|
  {
    if acts != [] {
      var next := Do(s, acts[0]);
      StepKeepsInv(s, acts[0]);
      if id in s.current {
        CurrentOnlyGrows(s, acts[0], id);
        LostStep(s, acts[0], id);
      } else if id in next.current {
        FirstTreeIsSafe(s, acts[0], id);
      }
      if id in next.current ==> Safe(next, id) {
        SafeAlong(next, acts[1..], end, id);
      }
    }
  }

  /** So over every run each canvas's complete tree is at every moment at one of its names, exactly if
      no revert ever clears the last of them. */
  lemma SafeThroughoutExactly(init: State, acts: seq<Action>, end: State, id: string)
    requires Init(init) && Runs(init, acts, end)
    ensures SafeThroughout(init, acts, id) <==> NeverCleared(init, acts, id)
  {
    InitHasInv(init);
    if id in init.current {
      assert KeptAt(init, id, Canvas(id));
    }
    SafeAlong(init, acts, end, id);
  }

  // ---------------------------------------------------------------- and how it is lost

  /** A handler that has staged the tree it is about to put in place. */
  predicate Ready(s: State, t: Thread, id: string) {
    && t in s.hl.requests && Replaces(s.hl.requests[t], id) && t in s.jobs && AtCanvas(s.hl, t, id)
    && s.jobs[t].phase.Quiet? && s.jobs[t].staged.Some? && s.jobs[t].ready.Some?
    && Canvas(id) in s.fs && CanvasOk(s.fs, s.current, id)
  }

  lemma RunTwo(s: State, a: Action, b: Action)
    requires Enabled(s, a) && Enabled(Do(s, a), b)
    ensures Runs(s, [a, b], Do(Do(s, a), b))
  {
    assert Runs(Do(s, a), [b], Do(Do(s, a), b));
  }

  /** Nothing but the disk, and what one handler is at, has changed. */
  predicate OnlyDisk(after: State, before: State, t: Thread, id: string) {
    && after.current == before.current && id in after.current
    && after.jobs.Keys == before.jobs.Keys
    && (forall u :: u in before.jobs && u != t ==> after.jobs[u] == before.jobs[u])
    && after.hl.threads == before.hl.threads && after.hl.holder == before.hl.holder
    && after.hl.requests == before.hl.requests
  }

  /** The old tree is aside, and this is at its place; nobody has failed yet. */
  predicate Away(s: State, t: Thread, id: string, aside: Path, tree: Tree, name: Option<Tree>) {
    && t in s.hl.requests && Replaces(s.hl.requests[t], id)
    && t in s.jobs && AtCanvas(s.hl, t, id) && s.jobs[t].phase == Aside(id, aside, tree, false)
    && s.jobs[t].staged.Some? && s.jobs[t].ready.Some? && id in s.current
    && At(s.fs, Canvas(id)) == name && At(s.fs, aside) == Some(tree)
  }

  lemma AfterMovingAside(s: State, t: Thread, id: string, aside: Path) returns (mid: State)
    requires Ready(s, t, id) && Enabled(s, MoveAside(t, aside))
    ensures Runs(s, [MoveAside(t, aside)], mid) && Away(mid, t, id, aside, s.fs[Canvas(id)], None)
    ensures mid.faults == s.faults && OnlyDisk(mid, s, t, id) && SameExcept(mid.fs, s.fs, {Canvas(id), aside})
    ensures aside == RevertOld(id) ==> mid.asides == s.asides
  {
    mid := Do(s, MoveAside(t, aside));
  }

  lemma AfterACreate(s: State, t: Thread, id: string, aside: Path, tree: Tree, c: Thread) returns (mid: State)
    requires Away(s, t, id, aside, tree, None) && Bystander(s, t, c, id)
    ensures Runs(s, [Appear(c, id)], mid) && Away(mid, t, id, aside, tree, Some(EMPTY_DIR))
    ensures mid.faults == s.faults && OnlyDisk(mid, s, t, id) && mid.asides == s.asides
    ensures SameExcept(mid.fs, s.fs, {Canvas(id)})
  {
    mid := Do(s, Appear(c, id));
  }

  /** Both renames are refused: by what is at the canvas's name, or by faults. */
  lemma AfterRefusal(s: State, t: Thread, id: string, aside: Path, tree: Tree, name: Option<Tree>) returns (mid: State)
    requires Away(s, t, id, aside, tree, name)
    ensures Runs(s, [RenameIn(t, false), RollBack(t, false)], mid)
    ensures mid.fs == s.fs && mid.faults == s.faults + (if name.Some? then 0 else 2)
    ensures OnlyDisk(mid, s, t, id) && mid.asides == s.asides && mid.jobs[t].phase.Over?
  {
    RefusedSwap(s, t, id, aside, tree, name);
    mid := Do(Do(s, RenameIn(t, false)), RollBack(t, false));
    RunTwo(s, RenameIn(t, false), RollBack(t, false));
  }

  lemma RefusedSwap(s: State, t: Thread, id: string, aside: Path, tree: Tree, name: Option<Tree>)
    requires Away(s, t, id, aside, tree, name)
    ensures Enabled(s, RenameIn(t, false))
    ensures var next := Do(s, RenameIn(t, false));
      && next.fs == s.fs && next.faults == s.faults + (if name.Some? then 0 else 1)
      && OnlyDisk(next, s, t, id) && next.asides == s.asides
      && AtCanvas(next.hl, t, id) && next.jobs[t].phase == Aside(id, aside, tree, true)
  {
  }

  predicate Bystander(s: State, t: Thread, c: Thread, id: string) {
    && c in s.jobs && c != t && s.jobs[c].phase.Quiet?
    && c in s.hl.requests && s.hl.requests[c].OnlyMeta? && s.hl.requests[c].id == id
  }

  /** A create in the middle of a swap stops it with no fault at all: the canvas is left an empty
      directory, and its tree at the name it was moved to. */
  lemma CreateStopsASwap(s: State, t: Thread, id: string, aside: Path, c: Thread)
    returns (away: State, taken: State, end: State)
    requires Reachable(s) && Ready(s, t, id) && Enabled(s, MoveAside(t, aside)) && Bystander(s, t, c, id)
    ensures Runs(s, [MoveAside(t, aside)], away) && Runs(away, [Appear(c, id)], taken)
    ensures Runs(taken, [RenameIn(t, false), RollBack(t, false)], end) && end.faults == s.faults
    ensures At(end.fs, Canvas(id)) == Some(EMPTY_DIR) && At(end.fs, aside) == At(s.fs, Canvas(id))
  {
    var tree := s.fs[Canvas(id)];
    away := AfterMovingAside(s, t, id, aside);
    taken := AfterACreate(away, t, id, aside, tree, c);
    end := AfterRefusal(taken, t, id, aside, tree, Some(EMPTY_DIR));
  }

  /** A second handler that waits for the first one's lock, and then acts on the canvas. */
  predicate Waiting(s: State, t: Thread, u: Thread, id: string) {
    && u in s.jobs && u != t && s.jobs[u] == IDLE && u in s.hl.threads
    && u in s.hl.requests && s.hl.requests[u].Single?
    && s.hl.threads[u].todo.Then? && s.hl.threads[u].todo.now == HL.Take(HL.Push(id))
    && s.hl.threads[u].todo.rest.Then? && s.hl.threads[u].todo.rest.now == HL.Touch(id)
  }

  /** The first handler returns early and gives its lock back, and the second takes it. */
  function HandOver(t: Thread, u: Thread): seq<Action> {
    [Lock(HL.Bail(t)), Lock(HL.Step(t)), Lock(HL.Step(u))]
  }

  lemma Bails(s: State, t: Thread, id: string)
    requires t in s.jobs && AtCanvas(s.hl, t, id) && s.jobs[t].phase.Over? && s.hl.threads[t].held == [HL.Push(id)]
    ensures Enabled(s, Lock(HL.Bail(t)))
    ensures var next := Do(s, Lock(HL.Bail(t)));
      && SameDisk(next, s) && next.jobs[t].phase.Over?
      && (forall x :: x in s.jobs && x != t ==> next.jobs[x] == s.jobs[x])
      && next.hl.holder == s.hl.holder
      && next.hl.threads == s.hl.threads[t := HL.Local([HL.Push(id)], HL.Then(HL.Give(HL.Push(id)), HL.Done))]
  {
    assert [HL.Push(id)][..0] == [] && HL.Unwind([]) == HL.Done;
    assert HL.Unwind([HL.Push(id)]) == HL.Then(HL.Give(HL.Push(id)), HL.Unwind([HL.Push(id)][..0]));
  }

  predicate SameDisk(after: State, before: State) {
    && after.fs == before.fs && after.faults == before.faults && after.current == before.current
    && after.asides == before.asides && after.stranded == before.stranded && after.jobs.Keys == before.jobs.Keys
    && after.hl.requests == before.hl.requests
  }

  lemma GivesBack(s: State, t: Thread, id: string)
    requires t in s.jobs && t in s.hl.threads && s.jobs[t].phase.Over?
    requires s.hl.threads[t] == HL.Local([HL.Push(id)], HL.Then(HL.Give(HL.Push(id)), HL.Done))
    ensures Enabled(s, Lock(HL.Step(t)))
    ensures var next := Do(s, Lock(HL.Step(t)));
      && SameDisk(next, s) && (forall x :: x in s.jobs && x != t ==> next.jobs[x] == s.jobs[x])
      && next.hl.holder == s.hl.holder - {HL.Push(id)}
      && forall x :: x in s.hl.threads && x != t ==> x in next.hl.threads && next.hl.threads[x] == s.hl.threads[x]
  {
  }

  lemma Takes(s: State, t: Thread, u: Thread, id: string)
    requires Waiting(s, t, u, id) && HL.Push(id) !in s.hl.holder
    ensures Enabled(s, Lock(HL.Step(u)))
    ensures var next := Do(s, Lock(HL.Step(u)));
      SameDisk(next, s) && u in next.jobs && next.jobs[u] == Job(None, None, Quiet) && AtCanvas(next.hl, u, id)
  {
  }

  lemma AfterHandOver(s: State, t: Thread, u: Thread, id: string) returns (end: State)
    requires t in s.jobs && AtCanvas(s.hl, t, id) && s.jobs[t].phase.Over? && s.hl.threads[t].held == [HL.Push(id)]
    requires Waiting(s, t, u, id)
    ensures Runs(s, HandOver(t, u), end)
    ensures SameDisk(end, s) && u in end.jobs && end.jobs[u] == Job(None, None, Quiet) && AtCanvas(end.hl, u, id)
  {
    Bails(s, t, id);
    var bailed := Do(s, Lock(HL.Bail(t)));
    GivesBack(bailed, t, id);
    var given := Do(bailed, Lock(HL.Step(t)));
    Takes(given, t, u, id);
    end := Do(given, Lock(HL.Step(u)));
    RunTwo(bailed, Lock(HL.Step(t)), Lock(HL.Step(u)));
    assert HandOver(t, u)[1..] == [Lock(HL.Step(t)), Lock(HL.Step(u))];
  }

  lemma AfterClearing(s: State, u: Thread, id: string) returns (end: State)
    requires u in s.jobs && s.jobs[u] == IDLE && AtCanvas(s.hl, u, id)
    requires u in s.hl.requests && s.hl.requests[u].Single?
    requires id in s.current && forall p :: KeptAt(s, id, p) ==> p == RevertOld(id)
    ensures Runs(s, [UseTmp(u), Clean(u, RevertOld(id), None)], end) && !Safe(end, id)
    ensures end.faults == s.faults && end.current == s.current && At(end.fs, Canvas(id)) == At(s.fs, Canvas(id))
  {
    end := Do(Do(s, UseTmp(u)), Clean(u, RevertOld(id), None));
    RunTwo(s, UseTmp(u), Clean(u, RevertOld(id), None));
    forall p ensures !KeptAt(end, id, p) {
      if p != RevertOld(id) {
        assert !KeptAt(s, id, p);
      }
    }
  }

  ghost predicate OnlyAt(s: State, id: string, p: Path) {
    forall q :: KeptAt(s, id, q) ==> q == p
  }

  /** The create, if there is one, and the two refused renames. */
  lemma AfterAFailedRevert(s: State, t: Thread, id: string, create: Option<Thread>)
    returns (away: State, taken: State, failed: State)
    requires Ready(s, t, id) && Enabled(s, MoveAside(t, RevertOld(id))) && InPlace(s.fs, s.current, id)
    requires OnlyAt(s, id, Canvas(id))
    requires create.Some? ==> Bystander(s, t, create.value, id) && s.current[id] != EMPTY_DIR
    ensures Runs(s, [MoveAside(t, RevertOld(id))], away)
    ensures Runs(away, if create.Some? then [Appear(create.value, id)] else [], taken)
    ensures Runs(taken, [RenameIn(t, false), RollBack(t, false)], failed)
    ensures failed.faults == s.faults + (if create.Some? then 0 else 2)
    ensures OnlyDisk(failed, s, t, id) && failed.jobs[t].phase.Over? && OnlyAt(failed, id, RevertOld(id))
    ensures At(failed.fs, Canvas(id)) == if create.Some? then Some(EMPTY_DIR) else None
  {
    var tree := s.fs[Canvas(id)];
    away := AfterMovingAside(s, t, id, RevertOld(id));
    var name := None;
    taken := away;
    if create.Some? {
      taken := AfterACreate(away, t, id, RevertOld(id), tree, create.value);
      name := Some(EMPTY_DIR);
    }
    failed := AfterRefusal(taken, t, id, RevertOld(id), tree, name);
    OnlyAtTheBackup(s, failed, t, id);
  }

  lemma OnlyAtTheBackup(s: State, failed: State, t: Thread, id: string)
    requires OnlyAt(s, id, Canvas(id)) && InPlace(s.fs, s.current, id) && OnlyDisk(failed, s, t, id)
    requires SameExcept(failed.fs, s.fs, {Canvas(id), RevertOld(id)}) && failed.asides == s.asides
    requires Canvas(id) in failed.fs ==> failed.fs[Canvas(id)] == EMPTY_DIR != s.current[id]
    ensures OnlyAt(failed, id, RevertOld(id))
  {
    forall q | KeptAt(failed, id, q) ensures q == RevertOld(id) {
      if q != Canvas(id) && q != RevertOld(id) {
        assert KeptAt(s, id, q);
      }
    }
  }

  /** So two reverts lose a canvas's tree, wherever the first may start: it moves the tree aside, its
      renames are refused, by a create or by two faults, and it returns; the second one clears the name.
      With a create there need be no fault. */
  lemma StrandedTreeIsLost(s: State, t: Thread, u: Thread, id: string, create: Option<Thread>)
    returns (away: State, taken: State, failed: State, handed: State, end: State)
    requires Reachable(s) && Ready(s, t, id) && Enabled(s, MoveAside(t, RevertOld(id))) && Waiting(s, t, u, id)
    requires InPlace(s.fs, s.current, id) && OnlyAt(s, id, Canvas(id)) && s.hl.threads[t].held == [HL.Push(id)]
    requires create.Some? ==> Bystander(s, t, create.value, id) && s.current[id] != EMPTY_DIR
    ensures Runs(s, [MoveAside(t, RevertOld(id))], away)
    ensures Runs(away, if create.Some? then [Appear(create.value, id)] else [], taken)
    ensures Runs(taken, [RenameIn(t, false), RollBack(t, false)], failed)
    ensures Runs(failed, HandOver(t, u), handed)
    ensures Runs(handed, [UseTmp(u), Clean(u, RevertOld(id), None)], end)
    ensures end.current == s.current && !Safe(end, id)
    ensures end.faults == s.faults + (if create.Some? then 0 else 2)
    ensures At(end.fs, Canvas(id)) == if create.Some? then Some(EMPTY_DIR) else None
  {
    away, taken, failed := AfterAFailedRevert(s, t, id, create);
    handed, end := AfterASecondRevert(failed, t, u, id);
  }

  lemma AfterASecondRevert(s: State, t: Thread, u: Thread, id: string) returns (handed: State, end: State)
    requires t in s.jobs && AtCanvas(s.hl, t, id) && s.jobs[t].phase.Over? && s.hl.threads[t].held == [HL.Push(id)]
    requires Waiting(s, t, u, id) && id in s.current && OnlyAt(s, id, RevertOld(id))
    ensures Runs(s, HandOver(t, u), handed)
    ensures Runs(handed, [UseTmp(u), Clean(u, RevertOld(id), None)], end)
    ensures end.current == s.current && !Safe(end, id) && end.faults == s.faults
    ensures At(end.fs, Canvas(id)) == At(s.fs, Canvas(id))
  {
    handed := AfterHandOver(s, t, u, id);
    assert forall q :: KeptAt(handed, id, q) ==> KeptAt(s, id, q);
    end := AfterClearing(handed, u, id);
  }

  // ---------------------------------------------------------------- deadlock freedom

  /** How many calls a walk or a swap still takes if they fail. */
  function CallsLeft(phase: Phase): nat {
    match phase
    case Aside(_, _, _, refused) => if refused then 1 else 2
    case Reading(_, _) => 1
    case _ => 0
  }

  lemma CanGoOn(s: State, u: Thread) returns (a: Action)
    requires Inv(s) && u in s.jobs && MidSwap(s.jobs[u].phase)
    ensures Enabled(s, a) && !a.Lock? && a.t == u && CallsLeft(NextJob(s, a).phase) < CallsLeft(s.jobs[u].phase)
  {
    BusyAtCanvas(s, u);
    assert StagedOk(s.hl, s.fs, s.made, s.asides, u, s.jobs[u]);
    match s.jobs[u].phase
    case Reading(_, _) => a := StopReading(u);
    case Aside(_, _, _, refused) => a := if refused then RollBack(u, false) else RenameIn(u, false);
  }

  lemma GivesWhatItHolds(hl: HL.State, u: Thread)
    requires HL.Inv(hl) && u in hl.threads && hl.threads[u].todo != HL.Done && hl.threads[u].todo.now.Give?
    ensures hl.threads[u].held != []
  {
    assert HL.LocalOk(hl.holder, u, hl.threads[u]);
  }

  /** No state is stuck: a handler in the middle of a walk or a swap can end it, and otherwise the
      locks let some handler go on. */
  lemma NeverStuck(s: State, t: Thread) returns (a: Action)
    requires Reachable(s) && t in s.hl.threads && s.hl.threads[t].todo != HL.Done
    ensures Enabled(s, a)
    ensures if a.Lock? then a.a.Step? else CallsLeft(NextJob(s, a).phase) < CallsLeft(s.jobs[a.t].phase)
  {
    ReachableHasInv(s);
    var u := HL.SomeoneCanStep(s.hl, t, {});
    if MidSwap(s.jobs[u].phase) {
      a := CanGoOn(s, u);
    } else {
      a := Lock(HL.Step(u));
      if s.hl.threads[u].todo.now.Give? {
        GivesWhatItHolds(s.hl, u);
      }
    }
  }

  // ---------------------------------------------------------------- a state these speak of

  lemma RunCons(s: State, a: Action, acts: seq<Action>, end: State)
    requires Enabled(s, a) && Runs(Do(s, a), acts, end)
    ensures Runs(s, [a] + acts, end)
  {
    assert ([a] + acts)[1..] == acts;
  }

  lemma {:induction false} RunSnoc(s: State, acts: seq<Action>, mid: State, a: Action)
    requires Runs(s, acts, mid) && Enabled(mid, a)
    ensures Runs(s, acts + [a], Do(mid, a))
    decreases |acts|
  {
    if acts == [] {
      RunCons(s, a, [], Do(s, a));
      assert acts + [a] == [a] + [];
    } else {
      var first, rest := acts[0], acts[1..];
      RunSnoc(Do(s, first), rest, mid, a);
      RunCons(s, first, rest + [a], Do(mid, a));
      assert acts + [a] == [first] + (rest + [a]);
    }
  }

  lemma ReachableStep(s: State, a: Action)
    requires Reachable(s) && Enabled(s, a)
    ensures Reachable(Do(s, a))
  {
    var init, acts :| Init(init) && Runs(init, acts, s);
    RunSnoc(init, acts, s, a);
  }

  const FIRST: Thread := HL.Thread(0)
  const SECOND: Thread := HL.Thread(1)
  const THIRD: Thread := HL.Thread(2)

  function Inside(id: string): HL.Todo {
    HL.Then(HL.Touch(id), HL.Then(HL.Give(HL.Push(id)), HL.Done))
  }

  lemma OneActScript(id: string)
    ensures HL.Script(HL.Single(id, 1)) == HL.Then(HL.Other, HL.Then(HL.Take(HL.Push(id)), Inside(id)))
  {
    var give := HL.Then(HL.Give(HL.Push(id)), HL.Done);
    assert HL.Touches(id, 0, give) == give;
    assert HL.Touches(id, 1, give) == Inside(id);
  }

  /** With this handler as well, which has staged nothing. */
  function WithThread(s: State, t: Thread, r: HL.Request, l: HL.Local): State {
    s.(hl := s.hl.(threads := s.hl.threads[t := l], requests := s.hl.requests[t := r]), jobs := s.jobs[t := IDLE])
  }

  lemma BeginsNext(s: State, t: Thread, r: HL.Request)
    requires t !in s.hl.threads
    ensures Enabled(s, Lock(HL.Begin(t, r)))
    ensures Do(s, Lock(HL.Begin(t, r))) == WithThread(s, t, r, HL.Local([], HL.Script(r)))
  {
  }

  lemma GoesOnNext(s: State, t: Thread, r: HL.Request, rest: HL.Todo)
    requires t in s.jobs && s.jobs[t] == IDLE && t in s.hl.threads && t in s.hl.requests && s.hl.requests[t] == r
    requires s.hl.threads[t] == HL.Local([], HL.Then(HL.Other, rest))
    ensures Enabled(s, Lock(HL.Step(t)))
    ensures Do(s, Lock(HL.Step(t))) == WithThread(s, t, r, HL.Local([], rest))
  {
    assert s.jobs[t := IDLE] == s.jobs;
    assert s.hl.requests[t := r] == s.hl.requests;
  }

  lemma EntersNext(s: State, t: Thread, id: string, rest: HL.Todo)
    requires t in s.jobs && s.jobs[t] == IDLE && t in s.hl.threads && HL.Push(id) !in s.hl.holder
    requires s.hl.threads[t] == HL.Local([], HL.Then(HL.Take(HL.Push(id)), rest))
    ensures Enabled(s, Lock(HL.Step(t)))
    ensures var next := Do(s, Lock(HL.Step(t)));
      && SameDisk(next, s) && next.jobs == s.jobs
      && next.hl.threads == s.hl.threads[t := HL.Local([HL.Push(id)], rest)]
  {
    assert s.jobs[t := IDLE] == s.jobs;
    assert [] + [HL.Push(id)] == [HL.Push(id)];
  }

  lemma UsesTmpNext(s: State, t: Thread, id: string)
    requires t in s.jobs && s.jobs[t] == IDLE && AtCanvas(s.hl, t, id)
    requires t in s.hl.requests && s.hl.requests[t].Single?
    ensures Enabled(s, UseTmp(t))
    ensures Do(s, UseTmp(t)) == s.(jobs := s.jobs[t := Job(Some(RevertTmp(id)), None, Quiet)])
  {
  }

  lemma FillsNext(s: State, t: Thread, p: Path, tree: Tree)
    requires t in s.jobs && s.jobs[t] == Job(Some(p), None, Quiet) && t in s.hl.requests && !s.hl.requests[t].Copy?
    ensures Enabled(s, Fill(t, tree, true))
    ensures Do(s, Fill(t, tree, true)) ==
      s.(fs := s.fs[p := tree], jobs := s.jobs[t := Job(Some(p), Some(tree), Quiet)])
  {
  }

  lemma Twice(s: State, t: Thread, r: HL.Request, l: HL.Local, m: HL.Local)
    ensures WithThread(WithThread(s, t, r, l), t, r, m) == WithThread(s, t, r, m)
  {
    assert s.jobs[t := IDLE][t := IDLE] == s.jobs[t := IDLE];
    assert s.hl.threads[t := l][t := m] == s.hl.threads[t := m];
    assert s.hl.requests[t := r][t := r] == s.hl.requests[t := r];
  }

  lemma Begins(s: State, t: Thread, r: HL.Request) returns (next: State)
    requires Reachable(s) && t !in s.hl.threads
    ensures Reachable(next) && next == WithThread(s, t, r, HL.Local([], HL.Script(r)))
  {
    BeginsNext(s, t, r);
    ReachableStep(s, Lock(HL.Begin(t, r)));
    next := WithThread(s, t, r, HL.Local([], HL.Script(r)));
  }

  /** A handler of one act begins, and goes on to its push lock. */
  lemma Comes(s: State, t: Thread, id: string) returns (next: State)
    requires Reachable(s) && t !in s.hl.threads
    ensures Reachable(next)
    ensures next == WithThread(s, t, HL.Single(id, 1), HL.Local([], HL.Then(HL.Take(HL.Push(id)), Inside(id))))
  {
    var r, rest := HL.Single(id, 1), HL.Then(HL.Take(HL.Push(id)), Inside(id));
    OneActScript(id);
    var begun := Begins(s, t, r);
    GoesOnNext(begun, t, r, rest);
    ReachableStep(begun, Lock(HL.Step(t)));
    next := WithThread(begun, t, r, HL.Local([], rest));
    Twice(s, t, r, HL.Local([], HL.Script(r)), HL.Local([], rest));
  }

  lemma Names(s: State, t: Thread, id: string) returns (next: State)
    requires Reachable(s) && t in s.jobs && s.jobs[t] == IDLE && AtCanvas(s.hl, t, id)
    requires t in s.hl.requests && s.hl.requests[t].Single?
    ensures Reachable(next) && next == s.(jobs := s.jobs[t := Job(Some(RevertTmp(id)), None, Quiet)])
  {
    UsesTmpNext(s, t, id);
    ReachableStep(s, UseTmp(t));
    next := Do(s, UseTmp(t));
  }

  lemma Stages(s: State, t: Thread, p: Path, tree: Tree) returns (next: State)
    requires Reachable(s) && t in s.jobs && s.jobs[t] == Job(Some(p), None, Quiet)
    requires t in s.hl.requests && !s.hl.requests[t].Copy?
    ensures Reachable(next)
    ensures next == s.(fs := s.fs[p := tree], jobs := s.jobs[t := Job(Some(p), Some(tree), Quiet)])
  {
    FillsNext(s, t, p, tree);
    ReachableStep(s, Fill(t, tree, true));
    next := Do(s, Fill(t, tree, true));
  }

  /** One canvas and nobody at it. */
  function Start(id: string, was: Tree): State {
    State(HL.State(map[], map[], map[], map[], map[]), map[Canvas(id) := was], map[], map[], 0, map[id := was],
          map[], {})
  }

  predicate SameFiles(after: State, before: State) {
    after.fs == before.fs && after.current == before.current && after.asides == before.asides
  }

  /** Two handlers of one act, and a create of the same canvas. */
  predicate Serving(hl: HL.State, id: string) {
    && FIRST in hl.requests && hl.requests[FIRST] == HL.Single(id, 1)
    && SECOND in hl.requests && hl.requests[SECOND] == HL.Single(id, 1)
    && THIRD in hl.requests && hl.requests[THIRD] == HL.OnlyMeta(id, 1)
  }

  predicate JobsAre(jobs: map<Thread, Job>, first: Job) {
    && FIRST in jobs && jobs[FIRST] == first && SECOND in jobs && jobs[SECOND] == IDLE
    && THIRD in jobs && jobs[THIRD] == IDLE
  }

  lemma AllCome(id: string, was: Tree) returns (s: State)
    ensures Reachable(s) && SameFiles(s, Start(id, was)) && s.hl.holder == map[]
    ensures Serving(s.hl, id) && JobsAre(s.jobs, IDLE)
    ensures var queued := HL.Local([], HL.Then(HL.Take(HL.Push(id)), Inside(id)));
      && FIRST in s.hl.threads && s.hl.threads[FIRST] == queued
      && SECOND in s.hl.threads && s.hl.threads[SECOND] == queued
  {
    s := Start(id, was);
    assert Init(s) && Runs(s, [], s);
    s := Comes(s, FIRST, id);
    s := Comes(s, SECOND, id);
    s := Begins(s, THIRD, HL.OnlyMeta(id, 1));
  }

  /** One handler at the canvas, the other waiting for its lock. */
  predicate OneWaits(hl: HL.State, id: string) {
    && FIRST in hl.threads && hl.threads[FIRST] == HL.Local([HL.Push(id)], Inside(id))
    && SECOND in hl.threads && hl.threads[SECOND] == HL.Local([], HL.Then(HL.Take(HL.Push(id)), Inside(id)))
  }

  lemma FirstEnters(id: string, was: Tree) returns (s: State)
    ensures Reachable(s) && SameFiles(s, Start(id, was)) && OneWaits(s.hl, id)
    ensures Serving(s.hl, id) && JobsAre(s.jobs, IDLE)
  {
    var all := AllCome(id, was);
    EntersNext(all, FIRST, id, Inside(id));
    ReachableStep(all, Lock(HL.Step(FIRST)));
    s := Do(all, Lock(HL.Step(FIRST)));
  }

  lemma FirstNames(id: string, was: Tree) returns (s: State)
    ensures Reachable(s) && SameFiles(s, Start(id, was)) && OneWaits(s.hl, id)
    ensures Serving(s.hl, id) && JobsAre(s.jobs, Job(Some(RevertTmp(id)), None, Quiet))
  {
    var entered := FirstEnters(id, was);
    assert AtCanvas(entered.hl, FIRST, id);
    s := Names(entered, FIRST, id);
  }

  lemma FirstStages(id: string, was: Tree, staged: Tree) returns (s: State)
    ensures Reachable(s) && OneWaits(s.hl, id) && Serving(s.hl, id)
    ensures JobsAre(s.jobs, Job(Some(RevertTmp(id)), Some(staged), Quiet))
    ensures s.fs == map[Canvas(id) := was][RevertTmp(id) := staged] && s.current == map[id := was] && s.asides == map[]
  {
    var named := FirstNames(id, was);
    s := Stages(named, FIRST, RevertTmp(id), staged);
  }

  /** One canvas, a revert of it about to start its swap, a second handler waiting for its lock and a
      create beside them: the run of StrandedTreeIsLost can begin, with that create or two faults. */
  lemma ALossCanBegin(id: string, was: Tree, staged: Tree) returns (s: State)
    ensures Reachable(s) && Ready(s, FIRST, id) && Enabled(s, MoveAside(FIRST, RevertOld(id)))
    ensures Waiting(s, FIRST, SECOND, id) && Bystander(s, FIRST, THIRD, id)
    ensures InPlace(s.fs, s.current, id) && s.current[id] == was && OnlyAt(s, id, Canvas(id))
    ensures s.hl.threads[FIRST].held == [HL.Push(id)]
  {
    s := FirstStages(id, was, staged);
  }
}
