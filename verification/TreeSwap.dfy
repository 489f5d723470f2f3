/** The hub's push and copy handlers as they change canvas trees, each run under the locks of the
    canvases it touches (module HandlerLocks): stage the new tree, move the old one aside, rename
    the new one in, and back again if that fails. */
module TreeSwap {
  import opened Prelude
  import opened SnapshotNames
  import opened FileSystem
  import opened Snapshots
  import CanvasMeta
  import TreeWalk
  import PushArchive

  /** Nothing that was there before is changed, but for these paths; what is new is under the
      staging root. */
  ghost predicate OnlyTouches(after: FS, before: FS, paths: set<Path>) {
    && (forall p :: p in before && p !in paths ==> p in after && after[p] == before[p])
    && (forall p :: p in after && p !in before && p !in paths ==> p.Staging?)
  }

  /** No staging name is left that was not there before, or only this one. */
  ghost predicate Tidy(after: FS, before: FS, kept: Option<Path>) {
    forall p :: p in after && p.Staging? ==> p in before || kept == Some(p)
  }

  /** The old tree in place, or whole aside while nothing is in place. */
  ghost predicate OldTreeSafe(fs: FS, id: string, aside: Option<Path>, was: Option<Tree>) {
    At(fs, Canvas(id)) == was || (Canvas(id) !in fs && aside.Some? && At(fs, aside.value) == was)
  }

  /** At every moment the canvas is its complete old tree, or its complete new one, or absent with
      the old one whole aside. */
  ghost predicate NeverTorn(past: seq<FS>, from: nat, id: string, aside: Option<Path>, was: Option<Tree>,
                            ok: bool, tree: Option<Tree>)
  {
    forall i :: from <= i < |past| ==>
      OldTreeSafe(past[i], id, aside, was) || (ok && At(past[i], Canvas(id)) == tree)
  }

  /** How a swap ends: the complete new tree, or the old one untouched; only when the rename and
      its rollback both fail is the canvas absent, with the old tree whole aside. */
  ghost predicate Swapped(before: FS, after: FS, id: string, staging: Path, aside: Option<Path>,
                          ok: bool, rollbackFailed: bool)
  {
    && OnlyTouches(after, before, {Canvas(id), staging})
    && (ok ==> !rollbackFailed && At(after, Canvas(id)) == At(before, staging) && staging !in after)
    && (!ok ==> At(after, staging) == At(before, staging))
    && (!ok && !rollbackFailed ==> At(after, Canvas(id)) == At(before, Canvas(id)))
    && (rollbackFailed ==> !ok && Canvas(id) !in after && aside.Some?)
    && (rollbackFailed ==> At(after, aside.value) == At(before, Canvas(id)))
    && (aside.Some? ==> aside.value.Staging? && aside.value !in before)
  }

  /** Reserving a name for the old tree: MkdirTemp, then RemoveAll of the directory it made. */
  method ReserveAside(disk: Disk) returns (aside: Option<Path>)
    modifies disk
    ensures aside.Some? ==> aside.value.Staging? && aside.value !in old(disk.fs) && disk.fs == old(disk.fs)
    ensures OnlyTouches(disk.fs, old(disk.fs), {})
    ensures old(disk.past) <= disk.past
    ensures forall i :: |old(disk.past)| <= i < |disk.past| ==> OnlyTouches(disk.past[i], old(disk.fs), {})
    ensures disk.faults >= old(disk.faults) && (aside.None? ==> disk.faults > old(disk.faults))
    ensures 0 <= disk.unremoved - old(disk.unremoved) <= disk.faults - old(disk.faults)
    ensures disk.unremoved == old(disk.unremoved) ==> disk.fs == old(disk.fs)
    ensures aside.Some? ==> disk.faults == old(disk.faults)
  {
    var tmp := disk.MkdirTemp();
    if tmp.None? {
      return None;
    }
    var ok := disk.RemoveAll(tmp.value);
    if !ok {
      return None;
    }
    assert disk.fs == old(disk.fs);
    aside := tmp;
  }

  /** The swap itself. hadCanvas: there is an old tree to move aside first. */
  method Swap(disk: Disk, id: string, staging: Path, hadCanvas: bool)
    returns (ok: bool, rollbackFailed: bool, aside: Option<Path>)
    requires staging.Staging? && staging in disk.fs && disk.fs[staging].Dir?
    modifies disk
    ensures Swapped(old(disk.fs), disk.fs, id, staging, aside, ok, rollbackFailed)
    ensures ok ==> (Canvas(id) in old(disk.fs) <==> hadCanvas)
    ensures old(disk.past) <= disk.past
    ensures NeverTorn(disk.past, |old(disk.past)|, id, aside, At(old(disk.fs), Canvas(id)), ok,
      At(old(disk.fs), staging))
    ensures disk.faults >= old(disk.faults)
    ensures !ok && (Canvas(id) in old(disk.fs) <==> hadCanvas) ==> disk.faults > old(disk.faults)
    ensures rollbackFailed ==> disk.faults > old(disk.faults)
    ensures ok ==> disk.faults - old(disk.faults) == disk.unremoved - old(disk.unremoved)
    ensures 0 <= disk.unremoved - old(disk.unremoved) <= disk.faults - old(disk.faults)
    ensures disk.unremoved == old(disk.unremoved) ==>
      Tidy(disk.fs, old(disk.fs), if rollbackFailed then aside else None)
  {
    ok, rollbackFailed, aside := false, false, None;
    if hadCanvas {
      aside := ReserveAside(disk);
      if aside.None? {
        return;
      }
      var moved := disk.Rename(Canvas(id), aside.value);
      if !moved.Renamed? {
        return;
      }
    }
    var swapped := disk.Rename(staging, Canvas(id));
    if !swapped.Renamed? {
      if hadCanvas {
        var restored := disk.Rename(aside.value, Canvas(id));
        rollbackFailed := !restored.Renamed?;
      }
      return;
    }
    ok := true;
    if hadCanvas {
      var _ := disk.RemoveAll(aside.value);
    }
  }

  // ---------------------------------------------------------------- push

  /** The same for a whole handler, which makes its own staging directory. */
  ghost predicate Replaced(before: FS, after: FS, id: string, aside: Option<Path>, tree: Option<Tree>,
                           ok: bool, rollbackFailed: bool)
  {
    && (ok ==> !rollbackFailed && At(after, Canvas(id)) == tree)
    && (!ok && !rollbackFailed ==> At(after, Canvas(id)) == At(before, Canvas(id)))
    && (rollbackFailed ==> !ok && Canvas(id) !in after && aside.Some?)
    && (rollbackFailed ==> At(after, aside.value) == At(before, Canvas(id)))
    && (aside.Some? ==> aside.value.Staging? && aside.value !in before)
  }

  lemma StillWhole(past: seq<FS>, from: nat, mid: nat, id: string, aside: Option<Path>, was: Option<Tree>,
                   ok: bool, tree: Option<Tree>)
    requires from <= mid <= |past| && NeverTorn(past, mid, id, aside, was, ok, tree)
    requires forall i :: from <= i < mid ==> At(past[i], Canvas(id)) == was
    ensures NeverTorn(past, from, id, aside, was, ok, tree)
  {
  }

  /** The swap and, if it failed, the deferred removal of the staging directory. */
  method SwapAndClean(disk: Disk, id: string, staging: Path, hadCanvas: bool)
    returns (ok: bool, rollbackFailed: bool, aside: Option<Path>)
    requires staging.Staging? && staging in disk.fs && disk.fs[staging].Dir?
    modifies disk
    ensures OnlyTouches(disk.fs, old(disk.fs), {Canvas(id), staging})
    ensures Replaced(old(disk.fs), disk.fs, id, aside, At(old(disk.fs), staging), ok, rollbackFailed)
    ensures ok ==> (Canvas(id) in old(disk.fs) <==> hadCanvas)
    ensures old(disk.past) <= disk.past
    ensures NeverTorn(disk.past, |old(disk.past)|, id, aside, At(old(disk.fs), Canvas(id)), ok,
      At(old(disk.fs), staging))
    ensures disk.faults >= old(disk.faults)
    ensures !ok && (Canvas(id) in old(disk.fs) <==> hadCanvas) ==> disk.faults > old(disk.faults)
    ensures rollbackFailed ==> disk.faults > old(disk.faults)
    ensures ok ==> disk.faults - old(disk.faults) == disk.unremoved - old(disk.unremoved)
    ensures 0 <= disk.unremoved - old(disk.unremoved) <= disk.faults - old(disk.faults)
    ensures disk.unremoved == old(disk.unremoved) ==>
      Tidy(disk.fs, old(disk.fs), if rollbackFailed then aside else None) && staging !in disk.fs
  {
    ok, rollbackFailed, aside := Swap(disk, id, staging, hadCanvas);
    if !ok {
      var _ := disk.RemoveAll(staging);
    }
  }

  /** handlePush: tree is what the archive extracts to, None if extraction refuses it. Whatever
      fails, and at whatever moment the run stops, the canvas is its complete old tree or the
      complete new one, or for a moment absent with the old one whole aside; nothing else that was
      there is touched. With no faults a push of an accepted archive succeeds, and none does in which
      anything but a removal has failed. If no removal has, nothing new is left under the staging
      root but the old tree of a failed rollback. */
  method Push(disk: Disk, id: string, tree: Option<Tree>) returns (ok: bool, rollbackFailed: bool, aside: Option<Path>)
    requires tree.Some? ==> tree.value.Dir?
    modifies disk
    ensures OnlyTouches(disk.fs, old(disk.fs), {Canvas(id)})
    ensures Replaced(old(disk.fs), disk.fs, id, aside, tree, ok, rollbackFailed)
    ensures old(disk.past) <= disk.past
    ensures NeverTorn(disk.past, |old(disk.past)|, id, aside, At(old(disk.fs), Canvas(id)), ok, tree)
    ensures disk.faults == old(disk.faults) ==> (ok <==> CanvasMeta.ValidId(id) && tree.Some?)
    ensures disk.faults >= old(disk.faults) && (ok ==> CanvasMeta.ValidId(id) && tree.Some?)
    ensures ok ==> disk.faults - old(disk.faults) == disk.unremoved - old(disk.unremoved)
    ensures disk.faults == old(disk.faults) ==> disk.unremoved == old(disk.unremoved) && !rollbackFailed
    ensures disk.unremoved == old(disk.unremoved) ==>
      Tidy(disk.fs, old(disk.fs), if rollbackFailed then aside else None)
  {
    ok, rollbackFailed, aside := false, false, None;
    if !CanvasMeta.ValidId(id) {
      return;
    }
    var staging := disk.MkdirTemp();
    if staging.None? {
      return;
    }
    if tree.None? {
      var _ := disk.RemoveAll(staging.value);
      return;
    }
    var filled := disk.Fill(staging.value, tree.value);
    if !filled {
      var _ := disk.RemoveAll(staging.value);
      return;
    }
    var canvas := disk.Stat(Canvas(id));
    if canvas.Unknown? {
      var _ := disk.RemoveAll(staging.value);
      return;
    }
    ghost var mid := |disk.past|;
    ok, rollbackFailed, aside := SwapAndClean(disk, id, staging.value, canvas.Present?);
    StillWhole(disk.past, |old(disk.past)|, mid, id, aside, At(old(disk.fs), Canvas(id)), ok, tree);
  }

  // ---------------------------------------------------------------- from a packed tree to a canvas

  /** The flat contents of a directory. */
  function Contents(tree: TreeWalk.Tree): TreeWalk.Flat
    requires tree.Dir?
  {
    map[[] := TreeWalk.DirNode] + TreeWalk.FlatForest([], tree.kids, true)
  }

  lemma {:induction false} PrunedIsOrdinary(at: TreeWalk.Path, f: TreeWalk.Forest)
    ensures TreeWalk.AllOrdinary(PushArchive.Pruned(f))
    ensures TreeWalk.FlatForest(at, PushArchive.Pruned(f), true) == TreeWalk.FlatForest(at, f, false)
    decreases f
  {
    if f.Kid? {
      PrunedIsOrdinary(at, f.rest);
      if f.tree.Dir? {
        PrunedIsOrdinary(at + [f.name], f.tree.kids);
      }
    }
  }

  /** A push of what Pack makes of a directory. With no faults it succeeds exactly when the caps
      allow, and then the canvas holds exactly that directory's regular files and directories:
      what the extraction of the archive leaves under the staging root. */
  method PushPacked(disk: Disk, id: string, f: TreeWalk.Forest, root: string, maxBytes: nat, maxEntries: nat,
                    ghost io: nat -> TreeWalk.Fault)
    returns (ok: bool, rollbackFailed: bool, aside: Option<Path>)
    requires TreeWalk.ForestOk(f) && PushArchive.GoodRoot(root) && TreeWalk.AllFine(io)
    modifies disk
    ensures OnlyTouches(disk.fs, old(disk.fs), {Canvas(id)})
    ensures disk.faults == old(disk.faults) ==>
      (ok <==> CanvasMeta.ValidId(id) && PushArchive.PushFits(f, maxBytes, maxEntries))
    ensures disk.faults == old(disk.faults) ==> disk.unremoved == old(disk.unremoved) && !rollbackFailed
    ensures disk.unremoved == old(disk.unremoved) ==>
      Tidy(disk.fs, old(disk.fs), if rollbackFailed then aside else None)
    ensures ok ==> Canvas(id) in disk.fs && disk.fs[Canvas(id)].Dir?
    ensures ok ==> Contents(disk.fs[Canvas(id)]) == map[[] := TreeWalk.DirNode] + TreeWalk.FlatForest([], f, false)
    ensures ok ==>
      var run := PushArchive.Extract(PushArchive.PushRules(maxBytes, maxEntries), PushArchive.Into(root),
                                     TreeWalk.START, PushArchive.PackForest([], f), io);
      run.Going? && run.p.fs == Contents(disk.fs[Canvas(id)])
  {
    PrunedIsOrdinary([], f);
    PushArchive.PushRoundTrip(root, f, maxBytes, maxEntries, io);
    var tree: Option<Tree> :=
      if PushArchive.PushFits(f, maxBytes, maxEntries) then Some(TreeWalk.Dir(PushArchive.Pruned(f))) else None;
    ok, rollbackFailed, aside := Push(disk, id, tree);
  }

  // ---------------------------------------------------------------- copy

  const PRECOPY := "precopy"

  lemma PrecopyIsALabel()
    ensures ValidLabel(PRECOPY)
  {
  }

  /** The snapshot of an overwritten target holds its old tree. */
  predicate TargetSaved(before: FS, after: FS, to: string, saved: string) {
    Version(to, saved) !in before ==> At(after, Version(to, saved)) == At(before, Canvas(to))
  }

  /** How a copy ends. replaced: the target was there. Success means the target is the source's
      tree, that nothing was overwritten unasked, and that what was overwritten is in a snapshot. */
  ghost predicate Copied(before: FS, after: FS, from: string, to: string, overwrite: bool, saved: string,
                         ok: bool, replaced: bool, rollbackFailed: bool, aside: Option<Path>)
  {
    && OnlyTouches(after, before, {Canvas(to), Version(to, saved)})
    && Replaced(before, after, to, aside, At(before, Canvas(from)), ok, rollbackFailed)
    && (ok ==> from != to && Canvas(from) in before && (Canvas(to) in before <==> replaced) && (replaced ==> overwrite))
    && (ok && replaced ==> before[Canvas(to)].Dir? && TargetSaved(before, after, to, saved))
    && (!replaced ==> At(after, Version(to, saved)) == At(before, Version(to, saved)))
  }

  /** The copy up to the swap: the source's tree staged, and the target's own tree in a snapshot. */
  method StageCopy(disk: Disk, to: string, tree: Tree, copyable: bool, target: bool, saved: string)
    returns (staging: Option<Path>)
    requires tree.Dir?
    modifies disk
    ensures OnlyTouches(disk.fs, old(disk.fs), {Version(to, saved)})
    ensures staging.Some? ==>
      copyable && staging.value.Staging? && staging.value !in old(disk.fs) && At(disk.fs, staging.value) == Some(tree)
    ensures staging.Some? && target ==>
      Canvas(to) in old(disk.fs) && old(disk.fs)[Canvas(to)].Dir? && TargetSaved(old(disk.fs), disk.fs, to, saved)
    ensures !target ==> At(disk.fs, Version(to, saved)) == At(old(disk.fs), Version(to, saved))
    ensures old(disk.past) <= disk.past
    ensures forall i :: |old(disk.past)| <= i < |disk.past| ==>
      At(disk.past[i], Canvas(to)) == At(old(disk.fs), Canvas(to))
    ensures disk.faults >= old(disk.faults)
    ensures 0 <= disk.unremoved - old(disk.unremoved) <= disk.faults - old(disk.faults)
    ensures disk.unremoved == old(disk.unremoved) ==> Tidy(disk.fs, old(disk.fs), staging)
    ensures staging.None? && copyable ==>
      disk.faults > old(disk.faults)
      || (target && (!CanCreate(old(disk.fs), to, PRECOPY) || Version(to, saved) in old(disk.fs)))
  {
    staging := disk.MkdirTemp();
    if staging.None? {
      return;
    }
    var filled := disk.Fill(staging.value, tree);
    filled := filled && copyable;
    if filled && target {
      var made := CreateNamed(disk, to, PRECOPY, saved);
      filled := made.Ok?;
    }
    if !filled {
      var _ := disk.RemoveAll(staging.value);
      staging := None;
    }
  }

  /** Whether dircopy takes the source: files and directories within its caps, by what is proved of
      it in PushArchive.CopyIsExact. */
  predicate Copyable(tree: Tree, maxBytes: nat, maxEntries: nat)
    requires tree.Dir?
  {
    && TreeWalk.ForestTakes(PushArchive.PushRules(maxBytes, maxEntries), tree.kids)
    && TreeWalk.ForestItems(tree.kids) <= maxEntries && TreeWalk.ForestBytes(tree.kids, false) <= maxBytes
  }

  /** What a copy asks for. */
  predicate CanCopy(fs: FS, from: string, to: string, overwrite: bool, maxBytes: nat, maxEntries: nat) {
    && CanvasMeta.ValidId(from) && CanvasMeta.ValidId(to) && from != to
    && Canvas(from) in fs && fs[Canvas(from)].Dir? && Copyable(fs[Canvas(from)], maxBytes, maxEntries)
    && (Canvas(to) in fs ==> fs[Canvas(to)].Dir? && overwrite)
  }

  /** handleCopyCanvas, with both locks held, up to its metadata. With no faults it succeeds exactly
      when what it asks for holds. If no removal has failed, nothing new is left under the staging
      root but the old tree of a failed rollback. */
  method Copy(disk: Disk, from: string, to: string, overwrite: bool, maxBytes: nat, maxEntries: nat, saved: string)
    returns (ok: bool, replaced: bool, rollbackFailed: bool, aside: Option<Path>)
    modifies disk
    ensures Copied(old(disk.fs), disk.fs, from, to, overwrite, saved, ok, replaced, rollbackFailed, aside)
    ensures old(disk.past) <= disk.past
    ensures NeverTorn(disk.past, |old(disk.past)|, to, aside, At(old(disk.fs), Canvas(to)), ok,
      At(old(disk.fs), Canvas(from)))
    ensures ok ==> CanCopy(old(disk.fs), from, to, overwrite, maxBytes, maxEntries)
    ensures disk.faults == old(disk.faults) && Version(to, saved) !in old(disk.fs) ==>
      (ok <==> CanCopy(old(disk.fs), from, to, overwrite, maxBytes, maxEntries))
    ensures disk.faults == old(disk.faults) ==> disk.unremoved == old(disk.unremoved) && !rollbackFailed
    ensures disk.unremoved == old(disk.unremoved) ==>
      Tidy(disk.fs, old(disk.fs), if rollbackFailed then aside else None)
  {
    PrecopyIsALabel();
    ok, replaced, rollbackFailed, aside := false, false, false, None;
    if !CanvasMeta.ValidId(from) || !CanvasMeta.ValidId(to) || from == to {
      return;
    }
    var source := disk.IsDir(Canvas(from));
    var target := disk.IsDir(Canvas(to));
    if !source || (target && !overwrite) {
      return;
    }
    replaced := target;
    var tree := disk.fs[Canvas(from)];
    var staging := StageCopy(disk, to, tree, Copyable(tree, maxBytes, maxEntries), target, saved);
    if staging.None? {
      return;
    }
    ghost var mid := |disk.past|;
    ok, rollbackFailed, aside := SwapAndClean(disk, to, staging.value, target);
    StillWhole(disk.past, |old(disk.past)|, mid, to, aside, At(old(disk.fs), Canvas(to)), ok, Some(tree));
  }

  // ---------------------------------------------------------------- undoing an overwrite

  lemma PrecopySeen(before: FS, mid: FS, from: string, to: string, saved: string, aside: Option<Path>)
    requires Copied(before, mid, from, to, true, saved, true, true, false, aside)
    requires SnapshotName(saved) && Version(to, saved) !in before
    ensures IsSnapshot(mid, to, saved) && At(mid, Version(to, saved)) == At(before, Canvas(to))
  {
    assert At(mid, Version(to, saved)) == At(before, Canvas(to));
  }

  lemma OtherSnapshotsWereThere(before: FS, mid: FS, to: string, saved: string, other: string)
    requires OnlyTouches(mid, before, {Canvas(to), Version(to, saved)})
    requires other != saved && IsSnapshot(mid, to, other)
    ensures IsSnapshot(before, to, other)
  {
    assert Version(to, other) !in {Canvas(to), Version(to, saved)};
  }

  /** An overwriting copy is undone by a bare revert of its target. */
  lemma CopyIsUndone(before: FS, mid: FS, after: FS, from: string, to: string,
                     saved: string, safety: string, aside: Option<Path>,
                     r: Result<string, SnapError>, safe: bool, failed: bool, cleaned: bool)
    requires NewAndLast(before, to, saved) && saved != safety
    requires Copied(before, mid, from, to, true, saved, true, true, false, aside)
    requires RevertedSafely(mid, after, to, "", safety, r, safe, failed, cleaned) && r.Ok?
    ensures r == Ok(saved)
    ensures At(after, Canvas(to)) == At(before, Canvas(to))
  {
    PrecopySeen(before, mid, from, to, saved, aside);
    forall other | other != saved && IsSnapshot(mid, to, other) ensures IsSnapshot(before, to, other) {
      OtherSnapshotsWereThere(before, mid, to, saved, other);
    }
    JustTakenIsLatest(before, mid, to, saved, r.value);
  }

  /** All this asks is that the clock ran past every earlier snapshot of the target. */
  lemma OverwriteIsUndone(before: FS, mid: FS, after: FS, from: string, to: string,
                          t: int, saved: string, u: int, safety: string, aside: Option<Path>,
                          r: Result<string, SnapError>, safe: bool, failed: bool, cleaned: bool)
    requires FourDigitYear(t) && FourDigitYear(u) && t < u && AllOlder(before, to, t)
    requires saved == Name(t, PRECOPY) && safety == Name(u, PREREVERT)
    requires Copied(before, mid, from, to, true, saved, true, true, false, aside)
    requires RevertedSafely(mid, after, to, "", safety, r, safe, failed, cleaned) && r.Ok?
    ensures r == Ok(saved)
    ensures At(after, Canvas(to)) == At(before, Canvas(to))
  {
    PrecopyIsALabel();
    ClockNamesLast(before, to, saved, t, PRECOPY);
    NamesDiffer(t, PRECOPY, u, PREREVERT);
    CopyIsUndone(before, mid, after, from, to, saved, safety, aside, r, safe, failed, cleaned);
  }
}
