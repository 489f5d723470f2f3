/** Taking snapshots of a canvas and reverting to one. Every method says what it leaves on the
    disk and what held at every moment on the way, whichever of its calls failed. */
module Snapshots {
  import opened Prelude
  import opened StringOrder
  import opened SnapshotNames
  import opened FileSystem
  import CanvasMeta

  datatype SnapError = InvalidId | InvalidLabel | InvalidName | NotFound | Failed

  /** A name that can be an entry of the snapshot directory and that List would keep. */
  predicate SnapshotName(name: string) {
    ValidateName(name) && ParseName(name).Some?
  }

  /** A directory that List would show. */
  predicate IsSnapshot(fs: FS, id: string, name: string) {
    Version(id, name) in fs && fs[Version(id, name)].Dir? && SnapshotName(name)
  }

  ghost predicate IsLatest(fs: FS, id: string, name: string) {
    IsSnapshot(fs, id, name) && forall other :: IsSnapshot(fs, id, other) ==> !StrLess(name, other)
  }

  /** Whatever bears a snapshot's name there was made by Create, before the instant now. */
  ghost predicate AllOlder(fs: FS, id: string, now: int) {
    forall name :: Version(id, name) in fs && ParseName(name).Some? ==> MadeBefore(ParseName(name).value, now)
  }

  predicate MadeBefore(e: Entry, now: int) {
    CreatedAt(e) && e.time < now
  }

  // ---------------------------------------------------------------- finding a snapshot

  lemma {:induction false} KeptExactly(dir: seq<DirEntry>, e: Entry)
    ensures e in Kept(dir) <==> DirEntry(e.name, true) in dir && ParseName(e.name) == Some(e)
  {
    if dir != [] {
      KeptExactly(dir[..|dir| - 1], e);
      assert dir == dir[..|dir| - 1] + [dir[|dir| - 1]];
    }
  }

  /** A directory listing names just the canvas's snapshots and what else is there. */
  ghost predicate Lists(dir: seq<DirEntry>, fs: FS, id: string) {
    forall n, d :: DirEntry(n, d) in dir <==> Version(id, n) in fs && ValidateName(n) && d == fs[Version(id, n)].Dir?
  }

  lemma ListedExactly(dir: seq<DirEntry>, listed: seq<Entry>, fs: FS, id: string, name: string)
    requires Lists(dir, fs, id) && multiset(listed) == multiset(Kept(dir)) && IsSnapshot(fs, id, name)
    ensures ParseName(name).value in listed && ParseName(name).value.name == name
  {
    var e := ParseName(name).value;
    KeptExactly(dir, e);
    assert DirEntry(name, true) in dir;
    assert e in multiset(listed);
  }

  lemma OnlySnapshotsListed(dir: seq<DirEntry>, listed: seq<Entry>, fs: FS, id: string, e: Entry)
    requires Lists(dir, fs, id) && multiset(listed) == multiset(Kept(dir)) && e in listed
    ensures IsSnapshot(fs, id, e.name)
  {
    assert e in multiset(listed);
    KeptExactly(dir, e);
  }

  lemma LastIsLatest(dir: seq<DirEntry>, listed: seq<Entry>, fs: FS, id: string)
    requires Lists(dir, fs, id) && multiset(listed) == multiset(Kept(dir)) && SortedByName(listed)
    ensures |listed| == 0 ==> forall name :: !IsSnapshot(fs, id, name)
    ensures |listed| > 0 ==> IsLatest(fs, id, listed[|listed| - 1].name)
  {
    forall name | IsSnapshot(fs, id, name)
      ensures |listed| > 0 && !StrLess(listed[|listed| - 1].name, name)
    {
      ListedExactly(dir, listed, fs, id, name);
      SortedBelowLast(listed, ParseName(name).value);
    }
    if |listed| > 0 {
      OnlySnapshotsListed(dir, listed, fs, id, listed[|listed| - 1]);
    }
  }

  lemma SortedBelowLast(listed: seq<Entry>, e: Entry)
    requires SortedByName(listed) && e in listed
    ensures !StrLess(listed[|listed| - 1].name, e.name)
  {
    StrTrichotomy(e.name, e.name);
  }

  /** The newest snapshot: the last one listed. */
  method Latest(disk: Disk, id: string) returns (r: Result<Option<string>, SnapError>)
    modifies disk`faults
    ensures disk.faults >= old(disk.faults) && (r.Err? ==> disk.faults > old(disk.faults))
    ensures r.Ok? && r.value.Some? ==> IsLatest(disk.fs, id, r.value.value)
    ensures r.Ok? && r.value.None? ==> forall name :: !IsSnapshot(disk.fs, id, name)
  {
    var dir := disk.ReadVersions(id);
    if dir.None? {
      return Err(Failed);
    }
    var listed := List(dir.value);
    LastIsLatest(dir.value, listed, disk.fs, id);
    if |listed| == 0 {
      return Ok(None);
    }
    r := Ok(Some(listed[|listed| - 1].name));
  }

  /** There is something to revert to. */
  ghost predicate Resolvable(fs: FS, id: string, name: string) {
    if name != "" then IsSnapshot(fs, id, name) else exists n :: IsSnapshot(fs, id, n)
  }

  /** A revert's target: the named snapshot, which must be there, or without a name the latest. */
  method Resolve(disk: Disk, id: string, name: string) returns (r: Result<string, SnapError>)
    modifies disk`faults
    ensures r.Ok? ==> IsSnapshot(disk.fs, id, r.value)
    ensures r.Ok? ==> if name != "" then r.value == name else IsLatest(disk.fs, id, r.value)
    ensures disk.faults >= old(disk.faults)
    ensures r.Err? && Resolvable(disk.fs, id, name) ==> disk.faults > old(disk.faults)
  {
    if name == "" {
      var latest := Latest(disk, id);
      if latest.Err? {
        return Err(latest.error);
      }
      if latest.value.None? {
        return Err(NotFound);
      }
      return Ok(latest.value.value);
    }
    if !ValidateName(name) || ParseName(name).None? {
      return Err(InvalidName);
    }
    var there := disk.IsDir(Version(id, name));
    if !there {
      return Err(NotFound);
    }
    r := Ok(name);
  }

  // ---------------------------------------------------------------- taking one

  /** Create's copy, whose partial result is removed again if it fails. */
  method CopyOrClear(disk: Disk, src: Path, dst: Path) returns (ok: bool)
    requires src != dst
    modifies disk
    ensures SameExcept(disk.fs, old(disk.fs), {dst})
    ensures ok && dst !in old(disk.fs) ==> src in old(disk.fs) && At(disk.fs, dst) == At(old(disk.fs), src)
    ensures old(disk.past) <= disk.past
    ensures forall i :: |old(disk.past)| <= i < |disk.past| ==> SameExcept(disk.past[i], old(disk.fs), {dst})
    ensures disk.faults >= old(disk.faults)
    ensures !ok && src in old(disk.fs) && dst !in old(disk.fs) ==> disk.faults > old(disk.faults)
    ensures 0 <= disk.unremoved - old(disk.unremoved) <= disk.faults - old(disk.faults)
    ensures !ok && disk.unremoved == old(disk.unremoved) ==> disk.fs == old(disk.fs) - {dst}
  {
    ok := disk.CopyTree(src, dst);
    if !ok {
      var _ := disk.RemoveAll(dst);
    }
  }

  /** What Create asks of its arguments and of the disk. */
  predicate CanCreate(fs: FS, id: string, tag: string) {
    CanvasMeta.ValidId(id) && ValidLabel(tag) && Canvas(id) in fs && fs[Canvas(id)].Dir?
  }

  /** Create, with the name the clock and the label give it. */
  method CreateNamed(disk: Disk, id: string, tag: string, name: string) returns (r: Result<string, SnapError>)
    modifies disk
    ensures SameExcept(disk.fs, old(disk.fs), {Version(id, name)})
    ensures r.Ok? ==> r.value == name && CanCreate(old(disk.fs), id, tag)
    ensures r.Ok? && Version(id, name) !in old(disk.fs) ==>
      At(disk.fs, Version(id, name)) == At(old(disk.fs), Canvas(id))
    ensures old(disk.past) <= disk.past
    ensures forall i :: |old(disk.past)| <= i < |disk.past| ==>
      SameExcept(disk.past[i], old(disk.fs), {Version(id, name)})
    ensures disk.faults >= old(disk.faults)
    ensures r.Err? && CanCreate(old(disk.fs), id, tag) && Version(id, name) !in old(disk.fs) ==>
      disk.faults > old(disk.faults)
    ensures 0 <= disk.unremoved - old(disk.unremoved) <= disk.faults - old(disk.faults)
    ensures r.Err? && disk.unremoved == old(disk.unremoved) && Version(id, name) !in old(disk.fs) ==>
      disk.fs == old(disk.fs)
  {
    if !CanvasMeta.ValidId(id) {
      return Err(InvalidId);
    }
    if !ValidLabel(tag) {
      return Err(InvalidLabel);
    }
    var there := disk.IsDir(Canvas(id));
    if !there {
      return Err(NotFound);
    }
    var ok := CopyOrClear(disk, Canvas(id), Version(id, name));
    if !ok {
      return Err(Failed);
    }
    r := Ok(name);
  }

  method Create(disk: Disk, id: string, tag: string, now: int) returns (r: Result<string, SnapError>)
    requires FourDigitYear(now)
    modifies disk
    ensures SameExcept(disk.fs, old(disk.fs), {Version(id, Name(now, tag))})
    ensures r.Ok? ==> r.value == Name(now, tag) && CanCreate(old(disk.fs), id, tag)
    ensures r.Ok? && Version(id, Name(now, tag)) !in old(disk.fs) ==>
      At(disk.fs, Version(id, Name(now, tag))) == At(old(disk.fs), Canvas(id))
    ensures old(disk.past) <= disk.past
    ensures forall i :: |old(disk.past)| <= i < |disk.past| ==>
      SameExcept(disk.past[i], old(disk.fs), {Version(id, Name(now, tag))})
    ensures disk.faults == old(disk.faults) && Version(id, Name(now, tag)) !in old(disk.fs) ==>
      (r.Ok? <==> CanCreate(old(disk.fs), id, tag))
    ensures 0 <= disk.unremoved - old(disk.unremoved) <= disk.faults - old(disk.faults)
    ensures r.Err? && disk.unremoved == old(disk.unremoved) && Version(id, Name(now, tag)) !in old(disk.fs) ==>
      disk.fs == old(disk.fs)
  {
    r := CreateNamed(disk, id, tag, Name(now, tag));
  }

  // ---------------------------------------------------------------- reverting

  /** Before the first rename the canvas is in place; between the two it is whole, aside. */
  predicate InPlaceOrAside(fs: FS, live: Path, aside: Path, was: Option<Tree>) {
    At(fs, live) == was || (live !in fs && At(fs, aside) == was)
  }

  function RevertPaths(id: string): set<Path> {
    {Canvas(id), RevertTmp(id), RevertOld(id)}
  }

  /** The first half of Revert: clear what an interrupted revert may have left, and copy the
      snapshot beside the canvas. */
  method Stage(disk: Disk, id: string, from: Path) returns (ok: bool)
    requires from.Version?
    modifies disk
    ensures SameExcept(disk.fs, old(disk.fs), {RevertTmp(id), RevertOld(id)})
    ensures ok ==> from in old(disk.fs) && RevertOld(id) !in disk.fs
    ensures ok ==> At(disk.fs, RevertTmp(id)) == At(old(disk.fs), from)
    ensures old(disk.past) <= disk.past
    ensures forall i :: |old(disk.past)| <= i < |disk.past| ==>
      SameExcept(disk.past[i], old(disk.fs), {RevertTmp(id), RevertOld(id)})
    ensures disk.faults >= old(disk.faults) && (!ok && from in old(disk.fs) ==> disk.faults > old(disk.faults))
    ensures 0 <= disk.unremoved - old(disk.unremoved) <= disk.faults - old(disk.faults)
    ensures !ok && disk.unremoved == old(disk.unremoved) ==>
      disk.fs == old(disk.fs) - {RevertTmp(id), RevertOld(id)}
  {
    ok := disk.RemoveAll(RevertTmp(id));
    if !ok {
      return;
    }
    ok := disk.RemoveAll(RevertOld(id));
    if !ok {
      return;
    }
    ok := disk.CopyTree(from, RevertTmp(id));
    if !ok {
      var _ := disk.RemoveAll(RevertTmp(id));
    }
  }

  /** From a given moment on the canvas's name was never free. */
  ghost predicate StayedInPlace(past: seq<FS>, from: nat, id: string) {
    forall i :: from <= i < |past| ==> Canvas(id) in past[i]
  }

  /** The second half: the live directory aside, the copy in its place, and back if that fails. */
  method SwapIn(disk: Disk, id: string) returns (ok: bool, restoreFailed: bool, cleaned: bool)
    requires RevertTmp(id) in disk.fs && RevertOld(id) !in disk.fs
    modifies disk
    ensures SameExcept(disk.fs, old(disk.fs), RevertPaths(id))
    ensures ok ==> !restoreFailed && At(disk.fs, Canvas(id)) == At(old(disk.fs), RevertTmp(id))
    ensures (ok && cleaned ==> RevertOld(id) !in disk.fs) && (ok ==> RevertTmp(id) !in disk.fs)
    ensures !ok && !restoreFailed ==> At(disk.fs, Canvas(id)) == At(old(disk.fs), Canvas(id))
    ensures restoreFailed ==> !ok && Canvas(id) !in disk.fs
    ensures restoreFailed ==> At(disk.fs, RevertOld(id)) == At(old(disk.fs), Canvas(id))
    ensures old(disk.past) <= disk.past
    ensures forall i :: |old(disk.past)| <= i < |disk.past| ==>
      InPlaceOrAside(disk.past[i], Canvas(id), RevertOld(id), At(old(disk.fs), Canvas(id))) ||
      (ok && At(disk.past[i], Canvas(id)) == At(disk.fs, Canvas(id)))
    ensures forall i :: |old(disk.past)| <= i < |disk.past| ==>
      SameExcept(disk.past[i], old(disk.fs), RevertPaths(id))
    ensures disk.faults >= old(disk.faults) && (!(ok && cleaned) ==> disk.faults > old(disk.faults))
    ensures 0 <= disk.unremoved - old(disk.unremoved) <= disk.faults - old(disk.faults)
    ensures !ok && disk.unremoved == old(disk.unremoved) && Canvas(id) in old(disk.fs) &&
            StayedInPlace(disk.past, |old(disk.past)|, id) ==>
      disk.fs == old(disk.fs) - {RevertTmp(id)}
  {
    var live, tmp, aside := Canvas(id), RevertTmp(id), RevertOld(id);
    ok, restoreFailed, cleaned := false, false, false;
    var moved := disk.Rename(live, aside);
    if moved.NotRenamed? {
      var _ := disk.RemoveAll(tmp);
      return;
    }
    var swapped := disk.Rename(tmp, live);
    if !swapped.Renamed? {
      var restored := disk.Rename(aside, live);
      restoreFailed := !restored.Renamed?;
      assert Canvas(id) !in disk.past[|old(disk.past)|];
      return;
    }
    ok := true;
    cleaned := disk.RemoveAll(aside);
  }

  /** How the tree at a path is swapped in for the canvas. An error leaves the canvas as it was,
      unless the rename meant to put it back failed too (restoreFailed): then it is whole, aside.
      cleaned: the old tree was removed in the end. */
  ghost predicate SwappedIn(before: FS, after: FS, id: string, from: Path, ok: bool, restoreFailed: bool,
                            cleaned: bool) {
    && SameExcept(after, before, RevertPaths(id))
    && (ok ==> !restoreFailed && At(after, Canvas(id)) == At(before, from))
    && (ok && cleaned ==> RevertOld(id) !in after) && (ok ==> RevertTmp(id) !in after)
    && (!ok && !restoreFailed ==> At(after, Canvas(id)) == At(before, Canvas(id)))
    && (restoreFailed ==> !ok && Canvas(id) !in after && At(after, RevertOld(id)) == At(before, Canvas(id)))
  }

  /** At every moment from a given one on the canvas holds its old tree, or that tree is whole
      aside, or the new one is in place; and nothing else is touched. */
  ghost predicate SwapMoments(past: seq<FS>, from: nat, before: FS, after: FS, id: string, ok: bool) {
    forall i :: from <= i < |past| ==>
      && SameExcept(past[i], before, RevertPaths(id))
      && (InPlaceOrAside(past[i], Canvas(id), RevertOld(id), At(before, Canvas(id))) ||
          (ok && At(past[i], Canvas(id)) == At(after, Canvas(id))))
  }

  lemma JoinMoments(past: seq<FS>, from: nat, mid: nat, before: FS, between: FS, after: FS, id: string, ok: bool)
    requires from <= mid <= |past| && SameExcept(between, before, {RevertTmp(id), RevertOld(id)})
    requires forall i :: from <= i < mid ==> SameExcept(past[i], before, {RevertTmp(id), RevertOld(id)})
    requires forall i :: mid <= i < |past| ==> SameExcept(past[i], between, RevertPaths(id))
    requires forall i :: mid <= i < |past| ==>
      InPlaceOrAside(past[i], Canvas(id), RevertOld(id), At(before, Canvas(id))) ||
      (ok && At(past[i], Canvas(id)) == At(after, Canvas(id)))
    ensures SwapMoments(past, from, before, after, id, ok)
  {
  }

  /** Revert once it knows its snapshot. */
  method Replace(disk: Disk, id: string, from: Path) returns (ok: bool, restoreFailed: bool, cleaned: bool)
    requires from.Version?
    modifies disk
    ensures SwappedIn(old(disk.fs), disk.fs, id, from, ok, restoreFailed, cleaned)
    ensures old(disk.past) <= disk.past
    ensures SwapMoments(disk.past, |old(disk.past)|, old(disk.fs), disk.fs, id, ok)
    ensures disk.faults >= old(disk.faults)
    ensures !(ok && cleaned) && from in old(disk.fs) ==> disk.faults > old(disk.faults)
    ensures 0 <= disk.unremoved - old(disk.unremoved) <= disk.faults - old(disk.faults)
    ensures !ok && disk.unremoved == old(disk.unremoved) && Canvas(id) in old(disk.fs) &&
            StayedInPlace(disk.past, |old(disk.past)|, id) ==>
      disk.fs == old(disk.fs) - {RevertTmp(id), RevertOld(id)}
  {
    restoreFailed, cleaned := false, false;
    ok := Stage(disk, id, from);
    ghost var mid, between := |disk.past|, disk.fs;
    if ok {
      ok, restoreFailed, cleaned := SwapIn(disk, id);
    }
    JoinMoments(disk.past, |old(disk.past)|, mid, old(disk.fs), between, disk.fs, id, ok);
  }

  /** How a revert ends: its target is a snapshot, the named one or the latest, which success
      puts in place. */
  ghost predicate Reverted(before: FS, after: FS, id: string, name: string,
                           r: Result<string, SnapError>, restoreFailed: bool, cleaned: bool)
  {
    && SwappedIn(before, after, id, if r.Ok? then Version(id, r.value) else Canvas(id), r.Ok?, restoreFailed, cleaned)
    && (r.Ok? ==> IsSnapshot(before, id, r.value))
    && (r.Ok? ==> (if name != "" then r.value == name else IsLatest(before, id, r.value)))
  }

  /** Revert: copy the snapshot beside the canvas, then swap it in by two renames. With no faults
      it succeeds exactly when there is something to revert to. */
  method Revert(disk: Disk, id: string, name: string)
    returns (r: Result<string, SnapError>, restoreFailed: bool, cleaned: bool)
    modifies disk
    ensures Reverted(old(disk.fs), disk.fs, id, name, r, restoreFailed, cleaned)
    ensures old(disk.past) <= disk.past
    ensures SwapMoments(disk.past, |old(disk.past)|, old(disk.fs), disk.fs, id, r.Ok?)
    ensures disk.faults >= old(disk.faults)
    ensures disk.faults == old(disk.faults) ==>
      (r.Ok? <==> CanvasMeta.ValidId(id) && Resolvable(old(disk.fs), id, name)) && (r.Ok? ==> cleaned)
    ensures 0 <= disk.unremoved - old(disk.unremoved) <= disk.faults - old(disk.faults)
    ensures r.Err? && disk.unremoved == old(disk.unremoved) && Canvas(id) in old(disk.fs) &&
            StayedInPlace(disk.past, |old(disk.past)|, id) ==>
      disk.fs == old(disk.fs) || disk.fs == old(disk.fs) - {RevertTmp(id), RevertOld(id)}
  {
    restoreFailed, cleaned := false, false;
    if !CanvasMeta.ValidId(id) {
      r := Err(InvalidId);
      return;
    }
    r := Resolve(disk, id, name);
    if r.Err? {
      return;
    }
    var ok;
    ok, restoreFailed, cleaned := Replace(disk, id, Version(id, r.value));
    if !ok {
      r := Err(Failed);
    }
  }

  // ---------------------------------------------------------------- reverting with a safety snapshot

  const PREREVERT := "prerevert"

  /** The contents the canvas had are somewhere whole: in place, set aside, or in the snapshot. */
  predicate Whole(fs: FS, id: string, safety: string, was: Option<Tree>) {
    At(fs, Canvas(id)) == was || At(fs, RevertOld(id)) == was || At(fs, Version(id, safety)) == was
  }

  /** That, at every moment from a given one on. */
  ghost predicate WholeSince(past: seq<FS>, from: nat, id: string, safety: string, was: Option<Tree>) {
    forall i :: from <= i < |past| ==> Whole(past[i], id, safety, was)
  }

  lemma WholeWhileSaving(past: seq<FS>, from: nat, fs: FS, id: string, safety: string)
    requires forall i :: from <= i < |past| ==> SameExcept(past[i], fs, {Version(id, safety)})
    ensures WholeSince(past, from, id, safety, At(fs, Canvas(id)))
  {
  }

  lemma WholeWhileReverting(past: seq<FS>, from: nat, mid: nat, fs: FS, after: FS, id: string, safety: string,
                            ok: bool, was: Option<Tree>)
    requires from <= mid <= |past| && WholeSince(past[..mid], from, id, safety, was) && At(fs, Canvas(id)) == was
    requires SwapMoments(past, mid, fs, after, id, ok) && (ok ==> At(fs, Version(id, safety)) == was)
    ensures WholeSince(past, from, id, safety, was)
  {
    forall i | from <= i < |past| ensures Whole(past[i], id, safety, was) {
      if i < mid {
        assert past[..mid][i] == past[i];
      }
    }
  }

  /** How taking the safety snapshot ends: Ok(true) if the canvas directory was seen and copied
      (exactly, unless the clock gave a name that was taken), Ok(false) if none was seen. */
  ghost predicate Saved(before: FS, after: FS, id: string, safety: string, r: Result<bool, SnapError>) {
    && SameExcept(after, before, {Version(id, safety)})
    && (r == Ok(true) ==> Canvas(id) in before && before[Canvas(id)].Dir?)
    && (r == Ok(true) && Version(id, safety) !in before ==> At(after, Version(id, safety)) == At(before, Canvas(id)))
    && (r == Ok(false) ==> after == before)
  }

  lemma PrerevertIsALabel()
    ensures ValidLabel(PREREVERT)
  {
  }

  method SaveIfThere(disk: Disk, id: string, safety: string) returns (r: Result<bool, SnapError>)
    modifies disk
    ensures Saved(old(disk.fs), disk.fs, id, safety, r)
    ensures old(disk.past) <= disk.past
    ensures WholeSince(disk.past, |old(disk.past)|, id, safety, At(old(disk.fs), Canvas(id)))
    ensures disk.faults >= old(disk.faults)
    ensures disk.faults == old(disk.faults) && CanvasMeta.ValidId(id) && Version(id, safety) !in old(disk.fs) ==>
      r == Ok(Canvas(id) in old(disk.fs) && old(disk.fs)[Canvas(id)].Dir?)
  {
    PrerevertIsALabel();
    var there := disk.IsDir(Canvas(id));
    if !there {
      return Ok(false);
    }
    var made := CreateNamed(disk, id, PREREVERT, safety);
    WholeWhileSaving(disk.past, |old(disk.past)|, old(disk.fs), id, safety);
    r := if made.Err? then Err(made.error) else Ok(true);
  }

  /** How a revert with safety ends: as a revert does, with the target one that was there before
      the safety snapshot; and safe says that this snapshot was taken and holds the old tree. */
  ghost predicate RevertedSafely(before: FS, after: FS, id: string, name: string, safety: string,
                                 r: Result<string, SnapError>, safe: bool, restoreFailed: bool, cleaned: bool)
  {
    && SameExcept(after, before, RevertPaths(id) + {Version(id, safety)})
    && (r.Ok? ==> IsSnapshot(before, id, r.value))
    && (r.Ok? ==> (if name != "" then r.value == name else IsLatest(before, id, r.value)))
    && (r.Ok? && r.value != safety ==> At(after, Canvas(id)) == At(before, Version(id, r.value)))
    && (r.Ok? && !safe ==> At(after, Version(id, safety)) == At(before, Version(id, safety)))
    && (r.Ok? && cleaned ==> RevertOld(id) !in after)
    && (r.Err? && !restoreFailed ==> At(after, Canvas(id)) == At(before, Canvas(id)))
    && (restoreFailed ==> r.Err? && Canvas(id) !in after && At(after, RevertOld(id)) == At(before, Canvas(id)))
    && (safe ==> Canvas(id) in before && before[Canvas(id)].Dir?)
    && (safe && Version(id, safety) !in before ==> At(after, Version(id, safety)) == At(before, Canvas(id)))
  }

  lemma SaveThenRevert(before: FS, mid: FS, after: FS, id: string, name: string, target: string, safety: string,
                       saved: bool, r: Result<string, SnapError>, restoreFailed: bool, cleaned: bool)
    requires Saved(before, mid, id, safety, Ok(saved)) && Reverted(mid, after, id, target, r, restoreFailed, cleaned)
    requires IsSnapshot(before, id, target) && (if name != "" then target == name else IsLatest(before, id, target))
    requires target != ""
    ensures RevertedSafely(before, after, id, name, safety, r, saved, restoreFailed, cleaned)
  {
    assert At(mid, Canvas(id)) == At(before, Canvas(id));
    assert target != safety ==> At(mid, Version(id, target)) == At(before, Version(id, target));
    assert At(after, Version(id, safety)) == At(mid, Version(id, safety));
  }

  /** RevertWithSafety: resolve the target, snapshot what is there, then revert. A name that does
      not resolve changes nothing at all. If the safety snapshot was taken, or the revert failed,
      the old tree is whole at every moment, whatever else fails and wherever the run stops. With
      no faults, and a name for the safety snapshot that is not taken, it succeeds exactly when
      there is something to revert to. */
  method RevertWithSafety(disk: Disk, id: string, name: string, now: int)
    returns (r: Result<string, SnapError>, safe: bool, restoreFailed: bool, cleaned: bool)
    requires FourDigitYear(now)
    modifies disk
    ensures RevertedSafely(old(disk.fs), disk.fs, id, name, Name(now, PREREVERT), r, safe, restoreFailed, cleaned)
    ensures !Resolvable(old(disk.fs), id, name) ==> r.Err? && disk.fs == old(disk.fs) && disk.past == old(disk.past)
    ensures old(disk.past) <= disk.past
    ensures (safe && Version(id, Name(now, PREREVERT)) !in old(disk.fs)) || r.Err? ==>
      WholeSince(disk.past, |old(disk.past)|, id, Name(now, PREREVERT), At(old(disk.fs), Canvas(id)))
    ensures disk.faults == old(disk.faults) && Version(id, Name(now, PREREVERT)) !in old(disk.fs) ==>
      && (r.Ok? <==> CanvasMeta.ValidId(id) && Resolvable(old(disk.fs), id, name))
      && (r.Ok? ==> cleaned && (safe <==> Canvas(id) in old(disk.fs) && old(disk.fs)[Canvas(id)].Dir?))
  {
    safe, restoreFailed, cleaned := false, false, false;
    if !CanvasMeta.ValidId(id) {
      r := Err(InvalidId);
      return;
    }
    r := Resolve(disk, id, name);
    if r.Err? {
      return;
    }
    r, safe, restoreFailed, cleaned := RevertTo(disk, id, name, r.value, Name(now, PREREVERT));
  }

  /** RevertWithSafety once the target is resolved. */
  method RevertTo(disk: Disk, id: string, name: string, target: string, safety: string)
    returns (r: Result<string, SnapError>, safe: bool, restoreFailed: bool, cleaned: bool)
    requires IsSnapshot(disk.fs, id, target) && (if name != "" then target == name else IsLatest(disk.fs, id, target))
    modifies disk
    ensures RevertedSafely(old(disk.fs), disk.fs, id, name, safety, r, safe, restoreFailed, cleaned)
    ensures old(disk.past) <= disk.past
    ensures (safe && Version(id, safety) !in old(disk.fs)) || r.Err? ==>
      WholeSince(disk.past, |old(disk.past)|, id, safety, At(old(disk.fs), Canvas(id)))
    ensures disk.faults >= old(disk.faults)
    ensures disk.faults == old(disk.faults) && CanvasMeta.ValidId(id) && Version(id, safety) !in old(disk.fs) ==>
      r.Ok? && cleaned && (safe <==> Canvas(id) in old(disk.fs) && old(disk.fs)[Canvas(id)].Dir?)
  {
    safe, restoreFailed, cleaned := false, false, false;
    var saved := SaveIfThere(disk, id, safety);
    if saved.Err? {
      r := Err(saved.error);
      return;
    }
    safe := saved.value;
    ghost var mid, fs := |disk.past|, disk.fs;
    assert target != "";
    r, restoreFailed, cleaned := Revert(disk, id, target);
    SaveThenRevert(old(disk.fs), fs, disk.fs, id, name, target, safety, safe, r, restoreFailed, cleaned);
    if r.Err? || (safe && Version(id, safety) !in old(disk.fs)) {
      WholeWhileReverting(disk.past, |old(disk.past)|, mid, fs, disk.fs, id, safety, r.Ok?,
        At(old(disk.fs), Canvas(id)));
    }
  }

  /** A canvas whose directory was not seen, say because os.Stat failed, is reverted without a
      safety snapshot. After a successful and cleaned-up revert its old tree is still there exactly
      if the snapshot was taken, or the revert changed nothing anyway. */
  lemma OnlyASeenCanvasIsSaved(before: FS, after: FS, id: string, name: string, safety: string,
                               r: Result<string, SnapError>, safe: bool)
    requires RevertedSafely(before, after, id, name, safety, r, safe, false, true) && r.Ok?
    requires Version(id, safety) !in before && Canvas(id) in before
    ensures Whole(after, id, safety, At(before, Canvas(id))) <==>
      safe || before[Version(id, r.value)] == before[Canvas(id)]
  {
  }

  lemma AnUnseenCanvasIsLost(id: string, name: string, safety: string, was: Tree, snapshot: Tree)
    requires SnapshotName(name) && name != "" && name != safety && was != snapshot && snapshot.Dir?
    ensures var before := map[Canvas(id) := was, Version(id, name) := snapshot];
      var after := map[Canvas(id) := snapshot, Version(id, name) := snapshot];
      && RevertedSafely(before, after, id, name, safety, Ok(name), false, false, true)
      && !Whole(after, id, safety, At(before, Canvas(id)))
  {
  }

  // ---------------------------------------------------------------- undoing a revert

  lemma OtherSnapshotsStay(before: FS, after: FS, id: string, safety: string, other: string)
    requires SameExcept(after, before, RevertPaths(id) + {Version(id, safety)}) && other != safety
    ensures IsSnapshot(after, id, other) <==> IsSnapshot(before, id, other)
  {
    assert Version(id, other) !in RevertPaths(id) + {Version(id, safety)};
  }

  lemma LaterName(e: Entry, now: int, tag: string)
    requires FourDigitYear(now) && MadeBefore(e, now)
    ensures StrLess(e.name, Name(now, tag)) && e.name != Name(now, tag)
  {
    NameOrder(e.time, e.tag, now, tag);
    StrTrichotomy(e.name, e.name);
  }

  /** A name for a snapshot that is not taken and sorts after every snapshot there is. */
  ghost predicate NewAndLast(fs: FS, id: string, safety: string) {
    && SnapshotName(safety) && Version(id, safety) !in fs
    && forall other :: IsSnapshot(fs, id, other) ==> StrLess(other, safety)
  }

  /** A clock that has run past every earlier snapshot gives such a name. */
  lemma ClockNamesLast(fs: FS, id: string, safety: string, t: int, tag: string)
    requires FourDigitYear(t) && ValidLabel(tag) && AllOlder(fs, id, t) && safety == Name(t, tag)
    ensures NewAndLast(fs, id, safety)
  {
    NameRoundTrip(t, tag);
    if Version(id, safety) in fs {
      LaterName(ParseName(safety).value, t, tag);
    }
    forall other | IsSnapshot(fs, id, other) ensures StrLess(other, safety) {
      LaterName(ParseName(other).value, t, tag);
    }
  }

  /** A snapshot just taken under such a name is the latest. */
  lemma JustTakenIsLatest(before: FS, mid: FS, id: string, safety: string, latest: string)
    requires NewAndLast(before, id, safety) && IsSnapshot(mid, id, safety) && IsLatest(mid, id, latest)
    requires forall other :: other != safety && IsSnapshot(mid, id, other) ==> IsSnapshot(before, id, other)
    ensures latest == safety
  {
    assert latest != safety ==> IsSnapshot(before, id, latest);
  }

  lemma SafetySeen(before: FS, mid: FS, id: string, name: string, safety: string,
                   r: Result<string, SnapError>, failed: bool, cleaned: bool)
    requires RevertedSafely(before, mid, id, name, safety, r, true, failed, cleaned)
    requires SnapshotName(safety) && Version(id, safety) !in before
    ensures IsSnapshot(mid, id, safety) && SameExcept(mid, before, RevertPaths(id) + {Version(id, safety)})
    ensures At(mid, Version(id, safety)) == At(before, Canvas(id)) && Canvas(id) in before
  {
    assert At(mid, Version(id, safety)) == At(before, Canvas(id));
  }

  lemma NamesDiffer(t: int, tag: string, u: int, other: string)
    requires FourDigitYear(t) && FourDigitYear(u) && t != u
    ensures Name(t, tag) != Name(u, other)
  {
    NameOrder(t, tag, u, other);
    NameOrder(u, other, t, tag);
  }

  /** A revert that took its safety snapshot, under a new last name, is undone by a bare revert:
      its target is that very snapshot, and the canvas is again the tree it was, down to the bytes
      and link targets. */
  lemma RevertIsUndone(before: FS, mid: FS, after: FS, id: string, name: string, safety: string, safety': string,
                       r: Result<string, SnapError>, r': Result<string, SnapError>,
                       failed: bool, cleaned: bool, safe': bool, failed': bool, cleaned': bool)
    requires NewAndLast(before, id, safety) && safety != safety'
    requires RevertedSafely(before, mid, id, name, safety, r, true, failed, cleaned)
    requires RevertedSafely(mid, after, id, "", safety', r', safe', failed', cleaned') && r'.Ok?
    ensures r' == Ok(safety)
    ensures At(after, Canvas(id)) == At(before, Canvas(id)) && Canvas(id) in after
  {
    SafetySeen(before, mid, id, name, safety, r, failed, cleaned);
    forall other | other != safety && IsSnapshot(mid, id, other) ensures IsSnapshot(before, id, other) {
      OtherSnapshotsStay(before, mid, id, safety, other);
    }
    JustTakenIsLatest(before, mid, id, safety, r'.value);
    assert At(after, Canvas(id)) == At(mid, Version(id, safety));
  }

  /** All this asks is that the clock ran past every earlier snapshot. */
  lemma BareRevertUndoes(before: FS, mid: FS, after: FS, id: string, name: string,
                         t: int, safety: string, u: int, safety': string,
                         r: Result<string, SnapError>, r': Result<string, SnapError>,
                         failed: bool, cleaned: bool, safe': bool, failed': bool, cleaned': bool)
    requires FourDigitYear(t) && FourDigitYear(u) && t < u && AllOlder(before, id, t)
    requires safety == Name(t, PREREVERT) && safety' == Name(u, PREREVERT)
    requires RevertedSafely(before, mid, id, name, safety, r, true, failed, cleaned)
    requires RevertedSafely(mid, after, id, "", safety', r', safe', failed', cleaned') && r'.Ok?
    ensures r' == Ok(safety)
    ensures At(after, Canvas(id)) == At(before, Canvas(id)) && Canvas(id) in after
  {
    PrerevertIsALabel();
    ClockNamesLast(before, id, safety, t, PREREVERT);
    NamesDiffer(t, PREREVERT, u, PREREVERT);
    RevertIsUndone(before, mid, after, id, name, safety, safety', r, r', failed, cleaned, safe', failed', cleaned');
  }
}
