/** The part of the file system the tree protocols work on: whole directory trees at named paths.
    A single call may fail; which calls do is left open, and so is what a failed removal or copy
    leaves at the path it was working on. */
module FileSystem {
  import opened Prelude
  import opened SnapshotNames
  import TreeWalk

  /** What a canvas is made of: no devices, fifos or sockets, which a copy would not recreate. */
  type Tree = t: TreeWalk.Tree | TreeWalk.Ordinary(t) witness TreeWalk.Dir(TreeWalk.End)

  /** Canvas directories, the temporary and backup names a revert puts beside one, the snapshots
      of one, and the hub's staging directories. */
  datatype Path = Canvas(id: string)
                | RevertTmp(id: string)
                | RevertOld(id: string)
                | Version(id: string, name: string)
                | Staging(serial: nat)

  type FS = map<Path, Tree>

  const EMPTY_DIR: Tree := TreeWalk.Dir(TreeWalk.End)

  function At(fs: FS, p: Path): Option<Tree> {
    if p in fs then Some(fs[p]) else None
  }

  /** Nothing but these paths differs. */
  ghost predicate SameExcept(a: FS, b: FS, paths: set<Path>) {
    forall p :: p !in paths ==> (p in a <==> p in b) && (p in a ==> a[p] == b[p])
  }

  datatype Presence = Present | Absent | Unknown

  datatype Renaming = Renamed | NoSource | NotRenamed

  /** past: every state the disk has been in, one more after each call that may change it.
      faults: how many calls have failed though nothing they asked for stood in the way; unremoved: how
      many of them were removals. */
  class Disk {
    var fs: FS
    ghost var past: seq<FS>
    ghost var faults: nat
    ghost var unremoved: nat

    constructor (fs: FS)
      ensures this.fs == fs && past == [] && faults == 0 && unremoved == 0
    {
      this.fs, past, faults, unremoved := fs, [], 0, 0;
    }

    /** os.Stat, asked for a directory: a failure looks like its absence. */
    method IsDir(p: Path) returns (yes: bool)
      modifies this`faults
      ensures yes ==> p in fs && fs[p].Dir?
      ensures faults >= old(faults) && (!yes && p in fs && fs[p].Dir? ==> faults > old(faults))
    {
      yes := p in fs && fs[p].Dir?;
      if * {
        yes, faults := false, faults + 1;
      }
    }

    /** os.Stat: there, not there, or no telling. */
    method Stat(p: Path) returns (r: Presence)
      modifies this`faults
      ensures r.Present? ==> p in fs
      ensures r.Absent? ==> p !in fs
      ensures faults == old(faults) + (if r.Unknown? then 1 else 0)
    {
      r := if p in fs then Present else Absent;
      if * {
        r, faults := Unknown, faults + 1;
      }
    }

    /** os.RemoveAll: on failure some of the tree may be gone. */
    method RemoveAll(p: Path) returns (ok: bool)
      modifies this
      ensures ok ==> fs == old(fs) - {p}
      ensures SameExcept(fs, old(fs), {p})
      ensures past == old(past) + [fs]
      ensures faults == old(faults) + (if ok then 0 else 1) && unremoved == old(unremoved) + (if ok then 0 else 1)
    {
      ok := *;
      if ok {
        fs := fs - {p};
      } else {
        faults, unremoved := faults + 1, unremoved + 1;
        if p in fs {
          var left: Tree := *;
          fs := fs[p := left];
        }
      }
      past := past + [fs];
    }

    /** os.Rename: all or nothing; a directory never replaces or is replaced by anything. */
    method Rename(p: Path, q: Path) returns (r: Renaming)
      requires p != q
      modifies this
      ensures r.Renamed? ==> p in old(fs) && fs == (old(fs) - {p})[q := old(fs)[p]]
      ensures r.Renamed? && q in old(fs) ==> !old(fs)[p].Dir? && !old(fs)[q].Dir?
      ensures !r.Renamed? ==> fs == old(fs)
      ensures r.NoSource? ==> p !in old(fs)
      ensures past == old(past) + [fs] && unremoved == old(unremoved)
      ensures faults >= old(faults) && (r.NotRenamed? && q !in old(fs) ==> faults > old(faults))
      ensures r.Renamed? ==> faults == old(faults)
    {
      if p !in fs {
        r := NoSource;
      } else if q in fs && (fs[p].Dir? || fs[q].Dir?) {
        r := NotRenamed;
      } else if * {
        r, faults := NotRenamed, faults + 1;
      } else {
        r := Renamed;
        fs := (fs - {p})[q := fs[p]];
      }
      past := past + [fs];
    }

    /** A tree copied onto q, where nothing was before; on failure any part of it may be there.
        Onto something that exists the copy merges, and what comes of that is left open. */
    method CopyTree(p: Path, q: Path) returns (ok: bool)
      requires p != q
      modifies this
      ensures ok ==> p in old(fs) && q in fs && (q !in old(fs) ==> fs[q] == old(fs)[p])
      ensures SameExcept(fs, old(fs), {q})
      ensures past == old(past) + [fs] && unremoved == old(unremoved)
      ensures faults >= old(faults) && (!ok && p in old(fs) && q !in old(fs) ==> faults > old(faults))
    {
      ok := *;
      ok := ok && p in fs;
      if ok && q !in fs {
        fs := fs[q := fs[p]];
      } else {
        faults := faults + if ok then 0 else 1;
        var left: Tree := *;
        if ok {
          fs := fs[q := left];
        } else if * {
          fs := fs[q := left];
        }
      }
      past := past + [fs];
    }

    /** A tree written into an empty directory, from an archive or from another directory; on
        failure any part of it may be there. */
    method Fill(q: Path, tree: Tree) returns (ok: bool)
      requires At(fs, q) == Some(EMPTY_DIR)
      modifies this
      ensures ok ==> fs == old(fs)[q := tree]
      ensures SameExcept(fs, old(fs), {q})
      ensures past == old(past) + [fs] && unremoved == old(unremoved)
      ensures faults == old(faults) + (if ok then 0 else 1)
    {
      ok := *;
      if ok {
        fs := fs[q := tree];
      } else {
        faults := faults + 1;
        var left: Tree := *;
        fs := fs[q := left];
      }
      past := past + [fs];
    }

    /** os.MkdirTemp under the staging root: a new, empty directory. */
    method MkdirTemp() returns (r: Option<Path>)
      modifies this
      ensures r.Some? ==> r.value.Staging? && r.value !in old(fs) && fs == old(fs)[r.value := EMPTY_DIR]
      ensures r.None? ==> fs == old(fs)
      ensures past == old(past) + [fs] && unremoved == old(unremoved)
      ensures faults == old(faults) + (if r.None? then 1 else 0)
    {
      r := None;
      if * {
        var n := FreshSerial(fs.Keys);
        r := Some(Staging(n));
        fs := fs[Staging(n) := EMPTY_DIR];
      } else {
        faults := faults + 1;
      }
      past := past + [fs];
    }

    /** os.ReadDir of a canvas's snapshots, or None when it fails. An entry's name is always a
        single path component. */
    method ReadVersions(id: string) returns (r: Option<seq<DirEntry>>)
      modifies this`faults
      ensures r.Some? ==> forall n, d ::
        DirEntry(n, d) in r.value <==> Version(id, n) in fs && ValidateName(n) && d == fs[Version(id, n)].Dir?
      ensures faults >= old(faults) && (r.None? ==> faults > old(faults))
    {
      if * {
        faults := faults + 1;
        return None;
      }
      var todo, out := fs.Keys, [];
      while todo != {}
        invariant todo <= fs.Keys
        invariant forall n, d :: DirEntry(n, d) in out <==>
          (Version(id, n) in fs && Version(id, n) !in todo && ValidateName(n) && d == fs[Version(id, n)].Dir?)
      {
        var p :| p in todo;
        if p.Version? && p.id == id && ValidateName(p.name) {
          out := out + [DirEntry(p.name, fs[p].Dir?)];
        }
        todo := todo - {p};
      }
      r := Some(out);
    }
  }

  method FreshSerial(used: set<Path>) returns (n: nat)
    ensures Staging(n) !in used
  {
    n := 0;
    var todo := used;
    while todo != {}
      invariant todo <= used
      invariant forall p :: p in used && p !in todo && p.Staging? ==> p.serial < n
    {
      var p :| p in todo;
      if p.Staging? && p.serial >= n {
        n := p.serial + 1;
      }
      todo := todo - {p};
    }
  }
}
