/** A canvas directory packed for a push, extracted on the hub, copied there, and snapshotted: the
    four tree walks of the repository, each a loop proved against module TreeWalk. */
module PushArchive {
  import opened Prelude
  import opened Paths
  import opened TreeWalk

  /** One archive entry: a directory, a regular file, a link, or an entry of any other type. */
  datatype TarEntry = TarEntry(name: string, node: Node)

  function PushRules(maxBytes: nat, maxEntries: nat): Rules {
    Rules(Some(maxBytes), Some(maxEntries), false)
  }

  // ---------------------------------------------------------------- packing

  /** Slash-separated, and a directory's with a slash at the end. */
  function PackedName(path: Path, slash: bool): string
    requires path != []
  {
    Glue(path) + if slash then "/" else ""
  }

  function PackTree(at: Path, t: Tree): seq<TarEntry>
    requires at != []
    decreases t
  {
    match t
    case File(data) => [TarEntry(PackedName(at, false), FileNode(data))]
    case Dir(kids) => [TarEntry(PackedName(at, true), DirNode)] + PackForest(at, kids)
    case _ => []
  }

  /** Pack: every regular file and directory below the packed one; the rest is passed over. */
  function PackForest(at: Path, f: Forest): seq<TarEntry>
    decreases f
  {
    match f
    case End => []
    case Kid(name, t, rest) => PackTree(at + [name], t) + PackForest(at, rest)
  }

  /** The archive being written. */
  class TarWriter {
    var entries: seq<TarEntry>

    constructor ()
      ensures entries == []
    {
      entries := [];
    }

    method WriteEntry(name: string, node: Node)
      modifies this
      ensures entries == old(entries) + [TarEntry(name, node)]
    {
      entries := entries + [TarEntry(name, node)];
    }

    method WalkTree(at: Path, t: Tree)
      requires at != []
      modifies this
      ensures entries == old(entries) + PackTree(at, t)
      decreases t
    {
      match t
      case File(data) => WriteEntry(PackedName(at, false), FileNode(data));
      case Dir(kids) =>
        ghost var before := entries;
        WriteEntry(PackedName(at, true), DirNode);
        WalkForest(at, kids);
        assert entries == before + ([TarEntry(PackedName(at, true), DirNode)] + PackForest(at, kids));
      case _ =>
    }

    method WalkForest(at: Path, f: Forest)
      modifies this
      ensures entries == old(entries) + PackForest(at, f)
      decreases f
    {
      if f.Kid? {
        WalkTree(at + [f.name], f.tree);
        WalkForest(at, f.rest);
      }
    }
  }

  // ---------------------------------------------------------------- extracting

  /** Where below the root an entry goes, or None if its name is refused. */
  function Locate(root: string, name: string): Option<Path> {
    match SafeJoin(root, name)
    case Err(_) => None
    case Ok(target) => Some(Below(root, target))
  }

  /** Where the names of an archive go. */
  type Places = string -> Option<Path>

  function Into(root: string): Places {
    (name: string) => Locate(root, name)
  }

  function PutEntry(rules: Rules, places: Places, p: Progress, e: TarEntry, fault: Fault): Outcome {
    var q := p.(count := p.count + 1);
    if rules.maxEntries.Some? && q.count > rules.maxEntries.value then Stopped(q, TooLarge)
    else if places(e.name).None? then Stopped(q, Refused)
    else Put(rules, p, Item(places(e.name).value, e.node), fault)
  }

  function Extract(rules: Rules, places: Places, p: Progress, entries: seq<TarEntry>, disk: nat -> Fault): Outcome
    decreases |entries|
  {
    if entries == [] then Going(p)
    else
      match PutEntry(rules, places, p, entries[0], disk(p.count))
      case Stopped(q, why) => Stopped(q, why)
      case Going(q) => Extract(rules, places, q, entries[1..], disk)
  }

  /** The directory being filled, and every byte ever written there. */
  class Dest {
    var fs: Flat
    var written: nat

    constructor ()
      ensures fs == START.fs && written == 0
    {
      fs, written := START.fs, 0;
    }

    /** os.MkdirAll. */
    method MakeDirs(path: Path, fault: Fault) returns (ok: bool)
      modifies this`fs
      ensures ok <==> !fault.NoDirectory? && MkdirAll(old(fs), path).Some?
      ensures fs == if ok then MkdirAll(old(fs), path).value else old(fs)
    {
      var made := MkdirAll(fs, path);
      ok := !fault.NoDirectory? && made.Some?;
      if ok {
        fs := made.value;
      }
    }

    /** writeTarFile and dircopy's copyFile: at most one byte past the budget is ever copied. */
    method WriteFile(path: Path, data: Bytes, budget: int, fault: Fault) returns (n: nat, err: Option<Why>)
      modifies this
      ensures var rules := Rules(Some(if budget < 0 then 0 else budget), None, false);
        var out := if path in old(fs) && !old(fs)[path].FileNode?
                   then Stopped(Progress(old(fs), 0, 0, old(written)), DiskError)
                   else PutFile(rules, Progress(old(fs), 0, 0, old(written)), path, data, fault);
        && fs == out.p.fs && written == out.p.written
        && (err == None <==> out.Going?) && (out.Going? ==> n == out.p.total) && (out.Stopped? ==> err == Some(out.why))
    {
      n := 0;
      var limit := if budget < 0 then 0 else budget;
      if (path in fs && !fs[path].FileNode?) || fault.NoFile? {
        return 0, Some(DiskError);
      }
      var through := if |data| > limit + 1 then data[..limit + 1] else data;
      if fault.CopyStops? && fault.after < |through| {
        n := fault.after;
        fs, written := fs[path := FileNode(through[..n])], written + n;
        return n, Some(DiskError);
      }
      n := |through|;
      fs, written := fs[path := FileNode(through)], written + n;
      if fault.CopyStops? {
        return n, Some(DiskError);
      }
      if n > limit {
        return n, Some(TooLarge);
      }
      err := None;
    }

    /** The switch on an entry's type that extraction and copy share. */
    method Place(path: Path, node: Node, totalBytes: nat, maxBytes: nat, fault: Fault)
      returns (n: nat, err: Option<Why>)
      modifies this
      ensures var out := Placed(Progress(old(fs), totalBytes, 0, old(written)), Item(path, node), maxBytes, fault);
        && fs == out.p.fs && written == out.p.written
        && (err == None <==> out.Going?) && (out.Going? ==> totalBytes + n == out.p.total)
        && (out.Stopped? ==> err == Some(out.why))
    {
      n := 0;
      if node.DirNode? {
        var ok := MakeDirs(path, fault);
        return 0, if ok then None else Some(DiskError);
      }
      if !node.FileNode? {
        return 0, Some(Refused);
      }
      if path == [] {
        return 0, Some(DiskError);
      }
      var ok := MakeDirs(path[..|path| - 1], fault);
      if !ok {
        return 0, Some(DiskError);
      }
      n, err := WriteFile(path, node.data, maxBytes - totalBytes, fault);
    }
  }

  function Placed(p: Progress, item: Item, maxBytes: nat, fault: Fault): Outcome {
    var q := Progress(p.fs, p.total, 0, p.written);
    PutNode(PushRules(maxBytes, 0), q, item.path, item.node, fault)
  }

  /** Under the entry cap, putting an item down is placing it, and counting it. */
  lemma PlacedIsPut(rules: Rules, p: Progress, item: Item, fault: Fault, maxBytes: nat)
    requires rules.maxEntries.Some? && rules == PushRules(maxBytes, rules.maxEntries.value)
    requires p.count < rules.maxEntries.value
    ensures Put(rules, p, item, fault) ==
      match Placed(p, item, maxBytes, fault)
      case Going(r) => Going(r.(count := p.count + 1))
      case Stopped(r, why) => Stopped(r.(count := p.count + 1), why)
  {
  }

  lemma ExtractPlaced(rules: Rules, places: Places, p: Progress, entries: seq<TarEntry>, disk: nat -> Fault,
                      path: Path, maxBytes: nat)
    requires rules.maxEntries.Some? && rules == PushRules(maxBytes, rules.maxEntries.value)
    requires p.count < rules.maxEntries.value && entries != [] && places(entries[0].name) == Some(path)
    ensures Extract(rules, places, p, entries, disk) ==
      match Placed(p, Item(path, entries[0].node), maxBytes, disk(p.count))
      case Going(r) => Extract(rules, places, r.(count := p.count + 1), entries[1..], disk)
      case Stopped(r, why) => Stopped(r.(count := p.count + 1), why)
  {
    PlacedIsPut(rules, p, Item(path, entries[0].node), disk(p.count), maxBytes);
  }

  lemma RunPlaced(rules: Rules, p: Progress, items: seq<Item>, disk: nat -> Fault, maxBytes: nat)
    requires rules.maxEntries.Some? && rules == PushRules(maxBytes, rules.maxEntries.value)
    requires p.count < rules.maxEntries.value && items != []
    ensures Run(rules, p, items, disk) ==
      match Placed(p, items[0], maxBytes, disk(p.count))
      case Going(r) => Run(rules, r.(count := p.count + 1), items[1..], disk)
      case Stopped(r, why) => Stopped(r.(count := p.count + 1), why)
  {
    PlacedIsPut(rules, p, items[0], disk(p.count), maxBytes);
  }

  /** A run under way: the locals of the loops below, and the directory they fill. */
  function Now(d: Dest, totalBytes: nat, numEntries: nat): Progress
    reads d
  {
    Progress(d.fs, totalBytes, numEntries, d.written)
  }

  /** How a loop reports its run. */
  ghost predicate Reports(d: Dest, out: Outcome, err: Option<Why>)
    reads d
  {
    d.fs == out.p.fs && d.written == out.p.written && err == if out.Going? then None else Some(out.why)
  }

  /** extractTar's loop. */
  method Unpack(d: Dest, entries: seq<TarEntry>, places: Places, maxBytes: nat, maxEntries: nat, disk: nat -> Fault)
    returns (err: Option<Why>)
    modifies d
    ensures Reports(d, Extract(PushRules(maxBytes, maxEntries), places, old(Now(d, 0, 0)), entries, disk), err)
  {
    var totalBytes, numEntries, i := 0, 0, 0;
    ghost var rules := PushRules(maxBytes, maxEntries);
    ghost var all := Extract(rules, places, Now(d, 0, 0), entries, disk);
    assert entries[0..] == entries;
    while i < |entries|
      invariant 0 <= i <= |entries|
      invariant all == Extract(rules, places, Now(d, totalBytes, numEntries), entries[i..], disk)
    {
      var hdr, fault := entries[i], disk(numEntries);
      ghost var p := Now(d, totalBytes, numEntries);
      assert entries[i..][0] == hdr && entries[i..][1..] == entries[i + 1..];
      numEntries := numEntries + 1;
      if numEntries > maxEntries {
        return Some(TooLarge);
      }
      var target := places(hdr.name);
      if target.None? {
        return Some(Refused);
      }
      var n, failed := d.Place(target.value, hdr.node, totalBytes, maxBytes, fault);
      ghost var out := Placed(p, Item(target.value, hdr.node), maxBytes, fault);
      ExtractPlaced(rules, places, p, entries[i..], disk, target.value, maxBytes);
      if failed.Some? {
        return failed;
      }
      totalBytes := totalBytes + n;
      assert Now(d, totalBytes, numEntries) == out.p.(count := p.count + 1);
      i := i + 1;
    }
    assert entries[i..] == [];
    err := None;
  }

  /** extractTar, with every name joined to the staging root by safeJoin. */
  method ExtractTar(d: Dest, entries: seq<TarEntry>, root: string, maxBytes: nat, maxEntries: nat, disk: nat -> Fault)
    returns (err: Option<Why>)
    modifies d
    ensures Reports(d, Extract(PushRules(maxBytes, maxEntries), Into(root), old(Now(d, 0, 0)), entries, disk), err)
  {
    err := Unpack(d, entries, Into(root), maxBytes, maxEntries, disk);
  }

  // ---------------------------------------------------------------- copying

  /** dircopy.Copy: the source's walk, its root passed over, put down under the same caps. */
  method CopyDir(d: Dest, source: Forest, maxBytes: nat, maxEntries: nat, disk: nat -> Fault) returns (err: Option<Why>)
    modifies d
    ensures Reports(d, Run(PushRules(maxBytes, maxEntries), old(Now(d, 0, 0)), WalkForest([], source), disk), err)
  {
    err := CopyWalked(d, WalkForest([], source), maxBytes, maxEntries, disk);
  }

  /** The function Copy gives to the walk, called on each item in turn. */
  method CopyWalked(d: Dest, items: seq<Item>, maxBytes: nat, maxEntries: nat, disk: nat -> Fault)
    returns (err: Option<Why>)
    modifies d
    ensures Reports(d, Run(PushRules(maxBytes, maxEntries), old(Now(d, 0, 0)), items, disk), err)
  {
    var totalBytes, numEntries, i := 0, 0, 0;
    ghost var rules := PushRules(maxBytes, maxEntries);
    ghost var all := Run(rules, Now(d, 0, 0), items, disk);
    assert items[0..] == items;
    while i < |items|
      invariant 0 <= i <= |items|
      invariant all == Run(rules, Now(d, totalBytes, numEntries), items[i..], disk)
    {
      var item, fault := items[i], disk(numEntries);
      ghost var p := Now(d, totalBytes, numEntries);
      assert items[i..][0] == item && items[i..][1..] == items[i + 1..];
      numEntries := numEntries + 1;
      if numEntries > maxEntries {
        return Some(TooLarge);
      }
      var n, failed := d.Place(item.path, item.node, totalBytes, maxBytes, fault);
      ghost var out := Placed(p, item, maxBytes, fault);
      RunPlaced(rules, p, items[i..], disk, maxBytes);
      if failed.Some? {
        return failed;
      }
      totalBytes := totalBytes + n;
      assert Now(d, totalBytes, numEntries) == out.p.(count := p.count + 1);
      i := i + 1;
    }
    assert items[i..] == [];
    err := None;
  }

  // ---------------------------------------------------------------- snapshotting

  const SNAPSHOT_RULES := Rules(None, None, true)

  /** One entry of copyTree: links are recreated, directories made, and everything else is opened
      and copied whole. */
  method CopyEntry(d: Dest, path: Path, node: Node, fault: Fault) returns (err: Option<Why>)
    modifies d
    ensures var out := PutNode(SNAPSHOT_RULES, Progress(old(d.fs), 0, 0, old(d.written)), path, node, fault);
      d.fs == out.p.fs && d.written == out.p.written && err == if out.Going? then None else Some(out.why)
  {
    if node.LinkNode? {
      if fault != Fine || path in d.fs || path == [] || !IsDirAt(d.fs, path[..|path| - 1]) {
        return Some(DiskError);
      }
      d.fs := d.fs[path := node];
      return None;
    }
    if node.DirNode? {
      var ok := d.MakeDirs(path, fault);
      return if ok then None else Some(DiskError);
    }
    if path == [] || node == OtherNode(None) {
      return Some(DiskError);
    }
    var ok := d.MakeDirs(path[..|path| - 1], fault);
    if !ok {
      return Some(DiskError);
    }
    var data := if node.FileNode? then node.data else node.content.value;
    var _, failed := d.WriteFile(path, data, |data|, fault);
    err := failed;
  }

  /** snapshot's copyTree: no caps, and links recreated rather than followed. */
  method CopyTree(d: Dest, source: Forest, disk: nat -> Fault) returns (err: Option<Why>)
    modifies d
    ensures Reports(d, Run(SNAPSHOT_RULES, old(Now(d, 0, 0)), WalkForest([], source), disk), err)
  {
    var items := WalkForest([], source);
    ghost var p := Now(d, 0, 0);
    ghost var all := Run(SNAPSHOT_RULES, p, items, disk);
    assert items[0..] == items;
    for i := 0 to |items|
      invariant d.fs == p.fs && d.written == p.written && p.count == i
      invariant all == Run(SNAPSHOT_RULES, p, items[i..], disk)
    {
      assert items[i..][0] == items[i] && items[i..][1..] == items[i + 1..];
      SnapshotPut(p, items[i], disk(i));
      err := CopyEntry(d, items[i].path, items[i].node, disk(i));
      if err.Some? {
        return;
      }
      p := Put(SNAPSHOT_RULES, p, items[i], disk(i)).p;
    }
    assert items[|items|..] == [];
    err := None;
  }

  /** The same but for the accounts. */
  predicate Alike(a: Outcome, b: Outcome) {
    a.p.fs == b.p.fs && a.p.written == b.p.written && a.Going? == b.Going? && (a.Stopped? ==> a.why == b.why)
  }

  lemma SnapshotPutData(p: Progress, q: Progress, path: Path, data: Bytes, fault: Fault)
    requires p.fs == q.fs && p.written == q.written
    ensures Alike(PutData(SNAPSHOT_RULES, p, path, data, fault), PutData(SNAPSHOT_RULES, q, path, data, fault))
    ensures PutData(SNAPSHOT_RULES, p, path, data, fault).p.count == p.count
  {
  }

  /** Without caps the totals decide nothing. */
  lemma SnapshotPut(p: Progress, item: Item, fault: Fault)
    ensures var out := Put(SNAPSHOT_RULES, p, item, fault);
      && Alike(out, PutNode(SNAPSHOT_RULES, Progress(p.fs, 0, 0, p.written), item.path, item.node, fault))
      && out.p.count == p.count + 1
  {
    var q, bare := p.(count := p.count + 1), Progress(p.fs, 0, 0, p.written);
    match item.node
    case OtherNode(content) =>
      if content.Some? {
        SnapshotPutData(q, bare, item.path, content.value, fault);
      }
    case FileNode(data) => SnapshotPutData(q, bare, item.path, data, fault);
    case _ =>
  }

  /** A snapshot of a directory is that directory, down to every byte and link target, with what
      is read from any other entry in its place; it fails exactly if some entry cannot be read. */
  lemma SnapshotIsExact(source: Forest, disk: nat -> Fault)
    requires AllFine(disk) && ForestOk(source)
    ensures var out := Run(SNAPSHOT_RULES, START, WalkForest([], source), disk);
      && (out.Going? <==> ForestTakes(SNAPSHOT_RULES, source))
      && (out.Going? ==> out.p.fs == map[[] := DirNode] + FlatForest([], source, true))
  {
    RebuiltExactly(SNAPSHOT_RULES, source, disk);
  }

  // ---------------------------------------------------------------- names in the archive

  /** A staging directory as the hub makes them: a clean path that names a directory and does not
      climb. */
  predicate GoodRoot(root: string) {
    root != "" && Clean(root) == root && root != "." && root != "/" && !Climbs(root)
  }

  lemma {:induction false} NamesAppend(a: seq<string>, b: seq<string>)
    ensures Names(a + b) == Names(a) + Names(b)
  {
    if a == [] {
      assert a + b == b;
    } else {
      NamesAppend(a[1..], b);
      assert (a + b)[1..] == a[1..] + b;
    }
  }

  lemma SplitOfPacked(path: Path, slash: bool)
    requires path != [] && AllPlain(path)
    ensures var name := PackedName(path, slash);
      !Rooted(name) && Split(name) == (if slash then path + [""] else path) && Names(Split(name)) == path
  {
    GlueOfPlain(path);
    NamesOfPlain(path);
    if slash {
      SplitAtSlash(Glue(path), "");
      assert Glue(path) + "/" + "" == PackedName(path, slash);
      NamesAppend(path, [""]);
    } else {
      assert PackedName(path, slash) == Glue(path);
    }
  }

  lemma CleanOfPacked(path: Path, slash: bool)
    requires path != [] && AllPlain(path)
    ensures var r := CleanRelPath(PackedName(path, slash)); r.Ok? && Split(r.value) == path
  {
    var name := PackedName(path, slash);
    SplitOfPacked(path, slash);
    NamesOfPlain(path);
    assert Split(name)[0] == path[0] && Plain(path[0]);
    assert ".." !in Split(name);
    AcceptedExactly(name);
  }

  lemma BelowRoot(root: string, c: string)
    requires c != ""
    ensures Below(root, root + "/" + c) == Split(c)
  {
    assert (root + "/" + c)[|root| + 1..] == c;
  }

  /** An entry named by a walk path, with or without the slash of a directory, goes to that path. */
  lemma PackedNamesLocate(root: string, path: Path, slash: bool)
    requires GoodRoot(root) && path != [] && AllPlain(path)
    ensures Locate(root, PackedName(path, slash)) == Some(path)
  {
    CleanOfPacked(path, slash);
    CleanedAndRawAgree(root, PackedName(path, slash));
    assert Split("") == [""];
    BelowRoot(root, CleanRelPath(PackedName(path, slash)).value);
  }

  // ---------------------------------------------------------------- the round trip

  function PrunedTree(t: Tree): Tree {
    if t.Dir? then Dir(Pruned(t.kids)) else t
  }

  /** The files and directories of a tree, without its links and other entries. */
  function Pruned(f: Forest): Forest {
    if f.End? then End
    else if f.tree.Link? || f.tree.Other? then Pruned(f.rest)
    else Kid(f.name, PrunedTree(f.tree), Pruned(f.rest))
  }

  lemma {:induction false} PrunedNames(f: Forest, name: string)
    ensures NameIn(Pruned(f), name) ==> NameIn(f, name)
  {
    if f.Kid? {
      PrunedNames(f.rest, name);
    }
  }

  lemma {:induction false} PrunedIsOk(f: Forest, rules: Rules)
    requires ForestOk(f)
    ensures ForestOk(Pruned(f)) && ForestTakes(rules, Pruned(f))
      && ForestBytes(Pruned(f), false) == ForestBytes(f, false)
    decreases f
  {
    if f.Kid? {
      PrunedIsOk(f.rest, rules);
      PrunedNames(f.rest, f.name);
      if f.tree.Dir? {
        PrunedIsOk(f.tree.kids, rules);
      }
    }
  }

  lemma {:induction false} PrunedIsFlat(at: Path, f: Forest)
    ensures FlatForest(at, Pruned(f), false) == FlatForest(at, f, false)
    decreases f
  {
    if f.Kid? {
      PrunedIsFlat(at, f.rest);
      if f.tree.Dir? {
        PrunedIsFlat(at + [f.name], f.tree.kids);
      }
    }
  }

  /** The entries go, in order, to the items of the pruned walk. */
  ghost predicate Locates(places: Places, entries: seq<TarEntry>, items: seq<Item>) {
    && |entries| == |items|
    && forall i :: 0 <= i < |items| ==>
         places(entries[i].name) == Some(items[i].path) && entries[i].node == items[i].node
  }

  lemma LocatesJoin(places: Places, a: seq<TarEntry>, i: seq<Item>, b: seq<TarEntry>, j: seq<Item>)
    requires Locates(places, a, i) && Locates(places, b, j)
    ensures Locates(places, a + b, i + j)
  {
  }

  lemma {:induction false} PackTreeLocates(root: string, at: Path, t: Tree)
    requires GoodRoot(root) && at != [] && AllPlain(at) && TreeOk(t) && !t.Link? && !t.Other?
    ensures Locates(Into(root), PackTree(at, t), WalkTree(at, PrunedTree(t)))
    decreases t, 1
  {
    PackedNamesLocate(root, at, t.Dir?);
    if t.Dir? {
      PackForestLocates(root, at, t.kids);
      LocatesJoin(Into(root), [PackTree(at, t)[0]], [Item(at, DirNode)],
                  PackForest(at, t.kids), WalkForest(at, Pruned(t.kids)));
    }
  }

  lemma {:induction false} PackForestLocates(root: string, at: Path, f: Forest)
    requires GoodRoot(root) && AllPlain(at) && ForestOk(f)
    ensures Locates(Into(root), PackForest(at, f), WalkForest(at, Pruned(f)))
    decreases f, 0
  {
    if f.Kid? {
      PackForestLocates(root, at, f.rest);
      if !f.tree.Link? && !f.tree.Other? {
        PackTreeLocates(root, at + [f.name], f.tree);
        LocatesJoin(Into(root), PackTree(at + [f.name], f.tree), WalkTree(at + [f.name], PrunedTree(f.tree)),
                    PackForest(at, f.rest), WalkForest(at, Pruned(f.rest)));
      }
    }
  }

  lemma {:induction false} ExtractIsRun(rules: Rules, places: Places, p: Progress, entries: seq<TarEntry>,
                                        items: seq<Item>, disk: nat -> Fault)
    requires Locates(places, entries, items)
    ensures Extract(rules, places, p, entries, disk) == Run(rules, p, items, disk)
    decreases |entries|
  {
    if entries != [] {
      assert places(entries[0].name) == Some(items[0].path) && entries[0].node == items[0].node;
      assert items[0] == Item(items[0].path, entries[0].node);
      match Put(rules, p, items[0], disk(p.count))
      case Stopped(_, _) =>
      case Going(q) =>
        assert Locates(places, entries[1..], items[1..]);
        ExtractIsRun(rules, places, q, entries[1..], items[1..], disk);
    }
  }

  /** The caps on a push of a directory: entries and bytes of what is packed. */
  predicate PushFits(f: Forest, maxBytes: nat, maxEntries: nat) {
    ForestItems(Pruned(f)) <= maxEntries && ForestBytes(f, false) <= maxBytes
  }

  /** For every directory tree: extracting its archive rebuilds exactly its regular files and
      directories, or stops at a cap, and it does the first just when the caps allow. A copy of
      the rebuilt tree under the same caps then comes out the same. */
  lemma PushRoundTrip(root: string, f: Forest, maxBytes: nat, maxEntries: nat, disk: nat -> Fault)
    requires GoodRoot(root) && ForestOk(f) && AllFine(disk)
    ensures var rules := PushRules(maxBytes, maxEntries);
      var pushed := Extract(rules, Into(root), START, PackForest([], f), disk);
      var copied := Run(rules, START, WalkForest([], Pruned(f)), disk);
      && (pushed.Going? <==> PushFits(f, maxBytes, maxEntries))
      && (pushed.Going? ==> pushed.p.fs == map[[] := DirNode] + FlatForest([], f, false))
      && (pushed.Stopped? ==> pushed.why == TooLarge)
      && copied == pushed
  {
    var rules := PushRules(maxBytes, maxEntries);
    PackForestLocates(root, [], f);
    ExtractIsRun(rules, Into(root), START, PackForest([], f), WalkForest([], Pruned(f)), disk);
    PrunedIsOk(f, rules);
    PrunedIsFlat([], f);
    RebuiltExactly(rules, Pruned(f), disk);
  }

  /** A copy of any directory rebuilds all of it, exactly if it holds nothing but files and
      directories and fits the caps. */
  lemma CopyIsExact(f: Forest, maxBytes: nat, maxEntries: nat, disk: nat -> Fault)
    requires ForestOk(f) && AllFine(disk)
    ensures var rules := PushRules(maxBytes, maxEntries);
      var copied := Run(rules, START, WalkForest([], f), disk);
      && (copied.Going? <==> ForestTakes(rules, f) && ForestItems(f) <= maxEntries && ForestBytes(f, false) <= maxBytes)
      && (copied.Going? ==> copied.p.fs == map[[] := DirNode] + FlatForest([], f, false))
  {
    RebuiltExactly(PushRules(maxBytes, maxEntries), f, disk);
  }

  // ---------------------------------------------------------------- any archive at all

  /** Names go to paths of ordinary names only. */
  ghost predicate PlainPlaces(places: Places) {
    forall name :: places(name).Some? ==> AllPlain(places(name).value)
  }

  /** Whatever the archive holds and however the disk fails: what is accepted stays within the
      byte cap, and what is ever written is at most one byte more; no more entries than the cap,
      and one, are looked at; and what is on disk is a tree of ordinary names. */
  lemma {:induction false} AnyArchiveIsBounded(places: Places, p: Progress, entries: seq<TarEntry>, maxBytes: nat,
                                               maxEntries: nat, disk: nat -> Fault)
    requires PlainPlaces(places) && Within(p, maxBytes) && p.count <= maxEntries && Shaped(p.fs)
    ensures var out := Extract(PushRules(maxBytes, maxEntries), places, p, entries, disk);
      && (out.Going? ==> Within(out.p, maxBytes) && out.p.count <= maxEntries)
      && out.p.total <= maxBytes && out.p.written <= maxBytes + 1 && out.p.count <= maxEntries + 1
      && Shaped(out.p.fs)
    decreases |entries|
  {
    var rules := PushRules(maxBytes, maxEntries);
    if entries != [] {
      PutEntryIsBounded(places, p, entries[0], maxBytes, maxEntries, disk(p.count));
      match PutEntry(rules, places, p, entries[0], disk(p.count))
      case Stopped(_, _) =>
      case Going(q) => AnyArchiveIsBounded(places, q, entries[1..], maxBytes, maxEntries, disk);
    }
  }

  lemma PutEntryIsBounded(places: Places, p: Progress, e: TarEntry, maxBytes: nat, maxEntries: nat, fault: Fault)
    requires PlainPlaces(places) && Within(p, maxBytes) && p.count <= maxEntries && Shaped(p.fs)
    ensures var out := PutEntry(PushRules(maxBytes, maxEntries), places, p, e, fault);
      && (out.Going? ==> Within(out.p, maxBytes) && out.p.count <= maxEntries)
      && out.p.total <= maxBytes && out.p.written <= maxBytes + 1 && out.p.count <= maxEntries + 1
      && Shaped(out.p.fs)
  {
    var rules := PushRules(maxBytes, maxEntries);
    var at := places(e.name);
    if at.Some? {
      PutBounds(rules, p, Item(at.value, e.node), fault, maxBytes);
      PutKeepsShape(rules, p, Item(at.value, e.node), fault);
    }
  }

  /** The path an entry is put at is where its joined name leads, below the root. */
  lemma EntriesStayBelow(cwd: Path, root: string, name: string)
    requires !Climbs(root) && Locate(root, name).Some?
    ensures Resolve(cwd, SafeJoin(root, name).value) == Resolve(cwd, root) + Locate(root, name).value
    ensures AllPlain(Locate(root, name).value)
  {
    AcceptedIsBelow(cwd, root, name);
  }

  /** So extraction into a root that does not climb is bounded, and stays below it. */
  lemma ExtractionIsBounded(root: string, entries: seq<TarEntry>, maxBytes: nat, maxEntries: nat, disk: nat -> Fault)
    requires !Climbs(root)
    ensures var out := Extract(PushRules(maxBytes, maxEntries), Into(root), START, entries, disk);
      out.p.total <= maxBytes && out.p.written <= maxBytes + 1 && Shaped(out.p.fs)
  {
    forall name | Into(root)(name).Some? ensures AllPlain(Into(root)(name).value) {
      EntriesStayBelow([], root, name);
    }
    AnyArchiveIsBounded(Into(root), START, entries, maxBytes, maxEntries, disk);
  }
}
