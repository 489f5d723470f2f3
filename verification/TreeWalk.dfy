/** Directory trees walked into a list of items, and items put down one at a time, under an entry
    cap and a byte budget: what push extraction, canvas copies and snapshots have in common. */
module TreeWalk {
  import opened Prelude
  import opened Paths

  type Bytes = seq<bv8>

  // ---------------------------------------------------------------- trees

  /** What a walk meets; Other is a device, a fifo, a socket, with the bytes that opening and reading
      it yields, or None if that fails. A directory's children come in the
      order the walk visits them. */
  datatype Tree = File(data: Bytes) | Link(target: string) | Other(content: Option<Bytes>) | Dir(kids: Forest)
  datatype Forest = End | Kid(name: string, tree: Tree, rest: Forest)

  /** The names from the root directory down; the root itself is []. */
  type Path = seq<string>

  datatype Node = DirNode | FileNode(data: Bytes) | LinkNode(target: string) | OtherNode(content: Option<Bytes>)

  /** A directory's contents, flat: what is at each path. */
  type Flat = map<Path, Node>

  predicate NameIn(f: Forest, name: string) {
    f.Kid? && (f.name == name || NameIn(f.rest, name))
  }

  predicate TreeOk(t: Tree) {
    t.Dir? ==> ForestOk(t.kids)
  }

  /** Names are single path components, no two alike in one directory. */
  predicate ForestOk(f: Forest) {
    f.Kid? ==> Plain(f.name) && !NameIn(f.rest, f.name) && TreeOk(f.tree) && ForestOk(f.rest)
  }

  /** A tree of files, links and directories only. */
  predicate Ordinary(t: Tree) {
    !t.Other? && (t.Dir? ==> AllOrdinary(t.kids))
  }

  predicate AllOrdinary(f: Forest) {
    f.Kid? ==> Ordinary(f.tree) && AllOrdinary(f.rest)
  }

  /** The flat contents of the tree at a path: directories and regular files, and if all is wanted
      links and what is read from other entries. */
  function FlatTree(at: Path, t: Tree, all: bool): Flat
    decreases t
  {
    match t
    case File(data) => map[at := FileNode(data)]
    case Link(target) => if all then map[at := LinkNode(target)] else map[]
    case Other(content) => if all && content.Some? then map[at := FileNode(content.value)] else map[]
    case Dir(kids) => map[at := DirNode] + FlatForest(at, kids, all)
  }

  function FlatForest(at: Path, f: Forest, all: bool): Flat
    decreases f
  {
    match f
    case End => map[]
    case Kid(name, t, rest) => FlatTree(at + [name], t, all) + FlatForest(at, rest, all)
  }

  function TreeBytes(t: Tree, all: bool): nat {
    match t
    case File(data) => |data|
    case Link(_) => 0
    case Other(content) => if all && content.Some? then |content.value| else 0
    case Dir(kids) => ForestBytes(kids, all)
  }

  function ForestBytes(f: Forest, all: bool): nat {
    if f.End? then 0 else TreeBytes(f.tree, all) + ForestBytes(f.rest, all)
  }

  // ---------------------------------------------------------------- walking a tree

  /** One step of a walk. */
  datatype Item = Item(path: Path, node: Node)

  function WalkTree(at: Path, t: Tree): seq<Item>
    decreases t
  {
    match t
    case File(data) => [Item(at, FileNode(data))]
    case Link(target) => [Item(at, LinkNode(target))]
    case Other(content) => [Item(at, OtherNode(content))]
    case Dir(kids) => [Item(at, DirNode)] + WalkForest(at, kids)
  }

  /** The walk of a directory's contents: the directory itself is passed over. */
  function WalkForest(at: Path, f: Forest): seq<Item>
    decreases f
  {
    match f
    case End => []
    case Kid(name, t, rest) => WalkTree(at + [name], t) + WalkForest(at, rest)
  }

  // ---------------------------------------------------------------- putting items down

  /** The limits a copy runs under, and whether it recreates links. */
  datatype Rules = Rules(maxBytes: Option<nat>, maxEntries: Option<nat>, all: bool)

  /** Whether the disk does its part for one item: makes directories, creates the file, or gives up
      copying after so many bytes. */
  datatype Fault = Fine | NoDirectory | NoFile | CopyStops(after: nat)

  datatype Why = TooLarge | Refused | DiskError

  /** total: bytes of the files accepted; count: items seen; written: bytes ever written. */
  datatype Progress = Progress(fs: Flat, total: nat, count: nat, written: nat)

  datatype Outcome = Going(p: Progress) | Stopped(p: Progress, why: Why)

  predicate IsDirAt(fs: Flat, path: Path) {
    path in fs && fs[path].DirNode?
  }

  /** os.MkdirAll: None when a file or link is in the way. */
  function MkdirAll(fs: Flat, path: Path): Option<Flat>
    decreases |path|
  {
    if path == [] then Some(fs)
    else
      match MkdirAll(fs, path[..|path| - 1])
      case None => None
      case Some(above) =>
        if path !in above then Some(above[path := DirNode])
        else if above[path].DirNode? then Some(above)
        else None
  }

  /** The bytes that get through a reader limited to one more than the budget. */
  function Limited(data: Bytes, budget: Option<nat>): Bytes {
    if budget.Some? && |data| > budget.value + 1 then data[..budget.value + 1] else data
  }

  function BudgetLeft(rules: Rules, total: nat): Option<nat> {
    if rules.maxBytes.None? then None
    else if rules.maxBytes.value < total then Some(0)
    else Some(rules.maxBytes.value - total)
  }

  function PutFile(rules: Rules, p: Progress, path: Path, data: Bytes, fault: Fault): Outcome {
    var budget := BudgetLeft(rules, p.total);
    var through := Limited(data, budget);
    if fault.NoFile? then Stopped(p, DiskError)
    else if fault.CopyStops? && fault.after < |through| then
      Stopped(p.(fs := p.fs[path := FileNode(through[..fault.after])], written := p.written + fault.after), DiskError)
    else
      var q := p.(fs := p.fs[path := FileNode(through)], written := p.written + |through|);
      if fault.CopyStops? then Stopped(q, DiskError)
      else if budget.Some? && |through| > budget.value then Stopped(q, TooLarge)
      else Going(q.(total := p.total + |through|))
  }

  function PutData(rules: Rules, p: Progress, path: Path, data: Bytes, fault: Fault): Outcome {
    if path == [] then Stopped(p, DiskError)
    else
      var made := MkdirAll(p.fs, path[..|path| - 1]);
      if fault.NoDirectory? || made.None? then Stopped(p, DiskError)
      else if path in made.value && !made.value[path].FileNode? then Stopped(p.(fs := made.value), DiskError)
      else PutFile(rules, p.(fs := made.value), path, data, fault)
  }

  function PutNode(rules: Rules, p: Progress, path: Path, node: Node, fault: Fault): Outcome {
    match node
    case LinkNode(target) =>
      if !rules.all then Stopped(p, Refused)
      else if fault != Fine || path in p.fs || path == [] || !IsDirAt(p.fs, path[..|path| - 1])
      then Stopped(p, DiskError)
      else Going(p.(fs := p.fs[path := node]))
    case OtherNode(content) =>
      if !rules.all then Stopped(p, Refused)
      else if content.None? then Stopped(p, DiskError)
      else PutData(rules, p, path, content.value, fault)
    case DirNode =>
      var made := MkdirAll(p.fs, path);
      if fault.NoDirectory? || made.None? then Stopped(p, DiskError) else Going(p.(fs := made.value))
    case FileNode(data) => PutData(rules, p, path, data, fault)
  }

  function Put(rules: Rules, p: Progress, item: Item, fault: Fault): Outcome {
    var q := p.(count := p.count + 1);
    if rules.maxEntries.Some? && q.count > rules.maxEntries.value then Stopped(q, TooLarge)
    else PutNode(rules, q, item.path, item.node, fault)
  }

  /** A whole run; disk says how the disk does for each item. */
  function Run(rules: Rules, p: Progress, items: seq<Item>, disk: nat -> Fault): Outcome
    decreases |items|
  {
    if items == [] then Going(p)
    else
      match Put(rules, p, items[0], disk(p.count))
      case Stopped(q, why) => Stopped(q, why)
      case Going(q) => Run(rules, q, items[1..], disk)
  }

  lemma {:induction false} RunAppend(rules: Rules, p: Progress, a: seq<Item>, b: seq<Item>, disk: nat -> Fault)
    ensures Run(rules, p, a + b, disk) ==
      match Run(rules, p, a, disk)
      case Stopped(q, why) => Stopped(q, why)
      case Going(q) => Run(rules, q, b, disk)
    decreases |a|
  {
    if a == [] {
      assert a + b == b;
    } else {
      assert (a + b)[1..] == a[1..] + b;
      match Put(rules, p, a[0], disk(p.count))
      case Stopped(_, _) =>
      case Going(q) => RunAppend(rules, q, a[1..], b, disk);
    }
  }

  // ---------------------------------------------------------------- a walked tree put back

  predicate Fits(rules: Rules, count: nat, total: nat) {
    && (rules.maxEntries.Some? ==> count <= rules.maxEntries.value)
    && (rules.maxBytes.Some? ==> total <= rules.maxBytes.value)
  }

  /** Nothing in the tree that the rules refuse. */
  predicate TreeTakes(rules: Rules, t: Tree) {
    match t
    case File(_) => true
    case Link(_) => rules.all
    case Other(content) => rules.all && content.Some?
    case Dir(kids) => ForestTakes(rules, kids)
  }

  predicate ForestTakes(rules: Rules, f: Forest) {
    f.Kid? ==> TreeTakes(rules, f.tree) && ForestTakes(rules, f.rest)
  }

  /** The path and everything above it are directories. */
  predicate DirsDownTo(fs: Flat, path: Path) {
    IsDirAt(fs, []) && forall k :: 0 <= k <= |path| ==> IsDirAt(fs, path[..k])
  }

  /** Nothing at the path or below it. */
  ghost predicate Clear(fs: Flat, path: Path) {
    forall p :: p in fs ==> !(path <= p)
  }

  ghost predicate ClearFor(fs: Flat, at: Path, f: Forest) {
    forall name :: NameIn(f, name) ==> Clear(fs, at + [name])
  }

  lemma {:induction false} MkdirAllThere(fs: Flat, path: Path)
    requires DirsDownTo(fs, path)
    ensures MkdirAll(fs, path) == Some(fs)
    decreases |path|
  {
    if path != [] {
      var up := path[..|path| - 1];
      assert forall k :: 0 <= k <= |up| ==> up[..k] == path[..k];
      MkdirAllThere(fs, up);
      assert path[..|path|] == path && IsDirAt(fs, path[..|path|]);
    }
  }

  lemma {:induction false} FlatTreeBelow(at: Path, t: Tree, all: bool)
    ensures forall p :: p in FlatTree(at, t, all) ==> at <= p
    decreases t, 1
  {
    if t.Dir? {
      FlatForestBelow(at, t.kids, all);
    }
  }

  lemma {:induction false} FlatForestBelow(at: Path, f: Forest, all: bool)
    ensures forall p :: p in FlatForest(at, f, all) ==>
      at <= p && |p| > |at| && NameIn(f, p[|at|])
    decreases f, 0
  {
    if f.Kid? {
      FlatTreeBelow(at + [f.name], f.tree, all);
      FlatForestBelow(at, f.rest, all);
      assert forall p :: at + [f.name] <= p ==> at <= p && |p| > |at| && p[|at|] == f.name;
    }
  }

  ghost predicate AllFine(disk: nat -> Fault) {
    forall k: nat :: disk(k) == Fine
  }

  /** What a run over a walked tree should come to, if the caps allow. */
  function Grown(p: Progress, more: Flat, items: nat, bytes: nat): Progress {
    Progress(p.fs + more, p.total + bytes, p.count + items, p.written + bytes)
  }

  ghost predicate Exactly(rules: Rules, p: Progress, more: Flat, items: nat, bytes: nat, out: Outcome) {
    if Fits(rules, p.count + items, p.total + bytes) then out == Going(Grown(p, more, items, bytes))
    else out.Stopped? && out.why == TooLarge
  }

  /** What is at the path once an entry of a kind the rules take is put there. */
  function Landed(t: Tree): Node {
    match t
    case File(data) => FileNode(data)
    case Link(target) => LinkNode(target)
    case Other(content) => FileNode(if content.Some? then content.value else [])
    case Dir(_) => DirNode
  }

  lemma PutDataOne(rules: Rules, p: Progress, at: Path, data: Bytes)
    requires rules.maxBytes.Some? ==> p.total <= rules.maxBytes.value
    requires at != [] && DirsDownTo(p.fs, at[..|at| - 1]) && at !in p.fs
    ensures var out := PutData(rules, p, at, data, Fine);
      if rules.maxBytes.Some? && p.total + |data| > rules.maxBytes.value then out.Stopped? && out.why == TooLarge
      else out == Going(Progress(p.fs + map[at := FileNode(data)], p.total + |data|, p.count, p.written + |data|))
  {
    MkdirAllThere(p.fs, at[..|at| - 1]);
    assert p.fs[at := FileNode(data)] == p.fs + map[at := FileNode(data)];
    var budget := BudgetLeft(rules, p.total);
    assert budget.Some? && |data| > budget.value + 1 ==> |Limited(data, budget)| == budget.value + 1;
  }

  /** One entry of a kind the rules take, at a clear path whose parents are there. */
  lemma PutOne(rules: Rules, p: Progress, at: Path, t: Tree)
    requires Fits(rules, p.count, p.total) && at != [] && DirsDownTo(p.fs, at[..|at| - 1]) && at !in p.fs
    requires TreeTakes(rules, t)
    ensures Exactly(rules, p, map[at := Landed(t)], 1, if t.Dir? then 0 else TreeBytes(t, rules.all),
                    Put(rules, p, WalkTree(at, t)[0], Fine))
  {
    MkdirAllThere(p.fs, at[..|at| - 1]);
    assert p.fs[at := Landed(t)] == p.fs + map[at := Landed(t)];
    match t
    case File(data) => PutDataOne(rules, p.(count := p.count + 1), at, data);
    case Other(content) => PutDataOne(rules, p.(count := p.count + 1), at, content.value);
    case Link(_) =>
      assert at[..|at| - 1][..|at| - 1] == at[..|at| - 1];
    case Dir(_) =>
  }

  lemma ExactlyThen(rules: Rules, p: Progress, more: Flat, items: nat, bytes: nat, out: Outcome,
                    more': Flat, items': nat, bytes': nat, out': Outcome)
    requires Exactly(rules, p, more, items, bytes, out)
    requires out.Going? ==> Exactly(rules, out.p, more', items', bytes', out')
    requires out.Stopped? ==> out' == out
    ensures Exactly(rules, p, more + more', items + items', bytes + bytes', out')
  {
    assert p.fs + (more + more') == (p.fs + more) + more';
  }

  function TreeItems(t: Tree): nat {
    if t.Dir? then 1 + ForestItems(t.kids) else 1
  }

  function ForestItems(f: Forest): nat {
    if f.End? then 0 else TreeItems(f.tree) + ForestItems(f.rest)
  }

  lemma {:induction false} TreeLength(at: Path, t: Tree)
    ensures |WalkTree(at, t)| == TreeItems(t)
    decreases t
  {
    if t.Dir? {
      ForestLength(at, t.kids);
    }
  }

  lemma {:induction false} ForestLength(at: Path, f: Forest)
    ensures |WalkForest(at, f)| == ForestItems(f)
    decreases f
  {
    if f.Kid? {
      TreeLength(at + [f.name], f.tree);
      ForestLength(at, f.rest);
    }
  }

  /** A directory made at a clear path has everything above it, and nothing below. */
  lemma NewDirIsReady(fs: Flat, at: Path, f: Forest)
    requires at != [] && DirsDownTo(fs, at[..|at| - 1]) && Clear(fs, at)
    ensures DirsDownTo(fs + map[at := DirNode], at) && ClearFor(fs + map[at := DirNode], at, f)
  {
    var made := fs + map[at := DirNode];
    var up := at[..|at| - 1];
    forall k | 0 <= k <= |at| ensures IsDirAt(made, at[..k]) {
      if k < |at| {
        assert at[..k] == up[..k];
        assert IsDirAt(fs, up[..k]);
      } else {
        assert at[..k] == at;
      }
    }
    forall name ensures Clear(made, at + [name]) {
      forall p | p in made ensures !(at + [name] <= p) {
        assert at + [name] <= p ==> at <= p;
      }
    }
  }

  lemma OtherKid(at: Path, name: string, other: string, p: Path)
    requires name != other && at + [name] <= p
    ensures !(at + [other] <= p)
  {
    assert (at + [name])[|at|] == p[|at|];
  }

  lemma SiblingIsReady(fs: Flat, at: Path, f: Forest, rules: Rules)
    requires f.Kid? && ForestOk(f) && DirsDownTo(fs, at) && ClearFor(fs, at, f)
    ensures var fs' := fs + FlatTree(at + [f.name], f.tree, rules.all);
      DirsDownTo(fs', at) && ClearFor(fs', at, f.rest)
  {
    var more := FlatTree(at + [f.name], f.tree, rules.all);
    var fs' := fs + more;
    FlatTreeBelow(at + [f.name], f.tree, rules.all);
    forall k | 0 <= k <= |at| ensures IsDirAt(fs', at[..k]) {
      assert !(at + [f.name] <= at[..k]);
      assert IsDirAt(fs, at[..k]);
    }
    forall name | NameIn(f.rest, name) ensures Clear(fs', at + [name]) {
      assert name != f.name;
      assert Clear(fs, at + [name]) by { assert NameIn(f, name); }
      forall p | p in more ensures !(at + [name] <= p) {
        OtherKid(at, f.name, name, p);
      }
    }
  }

  lemma DirThenKids(rules: Rules, p: Progress, at: Path, t: Tree, first: Outcome, out: Outcome)
    requires t.Dir? && Exactly(rules, p, map[at := DirNode], 1, 0, first)
    requires first.Going? ==>
      Exactly(rules, first.p, FlatForest(at, t.kids, rules.all), ForestItems(t.kids), ForestBytes(t.kids, rules.all),
        out)
    requires first.Stopped? ==> out == first
    ensures Exactly(rules, p, FlatTree(at, t, rules.all), TreeItems(t), TreeBytes(t, rules.all), out)
  {
    ExactlyThen(rules, p, map[at := DirNode], 1, 0, first,
                FlatForest(at, t.kids, rules.all), ForestItems(t.kids), ForestBytes(t.kids, rules.all), out);
  }

  /** Putting a walked tree back at a clear path rebuilds exactly that tree, if and only if the
      caps allow its items and bytes; otherwise the run stops at a cap. */
  lemma {:induction false} RunTree(rules: Rules, p: Progress, at: Path, t: Tree, disk: nat -> Fault)
    requires AllFine(disk) && TreeOk(t) && TreeTakes(rules, t) && Fits(rules, p.count, p.total)
    requires at != [] && DirsDownTo(p.fs, at[..|at| - 1]) && Clear(p.fs, at)
    ensures Exactly(rules, p, FlatTree(at, t, rules.all), TreeItems(t), TreeBytes(t, rules.all),
      Run(rules, p, WalkTree(at, t), disk))
    decreases t, 1
  {
    var items := WalkTree(at, t);
    PutOne(rules, p, at, t);
    var first := Put(rules, p, items[0], Fine);
    assert disk(p.count) == Fine;
    if t.Dir? {
      assert items[1..] == WalkForest(at, t.kids);
      if first.Going? {
        NewDirIsReady(p.fs, at, t.kids);
        RunForest(rules, first.p, at, t.kids, disk);
      }
      DirThenKids(rules, p, at, t, first, Run(rules, p, items, disk));
    } else {
      assert items[1..] == [];
      assert FlatTree(at, t, rules.all) == map[at := Landed(t)];
    }
  }

  lemma RunKid(rules: Rules, p: Progress, at: Path, f: Forest, disk: nat -> Fault)
    requires f.Kid?
    ensures Run(rules, p, WalkForest(at, f), disk) ==
      match Run(rules, p, WalkTree(at + [f.name], f.tree), disk)
      case Stopped(q, why) => Stopped(q, why)
      case Going(q) => Run(rules, q, WalkForest(at, f.rest), disk)
  {
    RunAppend(rules, p, WalkTree(at + [f.name], f.tree), WalkForest(at, f.rest), disk);
  }

  lemma KidThenRest(rules: Rules, p: Progress, at: Path, f: Forest, first: Outcome, out: Outcome)
    requires f.Kid?
    requires Exactly(rules, p, FlatTree(at + [f.name], f.tree, rules.all), TreeItems(f.tree),
      TreeBytes(f.tree, rules.all), first)
    requires first.Going? ==>
      Exactly(rules, first.p, FlatForest(at, f.rest, rules.all), ForestItems(f.rest), ForestBytes(f.rest, rules.all),
        out)
    requires first.Stopped? ==> out == first
    ensures Exactly(rules, p, FlatForest(at, f, rules.all), ForestItems(f), ForestBytes(f, rules.all), out)
  {
    ExactlyThen(rules, p, FlatTree(at + [f.name], f.tree, rules.all), TreeItems(f.tree), TreeBytes(f.tree, rules.all),
                first, FlatForest(at, f.rest, rules.all), ForestItems(f.rest), ForestBytes(f.rest, rules.all), out);
  }

  lemma {:induction false} RunForest(rules: Rules, p: Progress, at: Path, f: Forest, disk: nat -> Fault)
    requires AllFine(disk) && ForestOk(f) && ForestTakes(rules, f) && Fits(rules, p.count, p.total)
    requires DirsDownTo(p.fs, at) && ClearFor(p.fs, at, f)
    ensures Exactly(rules, p, FlatForest(at, f, rules.all), ForestItems(f), ForestBytes(f, rules.all),
      Run(rules, p, WalkForest(at, f), disk))
    decreases f, 0
  {
    if f.End? {
      assert p.fs + map[] == p.fs;
    } else {
      var here := at + [f.name];
      assert here[..|here| - 1] == at && NameIn(f, f.name);
      RunTree(rules, p, here, f.tree, disk);
      var first := Run(rules, p, WalkTree(here, f.tree), disk);
      RunKid(rules, p, at, f, disk);
      var out := Run(rules, p, WalkForest(at, f), disk);
      if first.Going? {
        SiblingIsReady(p.fs, at, f, rules);
        RunForest(rules, first.p, at, f.rest, disk);
      }
      KidThenRest(rules, p, at, f, first, out);
    }
  }

  // ---------------------------------------------------------------- what is refused

  /** An entry that no run under the rules gets past. */
  predicate Stops(rules: Rules, node: Node) {
    (!rules.all && (node.LinkNode? || node.OtherNode?)) || node == OtherNode(None)
  }

  lemma {:induction false} RunStopsAt(rules: Rules, p: Progress, items: seq<Item>, k: nat, disk: nat -> Fault)
    requires k < |items| && Stops(rules, items[k].node)
    ensures Run(rules, p, items, disk).Stopped?
    decreases |items|
  {
    if k > 0 {
      match Put(rules, p, items[0], disk(p.count))
      case Stopped(_, _) =>
      case Going(q) => RunStopsAt(rules, q, items[1..], k - 1, disk);
    }
  }

  lemma {:induction false} RefusedInTree(rules: Rules, at: Path, t: Tree) returns (k: nat)
    requires !TreeTakes(rules, t)
    ensures var items := WalkTree(at, t);
      k < |items| && Stops(rules, items[k].node)
    decreases t
  {
    if t.Dir? {
      k := RefusedInForest(rules, at, t.kids);
      assert WalkTree(at, t)[1 + k] == WalkForest(at, t.kids)[k];
      k := 1 + k;
    } else {
      k := 0;
    }
  }

  lemma {:induction false} RefusedInForest(rules: Rules, at: Path, f: Forest) returns (k: nat)
    requires !ForestTakes(rules, f)
    ensures var items := WalkForest(at, f);
      k < |items| && Stops(rules, items[k].node)
    decreases f
  {
    var first := WalkTree(at + [f.name], f.tree);
    if !TreeTakes(rules, f.tree) {
      k := RefusedInTree(rules, at + [f.name], f.tree);
      assert WalkForest(at, f)[k] == first[k];
    } else {
      k := RefusedInForest(rules, at, f.rest);
      assert WalkForest(at, f)[|first| + k] == WalkForest(at, f.rest)[k];
      k := |first| + k;
    }
  }

  // ---------------------------------------------------------------- into an empty directory

  /** Nothing yet but the destination directory itself. */
  const START := Progress(map[[] := DirNode], 0, 0, 0)

  /** A directory's contents walked and put down in a fresh directory: all of it is rebuilt, and
      nothing else, exactly when the rules take every entry and the caps allow the whole. */
  lemma RebuiltExactly(rules: Rules, f: Forest, disk: nat -> Fault)
    requires AllFine(disk) && ForestOk(f)
    ensures var out := Run(rules, START, WalkForest([], f), disk);
      && (out.Going? <==> ForestTakes(rules, f) && Fits(rules, ForestItems(f), ForestBytes(f, rules.all)))
      && (out.Going? ==> out.p == Progress(map[[] := DirNode] + FlatForest([], f, rules.all),
                                           ForestBytes(f, rules.all), ForestItems(f), ForestBytes(f, rules.all)))
      && (ForestTakes(rules, f) && out.Stopped? ==> out.why == TooLarge)
  {
    if ForestTakes(rules, f) {
      assert DirsDownTo(START.fs, []) && ClearFor(START.fs, [], f);
      RunForest(rules, START, [], f, disk);
    } else {
      var k := RefusedInForest(rules, [], f);
      RunStopsAt(rules, START, WalkForest([], f), k, disk);
    }
  }

  // ---------------------------------------------------------------- whatever is put down

  /** A tree: a root directory, and every entry inside a directory, under ordinary names. */
  ghost predicate Shaped(fs: Flat) {
    && IsDirAt(fs, [])
    && forall p :: p in fs && p != [] ==> IsDirAt(fs, p[..|p| - 1]) && AllPlain(p)
  }

  lemma {:induction false} MkdirAllKeepsShape(fs: Flat, path: Path)
    requires Shaped(fs) && AllPlain(path) && MkdirAll(fs, path).Some?
    ensures Shaped(MkdirAll(fs, path).value) && IsDirAt(MkdirAll(fs, path).value, path)
    ensures forall p :: p in fs ==> p in MkdirAll(fs, path).value && MkdirAll(fs, path).value[p] == fs[p]
    decreases |path|
  {
    if path != [] {
      MkdirAllKeepsShape(fs, path[..|path| - 1]);
    }
  }

  lemma AddKeepsShape(fs: Flat, path: Path, node: Node)
    requires Shaped(fs) && AllPlain(path) && path != [] && IsDirAt(fs, path[..|path| - 1])
    requires path in fs ==> !fs[path].DirNode?
    ensures Shaped(fs[path := node])
  {
  }

  /** The byte account while a run under a byte cap goes on: what was written is what was
      accepted, within the cap. */
  predicate Within(p: Progress, maxBytes: nat) {
    p.written == p.total <= maxBytes
  }

  lemma PutBounds(rules: Rules, p: Progress, item: Item, fault: Fault, maxBytes: nat)
    requires rules.maxBytes == Some(maxBytes) && Within(p, maxBytes)
    ensures var out := Put(rules, p, item, fault);
      && (out.Going? ==> Within(out.p, maxBytes))
      && out.p.total <= maxBytes && out.p.written <= maxBytes + 1 && out.p.count == p.count + 1
      && (out.Going? && rules.maxEntries.Some? ==> out.p.count <= rules.maxEntries.value)
  {
  }

  /** One file, whatever fails: the run goes on exactly if nothing did and the bytes fit, and then the file
      is whole. Otherwise what it leaves there, if it could be opened, is a beginning of it, accounted
      for; and nothing else is changed. */
  lemma FilePutExactly(rules: Rules, p: Progress, path: Path, data: Bytes, fault: Fault) returns (n: nat)
    requires rules.maxBytes.Some? ==> p.total <= rules.maxBytes.value
    ensures var out := PutFile(rules, p, path, data, fault);
      && (out.Going? <==>
            !fault.NoFile? && !fault.CopyStops? && (rules.maxBytes.Some? ==> p.total + |data| <= rules.maxBytes.value))
      && (out.Stopped? ==> (out.why == TooLarge <==> !fault.NoFile? && !fault.CopyStops?))
      && (fault.NoFile? ==> out.p == p)
      && (!fault.NoFile? ==>
            && n <= |data| && (out.Going? ==> n == |data|)
            && out.p.fs == p.fs[path := FileNode(data[..n])] && out.p.written == p.written + n
            && out.p.total == p.total + (if out.Going? then n else 0) && out.p.count == p.count)
  {
    var through := Limited(data, BudgetLeft(rules, p.total));
    n := if fault.CopyStops? && fault.after < |through| then fault.after else |through|;
    assert data[..|data|] == data;
    assert through[..n] == data[..n];
  }

  /** q is the path or on the way there, but not the root. */
  predicate OnTheWay(q: Path, path: Path) {
    q != [] && q <= path
  }

  /** Nothing on the way but directories, where there is anything. */
  ghost predicate Open(fs: Flat, path: Path) {
    forall q :: q in fs && OnTheWay(q, path) ==> fs[q].DirNode?
  }

  /** The same tree with a directory at the path and wherever above it there was nothing. */
  ghost predicate DirsMade(after: Flat, before: Flat, path: Path) {
    forall q ::
      && (q in after <==> q in before || OnTheWay(q, path))
      && (q in after ==> after[q] == if q in before then before[q] else DirNode)
  }

  lemma OneStepUp(q: Path, path: Path)
    requires path != []
    ensures OnTheWay(q, path) <==> OnTheWay(q, path[..|path| - 1]) || q == path
  {
    if q <= path && |q| < |path| {
      assert q == path[..|path| - 1][..|q|];
    }
    if q <= path[..|path| - 1] {
      assert q == path[..|q|];
    }
  }

  lemma {:induction false} MkdirAllExactly(fs: Flat, path: Path)
    ensures MkdirAll(fs, path).Some? <==> Open(fs, path)
    ensures MkdirAll(fs, path).Some? ==> DirsMade(MkdirAll(fs, path).value, fs, path)
    decreases |path|
  {
    if path != [] {
      var up := path[..|path| - 1];
      MkdirAllExactly(fs, up);
      forall q ensures OnTheWay(q, path) <==> OnTheWay(q, up) || q == path {
        OneStepUp(q, path);
      }
    }
  }

  /** An entry put down anywhere, on a disk that does its part: a directory goes on exactly if nothing but
      directories is on the way, and a file if that and nothing but a file is at its place, and its bytes
      fit; and then it is there, whatever was before, beside what was there and the directories above. */
  lemma PutExactly(rules: Rules, p: Progress, path: Path, node: Node) returns (made: Flat)
    requires (node.FileNode? || node.DirNode?) && (rules.maxBytes.Some? ==> p.total <= rules.maxBytes.value)
    ensures var out := PutNode(rules, p, path, node, Fine);
      var size := if node.FileNode? then |node.data| else 0;
      && (out.Going? <==>
            if node.DirNode? then Open(p.fs, path)
            else path != [] && Open(p.fs, path[..|path| - 1]) && (path in p.fs ==> p.fs[path].FileNode?)
                 && (rules.maxBytes.Some? ==> p.total + size <= rules.maxBytes.value))
      && (out.Going? ==>
            && out.p.total == p.total + size
            && if node.DirNode? then DirsMade(out.p.fs, p.fs, path)
               else DirsMade(made, p.fs, path[..|path| - 1]) && out.p.fs == made[path := node])
  {
    made := p.fs;
    if node.DirNode? {
      MkdirAllExactly(p.fs, path);
    } else if path != [] {
      var up := path[..|path| - 1];
      MkdirAllExactly(p.fs, up);
      assert !(path <= up);
      if MkdirAll(p.fs, up).Some? {
        made := MkdirAll(p.fs, up).value;
        var n := FilePutExactly(rules, p.(fs := made), path, node.data, Fine);
        assert node.data[..|node.data|] == node.data;
      }
    }
  }

  lemma PutFileKeepsShape(rules: Rules, p: Progress, path: Path, data: Bytes, fault: Fault)
    requires Shaped(p.fs) && AllPlain(path) && path != [] && IsDirAt(p.fs, path[..|path| - 1])
    requires path in p.fs ==> p.fs[path].FileNode?
    ensures Shaped(PutFile(rules, p, path, data, fault).p.fs)
  {
    var out := PutFile(rules, p, path, data, fault);
    if !fault.NoFile? {
      AddKeepsShape(p.fs, path, out.p.fs[path]);
      assert out.p.fs == p.fs[path := out.p.fs[path]];
    }
  }

  lemma PutDataKeepsShape(rules: Rules, p: Progress, path: Path, data: Bytes, fault: Fault)
    requires Shaped(p.fs) && AllPlain(path)
    ensures Shaped(PutData(rules, p, path, data, fault).p.fs)
  {
    if path != [] && MkdirAll(p.fs, path[..|path| - 1]).Some? {
      MkdirAllKeepsShape(p.fs, path[..|path| - 1]);
      var q := p.(fs := MkdirAll(p.fs, path[..|path| - 1]).value);
      if path in q.fs ==> q.fs[path].FileNode? {
        PutFileKeepsShape(rules, q, path, data, fault);
      }
    }
  }

  lemma PutNodeKeepsShape(rules: Rules, p: Progress, path: Path, node: Node, fault: Fault)
    requires Shaped(p.fs) && AllPlain(path)
    ensures Shaped(PutNode(rules, p, path, node, fault).p.fs)
  {
    match node
    case LinkNode(_) =>
      if path !in p.fs && path != [] && IsDirAt(p.fs, path[..|path| - 1]) {
        AddKeepsShape(p.fs, path, node);
      }
    case OtherNode(content) =>
      if content.Some? {
        PutDataKeepsShape(rules, p, path, content.value, fault);
      }
    case DirNode =>
      if MkdirAll(p.fs, path).Some? {
        MkdirAllKeepsShape(p.fs, path);
      }
    case FileNode(data) => PutDataKeepsShape(rules, p, path, data, fault);
  }

  lemma PutCases(rules: Rules, p: Progress, item: Item, fault: Fault)
    ensures var q := p.(count := p.count + 1);
      Put(rules, p, item, fault).p.fs in {p.fs, PutNode(rules, q, item.path, item.node, fault).p.fs}
  {
  }

  lemma PutKeepsShape(rules: Rules, p: Progress, item: Item, fault: Fault)
    requires Shaped(p.fs) && AllPlain(item.path)
    ensures Shaped(Put(rules, p, item, fault).p.fs)
  {
    var q := p.(count := p.count + 1);
    PutCases(rules, p, item, fault);
    PutNodeKeepsShape(rules, q, item.path, item.node, fault);
  }
}
