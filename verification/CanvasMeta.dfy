/** A canvas's metadata file and the four operations that read, change and rewrite it. */
module CanvasMeta {
  import opened Prelude
  import Paths

  datatype Grant = Grant(kind: string, target: string, linkId: string, linkSecretHash: string,
                         createdBy: string, createdAt: int)

  datatype Meta = Meta(title: string, description: string, icon: string, owner: string, grants: seq<Grant>)

  const EMPTY := Meta("", "", "", "", [])

  /** The file of one canvas: absent, not decodable, or holding metadata. */
  datatype File = Missing | Garbled | Holds(meta: Meta)

  datatype Op = Create(title: string, description: string, icon: string, owner: string)
              | SetOwner(owner: string)
              | AddGrant(grant: Grant)
              | RemoveGrant(matches: Grant -> bool)

  /** readMeta: any failure to read or decode is the empty metadata. */
  function ReadMeta(f: File, readable: bool): Meta {
    if f.Holds? && readable then f.meta else EMPTY
  }

  function Without(grants: seq<Grant>, matches: Grant -> bool): (kept: seq<Grant>)
    ensures |kept| <= |grants|
  {
    if grants == [] then []
    else
      var before := Without(grants[..|grants| - 1], matches);
      var g := grants[|grants| - 1];
      if matches(g) then before else before + [g]
  }

  /** What an operation writes back for the metadata it read; None when it writes nothing. */
  function Mutated(op: Op, m: Meta): Option<Meta> {
    match op
    case Create(title, description, icon, owner) =>
      var made := Meta(title, description, icon, if owner == "" then m.owner else owner, m.grants);
      if made == EMPTY then None else Some(made)
    case SetOwner(owner) => Some(m.(owner := owner))
    case AddGrant(g) => Some(m.(grants := m.grants + [g]))
    case RemoveGrant(matches) =>
      var kept := Without(m.grants, matches);
      if |kept| == |m.grants| then None else Some(m.(grants := kept))
  }

  /** The file after an operation that could (not) read it and could (not) write it. */
  function After(op: Op, f: File, readable: bool, written: bool): File {
    match Mutated(op, ReadMeta(f, readable))
    case None => f
    case Some(m) => if written then Holds(m) else f
  }

  // ---------------------------------------------------------------- ids

  predicate IdChar(c: char) {
    'A' <= c <= 'Z' || 'a' <= c <= 'z' || '0' <= c <= '9' || c == '_' || c == '-'
  }

  predicate ValidId(id: string) {
    && 1 <= |id| <= 128 && id[0] != '_' && id[0] != '-'
    && forall i :: 0 <= i < |id| ==> IdChar(id[i])
  }

  /** An id is safe to use as one component of a path: it names one file below wherever it is joined to,
      cleaning leaves it alone, and it is no hidden name, such as those of staging directories. */
  lemma IdIsOneName(id: string)
    requires ValidId(id)
    ensures Paths.Plain(id) && id[0] != '.' && Paths.Split(id) == [id]
    ensures Paths.CleanRelPath(id) == Ok(id)
  {
    assert Paths.NoSlash(id);
    Paths.SplitOfSegment(id);
    Paths.AcceptedExactly(id);
    assert Paths.Names([id]) == [id];
    Paths.GlueOfSplit(id);
    Paths.GlueOfSplit(Paths.CleanRelPath(id).value);
  }

  datatype MetaError = InvalidId | NoDirectory | NotWritten

  // ---------------------------------------------------------------- the operations

  /** The metadata directory. Whether a file can be read, and whether a write or the making of a
      canvas directory succeeds, are the callers' arguments: the file system decides them. */
  class MetaDir {
    var files: map<string, File>

    constructor ()
      ensures files == map[]
    {
      files := map[];
    }

    function FileOf(id: string): File
      reads this
    {
      if id in files then files[id] else Missing
    }

    /** writeMeta: a temporary file renamed into place, so all of m or nothing. */
    method WriteMeta(id: string, m: Meta, written: bool) returns (err: Option<MetaError>)
      modifies this
      ensures written ==> err == None && files == old(files)[id := Holds(m)]
      ensures !written ==> err == Some(NotWritten) && files == old(files)
    {
      if !written {
        return Some(NotWritten);
      }
      files := files[id := Holds(m)];
      err := None;
    }

    method Create(id: string, title: string, description: string, icon: string, owner: string,
                  dirMade: bool, readable: bool, written: bool)
      returns (err: Option<MetaError>)
      modifies this
      ensures forall other :: other != id ==> FileOf(other) == old(FileOf(other))
      ensures err.Some? ==> files == old(files)
      ensures var op := Op.Create(title, description, icon, owner);
        FileOf(id) == if ValidId(id) && dirMade then After(op, old(FileOf(id)), readable, written) else old(FileOf(id))
      ensures err == None <==> (ValidId(id) && dirMade &&
        (written || Mutated(Op.Create(title, description, icon, owner), ReadMeta(old(FileOf(id)), readable)).None?))
    {
      if !ValidId(id) {
        return Some(InvalidId);
      }
      if !dirMade {
        return Some(NoDirectory);
      }
      var existing := ReadMeta(FileOf(id), readable);
      var m := Meta(title, description, icon, owner, existing.grants);
      if owner == "" {
        m := m.(owner := existing.owner);
      }
      if m.title == "" && m.description == "" && m.icon == "" && m.owner == "" && |m.grants| == 0 {
        return None;
      }
      err := WriteMeta(id, m, written);
    }

    method SetOwner(id: string, owner: string, readable: bool, written: bool) returns (err: Option<MetaError>)
      modifies this
      ensures forall other :: other != id ==> FileOf(other) == old(FileOf(other))
      ensures err.Some? ==> files == old(files)
      ensures FileOf(id) ==
        if ValidId(id) then After(Op.SetOwner(owner), old(FileOf(id)), readable, written) else old(FileOf(id))
      ensures err == None <==> ValidId(id) && written
    {
      if !ValidId(id) {
        return Some(InvalidId);
      }
      var m := ReadMeta(FileOf(id), readable);
      m := m.(owner := owner);
      err := WriteMeta(id, m, written);
    }

    method AddGrant(id: string, g: Grant, readable: bool, written: bool) returns (err: Option<MetaError>)
      modifies this
      ensures forall other :: other != id ==> FileOf(other) == old(FileOf(other))
      ensures err.Some? ==> files == old(files)
      ensures FileOf(id) ==
        if ValidId(id) then After(Op.AddGrant(g), old(FileOf(id)), readable, written) else old(FileOf(id))
      ensures err == None <==> ValidId(id) && written
    {
      if !ValidId(id) {
        return Some(InvalidId);
      }
      var m := ReadMeta(FileOf(id), readable);
      m := m.(grants := m.grants + [g]);
      err := WriteMeta(id, m, written);
    }

    method RemoveGrant(id: string, matches: Grant -> bool, readable: bool, written: bool)
      returns (removed: nat, err: Option<MetaError>)
      modifies this
      ensures forall other :: other != id ==> FileOf(other) == old(FileOf(other))
      ensures err.Some? ==> files == old(files) && removed == 0
      ensures FileOf(id) ==
        if ValidId(id) then After(Op.RemoveGrant(matches), old(FileOf(id)), readable, written) else old(FileOf(id))
      ensures err == None ==>
        var grants := ReadMeta(old(FileOf(id)), readable).grants;
        removed == |grants| - |Without(grants, matches)|
      ensures err == None <==> (ValidId(id) &&
        (written || Mutated(Op.RemoveGrant(matches), ReadMeta(old(FileOf(id)), readable)).None?))
    {
      if !ValidId(id) {
        return 0, Some(InvalidId);
      }
      var m := ReadMeta(FileOf(id), readable);
      var kept: seq<Grant> := [];
      removed := 0;
      for i := 0 to |m.grants|
        invariant kept == Without(m.grants[..i], matches) && removed + |kept| == i
        invariant files == old(files)
      {
        assert m.grants[..i + 1][..i] == m.grants[..i];
        if matches(m.grants[i]) {
          removed := removed + 1;
        } else {
          kept := kept + [m.grants[i]];
        }
      }
      assert m.grants[..|m.grants|] == m.grants;
      if removed == 0 {
        return 0, None;
      }
      err := WriteMeta(id, m.(grants := kept), written);
      if err.Some? {
        removed := 0;
      }
    }

    /** GetOwnerGrants takes no lock: it reads whatever the file is at that moment. */
    method GetOwnerGrants(id: string, readable: bool) returns (r: Result<(string, seq<Grant>), MetaError>)
      ensures r.Ok? <==> ValidId(id)
      ensures r.Ok? && readable && id in files && files[id].Holds? ==>
        r.value == (files[id].meta.owner, files[id].meta.grants)
      ensures r.Ok? && !(readable && id in files && files[id].Holds?) ==> r.value == ("", [])
    {
      if !ValidId(id) {
        return Err(InvalidId);
      }
      var m := ReadMeta(FileOf(id), readable);
      r := Ok((m.owner, m.grants));
    }
  }

  // ---------------------------------------------------------------- what Create records

  /** A Create that is given nothing, on a canvas it reads as having no owner and no grants. */
  predicate AsksNothing(was: Meta, title: string, description: string, icon: string, owner: string) {
    title == description == icon == owner == was.owner == "" && was.grants == []
  }

  /** Create records the title, description and icon it is given, and the owner if it is given
      one, keeping the grants it read; except that it cannot blank: given nothing, it writes
      nothing, and a title, description or icon in the file stays. */
  lemma CreateRecordsExactly(f: File, readable: bool, title: string, description: string, icon: string, owner: string)
    ensures var op := Op.Create(title, description, icon, owner);
      var was, before := ReadMeta(f, readable), ReadMeta(f, true);
      var m := ReadMeta(After(op, f, readable, true), true);
      && After(op, f, readable, false) == f
      && (!AsksNothing(was, title, description, icon, owner) ==>
            m.grants == was.grants && m.owner == if owner == "" then was.owner else owner)
      && (m.title == title && m.description == description && m.icon == icon <==>
            !(AsksNothing(was, title, description, icon, owner) &&
              (before.title != "" || before.description != "" || before.icon != "")))
  {
  }

  lemma BlankCreateKeepsTheTitle()
    ensures var f := Holds(Meta("Report", "", "", "", []));
      After(Op.Create("", "", "", ""), f, true, true) == f
  {
  }

  // ---------------------------------------------------------------- what the other operations keep

  lemma WithoutOne(g: Grant, matches: Grant -> bool)
    ensures Without([g], matches) == if matches(g) then [] else [g]
  {
    assert [g][..0] == [];
  }

  /** What a removal keeps is decided grant by grant, and stays in order. */
  lemma {:induction false} WithoutSplits(a: seq<Grant>, b: seq<Grant>, matches: Grant -> bool)
    ensures Without(a + b, matches) == Without(a, matches) + Without(b, matches)
    decreases |b|
  {
    if b == [] {
      assert a + b == a;
    } else {
      var n := |b| - 1;
      assert (a + b)[..|a| + n] == a + b[..n];
      WithoutSplits(a, b[..n], matches);
    }
  }

  lemma {:induction false} WithoutAll(grants: seq<Grant>, matches: Grant -> bool)
    ensures |Without(grants, matches)| == |grants| <==> forall i :: 0 <= i < |grants| ==> !matches(grants[i])
    ensures (forall i :: 0 <= i < |grants| ==> !matches(grants[i])) ==> Without(grants, matches) == grants
    decreases |grants|
  {
    if grants != [] {
      var n := |grants| - 1;
      WithoutAll(grants[..n], matches);
      assert grants == grants[..n] + [grants[n]];
      assert forall i :: 0 <= i < n ==> grants[..n][i] == grants[i];
    }
  }

  predicate SameLabels(a: Meta, b: Meta) {
    a.title == b.title && a.description == b.description && a.icon == b.icon
  }

  /** SetOwner, AddGrant and RemoveGrant each write the one field they name, and every other as they
      read it; a removal that matches nothing writes nothing. */
  lemma OneFieldEach(op: Op, f: File, readable: bool)
    requires !op.Create?
    ensures var was, after := ReadMeta(f, readable), After(op, f, readable, true);
      if op.RemoveGrant? && forall i :: 0 <= i < |was.grants| ==> !op.matches(was.grants[i]) then after == f
      else
        && after.Holds? && SameLabels(after.meta, was)
        && after.meta.owner == (if op.SetOwner? then op.owner else was.owner)
        && after.meta.grants ==
             match op
             case AddGrant(g) => was.grants + [g]
             case RemoveGrant(matches) => Without(was.grants, matches)
             case _ => was.grants
  {
    if op.RemoveGrant? {
      WithoutAll(ReadMeta(f, readable).grants, op.matches);
    }
  }

  // ---------------------------------------------------------------- histories

  /** One successful write: the operation, whether its read of the file succeeded, and which
      acquisition of the canvas's lock, counted from 1, it was made under. */
  datatype Write = Write(op: Op, readable: bool, turn: nat)

  /** Applying a history of writes in order. */
  function Replay(f: File, log: seq<Write>): File {
    if log == [] then f
    else
      var last := log[|log| - 1];
      After(last.op, Replay(f, log[..|log| - 1]), last.readable, true)
  }

  /** Every entry of the history did write. */
  predicate AllWrote(f: File, log: seq<Write>) {
    log == [] ||
    (var before, last := log[..|log| - 1], log[|log| - 1];
     AllWrote(f, before) && Mutated(last.op, ReadMeta(Replay(f, before), last.readable)).Some?)
  }

  lemma ReplayOne(f: File, log: seq<Write>, w: Write)
    ensures Replay(f, log + [w]) == After(w.op, Replay(f, log), w.readable, true)
    ensures AllWrote(f, log + [w]) <==>
      AllWrote(f, log) && Mutated(w.op, ReadMeta(Replay(f, log), w.readable)).Some?
  {
    assert (log + [w])[..|log|] == log;
  }

  lemma {:induction false} PrefixWrote(f: File, log: seq<Write>, k: nat)
    requires k <= |log| && AllWrote(f, log)
    ensures AllWrote(f, log[..k])
  {
    if k == |log| {
      assert log[..k] == log;
    } else {
      PrefixWrote(f, log[..|log| - 1], k);
      assert log[..|log| - 1][..k] == log[..k];
    }
  }

  // ---------------------------------------------------------------- no grant lost, none back

  function Grants(f: File): seq<Grant> {
    if f.Holds? then f.meta.grants else []
  }

  /** A write other than a removal keeps every share, exactly when it could read the file or there
      was no share to lose: readMeta hides its failure, and the rewrite then starts from nothing. */
  lemma KeepsSharesExactly(op: Op, f: File, readable: bool)
    requires !op.RemoveGrant? && Mutated(op, ReadMeta(f, readable)).Some?
    ensures Grants(After(op, f, readable, true)) == Grants(f) + (if op.AddGrant? then [op.grant] else []) <==>
      readable || Grants(f) == []
  {
    var added := if op.AddGrant? then [op.grant] else [];
    assert |Grants(f) + added| == |Grants(f)| + |added|;
  }

  lemma FailedReadDropsShares(g: Grant, h: Grant)
    ensures var f := Holds(Meta("", "", "", "alice", [g]));
      After(Op.AddGrant(h), f, false, true) == Holds(EMPTY.(grants := [h]))
  {
  }

  function Count(g: Grant, grants: seq<Grant>): nat {
    if grants == [] then 0 else Count(g, grants[..|grants| - 1]) + if grants[|grants| - 1] == g then 1 else 0
  }

  lemma CountOne(g: Grant, grants: seq<Grant>, h: Grant)
    ensures Count(g, grants + [h]) == Count(g, grants) + if h == g then 1 else 0
  {
    assert (grants + [h])[..|grants|] == grants;
  }

  lemma {:induction false} CountWithout(g: Grant, grants: seq<Grant>, matches: Grant -> bool)
    ensures Count(g, Without(grants, matches)) == if matches(g) then 0 else Count(g, grants)
  {
    if grants != [] {
      CountWithout(g, grants[..|grants| - 1], matches);
      CountOne(g, Without(grants[..|grants| - 1], matches), grants[|grants| - 1]);
    }
  }

  lemma {:induction false} CountIn(g: Grant, grants: seq<Grant>)
    ensures Count(g, grants) > 0 <==> g in grants
  {
    if grants != [] {
      CountIn(g, grants[..|grants| - 1]);
      assert grants == grants[..|grants| - 1] + [grants[|grants| - 1]];
    }
  }

  /** A write that takes every copy of g away: a removal that matches it, or a rewrite whose read
      of the file failed and so started from nothing. */
  predicate Clears(w: Write, g: Grant) {
    !w.readable || (w.op.RemoveGrant? && w.op.matches(g))
  }

  predicate Adds(w: Write, g: Grant) {
    w.op.AddGrant? && w.op.grant == g
  }

  function AddsIn(log: seq<Write>, g: Grant): nat {
    if log == [] then 0 else (if Adds(log[0], g) then 1 else 0) + AddsIn(log[1..], g)
  }

  lemma GrantsAfter(f: File, w: Write)
    requires Mutated(w.op, ReadMeta(f, w.readable)).Some?
    ensures var grants := ReadMeta(f, w.readable).grants;
      Grants(After(w.op, f, w.readable, true)) ==
        match w.op
        case AddGrant(h) => grants + [h]
        case RemoveGrant(matches) => Without(grants, matches)
        case _ => grants
  {
  }

  lemma CountAfter(f: File, w: Write, g: Grant)
    requires Mutated(w.op, ReadMeta(f, w.readable)).Some?
    ensures Count(g, Grants(After(w.op, f, w.readable, true))) ==
      (if Clears(w, g) then 0 else Count(g, Grants(f))) + if Adds(w, g) then 1 else 0
  {
    var grants := ReadMeta(f, w.readable).grants;
    GrantsAfter(f, w);
    assert Count(g, grants) == if w.readable then Count(g, Grants(f)) else 0;
    match w.op
    case AddGrant(h) => CountOne(g, grants, h);
    case RemoveGrant(matches) => CountWithout(g, grants, matches);
    case _ =>
  }

  lemma CountAt(f: File, log: seq<Write>, g: Grant, k: nat)
    requires AllWrote(f, log) && 0 < k <= |log|
    ensures Count(g, Grants(Replay(f, log[..k]))) ==
      (if Clears(log[k - 1], g) then 0 else Count(g, Grants(Replay(f, log[..k - 1])))) +
      if Adds(log[k - 1], g) then 1 else 0
  {
    PrefixWrote(f, log, k);
    assert log[..k][..k - 1] == log[..k - 1];
    CountAfter(Replay(f, log[..k - 1]), log[k - 1], g);
  }

  lemma {:induction false} CountGrows(f: File, log: seq<Write>, g: Grant, k: nat)
    requires AllWrote(f, log) && k <= |log|
    requires forall i :: k <= i < |log| ==> !Clears(log[i], g)
    ensures Count(g, Grants(Replay(f, log))) == Count(g, Grants(Replay(f, log[..k]))) + AddsIn(log[k..], g)
    decreases |log| - k
  {
    if k == |log| {
      assert log[..k] == log;
    } else {
      CountGrows(f, log, g, k + 1);
      CountAt(f, log, g, k + 1);
      assert log[k..][1..] == log[k + 1..];
    }
  }

  /** How often a grant stands in the file is decided by the history alone: from any point after
      which nothing clears it, as often as it stood there plus the times it was added since; and
      right after a write that clears it, not at all unless that very write added it. */
  lemma GrantHistory(f: File, log: seq<Write>, g: Grant, k: nat)
    requires AllWrote(f, log) && k <= |log|
    requires forall i :: k <= i < |log| ==> !Clears(log[i], g)
    ensures Count(g, Grants(Replay(f, log))) == Count(g, Grants(Replay(f, log[..k]))) + AddsIn(log[k..], g)
    ensures k > 0 && Clears(log[k - 1], g) ==>
      Count(g, Grants(Replay(f, log[..k]))) == if Adds(log[k - 1], g) then 1 else 0
  {
    CountGrows(f, log, g, k);
    if k > 0 {
      CountAt(f, log, g, k);
    }
  }

  /** A grant that was added stands until a write clears it. */
  lemma AddedGrantStands(f: File, log: seq<Write>, g: Grant, k: nat)
    requires AllWrote(f, log) && k < |log| && Adds(log[k], g)
    requires forall i :: k < i < |log| ==> !Clears(log[i], g)
    ensures g in Grants(Replay(f, log))
  {
    GrantHistory(f, log, g, k + 1);
    CountAt(f, log, g, k + 1);
    CountIn(g, Grants(Replay(f, log)));
  }

  lemma {:induction false} CountStaysZero(f: File, log: seq<Write>, g: Grant, k: nat)
    requires AllWrote(f, log) && k < |log| && Clears(log[k], g)
    requires forall i :: k <= i < |log| ==> !Adds(log[i], g)
    ensures Count(g, Grants(Replay(f, log))) == 0
    decreases |log|
  {
    var n := |log| - 1;
    var before := log[..n];
    CountAfter(Replay(f, before), log[n], g);
    if k < n {
      CountStaysZero(f, before, g, k);
    }
  }

  /** A removed grant is back only if some later write added it: with none, it is gone, however
      many writes of other kinds followed. */
  lemma RemovedGrantStaysGone(f: File, log: seq<Write>, g: Grant, k: nat)
    requires AllWrote(f, log) && k < |log| && Clears(log[k], g)
    requires forall i :: k <= i < |log| ==> !Adds(log[i], g)
    ensures g !in Grants(Replay(f, log))
  {
    CountStaysZero(f, log, g, k);
    CountIn(g, Grants(Replay(f, log)));
  }

  /** A write that fixes the owner by itself. */
  predicate Names(w: Write, owner: string) {
    match w.op
    case Create(_, _, _, o) => o == owner != ""
    case SetOwner(o) => o == owner
    case _ => false
  }

  predicate KeepsOwner(w: Write) {
    w.readable && !w.op.SetOwner? && (w.op.Create? ==> w.op.owner == "")
  }

  /** The owner is the last one written: no grant operation and no Create without an owner of its
      own ever changes it. */
  lemma {:induction false} OwnerIsLastNamed(f: File, log: seq<Write>, owner: string, k: nat)
    requires AllWrote(f, log) && k < |log| && Names(log[k], owner)
    requires forall i :: k < i < |log| ==> KeepsOwner(log[i])
    ensures ReadMeta(Replay(f, log), true).owner == owner
    decreases |log|
  {
    var n := |log| - 1;
    if k < n {
      OwnerIsLastNamed(f, log[..n], owner, k);
    }
  }

  /** Title, description and icon are those of the last Create that wrote, or the first file's: no
      operation on owner or grants ever changes them, while their reads succeed. */
  lemma {:induction false} LabelsAreLastCreated(f: File, log: seq<Write>, k: nat)
    requires AllWrote(f, log) && k <= |log|
    requires forall i :: k <= i < |log| ==> log[i].readable && !log[i].op.Create?
    ensures SameLabels(ReadMeta(Replay(f, log), true), ReadMeta(Replay(f, log[..k]), true))
    ensures k > 0 && log[k - 1].op.Create? ==>
      var made, op := ReadMeta(Replay(f, log), true), log[k - 1].op;
      made.title == op.title && made.description == op.description && made.icon == op.icon
    decreases |log|
  {
    var n := |log| - 1;
    if k < |log| {
      LabelsAreLastCreated(f, log[..n], k);
      assert log[..n][..k] == log[..k];
      OneFieldEach(log[n].op, Replay(f, log[..n]), true);
    } else {
      assert log[..k] == log;
    }
  }
}
