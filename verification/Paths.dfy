/** Path canonicalization against path joining, on Unix path strings. Clean and Join are Go's
    lexical path.Clean and filepath.Join; CleanRelPath and SafeJoin are the repository's. */
module Paths {
  import opened Prelude

  // ---------------------------------------------------------------- segments

  predicate NoSlash(seg: string) {
    '/' !in seg
  }

  predicate AllNoSlash(segs: seq<string>) {
    forall i :: 0 <= i < |segs| ==> NoSlash(segs[i])
  }

  function Split(s: string): (r: seq<string>)
    ensures |r| > 0 && AllNoSlash(r)
  {
    if s == "" then [""]
    else
      var rest := Split(s[1..]);
      if s[0] == '/' then [""] + rest else [[s[0]] + rest[0]] + rest[1..]
  }

  function Glue(segs: seq<string>): string
    requires |segs| > 0
  {
    if |segs| == 1 then segs[0] else segs[0] + "/" + Glue(segs[1..])
  }

  lemma {:induction false} SplitOfSegment(seg: string)
    requires NoSlash(seg)
    ensures Split(seg) == [seg]
  {
    if seg != "" {
      SplitOfSegment(seg[1..]);
      assert seg[0] != '/' && [seg[0]] + seg[1..] == seg;
    }
  }

  lemma SplitFirst(c: char, s: string)
    ensures Split([c] + s) == if c == '/' then [""] + Split(s) else [[c] + Split(s)[0]] + Split(s)[1..]
  {
    assert ([c] + s)[1..] == s;
  }

  lemma PrefixFirst(c: char, s: string, l: seq<string>, r: seq<string>)
    requires |l| > 0 && Split(s) == l + r
    ensures Split([c] + s) == (if c == '/' then [""] + l else [[c] + l[0]] + l[1..]) + r
  {
    SplitFirst(c, s);
  }

  lemma FirstOut(a: string, b: string)
    ensures a == "" ==> a + "/" + b == ['/'] + b
    ensures a != "" ==> a == [a[0]] + a[1..] && a + "/" + b == [a[0]] + (a[1..] + "/" + b)
  {
  }

  lemma {:induction false} SplitAtSlash(a: string, b: string)
    ensures Split(a + "/" + b) == Split(a) + Split(b)
  {
    FirstOut(a, b);
    if a == "" {
      SplitFirst('/', b);
    } else {
      SplitAtSlash(a[1..], b);
      SplitFirst(a[0], a[1..]);
      PrefixFirst(a[0], a[1..] + "/" + b, Split(a[1..]), Split(b));
    }
  }

  lemma {:induction false} SplitOfGlue(segs: seq<string>)
    requires |segs| > 0 && AllNoSlash(segs)
    ensures Split(Glue(segs)) == segs
  {
    SplitOfSegment(segs[0]);
    if |segs| > 1 {
      SplitOfGlue(segs[1..]);
      SplitAtSlash(segs[0], Glue(segs[1..]));
    }
  }

  lemma {:induction false} GlueOfSplit(s: string)
    ensures Glue(Split(s)) == s
  {
    if s != "" {
      GlueOfSplit(s[1..]);
    }
  }

  lemma {:induction false} GlueAppend(a: seq<string>, b: seq<string>)
    requires |a| > 0 && |b| > 0
    ensures Glue(a + b) == Glue(a) + "/" + Glue(b)
  {
    if |a| == 1 {
      assert (a + b)[1..] == b;
    } else {
      GlueAppend(a[1..], b);
      assert (a + b)[1..] == a[1..] + b;
    }
  }

  // ---------------------------------------------------------------- where a path leads

  predicate Rooted(s: string) {
    s != "" && s[0] == '/'
  }

  function WalkOne(at: seq<string>, seg: string): seq<string> {
    if seg == "" || seg == "." then at
    else if seg != ".." then at + [seg]
    else if at == [] then at
    else at[..|at| - 1]
  }

  function Walk(at: seq<string>, segs: seq<string>): seq<string>
    decreases |segs|
  {
    if segs == [] then at else Walk(WalkOne(at, segs[0]), segs[1..])
  }

  /** The directory tree position a path names when read from cwd, links aside: the names from
      the root down to it. This is the meaning that cleaning has to keep. */
  function Resolve(cwd: seq<string>, s: string): seq<string> {
    Walk(if Rooted(s) then [] else cwd, Split(s))
  }

  lemma {:induction false} WalkAppend(at: seq<string>, a: seq<string>, b: seq<string>)
    ensures Walk(at, a + b) == Walk(Walk(at, a), b)
    decreases |a|
  {
    if a == [] {
      assert a + b == b;
    } else {
      WalkAppend(WalkOne(at, a[0]), a[1..], b);
      assert (a + b)[1..] == a[1..] + b;
    }
  }

  // ---------------------------------------------------------------- Clean and Join

  /** One segment of Clean: "" and "." vanish, ".." takes back a name if there is one, and is
      otherwise kept, except at the root. */
  function Step(rooted: bool, kept: seq<string>, seg: string): seq<string> {
    if seg == "" || seg == "." then kept
    else if seg != ".." then kept + [seg]
    else if kept != [] && kept[|kept| - 1] != ".." then kept[..|kept| - 1]
    else if rooted then kept
    else kept + [seg]
  }

  function Steps(rooted: bool, kept: seq<string>, segs: seq<string>): seq<string>
    decreases |segs|
  {
    if segs == [] then kept else Steps(rooted, Step(rooted, kept, segs[0]), segs[1..])
  }

  function Show(rooted: bool, segs: seq<string>): string {
    if segs == [] then (if rooted then "/" else ".")
    else if rooted then "/" + Glue(segs)
    else Glue(segs)
  }

  function Clean(s: string): string {
    if s == "" then "." else Show(Rooted(s), Steps(Rooted(s), [], Split(s)))
  }

  function Join(root: string, name: string): string {
    if root == "" && name == "" then ""
    else if root == "" then Clean(name)
    else if name == "" then Clean(root)
    else Clean(root + "/" + name)
  }

  // ---------------------------------------------------------------- canonical segment lists

  predicate Canonical(rooted: bool, segs: seq<string>) {
    && AllNoSlash(segs)
    && (forall i :: 0 <= i < |segs| ==> segs[i] != "" && segs[i] != ".")
    && (forall i, j :: 0 <= i < j < |segs| && segs[j] == ".." ==> segs[i] == "..")
    && (rooted ==> ".." !in segs)
  }

  lemma {:induction false} StepsAppend(rooted: bool, kept: seq<string>, a: seq<string>, b: seq<string>)
    ensures Steps(rooted, kept, a + b) == Steps(rooted, Steps(rooted, kept, a), b)
    decreases |a|
  {
    if a == [] {
      assert a + b == b;
    } else {
      StepsAppend(rooted, Step(rooted, kept, a[0]), a[1..], b);
      assert (a + b)[1..] == a[1..] + b;
    }
  }

  lemma {:induction false} StepsCanonical(rooted: bool, kept: seq<string>, segs: seq<string>)
    requires Canonical(rooted, kept) && AllNoSlash(segs)
    ensures Canonical(rooted, Steps(rooted, kept, segs))
    decreases |segs|
  {
    if segs != [] {
      StepsCanonical(rooted, Step(rooted, kept, segs[0]), segs[1..]);
    }
  }

  lemma {:induction false} CanonicalIsFixed(rooted: bool, kept: seq<string>, segs: seq<string>)
    requires Canonical(rooted, kept + segs)
    ensures Steps(rooted, kept, segs) == kept + segs
    decreases |segs|
  {
    if segs == [] {
      assert kept + segs == kept;
    } else {
      var all := kept + segs;
      assert all[|kept|] == segs[0];
      assert kept != [] ==> all[|kept| - 1] == kept[|kept| - 1];
      assert kept + [segs[0]] + segs[1..] == all;
      CanonicalIsFixed(rooted, kept + [segs[0]], segs[1..]);
    }
  }

  lemma SplitOfShow(rooted: bool, segs: seq<string>)
    requires Canonical(rooted, segs)
    ensures Rooted(Show(rooted, segs)) == rooted
    ensures segs != [] ==> Split(Show(rooted, segs)) == if rooted then [""] + segs else segs
    ensures segs == [] ==> Split(Show(rooted, segs)) == if rooted then ["", ""] else ["."]
  {
    if segs == [] {
      assert Split("/") == ["", ""] by { SplitAtSlash("", ""); assert "" + "/" + "" == "/"; }
      SplitOfSegment(".");
    } else {
      SplitOfGlue(segs);
      SplitAtSlash("", Glue(segs));
      assert "" + "/" + Glue(segs) == "/" + Glue(segs);
      assert segs[0] != "" && segs[0][0] != '/';
      assert |segs| > 1 ==> Glue(segs)[0] == segs[0][0];
    }
  }

  /** Cleaning the text of a canonical list changes nothing, whatever is appended. */
  lemma StepsOfShow(rooted: bool, segs: seq<string>, more: seq<string>)
    requires Canonical(rooted, segs)
    ensures Steps(rooted, [], Split(Show(rooted, segs)) + more) == Steps(rooted, segs, more)
  {
    var parts := Split(Show(rooted, segs));
    SplitOfShow(rooted, segs);
    StepsAppend(rooted, [], parts, more);
    CanonicalIsFixed(rooted, [], segs);
    assert [] + segs == segs;
    if rooted {
      StepsAppend(rooted, [], [""], parts[1..]);
      assert parts == [""] + parts[1..];
    }
  }

  /** What Clean makes of a path: its canonical segments. */
  function Segments(s: string): (segs: seq<string>)
    ensures Canonical(Rooted(s), segs)
  {
    StepsCanonical(Rooted(s), [], Split(s));
    Steps(Rooted(s), [], Split(s))
  }

  lemma CleanShows(s: string)
    ensures Clean(s) == Show(Rooted(s), Segments(s))
  {
    if s == "" {
      assert Split("") == [""];
    }
  }

  lemma ShownIsClean(rooted: bool, segs: seq<string>)
    requires Canonical(rooted, segs)
    ensures var s := Show(rooted, segs);
      s != "" && Clean(s) == s && Rooted(s) == rooted && Segments(s) == segs
  {
    var s := Show(rooted, segs);
    SplitOfShow(rooted, segs);
    StepsOfShow(rooted, segs, []);
    assert Split(s) + [] == Split(s);
    CleanShows(s);
    assert Split("") == [""];
  }

  lemma CleanIsIdempotent(s: string)
    ensures Clean(Clean(s)) == Clean(s)
    ensures Rooted(Clean(s)) == Rooted(s) && Segments(Clean(s)) == Segments(s)
  {
    CleanShows(s);
    ShownIsClean(Rooted(s), Segments(s));
  }

  // ---------------------------------------------------------------- cleaning keeps the meaning

  lemma WalkPush(at: seq<string>, kept: seq<string>, seg: string)
    ensures Walk(at, kept + [seg]) == WalkOne(Walk(at, kept), seg)
  {
    WalkAppend(at, kept, [seg]);
  }

  lemma StepKeepsTheWalk(rooted: bool, at: seq<string>, kept: seq<string>, seg: string)
    requires Canonical(rooted, kept) && (rooted ==> at == [])
    ensures Walk(at, Step(rooted, kept, seg)) == WalkOne(Walk(at, kept), seg)
  {
    if seg != ".." {
      WalkPush(at, kept, seg);
    } else if kept == [] {
      WalkPush(at, kept, seg);
    } else {
      var last := kept[|kept| - 1];
      assert kept[..|kept| - 1] + [last] == kept;
      WalkPush(at, kept[..|kept| - 1], last);
      WalkPush(at, kept, seg);
    }
  }

  lemma {:induction false} StepsKeepTheWalk(rooted: bool, at: seq<string>, kept: seq<string>, segs: seq<string>)
    requires Canonical(rooted, kept) && AllNoSlash(segs) && (rooted ==> at == [])
    ensures Walk(at, Steps(rooted, kept, segs)) == Walk(Walk(at, kept), segs)
    decreases |segs|
  {
    if segs != [] {
      StepKeepsTheWalk(rooted, at, kept, segs[0]);
      StepsCanonical(rooted, kept, [segs[0]]);
      assert Steps(rooted, kept, [segs[0]]) == Step(rooted, kept, segs[0]);
      StepsKeepTheWalk(rooted, at, Step(rooted, kept, segs[0]), segs[1..]);
    }
  }

  lemma WalkOfShow(rooted: bool, at: seq<string>, segs: seq<string>)
    requires Canonical(rooted, segs)
    ensures Walk(at, Split(Show(rooted, segs))) == Walk(at, segs)
  {
    SplitOfShow(rooted, segs);
    if segs == [] {
      assert Walk(at, ["."]) == at && Walk(at, [""]) == at;
      WalkAppend(at, [""], [""]);
    } else {
      WalkAppend(at, [""], segs);
      assert Walk(at, [""]) == at;
    }
  }

  /** Clean never changes where a path leads, wherever it is read from. */
  lemma CleanKeepsTheMeaning(cwd: seq<string>, s: string)
    ensures Resolve(cwd, Clean(s)) == Resolve(cwd, s)
  {
    var at := if Rooted(s) then [] else cwd;
    CleanShows(s);
    CleanIsIdempotent(s);
    WalkOfShow(Rooted(s), at, Segments(s));
    StepsKeepTheWalk(Rooted(s), at, [], Split(s));
  }

  // ---------------------------------------------------------------- the repository's two checks

  datatype PathError = Required | Absolute | Parent | NoFile | Escapes

  function CleanRelPath(name: string): Result<string, PathError> {
    if name == "" then Err(Required)
    else if Rooted(name) then Err(Absolute)
    else if ".." in Split(name) then Err(Parent)
    else
      var cleaned := Clean(name);
      if cleaned == "." || cleaned == "/" || "../" <= cleaned then Err(NoFile) else Ok(cleaned)
  }

  function SafeJoin(root: string, name: string): Result<string, PathError> {
    if Rooted(name) then Err(Absolute)
    else
      var target := Join(root, name);
      if target != root && !(root + "/" <= target) then Err(Escapes) else Ok(target)
  }

  // ---------------------------------------------------------------- what CleanRelPath accepts

  /** An ordinary name: the only kind of segment a cleaned relative path has. */
  predicate Plain(seg: string) {
    seg != "" && seg != "." && seg != ".." && NoSlash(seg)
  }

  predicate AllPlain(segs: seq<string>) {
    forall i :: 0 <= i < |segs| ==> Plain(segs[i])
  }

  function Names(segs: seq<string>): seq<string> {
    if segs == [] then []
    else if segs[0] == "" || segs[0] == "." then Names(segs[1..])
    else [segs[0]] + Names(segs[1..])
  }

  lemma {:induction false} StepsWithoutParents(rooted: bool, kept: seq<string>, segs: seq<string>)
    requires AllNoSlash(segs) && ".." !in segs
    ensures Steps(rooted, kept, segs) == kept + Names(segs)
    ensures AllPlain(Names(segs))
    ensures Names(segs) == [] <==> forall i :: 0 <= i < |segs| ==> segs[i] == "" || segs[i] == "."
    decreases |segs|
  {
    if segs != [] {
      StepsWithoutParents(rooted, Step(rooted, kept, segs[0]), segs[1..]);
      assert forall i :: 1 <= i < |segs| ==> segs[i] == segs[1..][i - 1];
    }
  }

  lemma {:induction false} NamesOfPlain(segs: seq<string>)
    requires AllPlain(segs)
    ensures Names(segs) == segs && ".." !in segs && AllNoSlash(segs)
  {
    if segs != [] {
      NamesOfPlain(segs[1..]);
    }
  }

  lemma PlainIsCanonical(rooted: bool, segs: seq<string>)
    requires AllPlain(segs)
    ensures Canonical(rooted, segs)
  {
  }

  lemma UnderParent(s: string)
    requires "../" <= s
    ensures Split(s)[0] == ".."
  {
    assert s == ".." + "/" + s[3..];
    SplitAtSlash("..", s[3..]);
    SplitOfSegment("..");
  }

  /** The text made of plain segments is neither empty, ".", rooted, nor under "..". */
  lemma GlueOfPlain(segs: seq<string>)
    requires |segs| > 0 && AllPlain(segs)
    ensures Split(Glue(segs)) == segs
    ensures var s := Glue(segs); s != "" && s != "." && s != "/" && !Rooted(s) && !("../" <= s)
  {
    var s := Glue(segs);
    NamesOfPlain(segs);
    SplitOfGlue(segs);
    PlainIsCanonical(false, segs);
    SplitOfShow(false, segs);
    SplitOfSegment(".");
    if "../" <= s {
      UnderParent(s);
    }
  }

  lemma CleanWithoutParents(name: string)
    requires name != "" && !Rooted(name) && ".." !in Split(name)
    ensures Clean(name) == Show(false, Names(Split(name))) && AllPlain(Names(Split(name)))
  {
    StepsWithoutParents(false, [], Split(name));
    assert [] + Names(Split(name)) == Names(Split(name));
  }

  lemma CleanRelPathValue(name: string)
    requires name != "" && !Rooted(name) && ".." !in Split(name)
    ensures CleanRelPath(name) == if Names(Split(name)) == [] then Err(NoFile) else Ok(Glue(Names(Split(name))))
  {
    CleanWithoutParents(name);
    if Names(Split(name)) != [] {
      GlueOfPlain(Names(Split(name)));
    }
  }

  /** CleanRelPath accepts exactly the relative paths that name a file by ordinary names, and
      returns those names joined by single slashes. */
  lemma AcceptedExactly(name: string)
    ensures CleanRelPath(name).Ok? <==>
      !Rooted(name) && ".." !in Split(name) && exists i :: 0 <= i < |Split(name)| && Split(name)[i] !in {"", "."}
    ensures CleanRelPath(name).Ok? ==>
      var c := CleanRelPath(name).value;
      AllPlain(Split(c)) && Split(c) == Names(Split(name))
  {
    if name == "" {
      assert Split(name) == [""];
    } else if !Rooted(name) && ".." !in Split(name) {
      CleanRelPathValue(name);
      StepsWithoutParents(false, [], Split(name));
      if Names(Split(name)) != [] {
        GlueOfPlain(Names(Split(name)));
      }
    }
  }

  /** And which refusal the others get: for a path that is not empty, not absolute and without a parent
      segment, that it names no file. */
  lemma RefusedExactly(name: string)
    ensures CleanRelPath(name) == Err(Required) <==> name == ""
    ensures CleanRelPath(name) == Err(Absolute) <==> "/" <= name
    ensures CleanRelPath(name) == Err(Parent) <==> !("/" <= name) && ".." in Split(name)
    ensures CleanRelPath(name) == Err(NoFile) <==>
      name != "" && !("/" <= name) && forall i :: 0 <= i < |Split(name)| ==> Split(name)[i] in {"", "."}
  {
    AcceptedExactly(name);
  }

  /** What CleanRelPath returns, it accepts and leaves unchanged. */
  lemma CleanedIsAFixedPoint(name: string)
    requires CleanRelPath(name).Ok?
    ensures CleanRelPath(CleanRelPath(name).value) == CleanRelPath(name)
  {
    AcceptedExactly(name);
    var c := CleanRelPath(name).value;
    NamesOfPlain(Split(c));
    GlueOfPlain(Split(c));
    GlueOfSplit(c);
    assert Plain(Split(c)[0]);
    AcceptedExactly(c);
    GlueOfSplit(CleanRelPath(c).value);
  }

  // ---------------------------------------------------------------- joining what was cleaned

  lemma JoinSegments(root: string, name: string)
    requires root != ""
    ensures Join(root, name) == Show(Rooted(root), Steps(Rooted(root), Segments(root), Split(name)))
  {
    StepsAppend(Rooted(root), [], Split(root), Split(name));
    if name != "" {
      SplitAtSlash(root, name);
    } else {
      assert Split(name) == [""];
      assert Steps(Rooted(root), Segments(root), [""]) == Segments(root);
    }
  }

  /** The raw path and its cleaned form join to the same target under every root, or are both
      refused; and under any root that can hold a file at all (one that is already clean, and is
      neither "." nor "/") both are accepted, at the root followed by the cleaned path. */
  lemma CleanedAndRawAgree(root: string, name: string)
    requires CleanRelPath(name).Ok?
    ensures SafeJoin(root, name) == SafeJoin(root, CleanRelPath(name).value)
    ensures SafeJoin(root, name).Ok? <==> root != "" && Clean(root) == root && root != "." && root != "/"
    ensures SafeJoin(root, name).Ok? ==> SafeJoin(root, name) == Ok(root + "/" + CleanRelPath(name).value)
  {
    AcceptedExactly(name);
    CleanedIsAFixedPoint(name);
    var c := CleanRelPath(name).value;
    AcceptedExactly(c);
    NamesOfPlain(Split(c));
    GlueOfPlain(Split(c));
    GlueOfSplit(c);
    if root == "" {
      assert Join(root, name) == c && Join(root, c) == c;
      assert !("/" <= c);
    } else {
      JoinSegments(root, name);
      JoinSegments(root, c);
      StepsWithoutParents(Rooted(root), Segments(root), Split(name));
      StepsWithoutParents(Rooted(root), Segments(root), Split(c));
      OnlyCleanRootsTakeNames(root, Split(c));
      if Clean(root) == root && root != "." && root != "/" {
        CleanRootTakesNames(root, Split(c));
      }
    }
  }

  lemma CanonicalPrefix(rooted: bool, a: seq<string>, b: seq<string>)
    requires Canonical(rooted, a + b)
    ensures Canonical(rooted, a)
    ensures a != [] && a[|a| - 1] != ".." ==> AllPlain(b)
  {
    var all := a + b;
    assert forall i :: 0 <= i < |a| ==> a[i] == all[i];
    assert forall i :: 0 <= i < |b| ==> b[i] == all[|a| + i];
  }

  /** Of the text before a slash in a clean path: the segments it is made of. */
  lemma SegmentsUpToSlash(rooted: bool, all: seq<string>, root: string, w: string) returns (pre: seq<string>)
    requires Canonical(rooted, all) && Show(rooted, all) == root + "/" + w && root != ""
    ensures pre != [] && pre + Split(w) == all && root == Show(rooted, pre)
  {
    var parts := Split(root);
    SplitAtSlash(root, w);
    SplitOfShow(rooted, all);
    GlueOfSplit(root);
    assert |root + "/" + w| == 1 + |root| + |w|;
    assert all != [];
    pre := if rooted then parts[1..] else parts;
    if rooted {
      assert [""] + all == parts + Split(w);
      assert parts[0] == ([""] + all)[0];
      assert all == ([""] + all)[1..] == pre + Split(w);
    }
    assert pre != [];
  }

  /** Text that continues as a clean path after a slash is itself clean. */
  lemma CleanUpToSlash(rooted: bool, all: seq<string>, root: string, w: string)
    requires Canonical(rooted, all) && Show(rooted, all) == root + "/" + w && root != ""
    ensures Clean(root) == root && root != "." && root != "/" && Rooted(root) == rooted
    ensures Segments(root) != [] && Segments(root) + Split(w) == all
  {
    var pre := SegmentsUpToSlash(rooted, all, root, w);
    CanonicalPrefix(rooted, pre, Split(w));
    ShownIsClean(rooted, pre);
    assert Segments(".") == [] && Segments("/") == [] by {
      ShownIsClean(false, []);
      ShownIsClean(true, []);
    }
  }

  lemma CanonicalPlusPlain(rooted: bool, segs: seq<string>, names: seq<string>)
    requires Canonical(rooted, segs) && AllPlain(names)
    ensures Canonical(rooted, segs + names)
  {
    var all := segs + names;
    assert forall i :: |segs| <= i < |all| ==> all[i] == names[i - |segs|] && Plain(all[i]);
    assert forall i :: 0 <= i < |segs| ==> all[i] == segs[i];
  }

  lemma SlashFirst(a: string, b: string)
    ensures "/" + (a + "/" + b) == ("/" + a) + "/" + b
  {
  }

  lemma ShowPlusPlain(rooted: bool, segs: seq<string>, names: seq<string>)
    requires |segs| > 0 && |names| > 0
    ensures Show(rooted, segs + names) == Show(rooted, segs) + "/" + Glue(names)
  {
    GlueAppend(segs, names);
    assert segs + names != [] && segs != [];
    SlashFirst(Glue(segs), Glue(names));
  }

  lemma CutAtSlash(root: string, target: string)
    requires root + "/" <= target
    ensures target == root + "/" + target[|root| + 1..]
  {
  }

  lemma CleanRootTakesNames(root: string, names: seq<string>)
    requires Clean(root) == root && root != "." && root != "/" && |names| > 0
    ensures Show(Rooted(root), Segments(root) + names) == root + "/" + Glue(names)
  {
    CleanShows(root);
    assert Segments(root) != [];
    ShowPlusPlain(Rooted(root), Segments(root), names);
  }

  lemma OnlyCleanRootsTakeNames(root: string, names: seq<string>)
    requires root != "" && |names| > 0 && AllPlain(names)
    ensures var target := Show(Rooted(root), Segments(root) + names);
      target != root && (root + "/" <= target ==> Clean(root) == root && root != "." && root != "/")
  {
    var rooted, all := Rooted(root), Segments(root) + names;
    var target := Show(rooted, all);
    CanonicalPlusPlain(rooted, Segments(root), names);
    ShownIsClean(rooted, all);
    assert Segments(target) != Segments(root);
    if root + "/" <= target {
      CutAtSlash(root, target);
      CleanUpToSlash(rooted, all, root, target[|root| + 1..]);
    }
  }

  // ---------------------------------------------------------------- staying below the root

  lemma {:induction false} WalkDown(at: seq<string>, segs: seq<string>)
    requires AllPlain(segs)
    ensures Walk(at, segs) == at + segs
    decreases |segs|
  {
    if segs != [] {
      WalkDown(at + [segs[0]], segs[1..]);
      assert at + [segs[0]] + segs[1..] == at + segs;
    }
  }

  lemma {:induction false} WalkUp(at: seq<string>, segs: seq<string>)
    requires (forall i :: 0 <= i < |segs| ==> segs[i] == "..") && |segs| <= |at|
    ensures Walk(at, segs) == at[..|at| - |segs|]
    decreases |segs|
  {
    if segs != [] {
      WalkUp(WalkOne(at, segs[0]), segs[1..]);
    }
  }

  /** A root that is clean and climbs: "..", "../..", and so on. */
  predicate Climbs(root: string) {
    Clean(root) == root && Split(root)[|Split(root)| - 1] == ".."
  }

  lemma LastOfClean(root: string)
    requires Clean(root) == root && Segments(root) != []
    ensures Split(root)[|Split(root)| - 1] == Segments(root)[|Segments(root)| - 1]
  {
    CleanShows(root);
    SplitOfShow(Rooted(root), Segments(root));
  }

  lemma CleanTailNeverClimbs(rooted: bool, all: seq<string>, root: string, w: string)
    requires Canonical(rooted, all) && Show(rooted, all) == root + "/" + w && root != ""
    ensures !Climbs(root) ==> AllPlain(Split(w))
  {
    CleanUpToSlash(rooted, all, root, w);
    CanonicalPrefix(rooted, Segments(root), Split(w));
    LastOfClean(root);
  }

  /** Every target the join accepts is the root itself or continues it by whole segments. */
  lemma AcceptedContinuesTheRoot(root: string, name: string)
    requires SafeJoin(root, name).Ok? && SafeJoin(root, name).value != root
    ensures var target := SafeJoin(root, name).value;
      && root != "" && root + "/" <= target
      && Split(target) == Split(root) + Split(target[|root| + 1..])
      && (!Climbs(root) ==> AllPlain(Split(target[|root| + 1..])))
  {
    var target := SafeJoin(root, name).value;
    assert root + "/" <= target == Join(root, name);
    if root == "" {
      CleanShows(name);
      ShownIsClean(false, Segments(name));
    } else {
      var w := target[|root| + 1..];
      CutAtSlash(root, target);
      SplitAtSlash(root, w);
      JoinSegments(root, name);
      StepsCanonical(Rooted(root), Segments(root), Split(name));
      CleanTailNeverClimbs(Rooted(root), Steps(Rooted(root), Segments(root), Split(name)), root, w);
    }
  }

  /** The names by which a join's target continues its root. */
  function Below(root: string, target: string): seq<string> {
    if target == root || |target| <= |root| then [] else Split(target[|root| + 1..])
  }

  /** An accepted target leads to just those names below where the root leads, all of them
      ordinary. */
  lemma AcceptedIsBelow(cwd: seq<string>, root: string, name: string)
    requires SafeJoin(root, name).Ok? && !Climbs(root)
    ensures var target := SafeJoin(root, name).value;
      AllPlain(Below(root, target)) && Resolve(cwd, target) == Resolve(cwd, root) + Below(root, target)
  {
    var target := SafeJoin(root, name).value;
    if target != root {
      AcceptedContinuesTheRoot(root, name);
      var at := if Rooted(root) then [] else cwd;
      WalkAppend(at, Split(root), Below(root, target));
      WalkDown(Walk(at, Split(root)), Below(root, target));
      assert Rooted(target) == Rooted(root);
    }
  }

  lemma ClimbingRoot(root: string)
    requires Climbs(root)
    ensures var segs := Segments(root);
      && !Rooted(root) && segs != [] && root == Glue(segs) && Split(root) == segs
      && forall i :: 0 <= i < |segs| ==> segs[i] == ".."
  {
    CleanShows(root);
    SplitOfShow(Rooted(root), Segments(root));
  }

  lemma ClimbingJoin(root: string)
    requires Climbs(root)
    ensures SafeJoin(root, "..") == Ok(root + "/" + "..")
  {
    var segs := Segments(root);
    ClimbingRoot(root);
    SplitOfSegment("..");
    assert root != "" by { assert Split("") == [""]; }
    JoinSegments(root, "..");
    assert Steps(false, segs, [".."]) == segs + [".."];
    GlueAppend(segs, [".."]);
  }

  /** Under a climbing root the prefix test is no containment: ".." is accepted and leaves. */
  lemma ClimbingRootLeaks(root: string) returns (cwd: seq<string>)
    requires Climbs(root)
    ensures SafeJoin(root, "..").Ok?
    ensures !(Resolve(cwd, root) <= Resolve(cwd, SafeJoin(root, "..").value))
  {
    var segs := Segments(root);
    ClimbingRoot(root);
    ClimbingJoin(root);
    SplitAtSlash(root, "..");
    SplitOfSegment("..");
    cwd := seq(|segs| + 1, i => "d");
    WalkUp(cwd, segs);
    WalkUp(cwd, segs + [".."]);
  }

  ghost predicate StaysBelow(root: string) {
    forall name, cwd :: SafeJoin(root, name).Ok? ==> Resolve(cwd, root) <= Resolve(cwd, SafeJoin(root, name).value)
  }

  /** Whatever the join accepts leads to the root or below it, exactly when the root does not
      itself climb. */
  lemma JoinContainsExactly(root: string)
    ensures StaysBelow(root) <==> !Climbs(root)
  {
    if Climbs(root) {
      var cwd := ClimbingRootLeaks(root);
    } else {
      forall name, cwd | SafeJoin(root, name).Ok?
        ensures Resolve(cwd, root) <= Resolve(cwd, SafeJoin(root, name).value)
      {
        AcceptedIsBelow(cwd, root, name);
      }
    }
  }
}
