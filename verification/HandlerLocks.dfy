/** Any number of hub handlers at once, each taking push locks and metadata locks as its kind
    does: deadlock freedom, and one handler at a time on each canvas. The locks are the atomic
    ones per key that module KeyedMutex is proved to be. */
module HandlerLocks {
  import opened Prelude
  import opened StringOrder

  /** The hub's pushLocks and the package-level metaLocks, by canvas id. */
  datatype Lock = Push(id: string) | Meta(id: string)

  datatype Thread = Thread(name: nat)

  /** What a handler does next; Touch is any act on a canvas's tree, Other any act on none. */
  datatype Instr = Take(l: Lock) | Give(l: Lock) | Touch(id: string) | Other

  /** PushTo: handlePush, which applies shares auto-share grants. Single: the file and snapshot
      handlers, one lock and acts on one tree. OnlyMeta: the grant, claim and create handlers. */
  datatype Request = PushTo(id: string, shares: nat)
                   | Copy(from: string, to: string)
                   | Single(id: string, acts: nat)
                   | OnlyMeta(id: string, writes: nat)

  /** What a handler has left to do. */
  datatype Todo = Done | Then(now: Instr, rest: Todo)

  function MetaWrites(id: string, n: nat, rest: Todo): Todo {
    if n == 0 then rest else Then(Take(Meta(id)), Then(Other, Then(Give(Meta(id)), MetaWrites(id, n - 1, rest))))
  }

  function Touches(id: string, n: nat, rest: Todo): Todo {
    if n == 0 then rest else Then(Touch(id), Touches(id, n - 1, rest))
  }

  /** The acts of one request that runs to its end. */
  function Script(r: Request): Todo {
    match r
    case PushTo(id, shares) =>
      Then(Other, Then(Take(Push(id)),
        Touches(id, 2, Then(Other, MetaWrites(id, 1 + shares, Then(Give(Push(id)), Done))))))
    case Copy(from, to) =>
      if from == to then Then(Other, Done)
      else
        var first, second := if StrLess(to, from) then to else from, if StrLess(to, from) then from else to;
        var leave := Then(Give(Push(second)), Then(Give(Push(first)), Done));
        var inside := Then(Touch(to), Then(Touch(from), Touches(to, 2, Then(Other, leave))));
        Then(Other, Then(Take(Push(first)), Then(Take(Push(second)), inside)))
    case Single(id, acts) => Then(Other, Then(Take(Push(id)), Touches(id, acts, Then(Give(Push(id)), Done))))
    case OnlyMeta(id, writes) => Then(Other, MetaWrites(id, writes, Done))
  }

  // ---------------------------------------------------------------- the lock order

  /** Push locks by id, and every push lock before every metadata lock. */
  predicate Before(a: Lock, b: Lock) {
    match (a, b)
    case (Push(x), Push(y)) => StrLess(x, y)
    case (Push(_), Meta(_)) => true
    case (Meta(_), Push(_)) => false
    case (Meta(x), Meta(y)) => StrLess(x, y)
  }

  lemma BeforeTransitive(a: Lock, b: Lock, c: Lock)
    requires Before(a, b) && Before(b, c)
    ensures Before(a, c)
  {
    if a.Push? == c.Push? {
      StrLessTransitive(a.id, b.id, c.id);
    }
  }

  lemma BeforeIrreflexive(a: Lock)
    ensures !Before(a, a)
  {
    StrTrichotomy(a.id, a.id);
  }

  predicate Above(held: seq<Lock>, l: Lock) {
    forall i :: 0 <= i < |held| ==> Before(held[i], l)
  }

  predicate Ascending(held: seq<Lock>) {
    forall i, j :: 0 <= i < j < |held| ==> Before(held[i], held[j])
  }

  /** A handler that follows the order from here on: it only ever takes a lock above all it
      holds, gives back the last one taken, acts on a tree only under that canvas's push lock, and
      ends with none. */
  predicate Orderly(held: seq<Lock>, todo: Todo)
    decreases todo
  {
    if todo.Done? then held == []
    else
      match todo.now
      case Take(l) => Above(held, l) && Orderly(held + [l], todo.rest)
      case Give(l) => held != [] && held[|held| - 1] == l && Orderly(held[..|held| - 1], todo.rest)
      case Touch(id) => Push(id) in held && Orderly(held, todo.rest)
      case Other => Orderly(held, todo.rest)
  }

  /** The deferred unlocks of an early return: last taken, first given back. */
  function Unwind(held: seq<Lock>): Todo {
    if held == [] then Done else Then(Give(held[|held| - 1]), Unwind(held[..|held| - 1]))
  }

  lemma {:induction false} UnwindIsOrderly(held: seq<Lock>)
    ensures Orderly(held, Unwind(held))
  {
    if held != [] {
      UnwindIsOrderly(held[..|held| - 1]);
    }
  }

  lemma {:induction false} MetaWritesAreOrderly(held: seq<Lock>, id: string, n: nat, rest: Todo)
    requires Orderly(held, rest) && Above(held, Meta(id))
    ensures Orderly(held, MetaWrites(id, n, rest))
  {
    if n > 0 {
      MetaWritesAreOrderly(held, id, n - 1, rest);
      assert (held + [Meta(id)])[..|held|] == held;
    }
  }

  lemma {:induction false} TouchesAreOrderly(held: seq<Lock>, id: string, n: nat, rest: Todo)
    requires Orderly(held, rest) && Push(id) in held
    ensures Orderly(held, Touches(id, n, rest))
  {
    if n > 0 {
      TouchesAreOrderly(held, id, n - 1, rest);
    }
  }

  lemma TakeBoth(a: Lock, b: Lock, inside: Todo)
    requires Before(a, b) && Orderly([a, b], inside)
    ensures Orderly([], Then(Take(a), Then(Take(b), inside)))
  {
    assert [a] + [b] == [a, b] && [] + [a] == [a];
    assert Orderly([a], Then(Take(b), inside));
  }

  lemma GiveBoth(a: Lock, b: Lock)
    ensures Orderly([a, b], Then(Give(b), Then(Give(a), Done)))
  {
    assert [a, b][..1] == [a] && [a][..0] == [];
    assert Orderly([a], Then(Give(a), Done));
  }

  lemma CopyIsOrderly(from: string, to: string)
    ensures Orderly([], Script(Copy(from, to)))
  {
    if from != to {
      StrTrichotomy(from, to);
      var first, second := if StrLess(to, from) then to else from, if StrLess(to, from) then from else to;
      var a, b := Push(first), Push(second);
      var leave := Then(Give(b), Then(Give(a), Done));
      GiveBoth(a, b);
      TouchesAreOrderly([a, b], to, 2, Then(Other, leave));
      TakeBoth(a, b, Then(Touch(to), Then(Touch(from), Touches(to, 2, Then(Other, leave)))));
    }
  }

  /** Every kind of handler follows the lock order: the copy because it takes its two locks in
      lexical order, the others because they take metadata locks last and one at a time. */
  lemma ScriptsAreOrderly(r: Request)
    ensures Orderly([], Script(r))
  {
    match r
    case PushTo(id, shares) =>
      var held := [Push(id)];
      assert held[..0] == [] && [] + [Push(id)] == held;
      var end := Then(Give(Push(id)), Done);
      MetaWritesAreOrderly(held, id, 1 + shares, end);
      TouchesAreOrderly(held, id, 2, Then(Other, MetaWrites(id, 1 + shares, end)));
    case Copy(from, to) => CopyIsOrderly(from, to);
    case Single(id, acts) =>
      var held := [Push(id)];
      assert held[..0] == [] && [] + [Push(id)] == held;
      TouchesAreOrderly(held, id, acts, Then(Give(Push(id)), Done));
    case OnlyMeta(id, writes) => MetaWritesAreOrderly([], id, writes, Done);
  }

  // ---------------------------------------------------------------- what a request locks and does

  /** The canvases whose push locks a script takes, in order. */
  function PushesTaken(todo: Todo): seq<string> {
    if todo.Done? then []
    else (if todo.now.Take? && todo.now.l.Push? then [todo.now.l.id] else []) + PushesTaken(todo.rest)
  }

  /** The canvases whose metadata locks a script takes, in order. */
  function MetasTaken(todo: Todo): seq<string> {
    if todo.Done? then []
    else (if todo.now.Take? && todo.now.l.Meta? then [todo.now.l.id] else []) + MetasTaken(todo.rest)
  }

  /** The canvases whose trees a script acts on, in order. */
  function ActsOf(todo: Todo): seq<string> {
    if todo.Done? then [] else (if todo.now.Touch? then [todo.now.id] else []) + ActsOf(todo.rest)
  }

  /** A push locks its canvas and acts on it; a copy locks its source and its target, the lesser first,
      and acts on the target, the source, and then the target only; a copy onto itself does nothing. A
      metadata writer locks no canvas. */
  function PushLocks(r: Request): seq<string> {
    match r
    case PushTo(id, _) => [id]
    case Copy(from, to) => if from == to then [] else if StrLess(to, from) then [to, from] else [from, to]
    case Single(id, _) => [id]
    case OnlyMeta(_, _) => []
  }

  function Times(id: string, n: nat): (ids: seq<string>)
    ensures |ids| == n && forall i :: 0 <= i < n ==> ids[i] == id
  {
    if n == 0 then [] else [id] + Times(id, n - 1)
  }

  lemma {:induction false} MetaWritesTake(id: string, n: nat, rest: Todo)
    ensures PushesTaken(MetaWrites(id, n, rest)) == PushesTaken(rest) && ActsOf(MetaWrites(id, n, rest)) == ActsOf(rest)
    ensures MetasTaken(MetaWrites(id, n, rest)) == Times(id, n) + MetasTaken(rest)
  {
    if n > 0 {
      var more := MetaWrites(id, n - 1, rest);
      MetaWritesTake(id, n - 1, rest);
      OneWriteTakes(id, more);
      assert [id] + (Times(id, n - 1) + MetasTaken(rest)) == Times(id, n) + MetasTaken(rest);
    }
  }

  lemma OneWriteTakes(id: string, more: Todo)
    ensures var todo := Then(Take(Meta(id)), Then(Other, Then(Give(Meta(id)), more)));
      && PushesTaken(todo) == PushesTaken(more) && ActsOf(todo) == ActsOf(more)
      && MetasTaken(todo) == [id] + MetasTaken(more)
  {
    var give := Then(Give(Meta(id)), more);
    assert PushesTaken(give) == PushesTaken(more) && ActsOf(give) == ActsOf(more)
      && MetasTaken(give) == MetasTaken(more);
    var write := Then(Other, give);
    assert PushesTaken(write) == PushesTaken(more) && ActsOf(write) == ActsOf(more)
      && MetasTaken(write) == MetasTaken(more);
  }

  lemma {:induction false} TouchesTake(id: string, n: nat, rest: Todo)
    ensures PushesTaken(Touches(id, n, rest)) == PushesTaken(rest)
    ensures MetasTaken(Touches(id, n, rest)) == MetasTaken(rest)
    ensures ActsOf(Touches(id, n, rest)) == Times(id, n) + ActsOf(rest)
  {
    if n > 0 {
      TouchesTake(id, n - 1, rest);
      assert [id] + (Times(id, n - 1) + ActsOf(rest)) == Times(id, n) + ActsOf(rest);
    }
  }

  /** Which locks each request takes, and on which trees it acts, in what order. */
  lemma ScriptsDo(r: Request)
    ensures PushesTaken(Script(r)) == PushLocks(r)
    ensures ActsOf(Script(r)) ==
      match r
      case PushTo(id, _) => [id, id]
      case Copy(from, to) => if from == to then [] else [to, from, to, to]
      case Single(id, acts) => Times(id, acts)
      case OnlyMeta(_, _) => []
    ensures MetasTaken(Script(r)) ==
      match r
      case PushTo(id, shares) => Times(id, 1 + shares)
      case OnlyMeta(id, writes) => Times(id, writes)
      case _ => []
  {
    match r
    case PushTo(id, shares) =>
      var end := Then(Give(Push(id)), Done);
      MetaWritesTake(id, 1 + shares, end);
      TouchesTake(id, 2, Then(Other, MetaWrites(id, 1 + shares, end)));
      assert MetasTaken(end) == [] && ActsOf(end) == [] && PushesTaken(end) == [];
    case Copy(from, to) =>
      if from != to {
        CopyDoes(from, to);
      }
    case Single(id, acts) =>
      TouchesTake(id, acts, Then(Give(Push(id)), Done));
    case OnlyMeta(id, writes) =>
      MetaWritesTake(id, writes, Done);
  }

  lemma LeavingDoesNothing(a: Lock, b: Lock)
    ensures var leave := Then(Give(b), Then(Give(a), Done));
      PushesTaken(leave) == [] && ActsOf(leave) == [] && MetasTaken(leave) == []
  {
    var last := Then(Give(a), Done);
    assert PushesTaken(last) == [] && ActsOf(last) == [] && MetasTaken(last) == [];
  }

  lemma CopyDoes(from: string, to: string)
    requires from != to
    ensures var todo := Script(Copy(from, to));
      PushesTaken(todo) == PushLocks(Copy(from, to)) && ActsOf(todo) == [to, from, to, to] && MetasTaken(todo) == []
  {
    StrTrichotomy(from, to);
    var first, second := if StrLess(to, from) then to else from, if StrLess(to, from) then from else to;
    var leave := Then(Give(Push(second)), Then(Give(Push(first)), Done));
    LeavingDoesNothing(Push(first), Push(second));
    var back := Then(Other, leave);
    TouchesTake(to, 2, back);
    var swap := Touches(to, 2, back);
    assert ActsOf(swap) == [to, to] && PushesTaken(swap) == [] && MetasTaken(swap) == [];
    var inside := Then(Touch(to), Then(Touch(from), swap));
    InsideDoes(to, from, swap);
    TakesBoth(first, second, inside);
  }

  lemma InsideDoes(to: string, from: string, swap: Todo)
    requires ActsOf(swap) == [to, to] && PushesTaken(swap) == [] && MetasTaken(swap) == []
    ensures var inside := Then(Touch(to), Then(Touch(from), swap));
      ActsOf(inside) == [to, from, to, to] && PushesTaken(inside) == [] && MetasTaken(inside) == []
  {
    var walk := Then(Touch(from), swap);
    assert ActsOf(walk) == [from, to, to] && PushesTaken(walk) == [] && MetasTaken(walk) == [];
  }

  lemma TakesBoth(first: string, second: string, inside: Todo)
    requires PushesTaken(inside) == [] && MetasTaken(inside) == []
    ensures var todo := Then(Other, Then(Take(Push(first)), Then(Take(Push(second)), inside)));
      PushesTaken(todo) == [first, second] && MetasTaken(todo) == [] && ActsOf(todo) == ActsOf(inside)
  {
    var b := Then(Take(Push(second)), inside);
    assert PushesTaken(b) == [second] && MetasTaken(b) == [] && ActsOf(b) == ActsOf(inside);
    var a := Then(Take(Push(first)), b);
    assert PushesTaken(a) == [first, second] && MetasTaken(a) == [] && ActsOf(a) == ActsOf(inside);
  }

  predicate AllHeld(held: seq<Lock>, ids: seq<string>) {
    forall id :: id in ids ==> Push(id) in held
  }

  /** At every act of what is left, and whenever it takes a metadata lock, all these canvases' push locks
      are held. */
  predicate WorksUnder(held: seq<Lock>, todo: Todo, ids: seq<string>)
    decreases todo
  {
    todo.Done? ||
    match todo.now
    case Take(l) => (l.Meta? ==> AllHeld(held, ids)) && WorksUnder(held + [l], todo.rest, ids)
    case Give(_) => held != [] && WorksUnder(held[..|held| - 1], todo.rest, ids)
    case Touch(_) => AllHeld(held, ids) && WorksUnder(held, todo.rest, ids)
    case Other => WorksUnder(held, todo.rest, ids)
  }

  lemma {:induction false} NothingUnder(held: seq<Lock>, todo: Todo, ids: seq<string>)
    requires ActsOf(todo) == MetasTaken(todo) == [] && Orderly(held, todo)
    ensures WorksUnder(held, todo, ids)
    decreases todo
  {
    if todo.Then? {
      match todo.now
      case Take(l) => NothingUnder(held + [l], todo.rest, ids);
      case Give(_) => NothingUnder(held[..|held| - 1], todo.rest, ids);
      case Touch(_) =>
      case Other => NothingUnder(held, todo.rest, ids);
    }
  }

  lemma {:induction false} TouchesUnder(held: seq<Lock>, id: string, n: nat, rest: Todo, ids: seq<string>)
    requires AllHeld(held, ids) && WorksUnder(held, rest, ids)
    ensures WorksUnder(held, Touches(id, n, rest), ids)
  {
    if n > 0 {
      TouchesUnder(held, id, n - 1, rest, ids);
    }
  }

  lemma InsideUnderBoth(first: string, second: string, from: string, to: string)
    ensures var leave := Then(Give(Push(second)), Then(Give(Push(first)), Done));
      WorksUnder([Push(first), Push(second)],
                 Then(Touch(to), Then(Touch(from), Touches(to, 2, Then(Other, leave)))), [first, second])
  {
    var held, ids := [Push(first), Push(second)], [first, second];
    var leave := Then(Give(Push(second)), Then(Give(Push(first)), Done));
    assert held[0] == Push(first) && held[1] == Push(second);
    GiveBoth(Push(first), Push(second));
    LeavingDoesNothing(Push(first), Push(second));
    NothingUnder(held, leave, ids);
    TouchesUnder(held, to, 2, Then(Other, leave), ids);
    assert WorksUnder(held, Then(Touch(from), Touches(to, 2, Then(Other, leave))), ids);
  }

  lemma TakenUnder(a: string, b: string, inside: Todo, ids: seq<string>)
    requires WorksUnder([Push(a), Push(b)], inside, ids)
    ensures WorksUnder([], Then(Other, Then(Take(Push(a)), Then(Take(Push(b)), inside))), ids)
  {
    assert [] + [Push(a)] == [Push(a)] && [Push(a)] + [Push(b)] == [Push(a), Push(b)];
    assert WorksUnder([Push(a)], Then(Take(Push(b)), inside), ids);
    assert WorksUnder([], Then(Take(Push(a)), Then(Take(Push(b)), inside)), ids);
  }

  lemma CopyWorksUnderBoth(from: string, to: string)
    requires from != to
    ensures WorksUnder([], Script(Copy(from, to)), PushLocks(Copy(from, to)))
  {
    StrTrichotomy(from, to);
    var first, second := if StrLess(to, from) then to else from, if StrLess(to, from) then from else to;
    InsideUnderBoth(first, second, from, to);
    var leave := Then(Give(Push(second)), Then(Give(Push(first)), Done));
    TakenUnder(first, second, Then(Touch(to), Then(Touch(from), Touches(to, 2, Then(Other, leave)))), [first, second]);
  }

  lemma {:induction false} MetaWritesUnder(held: seq<Lock>, id: string, n: nat, rest: Todo, ids: seq<string>)
    requires AllHeld(held, ids) && WorksUnder(held, rest, ids)
    ensures WorksUnder(held, MetaWrites(id, n, rest), ids)
  {
    if n > 0 {
      var more := MetaWrites(id, n - 1, rest);
      MetaWritesUnder(held, id, n - 1, rest, ids);
      assert (held + [Meta(id)])[..|held|] == held;
      assert WorksUnder(held + [Meta(id)], Then(Give(Meta(id)), more), ids);
      assert WorksUnder(held + [Meta(id)], Then(Other, Then(Give(Meta(id)), more)), ids);
    }
  }

  lemma OneLockWorksUnder(r: Request)
    requires r.PushTo? || r.Single?
    ensures WorksUnder([], Script(r), PushLocks(r))
  {
    var held, end := [Push(r.id)], Then(Give(Push(r.id)), Done);
    assert [] + [Push(r.id)] == held && held[..0] == [] && held[0] == Push(r.id);
    assert WorksUnder(held, end, [r.id]);
    if r.PushTo? {
      MetaWritesUnder(held, r.id, 1 + r.shares, end, [r.id]);
      TouchesUnder(held, r.id, 2, Then(Other, MetaWrites(r.id, 1 + r.shares, end)), [r.id]);
    } else {
      TouchesUnder(held, r.id, r.acts, end, [r.id]);
    }
  }

  /** At every act of a request, and whenever it takes a metadata lock, all its push locks are held:
      for a copy, its source's and its target's. */
  lemma ScriptsWorkUnderTheirLocks(r: Request)
    ensures WorksUnder([], Script(r), PushLocks(r))
  {
    match r
    case PushTo(_, _) => OneLockWorksUnder(r);
    case Single(_, _) => OneLockWorksUnder(r);
    case OnlyMeta(id, writes) => MetaWritesUnder([], id, writes, Done, []);
    case Copy(from, to) =>
      if from != to {
        CopyWorksUnderBoth(from, to);
      }
  }

  // ---------------------------------------------------------------- what is left of a script

  predicate EndsWith(all: seq<string>, part: seq<string>) {
    |part| <= |all| && all[|all| - |part|..] == part
  }

  /** Once a handler acts, it goes on acting until it has no more acts to do. */
  predicate ActsTogether(todo: Todo) {
    todo.Done? ||
    (ActsTogether(todo.rest) && (todo.now.Touch? ==> ActsOf(todo.rest) == [] || todo.rest.now.Touch?))
  }

  lemma {:induction false} NoActsTogether(todo: Todo)
    requires ActsOf(todo) == []
    ensures ActsTogether(todo)
  {
    if todo.Then? {
      NoActsTogether(todo.rest);
    }
  }

  lemma {:induction false} TouchesTogether(id: string, n: nat, rest: Todo)
    requires ActsOf(rest) == []
    ensures ActsTogether(Touches(id, n, rest))
  {
    if n == 0 {
      NoActsTogether(rest);
    } else {
      TouchesTogether(id, n - 1, rest);
    }
  }

  lemma ScriptsActTogether(r: Request)
    ensures ActsTogether(Script(r))
  {
    match r
    case PushTo(id, shares) =>
      var end := Then(Give(Push(id)), Done);
      MetaWritesTake(id, 1 + shares, end);
      assert ActsOf(end) == [];
      TouchesTogether(id, 2, Then(Other, MetaWrites(id, 1 + shares, end)));
    case Single(id, acts) =>
      assert ActsOf(Then(Give(Push(id)), Done)) == [];
      TouchesTogether(id, acts, Then(Give(Push(id)), Done));
    case OnlyMeta(id, writes) =>
      MetaWritesTake(id, writes, Done);
      NoActsTogether(MetaWrites(id, writes, Done));
    case Copy(from, to) =>
      if from != to {
        CopyActsTogether(from, to);
      }
  }

  lemma CopyActsTogether(from: string, to: string)
    requires from != to
    ensures ActsTogether(Script(Copy(from, to)))
  {
    var first, second := if StrLess(to, from) then to else from, if StrLess(to, from) then from else to;
    var back := Then(Other, Then(Give(Push(second)), Then(Give(Push(first)), Done)));
    LeavingDoesNothing(Push(first), Push(second));
    TouchesTogether(to, 2, back);
    assert ActsTogether(Then(Touch(from), Touches(to, 2, back)));
    assert ActsTogether(Then(Touch(to), Then(Touch(from), Touches(to, 2, back))));
  }

  /** One running handler: what is left to do, and the locks whose unlock it has deferred. */
  datatype Local = Local(held: seq<Lock>, todo: Todo)

  function NextLocal(l: Local): Local
    requires l.todo != Done && (l.todo.now.Give? ==> l.held != [])
  {
    match l.todo.now
    case Take(lock) => Local(l.held + [lock], l.todo.rest)
    case Give(_) => Local(l.held[..|l.held| - 1], l.todo.rest)
    case _ => Local(l.held, l.todo.rest)
  }

  /** What a handler has left is an end of its request's script, or an early return. */
  predicate Follows(r: Request, l: Local) {
    WorksUnder(l.held, l.todo, PushLocks(r)) && EndsWith(ActsOf(Script(r)), ActsOf(l.todo)) && ActsTogether(l.todo)
  }

  lemma {:induction false} UnwindDoesNothing(held: seq<Lock>)
    ensures ActsOf(Unwind(held)) == MetasTaken(Unwind(held)) == []
  {
    if held != [] {
      UnwindDoesNothing(held[..|held| - 1]);
    }
  }

  lemma BeginFollows(r: Request)
    ensures Follows(r, Local([], Script(r)))
  {
    ScriptsWorkUnderTheirLocks(r);
    ScriptsActTogether(r);
  }

  lemma BailFollows(r: Request, held: seq<Lock>)
    ensures Follows(r, Local(held, Unwind(held)))
  {
    UnwindIsOrderly(held);
    UnwindDoesNothing(held);
    NothingUnder(held, Unwind(held), PushLocks(r));
    NoActsTogether(Unwind(held));
  }

  lemma NextFollows(r: Request, l: Local)
    requires Follows(r, l) && l.todo != Done && (l.todo.now.Give? ==> l.held != [])
    ensures Follows(r, NextLocal(l))
  {
    var all, part, rest := ActsOf(Script(r)), ActsOf(l.todo), ActsOf(l.todo.rest);
    assert part == (if l.todo.now.Touch? then [l.todo.now.id] else []) + rest;
    assert all[|all| - |rest|..] == part[|part| - |rest|..];
  }

  /** A copy goes straight on from its source to its target. */
  lemma TargetIsNext(from: string, to: string, l: Local)
    requires Follows(Copy(from, to), l) && from != to && l.todo.Then? && l.todo.now == Touch(from)
    ensures l.todo.rest.Then? && l.todo.rest.now == Touch(to)
  {
    ScriptsDo(Copy(from, to));
    var all, part := [to, from, to, to], ActsOf(l.todo);
    var n := |part|;
    assert part == all[4 - n..] && part == [from] + ActsOf(l.todo.rest);
    assert all[4 - n] == part[0] == from;
    assert n == 3;
    assert ActsOf(l.todo.rest) == part[1..] == [to, to];
    assert l.todo.rest.now.Touch?;
    assert ActsOf(l.todo.rest)[0] == l.todo.rest.now.id;
  }

  // ---------------------------------------------------------------- handlers at once

  /** An act on a canvas's tree, by the sections-th holder of its push lock. */
  datatype Act = Act(t: Thread, section: nat)

  /** requests is what each handler serves. sections and acts are history: who took each canvas's push
      lock, in order, and who acted on its tree, in order. */
  datatype State = State(
    holder: map<Lock, Thread>,
    threads: map<Thread, Local>,
    requests: map<Thread, Request>,
    sections: map<string, seq<Thread>>,
    acts: map<string, seq<Act>>)

  /** Again is one more act on the tree a handler is at: a Touch of the script stands for any
      number of them, the last one being its Step. */
  datatype Action = Begin(t: Thread, r: Request)
                  | Step(t: Thread)
                  | Again(t: Thread)
                  | Bail(t: Thread)

  predicate Enabled(s: State, a: Action) {
    match a
    case Begin(t, _) => t !in s.threads
    case Step(t) => t in s.threads && s.threads[t].todo != Done && !Blocked(s, t)
    case Again(t) => t in s.threads && s.threads[t].todo != Done && s.threads[t].todo.now.Touch?
    case Bail(t) =>
      t in s.threads && s.threads[t].todo != Done && (s.threads[t].todo.now.Touch? || s.threads[t].todo.now.Other?)
  }

  /** Waiting for a lock that somebody holds. */
  predicate Blocked(s: State, t: Thread)
    requires t in s.threads
  {
    var todo := s.threads[t].todo;
    todo != Done && todo.now.Take? && todo.now.l in s.holder
  }

  function SeqAt<T>(m: map<string, seq<T>>, id: string): seq<T> {
    if id in m then m[id] else []
  }

  function Acted(s: State, t: Thread, id: string): map<string, seq<Act>> {
    s.acts[id := SeqAt(s.acts, id) + [Act(t, |SeqAt(s.sections, id)|)]]
  }

  function Do(s: State, a: Action): State
    requires Enabled(s, a) && (a.Step? && s.threads[a.t].todo.now.Give? ==> s.threads[a.t].held != [])
  {
    match a
    case Begin(t, r) => s.(threads := s.threads[t := Local([], Script(r))], requests := s.requests[t := r])
    case Bail(t) => s.(threads := s.threads[t := Local(s.threads[t].held, Unwind(s.threads[t].held))])
    case Again(t) => s.(acts := Acted(s, t, s.threads[t].todo.now.id))
    case Step(t) =>
      var l := s.threads[t];
      var next := s.(threads := s.threads[t := NextLocal(l)]);
      match l.todo.now
      case Take(lock) =>
        next.(holder := s.holder[lock := t],
              sections := if lock.Push? then s.sections[lock.id := SeqAt(s.sections, lock.id) + [t]] else s.sections)
      case Give(lock) => next.(holder := s.holder - {lock})
      case Touch(id) => next.(acts := Acted(s, t, id))
      case Other => next
  }

  predicate Init(s: State) {
    s.holder == map[] && s.threads == map[] && s.requests == map[] && s.sections == map[] && s.acts == map[]
  }

  // ---------------------------------------------------------------- what every step keeps

  /** A handler keeps to the order, and its deferred unlocks are just the locks it holds. */
  predicate LocalOk(holder: map<Lock, Thread>, t: Thread, l: Local) {
    && Ascending(l.held) && Orderly(l.held, l.todo)
    && (forall i :: 0 <= i < |l.held| ==> l.held[i] in holder && holder[l.held[i]] == t)
    && (forall k :: k in holder && holder[k] == t ==> k in l.held)
  }

  /** The holder of a canvas's push lock is the last to have taken it; every act was made by the
      taker of its section, and the sections of the acts never go back. */
  predicate CanvasOk(holder: map<Lock, Thread>, id: string, sections: seq<Thread>, acts: seq<Act>) {
    && (Push(id) in holder ==> sections != [] && sections[|sections| - 1] == holder[Push(id)])
    && (forall i :: 0 <= i < |acts| ==> 0 < acts[i].section <= |sections| && sections[acts[i].section - 1] == acts[i].t)
    && (forall i, j :: 0 <= i <= j < |acts| ==> acts[i].section <= acts[j].section)
  }

  ghost predicate Inv(s: State) {
    && (forall t :: t in s.threads ==> LocalOk(s.holder, t, s.threads[t]))
    && (forall l :: l in s.holder ==> s.holder[l] in s.threads)
    && (forall id :: CanvasOk(s.holder, id, SeqAt(s.sections, id), SeqAt(s.acts, id)))
  }

  lemma TakeKeepsLocal(holder: map<Lock, Thread>, t: Thread, l: Local)
    requires LocalOk(holder, t, l) && l.todo != Done && l.todo.now.Take? && l.todo.now.l !in holder
    ensures LocalOk(holder[l.todo.now.l := t], t, NextLocal(l))
  {
    var held := l.held + [l.todo.now.l];
    assert forall i :: 0 <= i < |l.held| ==> held[i] == l.held[i];
  }

  lemma LastIsNew(held: seq<Lock>)
    requires Ascending(held) && held != []
    ensures forall i :: 0 <= i < |held| - 1 ==> held[i] != held[|held| - 1]
  {
    BeforeIrreflexive(held[|held| - 1]);
  }

  lemma WithoutLast(holder: map<Lock, Thread>, t: Thread, held: seq<Lock>)
    requires held != [] && forall i :: 0 <= i < |held| - 1 ==> held[i] != held[|held| - 1]
    requires forall k :: k in holder && holder[k] == t ==> k in held
    ensures forall k :: k in holder - {held[|held| - 1]} && holder[k] == t ==> k in held[..|held| - 1]
  {
    assert held == held[..|held| - 1] + [held[|held| - 1]];
  }

  lemma ShorterAscends(held: seq<Lock>)
    requires Ascending(held) && held != []
    ensures Ascending(held[..|held| - 1])
  {
  }

  lemma GiveKeepsLocal(holder: map<Lock, Thread>, t: Thread, l: Local)
    requires LocalOk(holder, t, l) && l.todo != Done && l.todo.now.Give?
    ensures l.held != [] && l.todo.now.l in holder && holder[l.todo.now.l] == t
    ensures LocalOk(holder - {l.todo.now.l}, t, NextLocal(l))
  {
    LastIsNew(l.held);
    WithoutLast(holder, t, l.held);
    ShorterAscends(l.held);
  }

  lemma OthersKeepLocal(holder: map<Lock, Thread>, lock: Lock, t: Thread, u: Thread, l: Local)
    requires LocalOk(holder, u, l) && t != u
    ensures lock !in holder ==> LocalOk(holder[lock := t], u, l)
    ensures lock in holder && holder[lock] == t ==> LocalOk(holder - {lock}, u, l)
  {
  }

  /** What a step does to the holders. */
  function NextHolder(s: State, a: Action): map<Lock, Thread>
    requires Enabled(s, a)
  {
    if !a.Step? then s.holder
    else
      match s.threads[a.t].todo.now
      case Take(lock) => s.holder[lock := a.t]
      case Give(lock) => s.holder - {lock}
      case _ => s.holder
  }

  lemma GoingOnKeepsLocal(holder: map<Lock, Thread>, t: Thread, l: Local)
    requires LocalOk(holder, t, l) && l.todo != Done && (l.todo.now.Touch? || l.todo.now.Other?)
    ensures LocalOk(holder, t, NextLocal(l)) && LocalOk(holder, t, Local(l.held, Unwind(l.held)))
  {
    UnwindIsOrderly(l.held);
  }

  lemma NextKeepsLocal(s: State, t: Thread)
    requires Inv(s) && Enabled(s, Step(t))
    ensures s.threads[t].todo.now.Give? ==> s.threads[t].held != []
    ensures LocalOk(NextHolder(s, Step(t)), t, NextLocal(s.threads[t]))
  {
    var l := s.threads[t];
    assert LocalOk(s.holder, t, l);
    if l.todo.now.Take? {
      TakeKeepsLocal(s.holder, t, l);
    } else if l.todo.now.Give? {
      GiveKeepsLocal(s.holder, t, l);
    } else {
      GoingOnKeepsLocal(s.holder, t, l);
    }
  }

  lemma HolderNext(s: State, a: Action)
    requires Enabled(s, a) && (a.Step? && s.threads[a.t].todo.now.Give? ==> s.threads[a.t].held != [])
    ensures Do(s, a).holder == NextHolder(s, a)
    ensures a.t in Do(s, a).threads && Do(s, a).threads[a.t] ==
      match a
      case Begin(_, r) => Local([], Script(r))
      case Bail(t) => Local(s.threads[t].held, Unwind(s.threads[t].held))
      case Again(t) => s.threads[t]
      case Step(t) => NextLocal(s.threads[t])
  {
  }

  lemma BeginKeepsLocal(s: State, t: Thread, r: Request)
    requires Inv(s) && t !in s.threads
    ensures LocalOk(s.holder, t, Local([], Script(r)))
  {
    ScriptsAreOrderly(r);
  }

  lemma StepKeepsActor(s: State, a: Action)
    requires Inv(s) && Enabled(s, a)
    ensures a.Step? && s.threads[a.t].todo.now.Give? ==> s.threads[a.t].held != []
    ensures Do(s, a).holder == NextHolder(s, a)
    ensures LocalOk(NextHolder(s, a), a.t, Do(s, a).threads[a.t])
  {
    match a
    case Begin(t, r) => BeginKeepsLocal(s, t, r);
    case Bail(t) =>
      assert LocalOk(s.holder, t, s.threads[t]);
      GoingOnKeepsLocal(s.holder, t, s.threads[t]);
    case Again(t) => assert LocalOk(s.holder, t, s.threads[t]);
    case Step(t) => NextKeepsLocal(s, t);
    HolderNext(s, a);
  }

  lemma StepKeepsOther(s: State, a: Action, u: Thread)
    requires Inv(s) && Enabled(s, a) && u in s.threads && u != a.t
    ensures LocalOk(NextHolder(s, a), u, s.threads[u])
  {
    assert LocalOk(s.holder, u, s.threads[u]);
    if a.Step? {
      var l := s.threads[a.t];
      assert LocalOk(s.holder, a.t, l);
      if l.todo.now.Take? {
        OthersKeepLocal(s.holder, l.todo.now.l, a.t, u, s.threads[u]);
      } else if l.todo.now.Give? {
        GiveKeepsLocal(s.holder, a.t, l);
        OthersKeepLocal(s.holder, l.todo.now.l, a.t, u, s.threads[u]);
      }
    }
  }

  lemma TakeKeepsCanvas(holder: map<Lock, Thread>, lock: Lock, t: Thread, id: string, sections: seq<Thread>,
                        acts: seq<Act>)
    requires CanvasOk(holder, id, sections, acts) && lock !in holder
    ensures CanvasOk(holder[lock := t], id, if lock == Push(id) then sections + [t] else sections, acts)
  {
  }

  lemma GiveKeepsCanvas(holder: map<Lock, Thread>, lock: Lock, id: string, sections: seq<Thread>, acts: seq<Act>)
    requires CanvasOk(holder, id, sections, acts)
    ensures CanvasOk(holder - {lock}, id, sections, acts)
  {
  }

  lemma TouchKeepsCanvas(holder: map<Lock, Thread>, t: Thread, id: string, sections: seq<Thread>, acts: seq<Act>)
    requires CanvasOk(holder, id, sections, acts) && Push(id) in holder && holder[Push(id)] == t
    ensures CanvasOk(holder, id, sections, acts + [Act(t, |sections|)])
  {
    var more := acts + [Act(t, |sections|)];
    assert forall i :: 0 <= i < |acts| ==> more[i] == acts[i];
  }

  lemma ActKeepsCanvas(s: State, t: Thread, at: string, id: string)
    requires Inv(s) && Push(at) in s.holder && s.holder[Push(at)] == t
    ensures CanvasOk(s.holder, id, SeqAt(s.sections, id), SeqAt(Acted(s, t, at), id))
  {
    assert CanvasOk(s.holder, id, SeqAt(s.sections, id), SeqAt(s.acts, id));
    if at == id {
      TouchKeepsCanvas(s.holder, t, id, SeqAt(s.sections, id), SeqAt(s.acts, id));
    }
  }

  lemma LockKeepsCanvas(s: State, t: Thread, id: string)
    requires Inv(s) && Enabled(s, Step(t)) && (s.threads[t].todo.now.Take? || s.threads[t].todo.now.Give?)
    requires s.threads[t].todo.now.Give? ==> s.threads[t].held != []
    ensures var next := Do(s, Step(t));
      CanvasOk(next.holder, id, SeqAt(next.sections, id), SeqAt(next.acts, id))
  {
    var sections, acts := SeqAt(s.sections, id), SeqAt(s.acts, id);
    assert CanvasOk(s.holder, id, sections, acts);
    match s.threads[t].todo.now
    case Take(lock) => TakeKeepsCanvas(s.holder, lock, t, id, sections, acts);
    case Give(lock) => GiveKeepsCanvas(s.holder, lock, id, sections, acts);
  }

  lemma TouchersHold(s: State, t: Thread)
    requires Inv(s) && t in s.threads && s.threads[t].todo != Done && s.threads[t].todo.now.Touch?
    ensures var lock := Push(s.threads[t].todo.now.id); lock in s.holder && s.holder[lock] == t
  {
    assert LocalOk(s.holder, t, s.threads[t]);
  }

  lemma StepKeepsCanvas(s: State, a: Action, id: string)
    requires Inv(s) && Enabled(s, a)
    requires a.Step? && s.threads[a.t].todo.now.Give? ==> s.threads[a.t].held != []
    ensures CanvasOk(Do(s, a).holder, id, SeqAt(Do(s, a).sections, id), SeqAt(Do(s, a).acts, id))
  {
    if (a.Step? || a.Again?) && s.threads[a.t].todo.now.Touch? {
      TouchersHold(s, a.t);
      ActKeepsCanvas(s, a.t, s.threads[a.t].todo.now.id, id);
    } else if a.Step? && !s.threads[a.t].todo.now.Other? {
      LockKeepsCanvas(s, a.t, id);
    } else {
      assert CanvasOk(s.holder, id, SeqAt(s.sections, id), SeqAt(s.acts, id));
    }
  }

  lemma StepKeepsInv(s: State, a: Action)
    requires Inv(s) && Enabled(s, a)
    ensures a.Step? && s.threads[a.t].todo.now.Give? ==> s.threads[a.t].held != []
    ensures Inv(Do(s, a))
  {
    StepKeepsActor(s, a);
    var s' := Do(s, a);
    forall u | u in s'.threads ensures LocalOk(s'.holder, u, s'.threads[u]) {
      if u != a.t {
        StepKeepsOther(s, a, u);
      }
    }
    forall id ensures CanvasOk(s'.holder, id, SeqAt(s'.sections, id), SeqAt(s'.acts, id)) {
      StepKeepsCanvas(s, a, id);
    }
  }

  // ---------------------------------------------------------------- deadlock freedom

  /** All of these handlers wait, each for a lock before l. */
  predicate WaitBelow(s: State, met: set<Thread>, l: Lock) {
    forall m :: m in met ==> m in s.threads && Blocked(s, m) && Before(s.threads[m].todo.now.l, l)
  }

  lemma HolderWaitsAbove(s: State, t: Thread, met: set<Thread>) returns (h: Thread)
    requires Inv(s) && t in s.threads && Blocked(s, t) && WaitBelow(s, met, s.threads[t].todo.now.l)
    ensures h in s.threads && s.threads[h].todo != Done && t !in met
    ensures Blocked(s, h) ==> WaitBelow(s, met + {t}, s.threads[h].todo.now.l)
  {
    var want := s.threads[t].todo.now.l;
    BeforeIrreflexive(want);
    h := s.holder[want];
    assert LocalOk(s.holder, h, s.threads[h]);
    if Blocked(s, h) {
      var next := s.threads[h].todo.now.l;
      assert Before(want, next);
      forall m | m in met ensures Before(s.threads[m].todo.now.l, next) {
        BeforeTransitive(s.threads[m].todo.now.l, want, next);
      }
    }
  }

  /** Follow a blocked handler to the holder of the lock it waits for, and on: every handler met
      waits for a lock above the last one, so the walk ends at one that can step. */
  lemma {:induction false} SomeoneCanStep(s: State, t: Thread, met: set<Thread>) returns (u: Thread)
    requires Inv(s) && t in s.threads && s.threads[t].todo != Done && met <= s.threads.Keys
    requires Blocked(s, t) ==> WaitBelow(s, met, s.threads[t].todo.now.l)
    ensures u in s.threads && Enabled(s, Step(u))
    decreases s.threads.Keys - met
  {
    if Blocked(s, t) {
      var h := HolderWaitsAbove(s, t, met);
      u := SomeoneCanStep(s, h, met + {t});
    } else {
      u := t;
    }
  }

  // ---------------------------------------------------------------- runs

  ghost predicate Runs(s: State, acts: seq<Action>, end: State)
    decreases |acts|
  {
    if acts == [] then s == end
    else
      && Enabled(s, acts[0])
      && (acts[0].Step? && s.threads[acts[0].t].todo.now.Give? ==> s.threads[acts[0].t].held != [])
      && Runs(Do(s, acts[0]), acts[1..], end)
  }

  lemma {:induction false} RunKeepsInv(s: State, acts: seq<Action>, end: State)
    requires Inv(s) && Runs(s, acts, end)
    ensures Inv(end)
    decreases |acts|
  {
    if acts != [] {
      StepKeepsInv(s, acts[0]);
      RunKeepsInv(Do(s, acts[0]), acts[1..], end);
    }
  }

  /** Whatever pushes, copies, file, snapshot and sharing handlers run at once, while any of them
      is unfinished some handler can take its next step: they never deadlock. */
  lemma NeverDeadlocked(init: State, acts: seq<Action>, end: State, t: Thread) returns (u: Thread)
    requires Init(init) && Runs(init, acts, end) && t in end.threads && end.threads[t].todo != Done
    ensures u in end.threads && Enabled(end, Step(u))
  {
    assert Inv(init);
    RunKeepsInv(init, acts, end);
    u := SomeoneCanStep(end, t, {});
  }

  /** The acts on one canvas's tree come in a serial order: each was made by the handler whose
      turn with that canvas's lock it was, and the acts of one turn are never interrupted by those
      of another. */
  lemma ActsAreSerial(init: State, acts: seq<Action>, end: State, id: string, i: nat, j: nat)
    requires Init(init) && Runs(init, acts, end) && i <= j < |SeqAt(end.acts, id)|
    ensures var done, turns := SeqAt(end.acts, id), SeqAt(end.sections, id);
      && 0 < done[i].section <= |turns| && turns[done[i].section - 1] == done[i].t
      && done[i].section <= done[j].section
      && (done[i].section == done[j].section ==>
            forall k :: i <= k <= j ==> done[k].section == done[i].section && done[k].t == done[i].t)
  {
    assert Inv(init);
    RunKeepsInv(init, acts, end);
    assert CanvasOk(end.holder, id, SeqAt(end.sections, id), SeqAt(end.acts, id));
  }

  // ---------------------------------------------------------------- at work

  /** Each handler does what is left of its own request. */
  predicate Serves(s: State, t: Thread) {
    t in s.threads ==> t in s.requests && Follows(s.requests[t], s.threads[t])
  }

  ghost predicate Serving(s: State) {
    forall t :: Serves(s, t)
  }

  lemma ActorServes(s: State, a: Action)
    requires Serves(s, a.t) && Enabled(s, a)
    requires a.Step? && s.threads[a.t].todo.now.Give? ==> s.threads[a.t].held != []
    ensures Serves(Do(s, a), a.t)
  {
    match a
    case Begin(_, r) => BeginFollows(r);
    case Bail(t) => BailFollows(s.requests[t], s.threads[t].held);
    case Step(t) => NextFollows(s.requests[t], s.threads[t]);
    case Again(_) =>
  }

  lemma OthersStay(s: State, a: Action, u: Thread)
    requires Enabled(s, a) && u != a.t && (a.Step? && s.threads[a.t].todo.now.Give? ==> s.threads[a.t].held != [])
    ensures u in Do(s, a).threads <==> u in s.threads
    ensures u in s.threads ==> Do(s, a).threads[u] == s.threads[u]
    ensures u in s.requests ==> u in Do(s, a).requests && Do(s, a).requests[u] == s.requests[u]
  {
  }

  lemma StepKeepsServing(s: State, a: Action)
    requires Serving(s) && Enabled(s, a)
    requires a.Step? && s.threads[a.t].todo.now.Give? ==> s.threads[a.t].held != []
    ensures Serving(Do(s, a))
  {
    forall u ensures Serves(Do(s, a), u) {
      if u == a.t {
        assert Serves(s, u);
        ActorServes(s, a);
      } else {
        assert Serves(s, u);
        OthersStay(s, a, u);
      }
    }
  }

  lemma {:induction false} RunKeepsServing(s: State, acts: seq<Action>, end: State)
    requires Serving(s) && Runs(s, acts, end)
    ensures Serving(end)
    decreases |acts|
  {
    if acts != [] {
      StepKeepsServing(s, acts[0]);
      RunKeepsServing(Do(s, acts[0]), acts[1..], end);
    }
  }

  lemma FirstAct(r: Request, l: Local)
    requires Follows(r, l) && l.todo != Done && l.todo.now.Touch?
    ensures l.todo.now.id in ActsOf(Script(r)) && AllHeld(l.held, PushLocks(r))
  {
    var all, part := ActsOf(Script(r)), ActsOf(l.todo);
    assert part[0] == l.todo.now.id && all[|all| - |part|..][0] == part[0];
  }

  /** While a handler stands at an act it holds every push lock of its request, and the act is on one of
      those canvases. */
  lemma AtWork(s: State, t: Thread)
    requires Inv(s) && Serves(s, t) && t in s.threads && s.threads[t].todo != Done && s.threads[t].todo.now.Touch?
    ensures t in s.requests && s.threads[t].todo.now.id in ActsOf(Script(s.requests[t]))
    ensures forall id :: id in PushLocks(s.requests[t]) ==> Push(id) in s.holder && s.holder[Push(id)] == t
  {
    FirstAct(s.requests[t], s.threads[t]);
    HeldAreItsOwn(s, t);
  }

  lemma HeldAreItsOwn(s: State, t: Thread)
    requires Inv(s) && t in s.threads
    ensures forall l :: l in s.threads[t].held ==> l in s.holder && s.holder[l] == t
  {
    assert LocalOk(s.holder, t, s.threads[t]);
  }

  lemma CopyHoldsBoth(s: State, t: Thread, from: string, to: string)
    requires Inv(s) && Serves(s, t) && t in s.threads && s.threads[t].todo != Done && s.threads[t].todo.now.Touch?
    requires t in s.requests && s.requests[t] == Copy(from, to)
    ensures from != to && s.threads[t].todo.now.id in {from, to}
    ensures Push(from) in s.holder && s.holder[Push(from)] == t && Push(to) in s.holder && s.holder[Push(to)] == t
  {
    AtWork(s, t);
    ScriptsDo(Copy(from, to));
    CopyLocks(from, to);
  }

  lemma CopyLocks(from: string, to: string)
    ensures from != to ==> from in PushLocks(Copy(from, to)) && to in PushLocks(Copy(from, to))
  {
  }

  /** Over every run, while a copy between two canvases stands at an act it holds the locks of both, and
      the act is on one of the two. */
  lemma CopiesHoldBoth(init: State, acts: seq<Action>, end: State, t: Thread, from: string, to: string)
    requires Init(init) && Runs(init, acts, end) && t in end.threads
    requires end.threads[t].todo != Done && end.threads[t].todo.now.Touch?
    requires t in end.requests && end.requests[t] == Copy(from, to)
    ensures from != to && end.threads[t].todo.now.id in {from, to}
    ensures Push(from) in end.holder && end.holder[Push(from)] == t
    ensures Push(to) in end.holder && end.holder[Push(to)] == t
  {
    assert Inv(init);
    RunKeepsInv(init, acts, end);
    RunKeepsServing(init, acts, end);
    CopyHoldsBoth(end, t, from, to);
  }
}
