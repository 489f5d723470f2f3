/** The registry of browser sign-ins on plain values: what each operation makes of the records
    in memory and of the file, for any clock readings and any outcome of each save. */
module SessionRegistry {
  import opened Prelude

  /** Nanoseconds; 0 is the zero time. */
  type Time = int

  const TOUCH_INTERVAL: Time := 5 * 60 * 1_000_000_000

  datatype Record = Record(
    id: string, subject: string, email: string, userAgent: string,
    createdAt: Time, lastSeen: Time, expiresAt: Time)

  type Records = map<string, Record>

  /** The file as the next load will find it. */
  datatype File = Missing | Garbled | Saved(records: Records)

  datatype LoadError = Unreadable | Corrupt

  datatype Error = LoadFailed(cause: LoadError) | IdRequired | SubjectRequired | ExpiryRequired | SaveFailed

  datatype Policy = Policy(idleTTL: Time, maxLifetime: Time)

  /** records means something only while loadErr is None. clock is the latest reading taken. */
  datatype State = State(records: Records, loadErr: Option<LoadError>, file: File, clock: Time)

  predicate Live(rec: Record, now: Time) {
    now < rec.expiresAt
  }

  function Pruned(m: Records, now: Time): Records {
    map id | id in m && Live(m[id], now) :: m[id]
  }

  predicate Keyed(m: Records) {
    forall id :: id in m ==> id != "" && m[id].id == id
  }

  function HardExpiry(rec: Record, p: Policy): Option<Time> {
    if p.maxLifetime <= 0 || rec.createdAt == 0 then None else Some(rec.createdAt + p.maxLifetime)
  }

  /** The record Create stores: times default to now and the cap binds at once. */
  function Admitted(rec: Record, now: Time, p: Policy): Record {
    var created := if rec.createdAt == 0 then now else rec.createdAt;
    var seen := if rec.lastSeen == 0 then created else rec.lastSeen;
    var dated := rec.(createdAt := created, lastSeen := seen);
    match HardExpiry(dated, p)
    case Some(limit) => if dated.expiresAt > limit then dated.(expiresAt := limit) else dated
    case None => dated
  }

  /** The record Renew stores once the throttle lets it through. */
  function Renewed(rec: Record, now: Time, p: Policy): Record {
    var seen := rec.(lastSeen := now);
    if p.idleTTL <= 0 then seen
    else
      var want := match HardExpiry(seen, p)
        case Some(limit) => if now + p.idleTTL > limit then limit else now + p.idleTTL
        case None => now + p.idleTTL;
      if want > rec.expiresAt then seen.(expiresAt := want) else seen
  }

  // ---------------------------------------------------------------- operations

  /** Save prunes at its own reading of the clock and then either replaces the file or not. */
  function AfterSave(s: State, records: Records, later: Time, saved: bool): State {
    var kept := Pruned(records, later);
    s.(records := kept, file := if saved then Saved(kept) else s.file, clock := later)
  }

  datatype Op =
    | Create(rec: Record, now: Time, later: Time, saved: bool)
    | Lookup(id: string, now: Time)
    | Renew(id: string, now: Time, later: Time, saved: bool)
    | Revoke(id: string, subject: string, now: Time, later: Time, saved: bool)
    | End(id: string, later: Time, saved: bool)
    | Restart(readable: bool, now: Time, later: Time, saved: bool)

  /** What the caller gets: nothing, a record (with extended), whether a session was found, or an error. */
  datatype Answer = Done | Miss | Hit(rec: Record, extended: bool) | Found(found: bool) | Failed(error: Error)

  function FirstReading(op: Op): Time {
    match op
    case Create(_, now, _, _) => now
    case Lookup(_, now) => now
    case Renew(_, now, _, _) => now
    case Revoke(_, _, now, _, _) => now
    case End(_, later, _) => later
    case Restart(_, now, _, _) => now
  }

  function LastReading(op: Op): Time {
    if op.Lookup? then op.now else op.later
  }

  /** One monotone clock over the whole run. */
  predicate Timely(s: State, op: Op) {
    s.clock <= FirstReading(op) <= LastReading(op)
  }

  function AfterCreate(s: State, rec: Record, now: Time, later: Time, saved: bool, p: Policy): (State, Answer) {
    if rec.id == "" then (s, Failed(IdRequired))
    else if rec.subject == "" then (s, Failed(SubjectRequired))
    else if rec.expiresAt == 0 then (s, Failed(ExpiryRequired))
    else if s.loadErr.Some? then (s, Failed(LoadFailed(s.loadErr.value)))
    else
      (AfterSave(s, s.records[rec.id := Admitted(rec, now, p)], later, saved),
       if saved then Done else Failed(SaveFailed))
  }

  function AfterLookup(s: State, id: string, now: Time): (State, Answer) {
    if id == "" then (s, Miss)
    else if s.loadErr.Some? then (s, Failed(LoadFailed(s.loadErr.value)))
    else if id !in s.records || !Live(s.records[id], now) then (s.(clock := now), Miss)
    else (s.(clock := now), Hit(s.records[id], false))
  }

  function AfterRenew(s: State, id: string, now: Time, later: Time, saved: bool, p: Policy): (State, Answer) {
    if id == "" then (s, Miss)
    else if s.loadErr.Some? then (s, Failed(LoadFailed(s.loadErr.value)))
    else if id !in s.records || !Live(s.records[id], now) then (s.(clock := now), Miss)
    else if now - s.records[id].lastSeen < TOUCH_INTERVAL then (s.(clock := now), Hit(s.records[id], false))
    else
      var rec := Renewed(s.records[id], now, p);
      (AfterSave(s, s.records[id := rec], later, saved), Hit(rec, rec.expiresAt != s.records[id].expiresAt))
  }

  function AfterRevoke(s: State, id: string, subject: string, now: Time, later: Time, saved: bool): (State, Answer) {
    if id == "" || subject == "" then (s, Found(false))
    else if s.loadErr.Some? then (s, Failed(LoadFailed(s.loadErr.value)))
    else if id !in s.records || s.records[id].subject != subject || !Live(s.records[id], now) then
      (s.(clock := now), Found(false))
    else
      (AfterSave(s, s.records - {id}, later, saved), if saved then Found(true) else Failed(SaveFailed))
  }

  function AfterEnd(s: State, id: string, later: Time, saved: bool): (State, Answer) {
    if id == "" then (s, Done)
    else if s.loadErr.Some? then (s, Failed(LoadFailed(s.loadErr.value)))
    else if id !in s.records then (s, Done)
    else (AfterSave(s, s.records - {id}, later, saved), if saved then Done else Failed(SaveFailed))
  }

  /** A new process: the records are what the file holds, pruned; a prune that removed something
      is written back, best effort. */
  function AfterRestart(s: State, readable: bool, now: Time, later: Time, saved: bool): (State, Answer) {
    if s.file.Missing? then (s.(records := map[], loadErr := None, clock := now), Done)
    else if !readable then (s.(records := map[], loadErr := Some(Unreadable)), Done)
    else if s.file.Garbled? then (s.(records := map[], loadErr := Some(Corrupt)), Done)
    else
      var kept := Pruned(s.file.records, now);
      var t := s.(records := kept, loadErr := None, clock := now);
      (if kept == s.file.records then t else AfterSave(t, kept, later, saved), Done)
  }

  function Next(s: State, op: Op, p: Policy): (State, Answer) {
    match op
    case Create(rec, now, later, saved) => AfterCreate(s, rec, now, later, saved, p)
    case Lookup(id, now) => AfterLookup(s, id, now)
    case Renew(id, now, later, saved) => AfterRenew(s, id, now, later, saved, p)
    case Revoke(id, subject, now, later, saved) => AfterRevoke(s, id, subject, now, later, saved)
    case End(id, later, saved) => AfterEnd(s, id, later, saved)
    case Restart(readable, now, later, saved) => AfterRestart(s, readable, now, later, saved)
  }

  /** Any run: each operation's readings are no earlier than the ones before. */
  ghost predicate Runs(s: State, ops: seq<Op>, p: Policy, end: State)
    decreases |ops|
  {
    if ops == [] then end == s
    else Timely(s, ops[0]) && Runs(Next(s, ops[0], p).0, ops[1..], p, end)
  }

  // ---------------------------------------------------------------- what each operation answers and leaves

  /** Just the records that have expired are dropped, and nothing else is changed or added. */
  ghost predicate OnlyPrunes(after: Records, before: Records, moment: Time) {
    forall id ::
      && (id in after <==> id in before && moment < before[id].expiresAt)
      && (id in after ==> after[id] == before[id])
  }

  lemma PrunedOnlyPrunes(m: Records, now: Time)
    ensures OnlyPrunes(Pruned(m, now), m, now)
  {
  }

  /** The records in memory become these, pruned, whether or not the save works; the file just then. */
  ghost predicate Stores(t: State, s: State, records: Records, later: Time, saved: bool) {
    && OnlyPrunes(t.records, records, later) && t.loadErr == s.loadErr
    && t.file == if saved then Saved(t.records) else s.file
  }

  ghost predicate Untouched(t: State, s: State) {
    t.records == s.records && t.file == s.file && t.loadErr == s.loadErr
  }

  ghost predicate LiveAt(s: State, id: string, now: Time) {
    id in s.records && now < s.records[id].expiresAt
  }

  /** The record a login is given: the times it left open are the registry's own, and it ends no later
      than the cap allows, but as told if that is sooner. */
  ghost predicate Registers(made: Record, rec: Record, now: Time, p: Policy) {
    && made.id == rec.id && made.subject == rec.subject && made.email == rec.email && made.userAgent == rec.userAgent
    && made.createdAt == (if rec.createdAt != 0 then rec.createdAt else now)
    && made.lastSeen == (if rec.lastSeen != 0 then rec.lastSeen else made.createdAt)
    && made.expiresAt <= rec.expiresAt
    && (p.maxLifetime > 0 && made.createdAt != 0 ==> made.expiresAt <= made.createdAt + p.maxLifetime)
    && (made.expiresAt == rec.expiresAt
        || (p.maxLifetime > 0 && made.createdAt != 0 && made.expiresAt == made.createdAt + p.maxLifetime))
  }

  /** A sign-in is registered exactly if it has an id, a subject and an expiry, and the registry could be
      loaded; it answers an error all the same if the save fails. */
  lemma CreatedExactly(s: State, op: Op, p: Policy) returns (made: Record)
    requires op.Create?
    ensures var (t, a) := Next(s, op, p);
      if op.rec.id == "" then a == Failed(IdRequired) && t == s
      else if op.rec.subject == "" then a == Failed(SubjectRequired) && t == s
      else if op.rec.expiresAt == 0 then a == Failed(ExpiryRequired) && t == s
      else if s.loadErr.Some? then a == Failed(LoadFailed(s.loadErr.value)) && t == s
      else
        && a == (if op.saved then Done else Failed(SaveFailed))
        && Registers(made, op.rec, op.now, p) && Stores(t, s, s.records[op.rec.id := made], op.later, op.saved)
  {
    made := Admitted(op.rec, op.now, p);
    PrunedOnlyPrunes(s.records[op.rec.id := made], op.later);
  }

  /** A lookup finds exactly the live record of its id, and changes nothing. */
  lemma FoundExactly(s: State, op: Op, p: Policy)
    requires op.Lookup?
    ensures var (t, a) := Next(s, op, p);
      && Untouched(t, s)
      && a == if op.id == "" then Miss
              else if s.loadErr.Some? then Failed(LoadFailed(s.loadErr.value))
              else if LiveAt(s, op.id, op.now) then Hit(s.records[op.id], false)
              else Miss
  {
  }

  /** What a renewal makes of a record: seen now, and ending a whole idle window on, or at the cap if
      that is sooner, unless it ended later anyway. */
  ghost predicate Slides(rec: Record, was: Record, now: Time, p: Policy) {
    && rec == was.(lastSeen := now, expiresAt := rec.expiresAt)
    && rec.expiresAt >= was.expiresAt && (p.idleTTL <= 0 ==> rec.expiresAt == was.expiresAt)
    && (rec.expiresAt > was.expiresAt ==> rec.expiresAt <= now + p.idleTTL)
    && (rec.expiresAt > was.expiresAt && p.maxLifetime > 0 && was.createdAt != 0 ==>
          rec.expiresAt <= was.createdAt + p.maxLifetime)
    && (p.idleTTL > 0 ==>
          || rec.expiresAt >= now + p.idleTTL
          || (p.maxLifetime > 0 && was.createdAt != 0 && rec.expiresAt >= was.createdAt + p.maxLifetime))
  }

  /** A renewal hits exactly the live record of its id. Within the interval it changes nothing; past it
      the record slides, in memory whether or not the save works. It answers the record as it then is
      and whether its end has moved. */
  lemma RenewedExactly(s: State, op: Op, p: Policy)
    requires op.Renew?
    ensures var (t, a) := Next(s, op, p);
      if op.id == "" then a == Miss && Untouched(t, s)
      else if s.loadErr.Some? then a == Failed(LoadFailed(s.loadErr.value)) && Untouched(t, s)
      else if !LiveAt(s, op.id, op.now) then a == Miss && Untouched(t, s)
      else
        var was := s.records[op.id];
        a.Hit? &&
        if op.now - was.lastSeen < TOUCH_INTERVAL then a == Hit(was, false) && Untouched(t, s)
        else
          && Slides(a.rec, was, op.now, p) && a.extended == (a.rec.expiresAt != was.expiresAt)
          && Stores(t, s, s.records[op.id := a.rec], op.later, op.saved)
  {
    if op.id in s.records {
      PrunedOnlyPrunes(s.records[op.id := Renewed(s.records[op.id], op.now, p)], op.later);
    }
  }

  /** A revocation answers true exactly if the session is there, the caller's own and live, and the save
      works. An own live session is gone from memory even if the save fails; otherwise nothing changes. */
  lemma RevokedExactly(s: State, op: Op, p: Policy)
    requires op.Revoke?
    ensures var (t, a) := Next(s, op, p);
      if op.id == "" || op.subject == "" then a == Found(false) && Untouched(t, s)
      else if s.loadErr.Some? then a == Failed(LoadFailed(s.loadErr.value)) && Untouched(t, s)
      else if LiveAt(s, op.id, op.now) && s.records[op.id].subject == op.subject then
        && a == (if op.saved then Found(true) else Failed(SaveFailed))
        && Stores(t, s, s.records - {op.id}, op.later, op.saved)
      else a == Found(false) && Untouched(t, s)
  {
    PrunedOnlyPrunes(s.records - {op.id}, op.later);
  }

  /** A logout takes its session out of memory if it is there, live or not and whoever's, and errs
      exactly if it then cannot save, or the registry could not be loaded. */
  lemma EndedExactly(s: State, op: Op, p: Policy)
    requires op.End?
    ensures var (t, a) := Next(s, op, p);
      if op.id == "" then a == Done && Untouched(t, s)
      else if s.loadErr.Some? then a == Failed(LoadFailed(s.loadErr.value)) && Untouched(t, s)
      else if op.id in s.records then
        && a == (if op.saved then Done else Failed(SaveFailed))
        && Stores(t, s, s.records - {op.id}, op.later, op.saved)
      else a == Done && Untouched(t, s)
  {
    PrunedOnlyPrunes(s.records - {op.id}, op.later);
  }

  /** A new process has the records of the file, pruned, and none if there is no file; and it fails closed
      exactly if there is one that cannot be read or decoded. It rewrites the file pruned, or leaves it. */
  lemma RestartedExactly(s: State, op: Op, p: Policy)
    requires op.Restart? && op.now <= op.later
    ensures var t := Next(s, op, p).0;
      && (t.loadErr.None? <==> s.file.Missing? || (op.readable && s.file.Saved?))
      && (t.loadErr.None? && s.file.Missing? ==> t.records == map[] && t.file.Missing?)
      && (t.loadErr.None? && s.file.Saved? ==>
            && t.file == (if op.saved then Saved(t.records) else s.file)
            && if OnlyPrunes(s.file.records, s.file.records, op.now) then t.records == s.file.records
               else OnlyPrunes(t.records, s.file.records, op.later))
      && (t.loadErr.Some? ==>
            t.records == map[] && t.file == s.file && t.loadErr.value == if op.readable then Corrupt else Unreadable)
  {
    if s.file.Saved? {
      PrunedOnlyPrunes(s.file.records, op.now);
      PrunedOnlyPrunes(Pruned(s.file.records, op.now), op.later);
      PrunedOnlyPrunes(s.file.records, op.later);
    }
  }

  // ---------------------------------------------------------------- no resurrection

  function FileRecords(f: File): Records {
    if f.Saved? then f.records else map[]
  }

  ghost predicate DeadIn(m: Records, id: string, now: Time) {
    id in m ==> !Live(m[id], now)
  }

  /** Neither the process nor the file can answer for id any more. */
  ghost predicate Gone(s: State, id: string) {
    (s.loadErr.None? ==> DeadIn(s.records, id, s.clock)) && DeadIn(FileRecords(s.file), id, s.clock)
  }

  ghost predicate Creates(op: Op, id: string) {
    op.Create? && op.rec.id == id
  }

  ghost predicate Missed(a: Answer) {
    a.Miss? || a.Failed?
  }

  lemma GoneIsMissed(s: State, op: Op, id: string, p: Policy)
    requires Gone(s, id) && Timely(s, op)
    ensures op.Lookup? && op.id == id ==> Missed(Next(s, op, p).1)
    ensures op.Renew? && op.id == id ==> Missed(Next(s, op, p).1)
    ensures op.Revoke? && op.id == id ==> Next(s, op, p).1 != Found(true)
  {
  }

  lemma NextKeepsGone(s: State, op: Op, id: string, p: Policy)
    requires Gone(s, id) && Timely(s, op) && !Creates(op, id)
    ensures Gone(Next(s, op, p).0, id)
  {
  }

  /** A session that is gone stays gone through every operation, failed save and restart, until
      that id is created again: each lookup and renewal of it misses or is refused. */
  lemma {:induction false} NoResurrection(s: State, ops: seq<Op>, p: Policy, end: State, id: string, probe: Op)
    requires Gone(s, id) && Runs(s, ops, p, end)
    requires forall i :: 0 <= i < |ops| ==> !Creates(ops[i], id)
    requires (probe.Lookup? || probe.Renew?) && probe.id == id && Timely(end, probe)
    ensures Gone(end, id)
    ensures Missed(Next(end, probe, p).1) && Next(end, probe, p).0.file == end.file
    decreases |ops|
  {
    if ops == [] {
      GoneIsMissed(end, probe, id, p);
    } else {
      NextKeepsGone(s, ops[0], id, p);
      NoResurrection(Next(s, ops[0], p).0, ops[1..], p, end, id, probe);
    }
  }

  /** A Revoke that answered true leaves nothing behind, in memory or in the file. */
  lemma RevokedIsGone(s: State, op: Op, p: Policy)
    requires op.Revoke? && Next(s, op, p).1 == Found(true)
    ensures Gone(Next(s, op, p).0, op.id)
  {
  }

  /** Ids dropped from memory whose removal has not reached the file. */
  function LimboAfter(s: State, op: Op, p: Policy, limbo: set<string>): set<string> {
    var t := Next(s, op, p).0;
    if op.Restart? || t.file == Saved(t.records) then {}
    else if (op.End? || op.Revoke?) && op.id in s.records && op.id !in t.records then limbo + {op.id}
    else limbo
  }

  /** Session ids are random: a new sign-in's id is in use nowhere. */
  ghost predicate Fresh(s: State, op: Op, limbo: set<string>) {
    op.Create? ==> op.rec.id !in s.records && op.rec.id !in FileRecords(s.file) && op.rec.id !in limbo
  }

  /** The file never promises a session more than memory does. */
  ghost predicate Ahead(s: State, limbo: set<string>) {
    s.loadErr.None? ==>
      && limbo !! s.records.Keys
      && forall id :: id in FileRecords(s.file) && Live(FileRecords(s.file)[id], s.clock) && id !in limbo ==>
           id in s.records && FileRecords(s.file)[id].expiresAt <= s.records[id].expiresAt
  }

  ghost predicate FreshRuns(s: State, ops: seq<Op>, p: Policy, limbo: set<string>, end: State)
    decreases |ops|
  {
    if ops == [] then end == s
    else
      && Timely(s, ops[0]) && Fresh(s, ops[0], limbo)
      && FreshRuns(Next(s, ops[0], p).0, ops[1..], p, LimboAfter(s, ops[0], p, limbo), end)
  }

  lemma CreateKeepsAhead(s: State, op: Op, p: Policy, limbo: set<string>)
    requires op.Create? && Ahead(s, limbo) && Timely(s, op) && Fresh(s, op, limbo)
    ensures Ahead(Next(s, op, p).0, LimboAfter(s, op, p, limbo))
  {
  }

  lemma LookupKeepsAhead(s: State, op: Op, p: Policy, limbo: set<string>)
    requires op.Lookup? && Ahead(s, limbo) && Timely(s, op)
    ensures Ahead(Next(s, op, p).0, LimboAfter(s, op, p, limbo))
  {
  }

  lemma RenewKeepsAhead(s: State, op: Op, p: Policy, limbo: set<string>)
    requires op.Renew? && Ahead(s, limbo) && Timely(s, op)
    ensures Ahead(Next(s, op, p).0, LimboAfter(s, op, p, limbo))
  {
  }

  lemma RevokeKeepsAhead(s: State, op: Op, p: Policy, limbo: set<string>)
    requires op.Revoke? && Ahead(s, limbo) && Timely(s, op)
    ensures Ahead(Next(s, op, p).0, LimboAfter(s, op, p, limbo))
  {
  }

  lemma EndKeepsAhead(s: State, op: Op, p: Policy, limbo: set<string>)
    requires op.End? && Ahead(s, limbo) && Timely(s, op)
    ensures Ahead(Next(s, op, p).0, LimboAfter(s, op, p, limbo))
  {
  }

  lemma RestartKeepsAhead(s: State, op: Op, p: Policy, limbo: set<string>)
    requires op.Restart? && Ahead(s, limbo) && Timely(s, op)
    ensures Ahead(Next(s, op, p).0, LimboAfter(s, op, p, limbo))
  {
  }

  lemma NextKeepsAhead(s: State, op: Op, p: Policy, limbo: set<string>)
    requires Ahead(s, limbo) && Timely(s, op) && Fresh(s, op, limbo)
    ensures Ahead(Next(s, op, p).0, LimboAfter(s, op, p, limbo))
  {
    if op.Create? {
      CreateKeepsAhead(s, op, p, limbo);
    } else if op.Lookup? {
      LookupKeepsAhead(s, op, p, limbo);
    } else if op.Renew? {
      RenewKeepsAhead(s, op, p, limbo);
    } else if op.Revoke? {
      RevokeKeepsAhead(s, op, p, limbo);
    } else if op.End? {
      EndKeepsAhead(s, op, p, limbo);
    } else {
      RestartKeepsAhead(s, op, p, limbo);
    }
  }

  lemma {:induction false} RunKeepsAhead(s: State, ops: seq<Op>, p: Policy, limbo: set<string>, end: State)
    returns (left: set<string>)
    requires Ahead(s, limbo) && FreshRuns(s, ops, p, limbo, end)
    ensures Ahead(end, left)
    decreases |ops|
  {
    if ops == [] {
      left := limbo;
    } else {
      NextKeepsAhead(s, ops[0], p, limbo);
      left := RunKeepsAhead(Next(s, ops[0], p).0, ops[1..], p, LimboAfter(s, ops[0], p, limbo), end);
    }
  }

  function Boot(now: Time): State {
    State(map[], None, Missing, now)
  }

  /** The expiry an operation gives the session, if it gives one: a login as it registers it, or a
      renewal, whether or not its own save then prunes or loses the record. */
  function Granted(s: State, op: Op, p: Policy, id: string): Option<Time> {
    if s.loadErr.Some? then None
    else
      match op
      case Create(rec, now, _, _) =>
        if rec.id == id && id != "" && rec.subject != "" && rec.expiresAt != 0 then
          Some(Admitted(rec, now, p).expiresAt)
        else None
      case Renew(renewed, now, _, _) =>
        if renewed == id && id != "" && id in s.records && Live(s.records[id], now)
          && now - s.records[id].lastSeen >= TOUCH_INTERVAL then Some(Renewed(s.records[id], now, p).expiresAt)
        else None
      case _ => None
  }

  /** No expiry the run has given the session is after the moment. */
  ghost predicate AllLapsed(s: State, ops: seq<Op>, p: Policy, id: string, moment: Time)
    decreases |ops|
  {
    ops == [] ||
    ((var e := Granted(s, ops[0], p, id); e.None? || e.value <= moment)
     && AllLapsed(Next(s, ops[0], p).0, ops[1..], p, id, moment))
  }

  /** Neither the process nor the file has the session end after the moment. */
  ghost predicate EndsBy(s: State, id: string, moment: Time) {
    && (id in s.records ==> s.records[id].expiresAt <= moment)
    && (id in FileRecords(s.file) ==> FileRecords(s.file)[id].expiresAt <= moment)
  }

  lemma NextKeepsEnd(s: State, op: Op, p: Policy, id: string, moment: Time)
    requires EndsBy(s, id, moment) && (var e := Granted(s, op, p, id); e.None? || e.value <= moment)
    ensures EndsBy(Next(s, op, p).0, id, moment)
  {
  }

  lemma {:induction false} RunKeepsEnd(s: State, ops: seq<Op>, p: Policy, end: State, id: string, moment: Time)
    requires EndsBy(s, id, moment) && Runs(s, ops, p, end) && AllLapsed(s, ops, p, id, moment)
    ensures EndsBy(end, id, moment)
    decreases |ops|
  {
    if ops != [] {
      NextKeepsEnd(s, ops[0], p, id, moment);
      RunKeepsEnd(Next(s, ops[0], p).0, ops[1..], p, end, id, moment);
    }
  }

  /** A session whose last expiry has passed is gone for good, whether its record is still there, or
      was dropped by a prune, in the very operation that stored it even, or lost to a restart. */
  lemma LapsedIsGone(start: Time, ops: seq<Op>, p: Policy, s: State, id: string)
    requires Runs(Boot(start), ops, p, s) && AllLapsed(Boot(start), ops, p, id, s.clock)
    ensures Gone(s, id)
  {
    RunKeepsEnd(Boot(start), ops, p, s, id, s.clock);
  }

  lemma {:induction false} FreshRunsRun(s: State, ops: seq<Op>, p: Policy, limbo: set<string>, end: State)
    requires FreshRuns(s, ops, p, limbo, end)
    ensures Runs(s, ops, p, end)
    decreases |ops|
  {
    if ops != [] {
      FreshRunsRun(Next(s, ops[0], p).0, ops[1..], p, LimboAfter(s, ops[0], p, limbo), end);
    }
  }

  /** A session that has expired is gone for good: after any run of sign-ins under new ids,
      lookups, renewals, revocations, logouts and restarts, with every save free to fail, once its
      record in memory has expired or every expiry it was ever given has passed. */
  lemma ExpiredIsGone(start: Time, ops: seq<Op>, p: Policy, s: State, id: string)
    requires FreshRuns(Boot(start), ops, p, {}, s)
    requires
      || (s.loadErr.None? && id in s.records && !Live(s.records[id], s.clock))
      || AllLapsed(Boot(start), ops, p, id, s.clock)
    ensures Gone(s, id)
  {
    var left := RunKeepsAhead(Boot(start), ops, p, {}, s);
    if AllLapsed(Boot(start), ops, p, id, s.clock) {
      FreshRunsRun(Boot(start), ops, p, {}, s);
      LapsedIsGone(start, ops, p, s, id);
    }
  }

  // ---------------------------------------------------------------- logout

  /** The operation got as far as saving, and the save worked. */
  predicate Wrote(s: State, op: Op, p: Policy) {
    s.loadErr.None? &&
    match op
    case Create(rec, _, _, saved) => saved && rec.id != "" && rec.subject != "" && rec.expiresAt != 0
    case Lookup(_, _) => false
    case Renew(id, now, _, saved) =>
      saved && id != "" && id in s.records && Live(s.records[id], now) && now - s.records[id].lastSeen >= TOUCH_INTERVAL
    case Revoke(id, subject, now, _, saved) =>
      saved && id != "" && subject != "" && id in s.records && s.records[id].subject == subject
        && Live(s.records[id], now)
    case End(id, _, saved) => saved && id != "" && id in s.records
    case Restart(_, _, _, _) => false
  }

  ghost predicate SomeSave(s: State, ops: seq<Op>, p: Policy)
    decreases |ops|
  {
    ops != [] && (Wrote(s, ops[0], p) || SomeSave(Next(s, ops[0], p).0, ops[1..], p))
  }

  /** One process's work after the logout: no restart, and the id not created again. */
  ghost predicate SameProcess(ops: seq<Op>, id: string) {
    forall i :: 0 <= i < |ops| ==> !ops[i].Restart? && !Creates(ops[i], id)
  }

  /** The process no longer knows the id. */
  ghost predicate Forgotten(s: State, id: string) {
    s.loadErr.None? && id !in s.records
  }

  lemma NextKeepsForgotten(s: State, op: Op, id: string, p: Policy)
    requires Forgotten(s, id) && !op.Restart? && !Creates(op, id)
    ensures Forgotten(Next(s, op, p).0, id)
    ensures if Wrote(s, op, p) then id !in FileRecords(Next(s, op, p).0.file) else Next(s, op, p).0.file == s.file
  {
  }

  /** Until the process ends an ended id misses, whether its logout was saved or not; and the file
      still holds it exactly if it did before and no save since has worked. */
  lemma {:induction false} ForgottenRun(s: State, ops: seq<Op>, p: Policy, end: State, id: string)
    requires Forgotten(s, id) && Runs(s, ops, p, end) && SameProcess(ops, id)
    ensures Forgotten(end, id)
    ensures if SomeSave(s, ops, p) then id !in FileRecords(end.file) else end.file == s.file
    decreases |ops|
  {
    if ops != [] {
      assert !ops[0].Restart? && !Creates(ops[0], id);
      NextKeepsForgotten(s, ops[0], id, p);
      assert SameProcess(ops[1..], id);
      ForgottenRun(Next(s, ops[0], p).0, ops[1..], p, end, id);
      if Wrote(s, ops[0], p) && !SomeSave(Next(s, ops[0], p).0, ops[1..], p) {
        assert end.file == Next(s, ops[0], p).0.file;
      }
    }
  }

  /** So an ended session misses in every later run of the process, saved or not. */
  lemma EndedMisses(s: State, op: Op, ops: seq<Op>, p: Policy, end: State, probe: Op)
    requires op.End? && op.id != "" && s.loadErr.None?
    requires Runs(Next(s, op, p).0, ops, p, end) && SameProcess(ops, op.id)
    requires (probe.Lookup? || probe.Renew?) && probe.id == op.id
    ensures Next(end, probe, p).1 == Miss
  {
    ForgottenRun(Next(s, op, p).0, ops, p, end, op.id);
  }

  lemma RestartReadsTheFile(s: State, restart: Op, p: Policy, id: string, now: Time)
    requires restart.Restart? && restart.readable && id != ""
    requires var t := Next(s, restart, p).0; restart.now <= restart.later && t.clock <= now
    ensures Next(Next(s, restart, p).0, Lookup(id, now), p).1.Hit? <==>
      id in FileRecords(s.file) && now < FileRecords(s.file)[id].expiresAt
  {
  }

  /** Logout is final exactly when it reached the file in time. After it, whatever the process
      does, and a restart, the session answers again if and only if neither the logout's save nor
      any later one worked before the restart, and the file's copy has not expired. */
  lemma LogoutIsFinalExactlyWhenSaved(s: State, op: Op, ops: seq<Op>, p: Policy, end: State, restart: Op, now: Time)
    requires op.End? && op.id != "" && s.loadErr.None? && op.id in s.records
    requires Runs(Next(s, op, p).0, ops, p, end) && SameProcess(ops, op.id)
    requires restart.Restart? && restart.readable && Timely(end, restart) && Next(end, restart, p).0.clock <= now
    ensures Next(Next(end, restart, p).0, Lookup(op.id, now), p).1.Hit? <==>
      && !op.saved && !SomeSave(Next(s, op, p).0, ops, p)
      && op.id in FileRecords(s.file) && now < FileRecords(s.file)[op.id].expiresAt
  {
    ForgottenRun(Next(s, op, p).0, ops, p, end, op.id);
    RestartReadsTheFile(end, restart, p, op.id, now);
  }

  /** The failing side is real under every policy: a logout whose save fails, then a second logout
      that reports success without writing anything, then a restart, and the session is live. */
  lemma UnsavedLogoutComesBack(p: Policy) returns (ops: seq<Op>, end: State)
    ensures FreshRuns(Boot(1), ops, p, {}, end)
    ensures |ops| == 4 && ops[1].End? && ops[2].End? && ops[1].id == ops[2].id == "s"
    ensures forall i :: 1 <= i < |ops| ==> !Creates(ops[i], "s")
    ensures Next(end, Lookup("s", 1), p).1.Hit?
  {
    var rec := Record("s", "alice", "", "", 0, 0, 100);
    var o0, o1, o2, o3 := Create(rec, 1, 1, true), End("s", 1, false), End("s", 1, false), Restart(true, 1, 1, false);
    ops := [o0, o1, o2, o3];
    var s0 := Boot(1);
    var stored := Admitted(rec, 1, p);
    assert Live(stored, 1);
    var s1 := Next(s0, o0, p).0;
    assert s1.records == map["s" := stored] && s1.file == Saved(map["s" := stored]);
    var s2 := Next(s1, o1, p).0;
    assert s2.records == map[] && Next(s1, o1, p).1 == Failed(SaveFailed);
    var s3 := Next(s2, o2, p).0;
    assert s3 == s2 && Next(s2, o2, p).1 == Done;
    end := Next(s3, o3, p).0;
    assert end.records == map["s" := stored];
    FreshRunOfFour(s0, o0, o1, o2, o3, p, {}, end);
  }

  lemma FreshRunOfFour(s: State, o0: Op, o1: Op, o2: Op, o3: Op, p: Policy, l0: set<string>, end: State)
    requires var s1 := Next(s, o0, p).0; var s2 := Next(s1, o1, p).0; var s3 := Next(s2, o2, p).0;
      var l1 := LimboAfter(s, o0, p, l0); var l2 := LimboAfter(s1, o1, p, l1); var l3 := LimboAfter(s2, o2, p, l2);
      && Timely(s, o0) && Timely(s1, o1) && Timely(s2, o2) && Timely(s3, o3) && end == Next(s3, o3, p).0
      && Fresh(s, o0, l0) && Fresh(s1, o1, l1) && Fresh(s2, o2, l2) && Fresh(s3, o3, l3)
    ensures FreshRuns(s, [o0, o1, o2, o3], p, l0, end)
  {
    var s1 := Next(s, o0, p).0;
    var s2 := Next(s1, o1, p).0;
    var s3 := Next(s2, o2, p).0;
    var l1 := LimboAfter(s, o0, p, l0);
    var l2 := LimboAfter(s1, o1, p, l1);
    var l3 := LimboAfter(s2, o2, p, l2);
    assert FreshRuns(end, [], p, LimboAfter(s3, o3, p, l3), end);
    FreshRunStep(s3, o3, [], p, l3, end);
    FreshRunStep(s2, o2, [o3], p, l2, end);
    FreshRunStep(s1, o1, [o2, o3], p, l1, end);
    FreshRunStep(s, o0, [o1, o2, o3], p, l0, end);
    OneByOne(o0, o1, o2, o3);
  }

  lemma OneByOne(o0: Op, o1: Op, o2: Op, o3: Op)
    ensures [o3] + [] == [o3] && [o2] + [o3] == [o2, o3]
    ensures [o1] + [o2, o3] == [o1, o2, o3]
    ensures [o0] + [o1, o2, o3] == [o0, o1, o2, o3]
  {
  }

  lemma FreshRunStep(s: State, op: Op, ops: seq<Op>, p: Policy, limbo: set<string>, end: State)
    requires Timely(s, op) && Fresh(s, op, limbo)
    requires FreshRuns(Next(s, op, p).0, ops, p, LimboAfter(s, op, p, limbo), end)
    ensures FreshRuns(s, [op] + ops, p, limbo, end)
  {
    assert ([op] + ops)[1..] == ops;
  }

  // ---------------------------------------------------------------- sliding expiry

  function Min(a: int, b: int): int {
    if a <= b then a else b
  }

  /** The closed form the sliding window is meant to keep; a policy need not have a cap. */
  function Target(rec: Record, p: Policy): Time {
    if p.maxLifetime > 0 then Min(rec.createdAt + p.maxLifetime, rec.lastSeen + p.idleTTL)
    else rec.lastSeen + p.idleTTL
  }

  predicate Sliding(p: Policy) {
    p.idleTTL > 0
  }

  /** Before the cap of a session created then, if there is one. */
  predicate BeforeCap(created: Time, now: Time, p: Policy) {
    p.maxLifetime > 0 ==> now < created + p.maxLifetime
  }

  /** The expiry a login computes from its own, earlier, reading of the clock. */
  function LoginExpiry(issued: Time, p: Policy): Time {
    if p.maxLifetime > 0 && p.idleTTL > p.maxLifetime then issued + p.maxLifetime else issued + p.idleTTL
  }

  /** A record trails its closed form by no more than delay, and not at all once renewed. */
  ghost predicate OnTarget(rec: Record, p: Policy, delay: Time) {
    && 0 < rec.createdAt <= rec.lastSeen
    && Target(rec, p) - delay <= rec.expiresAt <= Target(rec, p)
    && (rec.lastSeen > rec.createdAt ==> rec.expiresAt == Target(rec, p))
  }

  ghost predicate AllOnTarget(m: Records, p: Policy, delay: Time) {
    forall id :: id in m ==> OnTarget(m[id], p, delay)
  }

  /** The record a login hands to Create: dated from the login's own reading of the clock,
      which the registry's follows by at most delay. */
  ghost predicate LoginRule(op: Op, issued: Time, p: Policy, delay: Time) {
    op.Create? ==>
      && 0 < issued <= op.now <= issued + delay
      && op.rec.createdAt == 0 && op.rec.lastSeen == 0 && op.rec.expiresAt == LoginExpiry(issued, p)
  }

  /** At login the record trails the closed form by exactly the registration delay, so it meets
      it exactly when both clock readings agree. */
  lemma LoginLag(rec: Record, issued: Time, now: Time, p: Policy)
    requires Sliding(p) && 0 < issued <= now
    requires rec.createdAt == 0 && rec.lastSeen == 0 && rec.expiresAt == LoginExpiry(issued, p)
    ensures var r := Admitted(rec, now, p);
            && OnTarget(r, p, now - issued) && r.createdAt == now && r.lastSeen == now
            && r.expiresAt == LoginExpiry(issued, p) == Target(r, p) - (now - issued)
            && (r.expiresAt == Target(r, p) <==> issued == now)
  {
  }

  /** A renewal that the throttle lets through lands exactly on the closed form, never moves
      the expiry back and never past the cap. */
  lemma RenewalHitsTarget(rec: Record, now: Time, p: Policy, delay: Time)
    requires Sliding(p) && OnTarget(rec, p, delay) && delay >= 0 && now >= rec.lastSeen + TOUCH_INTERVAL
    ensures var r := Renewed(rec, now, p);
            && OnTarget(r, p, delay) && r.expiresAt == Target(r, p) && r.lastSeen == now
            && rec.expiresAt <= r.expiresAt && (p.maxLifetime > 0 ==> r.expiresAt <= r.createdAt + p.maxLifetime)
            && r == rec.(lastSeen := now, expiresAt := r.expiresAt)
  {
  }

  ghost predicate LoginRuns(s: State, ops: seq<Op>, issued: seq<Time>, p: Policy, delay: Time, end: State)
    requires |issued| == |ops|
    decreases |ops|
  {
    if ops == [] then end == s
    else
      && Timely(s, ops[0]) && LoginRule(ops[0], issued[0], p, delay)
      && LoginRuns(Next(s, ops[0], p).0, ops[1..], issued[1..], p, delay, end)
  }

  lemma NextKeepsTarget(s: State, op: Op, issued: Time, p: Policy, delay: Time)
    requires Sliding(p) && delay >= 0 && Timely(s, op) && LoginRule(op, issued, p, delay)
    requires AllOnTarget(s.records, p, delay) && AllOnTarget(FileRecords(s.file), p, delay)
    ensures var t := Next(s, op, p).0; AllOnTarget(t.records, p, delay) && AllOnTarget(FileRecords(t.file), p, delay)
  {
    match op
    case Create(rec, now, _, _) => LoginLag(rec, issued, now, p);
    case Renew(id, now, _, _) =>
      if id in s.records && now - s.records[id].lastSeen >= TOUCH_INTERVAL {
        RenewalHitsTarget(s.records[id], now, p, delay);
      }
    case _ =>
  }

  /** Sliding expiry over whole runs, restarts included: every record in memory and in the file
      expires at min(createdAt + maxLifetime, lastSeen + idleTTL), or lastSeen + idleTTL without a
      cap, except that one not yet renewed may trail it by its login's registration delay. With no delay the closed
      form is exact everywhere. */
  lemma {:induction false} SlidingExpiry(s: State, ops: seq<Op>, issued: seq<Time>, p: Policy, delay: Time, end: State)
    requires |issued| == |ops| && Sliding(p) && delay >= 0 && LoginRuns(s, ops, issued, p, delay, end)
    requires AllOnTarget(s.records, p, delay) && AllOnTarget(FileRecords(s.file), p, delay)
    ensures AllOnTarget(end.records, p, delay) && AllOnTarget(FileRecords(end.file), p, delay)
    ensures delay == 0 ==> forall id :: id in end.records ==> end.records[id].expiresAt == Target(end.records[id], p)
    decreases |ops|
  {
    if ops != [] {
      NextKeepsTarget(s, ops[0], issued[0], p, delay);
      SlidingExpiry(Next(s, ops[0], p).0, ops[1..], issued[1..], p, delay, end);
    }
  }

  // ---------------------------------------------------------------- a session in use

  /** Nothing in the run ends id, creates it again or restarts the process. */
  ghost predicate Undisturbed(ops: seq<Op>, id: string) {
    forall i :: 0 <= i < |ops| ==>
      !Creates(ops[i], id) && !ops[i].Restart? && !(ops[i].End? && ops[i].id == id)
        && !(ops[i].Revoke? && ops[i].id == id)
  }

  /** Every use of id, the probe included, comes within gap of the one before. */
  ghost predicate Regular(ops: seq<Op>, id: string, last: Time, gap: Time, probe: Time)
    decreases |ops|
  {
    if ops == [] then probe <= last + gap
    else if ops[0].Renew? && ops[0].id == id then
      ops[0].now <= last + gap && Regular(ops[1..], id, ops[0].now, gap, probe)
    else Regular(ops[1..], id, last, gap, probe)
  }

  /** The record still reflects its last use, up to the throttle. */
  ghost predicate Warm(s: State, id: string, last: Time, p: Policy, delay: Time) {
    && s.loadErr.None? && id in s.records && id != "" && OnTarget(s.records[id], p, delay)
    && last < s.records[id].lastSeen + TOUCH_INTERVAL
  }

  lemma {:induction false} ReadingsBeforeNextUse(s: State, ops: seq<Op>, p: Policy, end: State, id: string, last: Time,
                                                 gap: Time, probe: Time)
    requires Runs(s, ops, p, end) && end.clock <= probe && Regular(ops, id, last, gap, probe)
    ensures s.clock <= last + gap && s.clock <= probe
    decreases |ops|
  {
    if ops != [] {
      var t := Next(s, ops[0], p).0;
      assert s.clock <= t.clock;
      var last' := if ops[0].Renew? && ops[0].id == id then ops[0].now else last;
      ReadingsBeforeNextUse(t, ops[1..], p, end, id, last', gap, probe);
    }
  }

  lemma NextKeepsWarm(s: State, op: Op, id: string, last: Time, p: Policy, delay: Time)
    requires Sliding(p) && delay >= 0 && Warm(s, id, last, p, delay) && Timely(s, op) && Undisturbed([op], id)
    requires last <= s.clock
    requires op.Renew? && op.id == id ==> op.now <= last + p.idleTTL - TOUCH_INTERVAL - delay
    requires var t := Next(s, op, p).0;
             && BeforeCap(s.records[id].createdAt - delay, t.clock, p)
             && t.clock <= (if op.Renew? && op.id == id then op.now else last) + p.idleTTL - TOUCH_INTERVAL - delay
    ensures Warm(Next(s, op, p).0, id, if op.Renew? && op.id == id then op.now else last, p, delay)
    ensures Next(s, op, p).0.records[id].createdAt == s.records[id].createdAt
    ensures op.Renew? && op.id == id ==> Next(s, op, p).1.Hit?
  {
    assert op == [op][0];
    if op.Renew? && op.id == id && op.now - s.records[id].lastSeen >= TOUCH_INTERVAL {
      RenewalHitsTarget(s.records[id], op.now, p, delay);
    }
  }

  /** A session used at gaps of at most idleTTL - TOUCH_INTERVAL (less the registration delay of
      its login) stays live until its cap, whatever else the registry does meanwhile. */
  lemma {:induction false} UsedSessionStaysLive(s: State, ops: seq<Op>, p: Policy, end: State, id: string, last: Time,
                                                delay: Time, probe: Op)
    requires Sliding(p) && delay >= 0 && Warm(s, id, last, p, delay) && Runs(s, ops, p, end) && Undisturbed(ops, id)
    requires probe.Renew? && probe.id == id && Timely(end, probe)
    requires Regular(ops, id, last, p.idleTTL - TOUCH_INTERVAL - delay, probe.now)
    requires last <= s.clock && BeforeCap(s.records[id].createdAt - delay, probe.now, p)
    ensures Next(end, probe, p).1.Hit?
    decreases |ops|
  {
    var gap := p.idleTTL - TOUCH_INTERVAL - delay;
    ReadingsBeforeNextUse(s, ops, p, end, id, last, gap, probe.now);
    if ops != [] {
      var op := ops[0];
      var t := Next(s, op, p).0;
      var last' := if op.Renew? && op.id == id then op.now else last;
      ReadingsBeforeNextUse(t, ops[1..], p, end, id, last', gap, probe.now);
      assert op == ops[0] && Undisturbed([op], id);
      NextKeepsWarm(s, op, id, last, p, delay);
      UsedSessionStaysLive(t, ops[1..], p, end, id, last', delay, probe);
    }
  }

  /** A login that the registry accepted starts the session warm, from the login's own reading. */
  lemma LoginStartsWarm(s: State, op: Op, issued: Time, p: Policy, delay: Time)
    requires Sliding(p) && Timely(s, op) && op.Create? && LoginRule(op, issued, p, delay)
    requires s.loadErr.None? && op.rec.id != "" && op.rec.subject != "" && op.later < op.rec.expiresAt
    ensures Warm(Next(s, op, p).0, op.rec.id, issued, p, delay)
  {
    LoginLag(op.rec, issued, op.now, p);
  }

  // ---------------------------------------------------------------- how far apart uses may be

  /** A login, registered at most delay after it, and from then on nothing but uses of the session
      at most gap apart, the probe the last of them, all before the cap. */
  ghost predicate RegularSession(s: State, op: Op, issued: Time, ops: seq<Op>, end: State, probe: Op,
                                 p: Policy, delay: Time, gap: Time)
  {
    && Timely(s, op) && op.Create? && LoginRule(op, issued, p, delay)
    && s.loadErr.None? && op.rec.id != "" && op.rec.subject != ""
    && Runs(Next(s, op, p).0, ops, p, end) && Undisturbed(ops, op.rec.id)
    && probe.Renew? && probe.id == op.rec.id && Timely(end, probe)
    && Regular(ops, op.rec.id, issued, gap, probe.now) && BeforeCap(issued, probe.now, p)
  }

  /** Every such session is still there at every such use. */
  ghost predicate RegularSessionsSurvive(p: Policy, delay: Time, gap: Time) {
    forall s, op, issued, ops, end, probe :: RegularSession(s, op, issued, ops, end, probe, p, delay, gap) ==>
      Next(end, probe, p).1.Hit?
  }

  lemma RegularSessionSurvives(s: State, op: Op, issued: Time, ops: seq<Op>, end: State, probe: Op,
                               p: Policy, delay: Time, gap: Time)
    requires Sliding(p) && gap > 0 && gap + Min(delay, gap) + TOUCH_INTERVAL <= p.idleTTL
    requires RegularSession(s, op, issued, ops, end, probe, p, delay, gap)
    ensures Next(end, probe, p).1.Hit?
  {
    var t := Next(s, op, p).0;
    var lag := op.now - issued;
    ReadingsBeforeNextUse(t, ops, p, end, probe.id, issued, gap, probe.now);
    LoginStartsWarm(s, op, issued, p, lag);
    LoginLag(op.rec, issued, op.now, p);
    RegularWithin(ops, probe.id, issued, gap, p.idleTTL - TOUCH_INTERVAL - lag, probe.now);
    UsedSessionStaysLive(t, ops, p, end, probe.id, issued, lag, probe);
  }

  lemma {:induction false} RegularWithin(ops: seq<Op>, id: string, last: Time, gap: Time, wider: Time, probe: Time)
    requires Regular(ops, id, last, gap, probe) && gap <= wider
    ensures Regular(ops, id, last, wider, probe)
    decreases |ops|
  {
    if ops != [] {
      var next := if ops[0].Renew? && ops[0].id == id then ops[0].now else last;
      RegularWithin(ops[1..], id, next, gap, wider, probe);
    }
  }

  // An idle window as long as the cap: the login's own expiry is the cap.

  ghost predicate LastsUntil(s: State, id: string, until: Time) {
    s.loadErr.None? && id in s.records && s.records[id].expiresAt >= until
  }

  lemma NextKeepsLasting(s: State, op: Op, id: string, until: Time, p: Policy)
    requires LastsUntil(s, id, until) && Timely(s, op) && Undisturbed([op], id) && Next(s, op, p).0.clock < until
    ensures LastsUntil(Next(s, op, p).0, id, until)
  {
    assert op == [op][0];
  }

  lemma {:induction false} RunKeepsLasting(s: State, ops: seq<Op>, id: string, until: Time, p: Policy, end: State)
    requires LastsUntil(s, id, until) && Runs(s, ops, p, end) && Undisturbed(ops, id) && end.clock < until
    ensures LastsUntil(end, id, until)
    decreases |ops|
  {
    if ops != [] {
      var t := Next(s, ops[0], p).0;
      ClockGrows(t, ops[1..], p, end);
      assert ops[0] in ops && Undisturbed([ops[0]], id) && Undisturbed(ops[1..], id);
      NextKeepsLasting(s, ops[0], id, until, p);
      RunKeepsLasting(t, ops[1..], id, until, p, end);
    }
  }

  lemma {:induction false} ClockGrows(s: State, ops: seq<Op>, p: Policy, end: State)
    requires Runs(s, ops, p, end)
    ensures s.clock <= end.clock
    decreases |ops|
  {
    if ops != [] {
      ClockGrows(Next(s, ops[0], p).0, ops[1..], p, end);
    }
  }

  lemma CappedWindowSurvives(s: State, op: Op, issued: Time, ops: seq<Op>, end: State, probe: Op,
                             p: Policy, delay: Time, gap: Time)
    requires 0 < p.maxLifetime <= p.idleTTL && RegularSession(s, op, issued, ops, end, probe, p, delay, gap)
    ensures Next(end, probe, p).1.Hit?
  {
    var t := Next(s, op, p).0;
    ClockGrows(t, ops, p, end);
    assert LastsUntil(t, probe.id, issued + p.maxLifetime);
    RunKeepsLasting(t, ops, probe.id, issued + p.maxLifetime, p, end);
  }

  // Uses too far apart: every nanosecond while the throttle holds them off, and then one gap on.

  function Uses(id: string, first: Time, final: Time): seq<Op>
    decreases final - first
  {
    if first > final then [] else [Renew(id, first, first, false)] + Uses(id, first + 1, final)
  }

  lemma {:induction false} ThrottledUses(s: State, id: string, first: Time, final: Time, p: Policy, last: Time,
                                         gap: Time, probe: Time)
    requires s.loadErr.None? && id != "" && id in s.records && s.clock <= first <= final + 1
    requires final < s.records[id].expiresAt && final < s.records[id].lastSeen + TOUCH_INTERVAL
    requires gap > 0 && first <= last + gap
    requires probe <= (if first > final then last else final) + gap
    ensures Runs(s, Uses(id, first, final), p, if first > final then s else s.(clock := final))
    ensures Regular(Uses(id, first, final), id, last, gap, probe) && Undisturbed(Uses(id, first, final), id)
    decreases final - first
  {
    if first <= final {
      var use := Renew(id, first, first, false);
      var t := Next(s, use, p).0;
      assert t == s.(clock := first);
      ThrottledUses(t, id, first + 1, final, p, first, gap, probe);
      assert Uses(id, first, final)[1..] == Uses(id, first + 1, final);
    }
  }

  /** The session that is lost: registered as late as may be, used every nanosecond until the
      throttle is about to let a renewal through or the idle window to end, and then at its end. */
  lemma LateUseLosesIt(p: Policy, delay: Time, gap: Time)
    returns (s: State, op: Op, issued: Time, ops: seq<Op>, end: State, probe: Op)
    requires Sliding(p) && delay >= 0 && gap > 0 && !(0 < p.maxLifetime <= p.idleTTL)
    requires gap + Min(delay, gap) + TOUCH_INTERVAL > p.idleTTL
    ensures RegularSession(s, op, issued, ops, end, probe, p, delay, gap) && !Next(end, probe, p).1.Hit?
  {
    issued := 1;
    var lag := if gap >= p.idleTTL then 0 else Min(delay, gap);
    var rec := Record("s", "alice", "", "", 0, 0, LoginExpiry(issued, p));
    op := Create(rec, issued + lag, issued + lag, false);
    s := Boot(0);
    var stored := Admitted(rec, op.now, p);
    var t := Next(s, op, p).0;
    assert stored.expiresAt == issued + p.idleTTL && stored.lastSeen == issued + lag;
    assert t.records == map["s" := stored] && t.clock == issued + lag;
    probe := Renew("s", issued + p.idleTTL, issued + p.idleTTL, false);
    if gap >= p.idleTTL {
      ops, end := [], t;
    } else {
      var final := Min(issued + lag + TOUCH_INTERVAL - 1, p.idleTTL);
      ThrottledUses(t, "s", issued + lag, final, p, issued, gap, probe.now);
      ops, end := Uses("s", issued + lag, final), t.(clock := final);
    }
  }

  /** How far apart the uses of a session may be for it never to be lost before its cap: at most
      the idle window less the throttle and less the registration delay (which cannot count for
      more than the gap itself), or any distance at all when the window reaches the cap. */
  lemma RegularSessionsSurviveExactly(p: Policy, delay: Time, gap: Time)
    requires Sliding(p) && delay >= 0 && gap > 0
    ensures RegularSessionsSurvive(p, delay, gap) <==>
      gap + Min(delay, gap) + TOUCH_INTERVAL <= p.idleTTL || 0 < p.maxLifetime <= p.idleTTL
  {
    if gap + Min(delay, gap) + TOUCH_INTERVAL <= p.idleTTL || 0 < p.maxLifetime <= p.idleTTL {
      forall s, op, issued, ops, end, probe | RegularSession(s, op, issued, ops, end, probe, p, delay, gap)
        ensures Next(end, probe, p).1.Hit?
      {
        if 0 < p.maxLifetime <= p.idleTTL {
          CappedWindowSurvives(s, op, issued, ops, end, probe, p, delay, gap);
        } else {
          RegularSessionSurvives(s, op, issued, ops, end, probe, p, delay, gap);
        }
      }
    } else {
      var s, op, issued, ops, end, probe := LateUseLosesIt(p, delay, gap);
    }
  }
}
