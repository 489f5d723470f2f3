/** The registry of agent connections on plain values: one row per (subject, OAuth client),
    kept while revoked, for any clock readings and any outcome of each save. */
module AgentRegistry {
  import opened Prelude

  /** Nanoseconds; 0 is the zero time. */
  type Time = int

  const TOUCH_INTERVAL: Time := 5 * 60 * 1_000_000_000
  const RETENTION: Time := 90 * 24 * 3600 * 1_000_000_000

  datatype Record = Record(
    id: string, subject: string, clientId: string, email: string,
    firstSeen: Time, lastSeen: Time, revokedAt: Time)
  {
    predicate Revoked() { revokedAt != 0 }
  }

  type Records = map<string, Record>

  datatype File = Missing | Garbled | Saved(records: Records)

  datatype LoadError = Unreadable | Corrupt

  datatype Error = LoadFailed(cause: LoadError) | SaveFailed

  datatype State = State(records: Records, loadErr: Option<LoadError>, file: File, clock: Time)

  /** The digest is any function of the text it is given. */
  type Digest = string -> string

  function RowText(subject: string, clientId: string): string {
    "scrim-agent-connection-v1\n" + subject + "\n" + clientId
  }

  function RecordID(digest: Digest, subject: string, clientId: string): string {
    digest(RowText(subject, clientId))
  }

  predicate Stale(rec: Record, now: Time) {
    !rec.Revoked() && rec.lastSeen < now - RETENTION
  }

  function Pruned(m: Records, now: Time): Records {
    map id | id in m && !Stale(m[id], now) :: m[id]
  }

  predicate Keyed(m: Records) {
    forall id :: id in m ==> id != "" && m[id].id == id && m[id].subject != ""
  }

  function AfterSave(s: State, records: Records, later: Time, saved: bool): State {
    var kept := Pruned(records, later);
    s.(records := kept, file := if saved then Saved(kept) else s.file, clock := later)
  }

  datatype Op =
    | Admit(subject: string, clientId: string, email: string, issuedAt: Time, now: Time, later: Time, saved: bool)
    | Revoke(id: string, subject: string, now: Time, later: Time, saved: bool)
    | Restart(readable: bool, now: Time, later: Time, saved: bool)

  datatype Answer = Done | Allowed(ok: bool) | Found(found: bool) | Failed(error: Error)

  predicate Timely(s: State, op: Op) {
    s.clock <= op.now <= op.later
  }

  /** Only a token that names its client and is dated strictly after the revocation gets past it. */
  predicate Outdates(clientId: string, issuedAt: Time, revokedAt: Time) {
    clientId != "" && issuedAt != 0 && issuedAt > revokedAt
  }

  function AfterAdmit(s: State, op: Op, digest: Digest): (State, Answer)
    requires op.Admit?
  {
    if op.subject == "" then (s, Allowed(true))
    else if s.loadErr.Some? then (s, Failed(LoadFailed(s.loadErr.value)))
    else
      var id := RecordID(digest, op.subject, op.clientId);
      if id !in s.records then
        var rec := Record(id, op.subject, op.clientId, op.email, op.now, op.now, 0);
        (AfterSave(s, s.records[id := rec], op.later, op.saved), Allowed(true))
      else
        var rec := s.records[id];
        if rec.Revoked() && !Outdates(op.clientId, op.issuedAt, rec.revokedAt) then
          (s.(clock := op.now), Allowed(false))
        else
          var updated := rec.(revokedAt := 0, email := if op.email != "" then op.email else rec.email);
          if updated != rec || op.now - rec.lastSeen >= TOUCH_INTERVAL then
            (AfterSave(s, s.records[id := updated.(lastSeen := op.now)], op.later, op.saved), Allowed(true))
          else (s.(clock := op.now), Allowed(true))
  }

  function AfterRevoke(s: State, op: Op): (State, Answer)
    requires op.Revoke?
  {
    if op.id == "" || op.subject == "" then (s, Found(false))
    else if s.loadErr.Some? then (s, Failed(LoadFailed(s.loadErr.value)))
    else if op.id !in s.records || s.records[op.id].subject != op.subject || s.records[op.id].Revoked() then
      (s, Found(false))
    else
      (AfterSave(s, s.records[op.id := s.records[op.id].(revokedAt := op.now)], op.later, op.saved),
       if op.saved then Found(true) else Failed(SaveFailed))
  }

  function AfterRestart(s: State, op: Op): (State, Answer)
    requires op.Restart?
  {
    if s.file.Missing? then (s.(records := map[], loadErr := None, clock := op.now), Done)
    else if !op.readable then (s.(records := map[], loadErr := Some(Unreadable)), Done)
    else if s.file.Garbled? then (s.(records := map[], loadErr := Some(Corrupt)), Done)
    else
      var kept := Pruned(s.file.records, op.now);
      var t := s.(records := kept, loadErr := None, clock := op.now);
      (if kept == s.file.records then t else AfterSave(t, kept, op.later, op.saved), Done)
  }

  function Next(s: State, op: Op, digest: Digest): (State, Answer) {
    match op
    case Admit(_, _, _, _, _, _, _) => AfterAdmit(s, op, digest)
    case Revoke(_, _, _, _, _) => AfterRevoke(s, op)
    case Restart(_, _, _, _) => AfterRestart(s, op)
  }

  ghost predicate Runs(s: State, ops: seq<Op>, digest: Digest, end: State)
    decreases |ops|
  {
    if ops == [] then end == s
    else Timely(s, ops[0]) && Runs(Next(s, ops[0], digest).0, ops[1..], digest, end)
  }

  // ---------------------------------------------------------------- what each operation answers and leaves

  /** Nothing is dropped that was seen within the retention period or is revoked, and nothing else is
      changed or added. */
  ghost predicate OnlyPrunes(after: Records, before: Records, moment: Time) {
    forall id ::
      && (id in after <==> id in before && (before[id].revokedAt != 0 || before[id].lastSeen >= moment - RETENTION))
      && (id in after ==> after[id] == before[id])
  }

  lemma PrunedOnlyPrunes(m: Records, now: Time)
    ensures OnlyPrunes(Pruned(m, now), m, now)
  {
  }

  /** A request is let in exactly if its row is new to the registry, or not revoked, or it names its
      client and is dated after the revocation; and without a subject always. */
  lemma AdmittedExactly(s: State, op: Op, digest: Digest)
    requires op.Admit?
    ensures op.subject == "" ==> Next(s, op, digest) == (s, Allowed(true))
    ensures op.subject != "" && s.loadErr.Some? ==> Next(s, op, digest) == (s, Failed(LoadFailed(s.loadErr.value)))
    ensures op.subject != "" && s.loadErr.None? ==>
      var id, a := RecordID(digest, op.subject, op.clientId), Next(s, op, digest).1;
      && a.Allowed?
      && (a.ok <==>
            || id !in s.records
            || s.records[id].revokedAt == 0
            || (op.clientId != "" && op.issuedAt != 0 && op.issuedAt > s.records[id].revokedAt))
  {
  }

  /** The row a let-in request leaves, before any prune. */
  ghost predicate RowAfter(op: Op, id: string, was: Option<Record>, row: Record)
    requires op.Admit?
  {
    && row.id == (if was.Some? then was.value.id else id)
    && row.subject == (if was.Some? then was.value.subject else op.subject)
    && row.clientId == (if was.Some? then was.value.clientId else op.clientId)
    && row.email == (if was.Some? && op.email == "" then was.value.email else op.email)
    && row.firstSeen == (if was.Some? then was.value.firstSeen else op.now)
    && row.revokedAt == 0
    && row.lastSeen == (if Noted(op, was) then op.now else was.value.lastSeen)
  }

  /** There is something to write: a new row, one reopened, a new address, or one not seen for the
      interval. */
  predicate Noted(op: Op, was: Option<Record>)
    requires op.Admit?
  {
    || was.None?
    || was.value.revokedAt != 0
    || (op.email != "" && op.email != was.value.email)
    || op.now - was.value.lastSeen >= TOUCH_INTERVAL
  }

  /** What a request leaves: refused, or let in with nothing to note, everything as it was; else its row
      as told beside the others, pruned, and in the file just if the save worked. */
  lemma AdmitLeaves(s: State, op: Op, digest: Digest) returns (row: Record)
    requires op.Admit? && op.subject != "" && s.loadErr.None?
    ensures var id, t := RecordID(digest, op.subject, op.clientId), Next(s, op, digest).0;
      var was := if id in s.records then Some(s.records[id]) else None;
      if Next(s, op, digest).1 == Allowed(true) && Noted(op, was) then
        && RowAfter(op, id, was, row) && OnlyPrunes(t.records, s.records[id := row], op.later)
        && t.file == (if op.saved then Saved(t.records) else s.file)
      else t.records == s.records && t.file == s.file
  {
    var id := RecordID(digest, op.subject, op.clientId);
    var made := Record(id, op.subject, op.clientId, op.email, op.now, op.now, 0);
    if id in s.records {
      var was := s.records[id];
      row := was.(revokedAt := 0, email := if op.email != "" then op.email else was.email, lastSeen := op.now);
    } else {
      row := made;
    }
    PrunedOnlyPrunes(s.records[id := row], op.later);
  }

  /** A revocation finds its row exactly if there is one, the caller's own and not yet revoked. Then the
      row is revoked from that moment in the process, and in the file if the save works; otherwise
      nothing changes. */
  lemma RevokedExactly(s: State, op: Op, digest: Digest)
    requires op.Revoke?
    ensures var (t, a) := Next(s, op, digest);
      if op.id == "" || op.subject == "" then t == s && a == Found(false)
      else if s.loadErr.Some? then t == s && a == Failed(LoadFailed(s.loadErr.value))
      else if op.id in s.records && s.records[op.id].subject == op.subject && s.records[op.id].revokedAt == 0 then
        && a == (if op.saved then Found(true) else Failed(SaveFailed))
        && OnlyPrunes(t.records, s.records[op.id := s.records[op.id].(revokedAt := op.now)], op.later)
        && t.file == (if op.saved then Saved(t.records) else s.file)
      else a == Found(false) && t.records == s.records && t.file == s.file
  {
    if op.id in s.records {
      PrunedOnlyPrunes(s.records[op.id := s.records[op.id].(revokedAt := op.now)], op.later);
    }
  }

  /** A new process has the rows of the file, pruned, and none if there is no file; and it fails closed
      exactly if there is one that cannot be read or decoded. It rewrites the file pruned, or leaves it. */
  lemma RestartedExactly(s: State, op: Op, digest: Digest)
    requires op.Restart? && op.now <= op.later
    ensures var t := Next(s, op, digest).0;
      && (t.loadErr.None? <==> s.file.Missing? || (op.readable && s.file.Saved?))
      && (t.loadErr.None? && s.file.Missing? ==> t.records == map[] && t.file.Missing?)
      && (t.loadErr.None? && s.file.Saved? ==>
            && t.file == (if op.saved then Saved(t.records) else s.file)
            && if OnlyPrunes(s.file.records, s.file.records, op.now) then t.records == s.file.records
               else OnlyPrunes(t.records, s.file.records, op.later))
      && (t.loadErr.Some? ==>
            t.records == map[] && t.file == s.file && t.loadErr.value == if op.readable then Corrupt else Unreadable)
  {
    if s.file.Saved? {
      PrunedOnlyPrunes(s.file.records, op.now);
      PrunedOnlyPrunes(Pruned(s.file.records, op.now), op.later);
      PrunedOnlyPrunes(s.file.records, op.later);
    }
  }

  // ---------------------------------------------------------------- the barrier

  function FileRecords(f: File): Records {
    if f.Saved? then f.records else map[]
  }

  predicate RevokedAt(m: Records, id: string, at: Time) {
    id in m && m[id].revokedAt == at
  }

  /** The row carries the revocation of instant at, in the process (unless it refuses everyone)
      and in the file. */
  ghost predicate Barred(s: State, id: string, at: Time) {
    at != 0 && (s.loadErr.None? ==> RevokedAt(s.records, id, at)) && RevokedAt(FileRecords(s.file), id, at)
  }

  /** The one kind of request that lifts a revocation of instant at. */
  ghost predicate Reopens(op: Op, digest: Digest, id: string, at: Time) {
    op.Admit? && op.subject != "" && RecordID(digest, op.subject, op.clientId) == id
      && Outdates(op.clientId, op.issuedAt, at)
  }

  lemma RevokeBars(s: State, op: Op, digest: Digest)
    requires op.Revoke? && op.now != 0 && Next(s, op, digest).1 == Found(true)
    ensures Barred(Next(s, op, digest).0, op.id, op.now)
  {
  }

  lemma NextKeepsBarred(s: State, op: Op, digest: Digest, id: string, at: Time)
    requires Barred(s, id, at) && Timely(s, op) && !Reopens(op, digest, id, at)
    ensures Barred(Next(s, op, digest).0, id, at)
  {
  }

  /** A revocation is a barrier: through every later admission, prune, failed save and restart,
      and for whatever the digest maps together, the row's requests are refused until one names
      its client and carries an issued-at strictly after the revocation; and that one is let in. */
  lemma {:induction false} RevocationBarrier(s: State, ops: seq<Op>, digest: Digest, end: State, id: string, at: Time,
                                             probe: Op)
    requires Barred(s, id, at) && Runs(s, ops, digest, end)
    requires forall i :: 0 <= i < |ops| ==> !Reopens(ops[i], digest, id, at)
    requires probe.Admit? && probe.subject != "" && RecordID(digest, probe.subject, probe.clientId) == id
      && Timely(end, probe)
    ensures Barred(end, id, at)
    ensures end.loadErr.None? ==> Next(end, probe, digest).1 == Allowed(Outdates(probe.clientId, probe.issuedAt, at))
    ensures end.loadErr.Some? ==> Next(end, probe, digest).1.Failed?
    decreases |ops|
  {
    if ops != [] {
      NextKeepsBarred(s, ops[0], digest, id, at);
      RevocationBarrier(Next(s, ops[0], digest).0, ops[1..], digest, end, id, at, probe);
    }
  }

  // ---------------------------------------------------------------- a revocation not yet saved

  /** The operation got as far as saving, and the save worked. */
  predicate Wrote(s: State, op: Op, digest: Digest) {
    s.loadErr.None? && !op.Restart? && op.saved &&
    if op.Revoke? then
      op.id != "" && op.subject != "" && op.id in s.records && s.records[op.id].subject == op.subject
        && !s.records[op.id].Revoked()
    else
      op.subject != "" &&
      var id := RecordID(digest, op.subject, op.clientId);
      id !in s.records ||
      ((s.records[id].Revoked() ==> Outdates(op.clientId, op.issuedAt, s.records[id].revokedAt)) &&
       (s.records[id].Revoked() || (op.email != "" && op.email != s.records[id].email) ||
        op.now - s.records[id].lastSeen >= TOUCH_INTERVAL))
  }

  ghost predicate SomeSave(s: State, ops: seq<Op>, digest: Digest)
    decreases |ops|
  {
    ops != [] && (Wrote(s, ops[0], digest) || SomeSave(Next(s, ops[0], digest).0, ops[1..], digest))
  }

  /** One process's work, with nothing in it that lifts a revocation of instant at. */
  ghost predicate SameProcess(ops: seq<Op>, digest: Digest, id: string, at: Time) {
    forall i :: 0 <= i < |ops| ==> !ops[i].Restart? && !Reopens(ops[i], digest, id, at)
  }

  /** The process knows the revocation, whatever the file says. */
  ghost predicate BarredHere(s: State, id: string, at: Time) {
    at != 0 && s.loadErr.None? && RevokedAt(s.records, id, at)
  }

  lemma NextKeepsBarredHere(s: State, op: Op, digest: Digest, id: string, at: Time)
    requires BarredHere(s, id, at) && !op.Restart? && !Reopens(op, digest, id, at)
    ensures BarredHere(Next(s, op, digest).0, id, at)
    ensures if Wrote(s, op, digest) then RevokedAt(FileRecords(Next(s, op, digest).0.file), id, at)
            else Next(s, op, digest).0.file == s.file
  {
  }

  lemma {:induction false} BarredHereRun(s: State, ops: seq<Op>, digest: Digest, end: State, id: string, at: Time)
    requires BarredHere(s, id, at) && Runs(s, ops, digest, end) && SameProcess(ops, digest, id, at)
    ensures BarredHere(end, id, at)
    ensures RevokedAt(FileRecords(end.file), id, at)
      <==> SomeSave(s, ops, digest) || RevokedAt(FileRecords(s.file), id, at)
    decreases |ops|
  {
    if ops != [] {
      assert !ops[0].Restart? && !Reopens(ops[0], digest, id, at);
      NextKeepsBarredHere(s, ops[0], digest, id, at);
      assert SameProcess(ops[1..], digest, id, at);
      BarredHereRun(Next(s, ops[0], digest).0, ops[1..], digest, end, id, at);
    }
  }

  lemma RestartReadsTheFile(s: State, restart: Op, digest: Digest, id: string, at: Time)
    requires restart.Restart? && restart.readable && at != 0
    ensures RevokedAt(Next(s, restart, digest).0.records, id, at) <==> RevokedAt(FileRecords(s.file), id, at)
  {
  }

  /** A revocation whose save failed. For as long as the process lasts it refuses the row all the
      same, until a request that reopens it; and it outlasts the process exactly when some save
      works before the restart, or the file already carried that very instant. */
  lemma UnsavedRevocation(s: State, op: Op, ops: seq<Op>, digest: Digest, end: State, probe: Op, restart: Op)
    requires op.Revoke? && op.now != 0 && s.loadErr.None? && Next(s, op, digest).1 == Failed(SaveFailed)
    requires Runs(Next(s, op, digest).0, ops, digest, end) && SameProcess(ops, digest, op.id, op.now)
    requires probe.Admit? && probe.subject != "" && RecordID(digest, probe.subject, probe.clientId) == op.id
    requires restart.Restart? && restart.readable && Timely(end, restart)
    ensures Next(end, probe, digest).1 == Allowed(Outdates(probe.clientId, probe.issuedAt, op.now))
    ensures RevokedAt(Next(end, restart, digest).0.records, op.id, op.now) <==>
      SomeSave(Next(s, op, digest).0, ops, digest) || RevokedAt(FileRecords(s.file), op.id, op.now)
  {
    BarredHereRun(Next(s, op, digest).0, ops, digest, end, op.id, op.now);
    RestartReadsTheFile(end, restart, digest, op.id, op.now);
  }

  /** The failing side is real: an unsaved revocation, a restart, and the row is let in again. */
  lemma UnsavedRevocationIsLost(digest: Digest) returns (s: State, op: Op, restart: Op, probe: Op)
    requires RecordID(digest, "alice", "agent") != ""
    ensures op.Revoke? && Next(s, op, digest).1 == Failed(SaveFailed) && restart.Restart? && probe.Admit?
    ensures RecordID(digest, probe.subject, probe.clientId) == op.id
    ensures var t := Next(s, op, digest).0; var u := Next(t, restart, digest).0;
      && Next(t, probe, digest).1 == Allowed(false) && Next(u, probe, digest).1 == Allowed(true)
  {
    var id := RecordID(digest, "alice", "agent");
    var m := map[id := Record(id, "alice", "agent", "", 1, 1, 0)];
    s := State(m, None, Saved(m), 1);
    op, restart := Revoke(id, "alice", 2, 2, false), Restart(true, 3, 3, false);
    probe := Admit("alice", "agent", "", 1, 4, 4, true);
    assert Pruned(m, 3) == m;
  }

  // ---------------------------------------------------------------- pruning

  /** A row that an operation or a restart drops from memory was unrevoked and unseen for the
      whole retention period (an operation itself not lasting that long). */
  lemma OnlyStaleRowsAreDropped(s: State, op: Op, digest: Digest, id: string)
    requires Timely(s, op) && op.later <= op.now + RETENTION
    requires s.loadErr.None? && Next(s, op, digest).0.loadErr.None?
    requires var before := if op.Restart? then FileRecords(s.file) else s.records; id in before
    requires id !in Next(s, op, digest).0.records
    ensures var before := if op.Restart? then FileRecords(s.file) else s.records;
            !before[id].Revoked() && before[id].lastSeen < op.later - RETENTION
  {
  }

  // ---------------------------------------------------------------- rows and pairs

  predicate OneLine(s: string) {
    forall i :: 0 <= i < |s| ==> s[i] != '\n'
  }

  ghost predicate Injective(digest: Digest) {
    forall x, y :: digest(x) == digest(y) ==> x == y
  }

  /** With a collision-free digest, subjects that hold no line break never share a row. */
  lemma RowsSeparatePairs(digest: Digest, s1: string, c1: string, s2: string, c2: string)
    requires Injective(digest) && OneLine(s1) && OneLine(s2)
    ensures RecordID(digest, s1, c1) == RecordID(digest, s2, c2) <==> s1 == s2 && c1 == c2
  {
    if RecordID(digest, s1, c1) == RecordID(digest, s2, c2) {
      var t1, t2 := s1 + "\n" + c1, s2 + "\n" + c2;
      var prefix := "scrim-agent-connection-v1\n";
      assert RowText(s1, c1) == prefix + t1 && RowText(s2, c2) == prefix + t2;
      assert t1 == RowText(s1, c1)[|prefix|..] && t2 == RowText(s2, c2)[|prefix|..];
      LineBreakAt(s1, c1);
      LineBreakAt(s2, c2);
      assert |s1| == |s2|;
      assert t1[..|s1|] == s1 && t2[..|s2|] == s2;
      assert t1[|s1| + 1..] == c1 && t2[|s2| + 1..] == c2;
    }
  }

  lemma LineBreakAt(s: string, c: string)
    requires OneLine(s)
    ensures (s + "\n" + c)[|s|] == '\n' && forall i :: 0 <= i < |s| ==> (s + "\n" + c)[i] != '\n'
  {
  }

  /** Moving a line break across the join changes the pair and not the row, whatever the digest. */
  lemma LineBreakSharesARow(digest: Digest, a: string, b: string, c: string)
    ensures RecordID(digest, a + "\n" + b, c) == RecordID(digest, a, b + "\n" + c)
  {
    var prefix := "scrim-agent-connection-v1\n";
    assert prefix + (a + "\n" + b) + "\n" + c == prefix + a + "\n" + (b + "\n" + c);
  }

  ghost predicate SharesItsRow(digest: Digest, subject: string, clientId: string) {
    exists s, c :: (s != subject || c != clientId) && RecordID(digest, s, c) == RecordID(digest, subject, clientId)
  }

  lemma CutAtLineBreak(s: string) returns (a: string, b: string)
    requires !OneLine(s)
    ensures s == a + "\n" + b
  {
    var i :| 0 <= i < |s| && s[i] == '\n';
    a, b := s[..i], s[i + 1..];
  }

  /** With a collision-free digest, a pair has a row of its own exactly when neither of its strings
      holds a line break. */
  lemma OwnRowExactly(digest: Digest, subject: string, clientId: string)
    requires Injective(digest)
    ensures !SharesItsRow(digest, subject, clientId) <==> OneLine(subject) && OneLine(clientId)
  {
    if !OneLine(subject) {
      var a, b := CutAtLineBreak(subject);
      LineBreakSharesARow(digest, a, b, clientId);
      assert |a| < |subject|;
      assert SharesItsRow(digest, subject, clientId);
    } else if !OneLine(clientId) {
      var a, b := CutAtLineBreak(clientId);
      LineBreakSharesARow(digest, subject, a, b);
      assert |b| < |clientId|;
      assert SharesItsRow(digest, subject, clientId);
    } else {
      forall s, c | RecordID(digest, s, c) == RecordID(digest, subject, clientId)
        ensures s == subject && c == clientId
      {
        OneLinePair(digest, s, c, subject, clientId);
      }
    }
  }

  /** A row text of three lines has one reading. */
  lemma OneLinePair(digest: Digest, s: string, c: string, subject: string, clientId: string)
    requires Injective(digest) && OneLine(subject) && OneLine(clientId)
    requires RecordID(digest, s, c) == RecordID(digest, subject, clientId)
    ensures s == subject && c == clientId
  {
    var prefix := "scrim-agent-connection-v1\n";
    var t, u := s + "\n" + c, subject + "\n" + clientId;
    assert RowText(s, c) == prefix + t && RowText(subject, clientId) == prefix + u;
    assert t == RowText(s, c)[|prefix|..] && u == RowText(subject, clientId)[|prefix|..];
    assert t[|s|] == '\n' && u[|subject|] == '\n';
    assert forall i :: 0 <= i < |u| && i != |subject| ==> u[i] != '\n' by {
      LineBreakAt(subject, clientId);
      assert forall i :: |subject| < i < |u| ==> u[i] == clientId[i - |subject| - 1];
    }
    assert |s| == |subject|;
    assert t[..|s|] == s && u[..|subject|] == subject;
    assert t[|s| + 1..] == c && u[|subject| + 1..] == clientId;
  }
}
