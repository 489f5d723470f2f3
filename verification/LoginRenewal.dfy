/** One browser's session cookie beside the registry record it names: login, the gate's check
    and renewal on each request, and anything else the registry does in between. */
module LoginRenewal {
  import opened Prelude
  import opened SessionRegistry

  const SECOND: Time := 1_000_000_000

  /** Seconds from the zero time to the Unix epoch. */
  const EPOCH: int := 62_135_596_800

  /** time.Time.Unix: whole seconds, rounded towards the past. */
  function Unix(t: Time): int {
    t / SECOND - EPOCH
  }

  datatype Cookie = Cookie(id: string, expiry: int)

  datatype Session = Session(reg: State, cookie: Option<Cookie>)

  datatype Step =
    | Login(id: string, subject: string, issued: Time, now: Time, later: Time, saved: bool)
    | Request(presented: Time, looked: Time, now: Time, later: Time, saved: bool, written: Time)
    | Other(op: Op)

  /** decodeSession's own test of the signed deadline. */
  predicate Unexpired(c: Cookie, now: Time) {
    Unix(now) < c.expiry
  }

  function LoginOp(s: Step, p: Policy): Op
    requires s.Login?
  {
    Create(Record(s.id, s.subject, "", "", 0, 0, LoginExpiry(s.issued, p)), s.now, s.later, s.saved)
  }

  predicate Passes(s: Session, r: Step)
    requires r.Request?
  {
    s.cookie.Some? && Unexpired(s.cookie.value, r.presented) && AfterLookup(s.reg, s.cookie.value.id, r.looked).1.Hit?
  }

  function After(s: Session, step: Step, p: Policy): Session {
    match step
    case Login(id, _, issued, _, _, _) =>
      var (reg, answer) := Next(s.reg, LoginOp(step, p), p);
      Session(reg, if answer.Done? then Some(Cookie(id, Unix(LoginExpiry(issued, p)))) else s.cookie)
    case Request(_, looked, now, later, saved, written) =>
      if !Passes(s, step) then s
      else
        var id := s.cookie.value.id;
        var (reg, answer) := AfterRenew(AfterLookup(s.reg, id, looked).0, id, now, later, saved, p);
        if answer.Hit? && answer.extended then
          Session(reg.(clock := written),
                if answer.rec.expiresAt - written > 0 then Some(Cookie(id, Unix(answer.rec.expiresAt))) else s.cookie)
        else Session(reg, s.cookie)
    case Other(op) => s.(reg := Next(s.reg, op, p).0)
  }

  /** One monotone clock, new ids for new logins, and no one else creating or renewing the
      session this cookie names; other browsers, revocations, logouts and restarts are free. */
  ghost predicate Ordinary(s: Session, step: Step) {
    match step
    case Login(id, subject, issued, now, later, _) =>
      && s.reg.clock <= issued <= now <= later && 0 < issued
      && id !in s.reg.records && (s.cookie.Some? ==> s.cookie.value.id != id)
    case Request(presented, looked, now, later, _, written) =>
      s.reg.clock <= presented <= looked <= now <= later <= written
    case Other(op) =>
      && Timely(s.reg, op)
      && (s.cookie.Some? ==> !Creates(op, s.cookie.value.id) && !(op.Renew? && op.id == s.cookie.value.id))
  }

  ghost predicate Runs(s: Session, steps: seq<Step>, p: Policy, end: Session)
    decreases |steps|
  {
    if steps == [] then end == s
    else Ordinary(s, steps[0]) && Runs(After(s, steps[0], p), steps[1..], p, end)
  }

  /** The signed deadline is the whole-second floor of the record's, for as long as the record
      is alive. */
  ghost predicate Agree(s: Session) {
    s.reg.loadErr.None? && s.cookie.Some? && s.cookie.value.id in s.reg.records ==>
      var rec := s.reg.records[s.cookie.value.id];
      s.cookie.value.expiry == Unix(rec.expiresAt) || !Live(rec, s.reg.clock)
  }

  lemma LoginAgrees(s: Session, step: Step, p: Policy)
    requires Agree(s) && step.Login? && Ordinary(s, step)
    ensures Agree(After(s, step, p))
  {
  }

  lemma RequestAgrees(s: Session, step: Step, p: Policy)
    requires Agree(s) && step.Request? && Ordinary(s, step)
    ensures Agree(After(s, step, p))
  {
  }

  lemma OtherAgrees(s: Session, step: Step, p: Policy)
    requires Agree(s) && step.Other? && !step.op.Restart? && Ordinary(s, step)
    ensures Agree(After(s, step, p))
  {
  }

  predicate IsRestart(step: Step) {
    step.Other? && step.op.Restart?
  }

  lemma StepAgrees(s: Session, step: Step, p: Policy)
    requires Agree(s) && Ordinary(s, step) && !IsRestart(step)
    ensures Agree(After(s, step, p))
  {
    match step {
      case Login(_, _, _, _, _, _) => LoginAgrees(s, step, p);
      case Request(_, _, _, _, _, _) => RequestAgrees(s, step, p);
      case Other(_) => OtherAgrees(s, step, p);
    }
  }

  /** Over any run of one process the newest issued cookie carries the floor of the record's
      expiry, whatever the policy. */
  lemma {:induction false} CookieAndRegistryAgree(s: Session, steps: seq<Step>, p: Policy, end: Session)
    requires Agree(s) && Runs(s, steps, p, end)
    requires forall i :: 0 <= i < |steps| ==> !IsRestart(steps[i])
    ensures Agree(end)
    decreases |steps|
  {
    if steps != [] {
      StepAgrees(s, steps[0], p);
      CookieAndRegistryAgree(After(s, steps[0], p), steps[1..], p, end);
    }
  }

  // ---------------------------------------------------------------- restarts

  /** The file's copy of the cookie's record, if it is read and still alive at that restart, ends
      in the cookie's second. */
  predicate SurvivesRestart(s: Session, restart: Op)
    requires restart.Restart?
  {
    restart.readable && s.cookie.Some? && s.cookie.value.id in FileRecords(s.reg.file) ==>
      var rec := FileRecords(s.reg.file)[s.cookie.value.id];
      !Live(rec, AfterRestart(s.reg, restart.readable, restart.now, restart.later, restart.saved).0.clock) ||
      s.cookie.value.expiry == Unix(rec.expiresAt)
  }

  lemma RestartAgreesExactly(s: Session, restart: Op, p: Policy)
    requires restart.Restart? && restart.now <= restart.later
    ensures Agree(After(s, Other(restart), p)) <==> SurvivesRestart(s, restart)
  {
  }

  /** At every moment of the run. */
  ghost predicate AgreesThroughout(s: Session, steps: seq<Step>, p: Policy)
    decreases |steps|
  {
    Agree(s) && (steps == [] || AgreesThroughout(After(s, steps[0], p), steps[1..], p))
  }

  ghost predicate RestartsSurvived(s: Session, steps: seq<Step>, p: Policy)
    decreases |steps|
  {
    steps == []
    || ((IsRestart(steps[0]) ==> SurvivesRestart(s, steps[0].op))
        && RestartsSurvived(After(s, steps[0], p), steps[1..], p))
  }

  /** With restarts in the run, cookie and registry agree throughout exactly when at each restart
      the file's copy of the record was dead or ended in the cookie's second. */
  lemma {:induction false} AgreesThroughoutExactly(s: Session, steps: seq<Step>, p: Policy, end: Session)
    requires Agree(s) && Runs(s, steps, p, end)
    ensures AgreesThroughout(s, steps, p) <==> RestartsSurvived(s, steps, p)
    decreases |steps|
  {
    if steps != [] {
      var next := After(s, steps[0], p);
      if IsRestart(steps[0]) {
        RestartAgreesExactly(s, steps[0].op, p);
      } else {
        StepAgrees(s, steps[0], p);
      }
      if Agree(next) {
        AgreesThroughoutExactly(next, steps[1..], p, end);
      } else {
        assert steps[1..] == [] ==> !AgreesThroughout(next, steps[1..], p);
      }
    }
  }

  lemma {:induction false} ThroughoutIncludesTheEnd(s: Session, steps: seq<Step>, p: Policy, end: Session)
    requires AgreesThroughout(s, steps, p) && Runs(s, steps, p, end)
    ensures Agree(end)
    decreases |steps|
  {
    if steps != [] {
      ThroughoutIncludesTheEnd(After(s, steps[0], p), steps[1..], p, end);
    }
  }

  /** So while it names a live record, the cookie never outlives the record and lapses less than
      one second before it. */
  lemma CookieWindow(s: Session, steps: seq<Step>, p: Policy, end: Session, now: Time)
    requires s.cookie.None? && Runs(s, steps, p, end) && RestartsSurvived(s, steps, p)
    requires end.reg.loadErr.None? && end.cookie.Some? && end.cookie.value.id in end.reg.records
    requires Live(end.reg.records[end.cookie.value.id], end.reg.clock)
    ensures var e := end.reg.records[end.cookie.value.id].expiresAt;
            && (Unexpired(end.cookie.value, now) ==> now < e)
            && (now <= e - SECOND ==> Unexpired(end.cookie.value, now))
  {
    AgreesThroughoutExactly(s, steps, p, end);
    ThroughoutIncludesTheEnd(s, steps, p, end);
  }

  /** The step re-issued the cookie from a renewal. */
  predicate Reissues(s: Session, step: Step, p: Policy) {
    step.Request? && Passes(s, step) &&
    var answer := AfterRenew(AfterLookup(s.reg, s.cookie.value.id, step.looked).0, s.cookie.value.id,
                             step.now, step.later, step.saved, p).1;
    answer.Hit? && answer.extended
  }

  /** The step wrote the registry's file. */
  predicate WroteFile(s: Session, step: Step, p: Policy) {
    match step
    case Login(_, _, _, _, _, _) => Wrote(s.reg, LoginOp(step, p), p)
    case Request(_, looked, now, later, saved, _) =>
      Passes(s, step) && Wrote(AfterLookup(s.reg, s.cookie.value.id, looked).0,
        Renew(s.cookie.value.id, now, later, saved), p)
    case Other(op) => Wrote(s.reg, op, p)
  }

  /** Whether the cookie comes from a renewal that has not reached the file. */
  predicate AheadAfter(s: Session, step: Step, p: Policy, ahead: bool) {
    !WroteFile(s, step, p) && !IsRestart(step) && (ahead || Reissues(s, step, p))
  }

  /** No restart finds the last renewal unsaved. */
  ghost predicate SavedByRestart(s: Session, steps: seq<Step>, p: Policy, ahead: bool)
    decreases |steps|
  {
    steps == [] ||
    ((IsRestart(steps[0]) ==> !ahead) &&
     SavedByRestart(After(s, steps[0], p), steps[1..], p, AheadAfter(s, steps[0], p, ahead)))
  }

  /** What the file says of the cookie's record when nothing is unsaved. */
  ghost predicate FileAgrees(s: Session) {
    s.cookie.Some? && s.cookie.value.id in FileRecords(s.reg.file) ==>
      var rec := FileRecords(s.reg.file)[s.cookie.value.id];
      s.cookie.value.expiry == Unix(rec.expiresAt) || !Live(rec, s.reg.clock)
  }

  /** A new login's id is not in the file either. */
  predicate NewInFile(s: Session, step: Step) {
    step.Login? ==> step.id !in FileRecords(s.reg.file)
  }

  ghost predicate AllNewInFile(s: Session, steps: seq<Step>, p: Policy)
    decreases |steps|
  {
    steps == [] || (NewInFile(s, steps[0]) && AllNewInFile(After(s, steps[0], p), steps[1..], p))
  }

  lemma StepFileAgrees(s: Session, step: Step, p: Policy, ahead: bool)
    requires Agree(s) && Ordinary(s, step) && !IsRestart(step) && NewInFile(s, step) && (!ahead ==> FileAgrees(s))
    ensures !AheadAfter(s, step, p, ahead) ==> FileAgrees(After(s, step, p))
  {
    StepAgrees(s, step, p);
  }

  lemma RestartFileAgrees(s: Session, restart: Op, p: Policy)
    requires restart.Restart? && Timely(s.reg, restart) && FileAgrees(s)
    ensures SurvivesRestart(s, restart) && FileAgrees(After(s, Other(restart), p))
  {
  }

  /** So a cookie and its registry agree at every moment of every run in which each renewal that
      re-issued the cookie had reached the file, with its own save or a later one, before the next
      restart. */
  lemma {:induction false} SavedRenewalsSurvive(s: Session, steps: seq<Step>, p: Policy, end: Session, ahead: bool)
    requires Agree(s) && Runs(s, steps, p, end) && AllNewInFile(s, steps, p) && (!ahead ==> FileAgrees(s))
    requires SavedByRestart(s, steps, p, ahead)
    ensures AgreesThroughout(s, steps, p)
    decreases |steps|
  {
    if steps != [] {
      var step := steps[0];
      if IsRestart(step) {
        RestartFileAgrees(s, step.op, p);
        RestartAgreesExactly(s, step.op, p);
      } else {
        StepAgrees(s, step, p);
        StepFileAgrees(s, step, p, ahead);
      }
      SavedRenewalsSurvive(After(s, step, p), steps[1..], p, end, AheadAfter(s, step, p, ahead));
    }
  }

  /** A request passes the gate exactly when the record is live and the cookie's second has not
      run out. */
  lemma GateFollowsRegistry(s: Session, r: Step)
    requires Agree(s) && r.Request? && Ordinary(s, r) && s.reg.loadErr.None?
    requires s.cookie.Some? && s.cookie.value.id != ""
    ensures Passes(s, r) <==>
            && s.cookie.value.id in s.reg.records && Live(s.reg.records[s.cookie.value.id], r.looked)
            && Unix(r.presented) < Unix(s.reg.records[s.cookie.value.id].expiresAt)
  {
  }

  // ---------------------------------------------------------------- when a cookie is issued

  /** A login hands out a cookie exactly if its session could be registered and saved: one that ends
      in the second of the deadline it registered. */
  lemma LoginIssuesExactly(s: Session, step: Step, p: Policy)
    requires step.Login?
    ensures var e := LoginExpiry(step.issued, p);
      After(s, step, p).cookie ==
        if step.id != "" && step.subject != "" && e != 0 && s.reg.loadErr.None? && step.saved
        then Some(Cookie(step.id, Unix(e))) else s.cookie
  {
  }

  /** And with it the next request passes exactly until that deadline, on the registry's side, and that
      second, on the cookie's. */
  lemma LoginPasses(s: Session, step: Step, r: Step, p: Policy)
    requires step.Login? && Ordinary(s, step) && r.Request? && Ordinary(After(s, step, p), r)
    requires step.id != "" && step.subject != "" && LoginExpiry(step.issued, p) != 0
    requires s.reg.loadErr.None? && step.saved
    ensures var e := LoginExpiry(step.issued, p);
      Passes(After(s, step, p), r) <==> r.looked < e && Unix(r.presented) < Unix(e)
  {
    var made := CreatedExactly(s.reg, LoginOp(step, p), p);
  }

  /** A request hands out a new cookie exactly if it passed and the registry has moved the end of its
      session on, to a moment still to come: one that ends in that moment's second. */
  lemma RequestReissuesExactly(s: Session, r: Step, p: Policy)
    requires r.Request? && Ordinary(s, r)
    ensures var t := After(s, r, p);
      if Passes(s, r) && s.cookie.value.id in t.reg.records
         && t.reg.records[s.cookie.value.id].expiresAt > s.reg.records[s.cookie.value.id].expiresAt
         && t.reg.records[s.cookie.value.id].expiresAt > r.written
      then t.cookie == Some(Cookie(s.cookie.value.id, Unix(t.reg.records[s.cookie.value.id].expiresAt)))
      else t.cookie == s.cookie
  {
    if Passes(s, r) {
      var id := s.cookie.value.id;
      RenewedExactly(AfterLookup(s.reg, id, r.looked).0, Renew(id, r.now, r.later, r.saved), p);
    }
  }

  /** The failing side is real: when the save of a renewal fails, the cookie it issued outlives the
      record the next process loads. */
  lemma RestartAfterUnsavedRenewal() returns (p: Policy, before: Session, request: Step, restart: Op, after: Session)
    ensures Sliding(p) && Agree(before) && request.Request? && Ordinary(before, request) && Passes(before, request)
    ensures !request.saved && restart.Restart? && Timely(After(before, request, p).reg, restart)
    ensures after == After(After(before, request, p), Other(restart), p)
    ensures after.cookie.Some? && after.cookie.value.id in after.reg.records
    ensures after.cookie.value.expiry > Unix(after.reg.records[after.cookie.value.id].expiresAt)
    ensures Live(after.reg.records[after.cookie.value.id], after.reg.clock)
  {
    p := Policy(600 * SECOND, 6000 * SECOND);
    var rec := Record("s", "alice", "", "", SECOND, SECOND, 601 * SECOND);
    var m := map["s" := rec];
    before := Session(State(m, Option.None, Saved(m), SECOND), Some(Cookie("s", Unix(601 * SECOND))));
    var t := 401 * SECOND;
    request := Request(t, t, t, t, false, t);
    restart := Restart(true, t, t, false);
    var moved := After(before, request, p);
    assert moved.reg.records == map["s" := rec.(lastSeen := t, expiresAt := 1001 * SECOND)];
    assert moved.cookie == Some(Cookie("s", Unix(1001 * SECOND)));
    after := After(moved, Other(restart), p);
    assert Pruned(m, t) == m;
  }
}
