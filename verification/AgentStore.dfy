/** The agent-connection store as the hub holds it. Every method reads the clock through its
    Time parameters, in the order they are listed, and saved says whether the write reached
    the file. */
module AgentStore {
  import opened Prelude
  import opened AgentRegistry

  /** What reading back a list of rows yields: rows without an id or a subject are skipped, and
      the last of several rows with one id stands. */
  function Loaded(recs: seq<Record>): Records {
    if recs == [] then map[]
    else
      var before := Loaded(recs[..|recs| - 1]);
      var rec := recs[|recs| - 1];
      if rec.id == "" || rec.subject == "" then before else before[rec.id := rec]
  }

  datatype Disk = NoFile | NotJson | Json(recs: seq<Record>)

  function Content(d: Disk): File {
    match d
    case NoFile => Missing
    case NotJson => Garbled
    case Json(recs) => Saved(Loaded(recs))
  }

  lemma LoadedAppend(recs: seq<Record>, rec: Record)
    ensures Loaded(recs + [rec]) ==
            if rec.id == "" || rec.subject == "" then Loaded(recs) else Loaded(recs)[rec.id := rec]
  {
    assert (recs + [rec])[..|recs|] == recs;
  }

  class Store {
    const digest: Digest
    var disk: Disk
    var records: Records
    var loadErr: Option<LoadError>

    ghost function View(clock: Time): State
      reads this
    {
      State(records, loadErr, Content(disk), clock)
    }

    ghost predicate Valid()
      reads this
    {
      Keyed(records)
    }

    constructor (disk: Disk, digest: Digest, readable: bool, now: Time, later: Time, saved: bool)
      ensures Valid() && this.digest == digest
      ensures forall s: State :: s.file == Content(disk) ==>
        var t := AfterRestart(s, Restart(readable, now, later, saved)).0;
        records == t.records && loadErr == t.loadErr && Content(this.disk) == t.file
    {
      this.digest := digest;
      this.disk := disk;
      records := map[];
      loadErr := None;
      new;
      Load(readable);
      if loadErr == None {
        var removed := Prune(now);
        if removed > 0 {
          var _ := Save(later, saved);
        }
      }
    }

    method Load(readable: bool)
      modifies this`records, this`loadErr
      ensures Valid()
      ensures disk.NoFile? ==> loadErr == None && records == map[]
      ensures !disk.NoFile? && !readable ==> loadErr == Some(Unreadable) && records == map[]
      ensures disk.NotJson? && readable ==> loadErr == Some(Corrupt) && records == map[]
      ensures disk.Json? && readable ==> loadErr == None && records == Loaded(disk.recs)
    {
      records, loadErr := map[], None;
      if disk.NoFile? {
        return;
      }
      if !readable {
        loadErr := Some(Unreadable);
        return;
      }
      if disk.NotJson? {
        loadErr := Some(Corrupt);
        return;
      }
      var recs := disk.recs;
      for i := 0 to |recs|
        invariant records == Loaded(recs[..i]) && Valid() && loadErr == None
      {
        assert recs[..i + 1] == recs[..i] + [recs[i]];
        LoadedAppend(recs[..i], recs[i]);
        if recs[i].id != "" && recs[i].subject != "" {
          records := records[recs[i].id := recs[i]];
        }
      }
      assert recs[..|recs|] == recs;
    }

    method Prune(now: Time) returns (removed: nat)
      requires Valid()
      modifies this`records
      ensures Valid() && records == Pruned(old(records), now)
      ensures removed == 0 <==> records == old(records)
    {
      var cutoff := now - RETENTION;
      removed := 0;
      var todo := records.Keys;
      while todo != {}
        invariant todo <= records.Keys <= old(records).Keys
        invariant forall id :: id in old(records) ==>
          (id in records <==> id in todo || !Stale(old(records)[id], now))
        invariant forall id :: id in records ==> records[id] == old(records)[id]
        invariant removed == 0 <==> records.Keys == old(records).Keys
        decreases todo
      {
        var id :| id in todo;
        if !records[id].Revoked() && records[id].lastSeen < cutoff {
          assert id in old(records) && id !in (records - {id});
          records := records - {id};
          removed := removed + 1;
        }
        todo := todo - {id};
      }
    }

    /** Prune, list the rows, and replace the whole file or leave it as it was. */
    method Save(later: Time, saved: bool) returns (ok: bool)
      requires Valid()
      modifies this`records, this`disk
      ensures Valid() && ok == saved
      ensures records == Pruned(old(records), later)
      ensures Content(disk) == if saved then Saved(records) else Content(old(disk))
    {
      var _ := Prune(later);
      var kept := records;
      var recs: seq<Record> := [];
      var todo := kept.Keys;
      while todo != {}
        invariant records == kept && disk == old(disk)
        invariant todo <= kept.Keys && Loaded(recs).Keys == kept.Keys - todo
        invariant forall id :: id in Loaded(recs) ==> Loaded(recs)[id] == kept[id]
        decreases todo
      {
        var id :| id in todo;
        LoadedAppend(recs, kept[id]);
        recs := recs + [kept[id]];
        todo := todo - {id};
      }
      assert Loaded(recs) == kept;
      if saved {
        disk := Json(recs);
      }
      return saved;
    }

    /** A row can only be kept under a usable id: the digest never yields the empty string. */
    method Admit(subject: string, clientId: string, email: string, issuedAt: Time, now: Time, later: Time, saved: bool)
      returns (ok: bool, err: Option<Error>)
      requires Valid() && RecordID(digest, subject, clientId) != ""
      modifies this`records, this`disk
      ensures Valid()
      ensures var (t, a) := AfterAdmit(old(View(now)),
        AgentRegistry.Admit(subject, clientId, email, issuedAt, now, later, saved), digest);
              && records == t.records && Content(disk) == t.file
              && err == (if a.Failed? then Some(a.error) else None)
              && ok == (a.Allowed? && a.ok)
    {
      if subject == "" { return true, None; }
      if loadErr.Some? { return false, Some(LoadFailed(loadErr.value)); }
      var id := RecordID(digest, subject, clientId);
      if id !in records {
        records := records[id := Record(id, subject, clientId, email, now, now, 0)];
        var _ := Save(later, saved);
        return true, None;
      }
      var rec := records[id];
      var changed := false;
      if rec.Revoked() {
        if clientId == "" || issuedAt == 0 || !(issuedAt > rec.revokedAt) { return false, None; }
        rec := rec.(revokedAt := 0);
        changed := true;
      }
      if email != "" && rec.email != email {
        rec := rec.(email := email);
        changed := true;
      }
      if changed || now - rec.lastSeen >= TOUCH_INTERVAL {
        rec := rec.(lastSeen := now);
        records := records[id := rec];
        var _ := Save(later, saved);
      }
      return true, None;
    }

    method Revoke(id: string, subject: string, now: Time, later: Time, saved: bool)
      returns (found: bool, err: Option<Error>)
      requires Valid()
      modifies this`records, this`disk
      ensures Valid()
      ensures var (t, a) := AfterRevoke(old(View(now)), AgentRegistry.Revoke(id, subject, now, later, saved));
              && records == t.records && Content(disk) == t.file
              && err == (if a.Failed? then Some(a.error) else None)
              && found == (a.Found? && a.found)
    {
      if id == "" || subject == "" { return false, None; }
      if loadErr.Some? { return false, Some(LoadFailed(loadErr.value)); }
      if id !in records || records[id].subject != subject || records[id].Revoked() { return false, None; }
      records := records[id := records[id].(revokedAt := now)];
      var ok := Save(later, saved);
      if !ok { return false, Some(SaveFailed); }
      return true, None;
    }
  }
}
