/** The session store as the hub holds it: records cached in memory, written through to one
    file. Every method reads the clock through its Time parameters, in the order the parameters
    are listed, and saved says whether the write reached the file. */
module SessionStore {
  import opened Prelude
  import opened SessionRegistry

  /** What reading back a list of records yields: entries with no id are skipped, and the last
      of several entries with one id stands. */
  function Loaded(recs: seq<Record>): Records {
    if recs == [] then map[]
    else
      var before := Loaded(recs[..|recs| - 1]);
      var rec := recs[|recs| - 1];
      if rec.id == "" then before else before[rec.id := rec]
  }

  datatype Disk = NoFile | NotJson | Json(recs: seq<Record>)

  function Content(d: Disk): File {
    match d
    case NoFile => Missing
    case NotJson => Garbled
    case Json(recs) => Saved(Loaded(recs))
  }

  lemma LoadedAppend(recs: seq<Record>, rec: Record)
    ensures Loaded(recs + [rec]) == if rec.id == "" then Loaded(recs) else Loaded(recs)[rec.id := rec]
  {
    assert (recs + [rec])[..|recs|] == recs;
  }

  /** A record stored between two prunes: only the later prune matters. */
  lemma PruneAround(m: Records, rec: Record, pruned: Time, later: Time)
    requires pruned <= later
    ensures Pruned(Pruned(m, pruned)[rec.id := rec], later) == Pruned(m[rec.id := rec], later)
  {
  }

  class Store {
    const policy: Policy
    var disk: Disk
    var records: Records
    var loadErr: Option<LoadError>

    ghost function View(clock: Time): State
      reads this
    {
      State(records, loadErr, Content(disk), clock)
    }

    ghost predicate Valid()
      reads this
    {
      Keyed(records)
    }

    /** New: load, prune, and write a prune back best effort. */
    constructor (disk: Disk, policy: Policy, readable: bool, now: Time, later: Time, saved: bool)
      ensures Valid() && this.policy == policy
      ensures forall s: State :: s.file == Content(disk) ==>
        var t := AfterRestart(s, readable, now, later, saved).0;
        records == t.records && loadErr == t.loadErr && Content(this.disk) == t.file
    {
      this.policy := policy;
      this.disk := disk;
      records := map[];
      loadErr := None;
      new;
      Load(readable);
      if loadErr == None {
        var removed := Prune(now);
        if removed > 0 {
          var _ := Save(later, saved);
        }
      }
    }

    method Load(readable: bool)
      modifies this`records, this`loadErr
      ensures Valid()
      ensures disk.NoFile? ==> loadErr == None && records == map[]
      ensures !disk.NoFile? && !readable ==> loadErr == Some(Unreadable) && records == map[]
      ensures disk.NotJson? && readable ==> loadErr == Some(Corrupt) && records == map[]
      ensures disk.Json? && readable ==> loadErr == None && records == Loaded(disk.recs)
    {
      records, loadErr := map[], None;
      if disk.NoFile? {
        return;
      }
      if !readable {
        loadErr := Some(Unreadable);
        return;
      }
      if disk.NotJson? {
        loadErr := Some(Corrupt);
        return;
      }
      var recs := disk.recs;
      for i := 0 to |recs|
        invariant records == Loaded(recs[..i]) && Valid() && loadErr == None
      {
        assert recs[..i + 1] == recs[..i] + [recs[i]];
        LoadedAppend(recs[..i], recs[i]);
        if recs[i].id != "" {
          records := records[recs[i].id := recs[i]];
        }
      }
      assert recs[..|recs|] == recs;
    }

    method Prune(now: Time) returns (removed: nat)
      requires Valid()
      modifies this`records
      ensures Valid() && records == Pruned(old(records), now)
      ensures removed == 0 <==> records == old(records)
    {
      removed := 0;
      var todo := records.Keys;
      while todo != {}
        invariant todo <= records.Keys <= old(records).Keys
        invariant forall id :: id in old(records) ==>
          (id in records <==> id in todo || Live(old(records)[id], now))
        invariant forall id :: id in records ==> records[id] == old(records)[id]
        invariant removed == 0 <==> records.Keys == old(records).Keys
        decreases todo
      {
        var id :| id in todo;
        if !Live(records[id], now) {
          assert id in old(records) && id !in (records - {id});
          records := records - {id};
          removed := removed + 1;
        }
        todo := todo - {id};
      }
    }

    /** Prune, list the records, and replace the whole file or leave it as it was. */
    method Save(later: Time, saved: bool) returns (ok: bool)
      requires Valid()
      modifies this`records, this`disk
      ensures Valid() && ok == saved
      ensures records == Pruned(old(records), later)
      ensures Content(disk) == if saved then Saved(records) else Content(old(disk))
    {
      var _ := Prune(later);
      var kept := records;
      var recs: seq<Record> := [];
      var todo := kept.Keys;
      while todo != {}
        invariant records == kept && disk == old(disk)
        invariant todo <= kept.Keys && Loaded(recs).Keys == kept.Keys - todo
        invariant forall id :: id in Loaded(recs) ==> Loaded(recs)[id] == kept[id]
        decreases todo
      {
        var id :| id in todo;
        LoadedAppend(recs, kept[id]);
        recs := recs + [kept[id]];
        todo := todo - {id};
      }
      assert Loaded(recs) == kept;
      if saved {
        disk := Json(recs);
      }
      return saved;
    }

    method Create(rec: Record, now: Time, pruned: Time, later: Time, saved: bool) returns (err: Option<Error>)
      requires Valid() && now <= pruned <= later
      modifies this`records, this`disk
      ensures Valid()
      ensures var (t, a) := AfterCreate(old(View(now)), rec, now, later, saved, policy);
              && records == t.records && Content(disk) == t.file
              && err == if a.Failed? then Some(a.error) else None
    {
      if rec.id == "" { return Some(IdRequired); }
      if rec.subject == "" { return Some(SubjectRequired); }
      if rec.expiresAt == 0 { return Some(ExpiryRequired); }
      if loadErr.Some? { return Some(LoadFailed(loadErr.value)); }
      var r := rec;
      if r.createdAt == 0 { r := r.(createdAt := now); }
      if r.lastSeen == 0 { r := r.(lastSeen := r.createdAt); }
      var limit := HardExpiry(r, policy);
      if limit.Some? && r.expiresAt > limit.value { r := r.(expiresAt := limit.value); }
      assert r == Admitted(rec, now, policy);
      PruneAround(records, r, pruned, later);
      var _ := Prune(pruned);
      records := records[rec.id := r];
      var ok := Save(later, saved);
      return if ok then None else Some(SaveFailed);
    }

    method Lookup(id: string, now: Time) returns (rec: Option<Record>, err: Option<Error>)
      ensures var a := AfterLookup(View(now), id, now).1;
              && err == (if a.Failed? then Some(a.error) else None)
              && rec == if a.Hit? then Some(a.rec) else None
    {
      if id == "" { return None, None; }
      if loadErr.Some? { return None, Some(LoadFailed(loadErr.value)); }
      if id !in records || !(now < records[id].expiresAt) { return None, None; }
      return Some(records[id]), None;
    }

    method Renew(id: string, now: Time, later: Time, saved: bool)
      returns (rec: Option<Record>, extended: bool, err: Option<Error>)
      requires Valid()
      modifies this`records, this`disk
      ensures Valid()
      ensures var (t, a) := AfterRenew(old(View(now)), id, now, later, saved, policy);
              && records == t.records && Content(disk) == t.file
              && err == (if a.Failed? then Some(a.error) else None)
              && rec == (if a.Hit? then Some(a.rec) else None)
              && extended == (a.Hit? && a.extended)
    {
      if id == "" { return None, false, None; }
      if loadErr.Some? { return None, false, Some(LoadFailed(loadErr.value)); }
      if id !in records || !(now < records[id].expiresAt) { return None, false, None; }
      var r := records[id];
      if now - r.lastSeen < TOUCH_INTERVAL { return Some(r), false, None; }
      r := r.(lastSeen := now);
      extended := false;
      if policy.idleTTL > 0 {
        var want := now + policy.idleTTL;
        var limit := HardExpiry(r, policy);
        if limit.Some? && want > limit.value { want := limit.value; }
        if want > r.expiresAt {
          r := r.(expiresAt := want);
          extended := true;
        }
      }
      records := records[id := r];
      var _ := Save(later, saved);
      return Some(r), extended, None;
    }

    method Revoke(id: string, subject: string, now: Time, later: Time, saved: bool)
      returns (found: bool, err: Option<Error>)
      requires Valid()
      modifies this`records, this`disk
      ensures Valid()
      ensures var (t, a) := AfterRevoke(old(View(now)), id, subject, now, later, saved);
              && records == t.records && Content(disk) == t.file
              && err == (if a.Failed? then Some(a.error) else None)
              && found == (a.Found? && a.found)
    {
      if id == "" || subject == "" { return false, None; }
      if loadErr.Some? { return false, Some(LoadFailed(loadErr.value)); }
      if id !in records || records[id].subject != subject || !(now < records[id].expiresAt) { return false, None; }
      records := records - {id};
      var ok := Save(later, saved);
      if !ok { return false, Some(SaveFailed); }
      return true, None;
    }

    method End(id: string, later: Time, saved: bool) returns (err: Option<Error>)
      requires Valid()
      modifies this`records, this`disk
      ensures Valid()
      ensures var (t, a) := AfterEnd(old(View(later)), id, later, saved);
              && records == t.records && Content(disk) == t.file
              && err == if a.Failed? then Some(a.error) else None
    {
      if id == "" { return None; }
      if loadErr.Some? { return Some(LoadFailed(loadErr.value)); }
      if id !in records { return None; }
      records := records - {id};
      var ok := Save(later, saved);
      if !ok { return Some(SaveFailed); }
      return None;
    }
  }
}
