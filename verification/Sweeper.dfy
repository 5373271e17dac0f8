/** The runtime registry and the sweep over its tables. */
module Sweeper {
  import opened Collections
  import opened Engine
  import opened SweepSpec

  const SQLITE_VARIABLE_LIMIT: nat := 999

  // ------------------------------------------------------------------ chunked queries

  lemma {:induction false} OrphansSplit(rows: seq<PhaseRow>, a: set<string>, b: set<string>)
    requires a !! b
    ensures multiset(Orphans(rows, a + b)) == multiset(Orphans(rows, a)) + multiset(Orphans(rows, b))
  {
    if rows != [] {
      OrphansSplit(rows[..|rows|-1], a, b);
    }
  }

  lemma NoIdsNoOrphans(rows: seq<PhaseRow>)
    ensures Orphans(rows, {}) == []
  {
    NoOrphans(rows, {});
  }

  /** Failing keys one after the other is failing them together. */
  lemma FailKeysOneMore(db: Db, keys: set<Key>, k: Key, now: int)
    ensures FailKeys(FailKeys(db, keys, now), {k}, now) == FailKeys(db, keys + {k}, now)
  {
    var a, b := FailKeys(FailKeys(db, keys, now), {k}, now), FailKeys(db, keys + {k}, now);
    assert a.phases == b.phases;
    forall w | w in db.workflows
      ensures a.workflows[w] == b.workflows[w]
    {
      assert k.0 == w ==> k in keys + {k};
      assert forall x :: x in keys ==> x in keys + {k};
    }
    assert a.workflows == b.workflows;
  }

  lemma NoKeysNoChange(db: Db, now: int)
    ensures FailKeys(db, {}, now) == db
  {
    assert FailKeys(db, {}, now).phases == db.phases;
    assert FailKeys(db, {}, now).workflows == db.workflows;
  }

  lemma SameMultisetSameKeys(a: seq<PhaseRow>, b: seq<PhaseRow>)
    requires multiset(a) == multiset(b)
    ensures KeysOf(a) == KeysOf(b) && |a| == |b|
  {
    forall k
      ensures k in KeysOf(a) ==> k in KeysOf(b)
      ensures k in KeysOf(b) ==> k in KeysOf(a)
    {
      if k in KeysOf(a) {
        var i :| 0 <= i < |a| && KeyOf(a[i]) == k;
        assert a[i] in multiset(b);
        InKeys(b, a[i]);
      }
      if k in KeysOf(b) {
        var i :| 0 <= i < |b| && KeyOf(b[i]) == k;
        assert b[i] in multiset(a);
        InKeys(a, b[i]);
      }
    }
    assert |multiset(a)| == |multiset(b)|;
  }

  class RuntimeRegistry {
    var runtimes: map<string, Runtime>
    var phases: seq<PhaseRow>
    var workflows: map<string, WorkflowRow>

    /** The tables as one value. */
    function Tables(): Db
      reads this
    {
      Db(runtimes, phases, workflows)
    }

    constructor (db: Db)
      ensures Tables() == db
    {
      runtimes, phases, workflows := db.runtimes, db.phases, db.workflows;
    }

    /** Register a runtime, or bring it back online; its registration time is kept. */
    method UpsertHeartbeat(id: string, now: int)
      modifies this
      ensures Tables() == old(Tables()).(runtimes := runtimes)
      ensures runtimes.Keys == old(runtimes.Keys) + {id}
      ensures runtimes[id].status == Online && runtimes[id].lastHeartbeat == Some(now) &&
              runtimes[id].wentOfflineAt == None
      ensures runtimes[id].registeredAt == if id in old(runtimes) then old(runtimes)[id].registeredAt else now
      ensures forall other :: other in old(runtimes) && other != id ==> runtimes[other] == old(runtimes)[other]
    {
      if id in runtimes {
        runtimes := runtimes[id := runtimes[id].(status := Online, lastHeartbeat := Some(now), wentOfflineAt := None)];
      } else {
        runtimes := runtimes[id := Runtime(Online, Some(now), now, None)];
      }
    }

    /** Only a runtime that is not offline yet is stamped. */
    method MarkOffline(id: string, now: int)
      modifies this`runtimes
      ensures runtimes == if id in old(runtimes) && old(runtimes)[id].status != Offline
                          then old(runtimes)[id := GoOffline(old(runtimes)[id], now)] else old(runtimes)
    {
      if id in runtimes && runtimes[id].status != Offline {
        runtimes := runtimes[id := GoOffline(runtimes[id], now)];
      }
    }

    method GcOffline(now: int, retention: int) returns (deleted: nat)
      modifies this`runtimes
      ensures Tables() == Collect(old(Tables()), now, retention)
      ensures deleted == |ExpiredIds(old(Tables()), now, retention)|
    {
      var expired := set id | id in runtimes && Expired(runtimes[id], now, retention);
      deleted := |expired|;
      runtimes := runtimes - expired;
    }

    /** The orphan query, batched by the bound-variable limit: it finds what one query would. */
    method ActivePhasesForRuntimes(offlineIds: seq<string>) returns (all: seq<PhaseRow>)
      requires Distinct(offlineIds)
      ensures multiset(all) == multiset(Orphans(phases, ToSet(offlineIds)))
    {
      all := [];
      var start: nat := 0;
      NoIdsNoOrphans(phases);
      assert ToSet(offlineIds[..0]) == {};
      while start < |offlineIds|
        invariant start <= |offlineIds|
        invariant multiset(all) == multiset(Orphans(phases, ToSet(offlineIds[..start])))
      {
        var end := if start + SQLITE_VARIABLE_LIMIT < |offlineIds| then start + SQLITE_VARIABLE_LIMIT else |offlineIds|;
        var chunk := offlineIds[start..end];
        var rows := Orphans(phases, ToSet(chunk));
        ChunkExtends(offlineIds, start, end);
        OrphansSplit(phases, ToSet(offlineIds[..start]), ToSet(chunk));
        all := all + rows;
        start := end;
      }
      assert offlineIds[..start] == offlineIds;
    }

    /** Fail one active phase, and its workflow unless it is already over. */
    method FailPhase(key: Key, now: int)
      modifies this`phases, this`workflows
      ensures Tables() == FailKeys(old(Tables()), {key}, now)
    {
      var rows := phases;
      phases := seq(|rows|, i requires 0 <= i < |rows| =>
                      if KeyOf(rows[i]) == key && rows[i].status == Active then FailRow(rows[i], now) else rows[i]);
      if key.0 in workflows && !Protected(workflows[key.0].status) {
        workflows := workflows[key.0 := WorkflowRow(WfFailed, now)];
      }
      assert key in {key};
      assert workflows == FailKeys(old(Tables()), {key}, now).workflows;
    }

    /** Fail the phases of the given runtimes one by one. */
    method FailOrphansOf(ids: seq<string>, now: int) returns (count: nat)
      requires Distinct(ids)
      modifies this`phases, this`workflows
      ensures Tables() == FailOrphans(old(Tables()), ToSet(ids), now)
      ensures count == |Orphans(old(phases), ToSet(ids))|
    {
      ghost var db := Tables();
      var orphans := ActivePhasesForRuntimes(ids);
      count := 0;
      NoKeysNoChange(db, now);
      assert KeysOf(orphans[..0]) == {};
      for k := 0 to |orphans|
        invariant count == k
        invariant Tables() == FailKeys(db, KeysOf(orphans[..k]), now)
      {
        FailPhase(KeyOf(orphans[k]), now);
        FailKeysOneMore(db, KeysOf(orphans[..k]), KeyOf(orphans[k]), now);
        assert KeysOf(orphans[..k+1]) == KeysOf(orphans[..k]) + {KeyOf(orphans[k])};
        count := count + 1;
      }
      assert orphans[..|orphans|] == orphans;
      SameMultisetSameKeys(orphans, Orphans(db.phases, ToSet(ids)));
    }

    /** The ids of a set of runtimes, in some order. */
    method Listed(ids: set<string>) returns (list: seq<string>)
      ensures Distinct(list) && ToSet(list) == ids
    {
      list := [];
      var rest := ids;
      while rest != {}
        invariant rest <= ids && Distinct(list)
        invariant forall id :: id in list <==> id in ids && id !in rest
      {
        var id :| id in rest;
        list := list + [id];
        rest := rest - {id};
      }
    }

    /** The heartbeat step: stamp every runtime that has timed out. */
    method TimeOutRuntimes(now: int, timeout: int) returns (newlyOffline: seq<string>)
      modifies this`runtimes
      ensures Distinct(newlyOffline) && ToSet(newlyOffline) == NewlyOffline(old(Tables()), now, timeout)
      ensures Tables() == AfterTimeout(old(Tables()), now, timeout)
    {
      ghost var db := Tables();
      var allRuntimes := runtimes;
      var todo := runtimes.Keys;
      newlyOffline := [];
      while todo != {}
        invariant todo <= db.runtimes.Keys && Distinct(newlyOffline)
        invariant forall id :: id in newlyOffline <==>
                  id in db.runtimes && id !in todo && TimedOut(db.runtimes[id], now, timeout)
        invariant runtimes == MarkAll(db, ToSet(newlyOffline), now).runtimes
      {
        var id :| id in todo;
        var entry := allRuntimes[id];
        if entry.status == Online && Age(entry, now) > timeout {
          MarkOffline(id, now);
          newlyOffline := newlyOffline + [id];
        }
        todo := todo - {id};
      }
      assert ToSet(newlyOffline) == NewlyOffline(db, now, timeout);
    }

    /** Active phases of runtimes that went offline at any time. */
    method ReconcileOfflinePhases(now: int) returns (count: nat)
      modifies this`phases, this`workflows
      ensures Tables() == FailOrphans(old(Tables()), OfflineIds(old(Tables())), now)
      ensures count == |Orphans(old(phases), OfflineIds(old(Tables())))|
    {
      var offline := Listed(set id | id in runtimes && runtimes[id].status == Offline);
      assert ToSet(offline) == OfflineIds(Tables());
      if offline == [] {
        assert OfflineIds(Tables()) == ToSet([]) == {};
        NoOrphansNoChange(Tables(), {}, now);
        return 0;
      }
      count := FailOrphansOf(offline, now);
    }

    /** One sweep: time out, fail orphans, reconcile, collect. */
    method RunSweep(now: int, timeout: int, retention: int) returns (report: Report)
      modifies this
      ensures Tables() == AfterSweep(old(Tables()), now, timeout, retention)
      ensures report == SweepReport(old(Tables()), now, timeout, retention)
    {
      hide FailOrphans;
      var newlyOffline := TimeOutRuntimes(now, timeout);
      DistinctCardinality(newlyOffline);
      var orphanFailed: nat := 0;
      if newlyOffline != [] {
        orphanFailed := FailOrphansOf(newlyOffline, now);
      } else {
        NoIdsNoOrphans(phases);
        NoOrphansNoChange(Tables(), {}, now);
      }
      var reconciled := ReconcileOfflinePhases(now);
      var deleted := GcOffline(now, retention);
      report := Report(|newlyOffline|, orphanFailed, reconciled, deleted);
    }
  }

  lemma ChunkExtends(ids: seq<string>, start: nat, end: nat)
    requires Distinct(ids) && start <= end <= |ids|
    ensures ToSet(ids[..start]) !! ToSet(ids[start..end])
    ensures ToSet(ids[..end]) == ToSet(ids[..start]) + ToSet(ids[start..end])
  {
    assert ids[..end] == ids[..start] + ids[start..end];
  }
}
