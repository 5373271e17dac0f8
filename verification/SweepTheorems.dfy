/** What one sweep makes of every row, field by field. */
module SweepTheorems {
  import opened Collections
  import opened Engine
  import opened SweepSpec

  /** An online runtime not heard from within the timeout; a heartbeat that does not parse is a year old. */
  predicate Stale(r: Runtime, now: int, timeout: int) {
    && r.status == Online
    && match r.lastHeartbeat
       case Some(t) => now - t > timeout
       case None => 31_536_000 > timeout
  }

  lemma StaleIsTimedOut(r: Runtime, now: int, timeout: int)
    ensures TimedOut(r, now, timeout) <==> Stale(r, now, timeout)
  {
  }

  /** The runtime is registered, and offline or about to be. */
  predicate Dead(db: Db, id: string, now: int, timeout: int) {
    id in db.runtimes && (db.runtimes[id].status == Offline || Stale(db.runtimes[id], now, timeout))
  }

  /** Offline for longer than the retention. */
  predicate Overdue(r: Runtime, now: int, retention: int) {
    r.status == Offline && r.wentOfflineAt.Some? && r.wentOfflineAt.value < now - retention
  }

  // ------------------------------------------------------------------------- runtimes

  lemma RuntimesAfterTimeout(db: Db, now: int, timeout: int, id: string)
    requires id in db.runtimes
    ensures id in AfterTimeout(db, now, timeout).runtimes
    ensures AfterTimeout(db, now, timeout).runtimes.Keys == db.runtimes.Keys
    ensures AfterTimeout(db, now, timeout).runtimes[id] ==
              if Stale(db.runtimes[id], now, timeout)
              then db.runtimes[id].(status := Offline, wentOfflineAt := Some(now)) else db.runtimes[id]
  {
  }

  /** A sweep deletes the overdue runtimes, stamps the stale ones and keeps every other. */
  lemma RuntimeAfterSweep(db: Db, now: int, timeout: int, retention: int, id: string)
    requires Keyed(db.phases) && retention >= 0
    ensures var after := AfterSweep(db, now, timeout, retention).runtimes;
            && (id in after <==> id in db.runtimes && !Overdue(db.runtimes[id], now, retention))
            && (id in after ==>
                  after[id] == if Stale(db.runtimes[id], now, timeout)
                               then db.runtimes[id].(status := Offline, wentOfflineAt := Some(now))
                               else db.runtimes[id])
  {
    StepsKeepKeys(db, now, timeout);
    if id in db.runtimes {
      RuntimesAfterTimeout(db, now, timeout, id);
    }
    hide AfterReconcile, AfterTimeout;
  }

  // --------------------------------------------------------------------------- phases

  /** The sweep fails this row: an active phase of a registered runtime that is offline or stale. */
  predicate Swept(db: Db, r: PhaseRow, now: int, timeout: int) {
    r.status == Active && r.agentId.Some? && Dead(db, r.agentId.value, now, timeout)
  }

  /** Exactly the phases of dead runtimes fail, with the time and the reason. */
  lemma PhaseAfterSweep(db: Db, now: int, timeout: int, retention: int, i: nat)
    requires Keyed(db.phases) && i < |db.phases|
    ensures var after := AfterSweep(db, now, timeout, retention).phases;
            && |after| == |db.phases|
            && after[i] == if Swept(db, db.phases[i], now, timeout)
                           then db.phases[i].(status := Failed, completedAt := Some(now),
                                              failureReason := Some("runtime went offline"))
                           else db.phases[i]
  {
    StepsKeepKeys(db, now, timeout);
    var first, second := NewlyOffline(db, now, timeout), OfflineIds(AfterOrphans(db, now, timeout));
    RowAfterFailing(AfterTimeout(db, now, timeout), first, now, i);
    RowAfterFailing(AfterOrphans(db, now, timeout), second, now, i);
    OfflineIsDead(db, now, timeout);
    hide FailOrphans;
  }

  /** The runtimes the second pass looks at are the dead ones. */
  lemma OfflineIsDead(db: Db, now: int, timeout: int)
    requires Keyed(db.phases)
    ensures forall id :: id in OfflineIds(AfterOrphans(db, now, timeout)) <==> Dead(db, id, now, timeout)
    ensures NewlyOffline(db, now, timeout) <= OfflineIds(AfterOrphans(db, now, timeout))
    ensures forall id ::
              id in NewlyOffline(db, now, timeout) <==> id in db.runtimes && Stale(db.runtimes[id], now, timeout)
  {
    StepsKeepKeys(db, now, timeout);
    hide AfterOrphans;
    assert AfterTimeout(db, now, timeout).runtimes.Keys == db.runtimes.Keys;
  }

  // ------------------------------------------------------------------------ workflows

  /** Some phase of the workflow fails in this sweep. */
  ghost predicate LosesPhase(db: Db, w: string, now: int, timeout: int) {
    exists i :: 0 <= i < |db.phases| && db.phases[i].workflowId == w && Swept(db, db.phases[i], now, timeout)
  }

  lemma OrphanKeys(rows: seq<PhaseRow>, ids: set<string>, w: string)
    ensures (exists k :: k in KeysOf(Orphans(rows, ids)) && k.0 == w) <==>
              exists i :: 0 <= i < |rows| && rows[i].workflowId == w && IsOrphan(rows[i], ids)
  {
    var orphans := Orphans(rows, ids);
    if i :| 0 <= i < |rows| && rows[i].workflowId == w && IsOrphan(rows[i], ids) {
      assert rows[i] in orphans;
      InKeys(orphans, rows[i]);
      assert KeyOf(rows[i]) in KeysOf(orphans) && KeyOf(rows[i]).0 == w;
    }
    if k :| k in KeysOf(orphans) && k.0 == w {
      var j :| 0 <= j < |orphans| && KeyOf(orphans[j]) == k;
      assert orphans[j] in orphans;
      var i :| 0 <= i < |rows| && rows[i] == orphans[j];
    }
  }

  /** Failing orphans fails the workflows that have one, unless they are over. */
  lemma WorkflowAfterStep(db: Db, ids: set<string>, now: int, w: string)
    requires w in db.workflows
    ensures var after := FailOrphans(db, ids, now).workflows;
            && w in after
            && after[w] == if (exists i :: 0 <= i < |db.phases| && db.phases[i].workflowId == w
                                           && IsOrphan(db.phases[i], ids))
                              && db.workflows[w].status != WfCompleted && db.workflows[w].status != WfCancelled
                              && db.workflows[w].status != WfUserTerminated
                           then WorkflowRow(WfFailed, now) else db.workflows[w]
  {
    OrphanKeys(db.phases, ids, w);
    hide Orphans, KeysOf;
  }

  /** Exactly the workflows that lose a phase and are not over become failed, at the time of the sweep. */
  lemma WorkflowAfterSweep(db: Db, now: int, timeout: int, retention: int, w: string)
    requires Keyed(db.phases) && w in db.workflows
    ensures var after := AfterSweep(db, now, timeout, retention).workflows;
            && after.Keys == db.workflows.Keys
            && after[w] == if LosesPhase(db, w, now, timeout)
                              && db.workflows[w].status != WfCompleted && db.workflows[w].status != WfCancelled
                              && db.workflows[w].status != WfUserTerminated
                           then WorkflowRow(WfFailed, now) else db.workflows[w]
  {
    var timed, orphaned := AfterTimeout(db, now, timeout), AfterOrphans(db, now, timeout);
    var first, second := NewlyOffline(db, now, timeout), OfflineIds(orphaned);
    FailingKeepsKeys(timed, first, now);
    FailingKeepsKeys(orphaned, second, now);
    WorkflowAfterStep(timed, first, now, w);
    WorkflowAfterStep(orphaned, second, now, w);
    OfflineIsDead(db, now, timeout);
    TwoPassesCover(db, now, timeout, w);
    hide FailOrphans;
  }

  /** A workflow loses a phase exactly when one of the two passes finds one. */
  lemma TwoPassesCover(db: Db, now: int, timeout: int, w: string)
    requires Keyed(db.phases)
    ensures var orphaned := AfterOrphans(db, now, timeout);
            LosesPhase(db, w, now, timeout) <==>
              || (exists i :: 0 <= i < |db.phases| && db.phases[i].workflowId == w
                              && IsOrphan(db.phases[i], NewlyOffline(db, now, timeout)))
              || (exists i :: 0 <= i < |orphaned.phases| && orphaned.phases[i].workflowId == w
                              && IsOrphan(orphaned.phases[i], OfflineIds(orphaned)))
  {
    var first, orphaned := NewlyOffline(db, now, timeout), AfterOrphans(db, now, timeout);
    StepsKeepKeys(db, now, timeout);
    OfflineIsDead(db, now, timeout);
    forall i: nat | i < |db.phases|
      ensures orphaned.phases[i].workflowId == db.phases[i].workflowId
      ensures Swept(db, db.phases[i], now, timeout) <==>
                IsOrphan(db.phases[i], first) || IsOrphan(orphaned.phases[i], OfflineIds(orphaned))
    {
      RowAfterFailing(AfterTimeout(db, now, timeout), first, now, i);
    }
    hide AfterOrphans, FailOrphans, NewlyOffline, OfflineIds, Swept, IsOrphan;
  }

  // --------------------------------------------------------------------------- report

  lemma {:induction false} FilterCounts(rows: seq<PhaseRow>, ids: set<string>)
    ensures |Orphans(rows, ids)| == |set i | 0 <= i < |rows| && IsOrphan(rows[i], ids)|
  {
    if rows != [] {
      var front, n := rows[..|rows|-1], |rows| - 1;
      FilterCounts(front, ids);
      var a := set i | 0 <= i < |front| && IsOrphan(front[i], ids);
      var b := set i | 0 <= i < |rows| && IsOrphan(rows[i], ids);
      assert b == if IsOrphan(rows[n], ids) then a + {n} else a;
    }
  }

  /** The four counters: runtimes gone stale, their phases, phases of runtimes offline before, runtimes deleted. */
  lemma ReportCounts(db: Db, now: int, timeout: int, retention: int)
    requires Keyed(db.phases) && retention >= 0
    ensures var report := SweepReport(db, now, timeout, retention);
            && report.markedOffline == |set id | id in db.runtimes && Stale(db.runtimes[id], now, timeout)|
            && report.gcDeleted == |set id | id in db.runtimes && Overdue(db.runtimes[id], now, retention)|
            && report.orphanFailed ==
                 |set i | 0 <= i < |db.phases| && db.phases[i].status == Active && db.phases[i].agentId.Some?
                          && db.phases[i].agentId.value in db.runtimes
                          && Stale(db.runtimes[db.phases[i].agentId.value], now, timeout)|
  {
    StepsKeepKeys(db, now, timeout);
    OfflineIsDead(db, now, timeout);
    FilterCounts(db.phases, NewlyOffline(db, now, timeout));
    var stale := set id | id in db.runtimes && Stale(db.runtimes[id], now, timeout);
    assert NewlyOffline(db, now, timeout) == stale;
    var overdue := set id | id in db.runtimes && Overdue(db.runtimes[id], now, retention);
    assert ExpiredIds(AfterReconcile(db, now, timeout), now, retention) == overdue by {
      hide AfterReconcile;
    }
    var a := set i | 0 <= i < |db.phases| && IsOrphan(db.phases[i], NewlyOffline(db, now, timeout));
    var b := set i | 0 <= i < |db.phases| && db.phases[i].status == Active && db.phases[i].agentId.Some?
                     && db.phases[i].agentId.value in db.runtimes
                     && Stale(db.runtimes[db.phases[i].agentId.value], now, timeout);
    assert a == b;
  }
}
