/** The sweeper's tables and what one sweep makes of them. */
module SweepSpec {
  import opened Collections
  import opened Engine

  datatype RuntimeStatus = Online | Offline

  /** A runtime row; a heartbeat that does not parse is `None`. */
  datatype Runtime = Runtime(status: RuntimeStatus, lastHeartbeat: Option<int>, registeredAt: int,
                             wentOfflineAt: Option<int>)

  datatype PhaseRow = PhaseRow(workflowId: string, phaseId: string, status: PhaseStatus, agentId: Option<string>,
                               completedAt: Option<int>, failureReason: Option<string>)

  datatype WorkflowRow = WorkflowRow(status: WorkflowStatus, updatedAt: int)

  datatype Db = Db(runtimes: map<string, Runtime>, phases: seq<PhaseRow>, workflows: map<string, WorkflowRow>)

  type Key = (string, string)

  function KeyOf(r: PhaseRow): Key {
    (r.workflowId, r.phaseId)
  }

  /** The primary key of the phase table. */
  ghost predicate Keyed(rows: seq<PhaseRow>) {
    forall i, j :: 0 <= i < j < |rows| ==> KeyOf(rows[i]) != KeyOf(rows[j])
  }

  const STALE_AGE: int := 365 * 24 * 60 * 60

  const OFFLINE_REASON: string := "runtime went offline"

  /** A corrupt heartbeat counts as a year old. */
  function Age(r: Runtime, now: int): int {
    match r.lastHeartbeat
    case Some(t) => now - t
    case None => STALE_AGE
  }

  predicate TimedOut(r: Runtime, now: int, timeout: int) {
    r.status == Online && Age(r, now) > timeout
  }

  function GoOffline(r: Runtime, now: int): Runtime {
    r.(status := Offline, wentOfflineAt := Some(now))
  }

  function NewlyOffline(db: Db, now: int, timeout: int): set<string> {
    set id | id in db.runtimes && TimedOut(db.runtimes[id], now, timeout)
  }

  function MarkAll(db: Db, ids: set<string>, now: int): Db {
    db.(runtimes := map id | id in db.runtimes ::
                      if id in ids then GoOffline(db.runtimes[id], now) else db.runtimes[id])
  }

  function OfflineIds(db: Db): set<string> {
    set id | id in db.runtimes && db.runtimes[id].status == Offline
  }

  predicate IsOrphan(r: PhaseRow, ids: set<string>) {
    r.status == Active && r.agentId.Some? && r.agentId.value in ids
  }

  /** The query for active phases of the given runtimes. */
  function Orphans(rows: seq<PhaseRow>, ids: set<string>): seq<PhaseRow> {
    Filter((r: PhaseRow) => IsOrphan(r, ids), rows)
  }

  function FailRow(r: PhaseRow, now: int): PhaseRow {
    r.(status := Failed, completedAt := Some(now), failureReason := Some(OFFLINE_REASON))
  }

  predicate Protected(s: WorkflowStatus) {
    s == WfCompleted || s == WfCancelled || s == WfUserTerminated
  }

  function FailWorkflow(w: WorkflowRow, now: int): WorkflowRow {
    if Protected(w.status) then w else WorkflowRow(WfFailed, now)
  }

  /** Fail the active phases with the given keys, and their workflows. */
  function FailKeys(db: Db, keys: set<Key>, now: int): Db {
    db.(phases := seq(|db.phases|, i requires 0 <= i < |db.phases| =>
                        if KeyOf(db.phases[i]) in keys && db.phases[i].status == Active
                        then FailRow(db.phases[i], now) else db.phases[i]),
        workflows := map w | w in db.workflows ::
                       if exists k :: k in keys && k.0 == w then FailWorkflow(db.workflows[w], now)
                       else db.workflows[w])
  }

  function KeysOf(rows: seq<PhaseRow>): set<Key> {
    set i | 0 <= i < |rows| :: KeyOf(rows[i])
  }

  function FailOrphans(db: Db, ids: set<string>, now: int): Db {
    FailKeys(db, KeysOf(Orphans(db.phases, ids)), now)
  }

  predicate Expired(r: Runtime, now: int, retention: int) {
    r.status == Offline && r.wentOfflineAt.Some? && r.wentOfflineAt.value < now - retention
  }

  function ExpiredIds(db: Db, now: int, retention: int): set<string> {
    set id | id in db.runtimes && Expired(db.runtimes[id], now, retention)
  }

  function Collect(db: Db, now: int, retention: int): Db {
    db.(runtimes := db.runtimes - ExpiredIds(db, now, retention))
  }

  datatype Report = Report(markedOffline: nat, orphanFailed: nat, reconciled: nat, gcDeleted: nat)

  /** The tables after each of the four steps. */
  function AfterTimeout(db: Db, now: int, timeout: int): Db {
    MarkAll(db, NewlyOffline(db, now, timeout), now)
  }

  function AfterOrphans(db: Db, now: int, timeout: int): Db {
    FailOrphans(AfterTimeout(db, now, timeout), NewlyOffline(db, now, timeout), now)
  }

  function AfterReconcile(db: Db, now: int, timeout: int): Db {
    FailOrphans(AfterOrphans(db, now, timeout), OfflineIds(AfterOrphans(db, now, timeout)), now)
  }

  function AfterSweep(db: Db, now: int, timeout: int, retention: int): Db {
    Collect(AfterReconcile(db, now, timeout), now, retention)
  }

  function SweepReport(db: Db, now: int, timeout: int, retention: int): Report {
    var orphans := AfterOrphans(db, now, timeout);
    Report(|NewlyOffline(db, now, timeout)|,
           |Orphans(db.phases, NewlyOffline(db, now, timeout))|,
           |Orphans(orphans.phases, OfflineIds(orphans))|,
           |ExpiredIds(AfterReconcile(db, now, timeout), now, retention)|)
  }

  // ------------------------------------------------------------------- failing orphans

  lemma InKeys(rows: seq<PhaseRow>, r: PhaseRow)
    requires r in rows
    ensures KeyOf(r) in KeysOf(rows)
  {
    var i :| 0 <= i < |rows| && rows[i] == r;
  }

  /** With a primary key, a row whose key is that of an orphan is the orphan. */
  lemma KeyMeansOrphan(rows: seq<PhaseRow>, ids: set<string>, i: nat)
    requires Keyed(rows) && i < |rows| && KeyOf(rows[i]) in KeysOf(Orphans(rows, ids))
    ensures IsOrphan(rows[i], ids)
  {
    var orphans := Orphans(rows, ids);
    var j :| 0 <= j < |orphans| && KeyOf(orphans[j]) == KeyOf(rows[i]);
    assert orphans[j] in orphans;
    var k :| 0 <= k < |rows| && rows[k] == orphans[j];
    assert k == i;
  }

  /** Failing the orphans' keys fails exactly the orphans. */
  lemma RowAfterFailing(db: Db, ids: set<string>, now: int, i: nat)
    requires Keyed(db.phases) && i < |db.phases|
    ensures FailOrphans(db, ids, now).phases[i] ==
              if IsOrphan(db.phases[i], ids) then FailRow(db.phases[i], now) else db.phases[i]
  {
    if KeyOf(db.phases[i]) in KeysOf(Orphans(db.phases, ids)) {
      KeyMeansOrphan(db.phases, ids, i);
    }
    if IsOrphan(db.phases[i], ids) {
      InKeys(Orphans(db.phases, ids), db.phases[i]);
    }
  }

  lemma FailingKeepsKeys(db: Db, ids: set<string>, now: int)
    requires Keyed(db.phases)
    ensures var r := FailOrphans(db, ids, now);
            |r.phases| == |db.phases| && Keyed(r.phases) && r.runtimes == db.runtimes &&
              r.workflows.Keys == db.workflows.Keys
  {
    var r := FailOrphans(db, ids, now);
    assert forall i :: 0 <= i < |r.phases| ==> KeyOf(r.phases[i]) == KeyOf(db.phases[i]);
  }

  lemma {:induction false} NoOrphans(rows: seq<PhaseRow>, ids: set<string>)
    requires forall i :: 0 <= i < |rows| ==> !IsOrphan(rows[i], ids)
    ensures Orphans(rows, ids) == []
  {
    if rows != [] {
      NoOrphans(rows[..|rows|-1], ids);
    }
  }

  /** Nothing to fail, nothing changes. */
  lemma NoOrphansNoChange(db: Db, ids: set<string>, now: int)
    requires forall i :: 0 <= i < |db.phases| ==> !IsOrphan(db.phases[i], ids)
    ensures Orphans(db.phases, ids) == [] && FailOrphans(db, ids, now) == db
  {
    NoOrphans(db.phases, ids);
    assert KeysOf([]) == {};
    assert FailKeys(db, {}, now).phases == db.phases;
    assert FailKeys(db, {}, now).workflows == db.workflows;
  }

  // ------------------------------------------------------------ what a sweep establishes

  lemma StepsKeepKeys(db: Db, now: int, timeout: int)
    requires Keyed(db.phases)
    ensures Keyed(AfterOrphans(db, now, timeout).phases) && Keyed(AfterReconcile(db, now, timeout).phases)
    ensures |AfterReconcile(db, now, timeout).phases| == |AfterOrphans(db, now, timeout).phases| == |db.phases|
    ensures AfterOrphans(db, now, timeout).runtimes == AfterReconcile(db, now, timeout).runtimes
              == AfterTimeout(db, now, timeout).runtimes
  {
    FailingKeepsKeys(AfterTimeout(db, now, timeout), NewlyOffline(db, now, timeout), now);
    FailingKeepsKeys(AfterOrphans(db, now, timeout), OfflineIds(AfterOrphans(db, now, timeout)), now);
  }

  /** No active phase belongs to an offline runtime once the sweep has reconciled. */
  lemma NoActiveOrphansLeft(db: Db, now: int, timeout: int, i: nat)
    requires Keyed(db.phases) && i < |AfterReconcile(db, now, timeout).phases|
    ensures !IsOrphan(AfterReconcile(db, now, timeout).phases[i], OfflineIds(AfterReconcile(db, now, timeout)))
  {
    hide FailOrphans;
    StepsKeepKeys(db, now, timeout);
    var before := AfterOrphans(db, now, timeout);
    RowAfterFailing(before, OfflineIds(before), now, i);
  }

  /** After a sweep the agent of every active phase is unregistered, or online and heard from in time. */
  lemma ActivePhasesAreLive(db: Db, now: int, timeout: int, retention: int, r: PhaseRow)
    requires Keyed(db.phases)
    requires r in AfterSweep(db, now, timeout, retention).phases && r.status == Active && r.agentId.Some?
    ensures var after := AfterSweep(db, now, timeout, retention);
            r.agentId.value in after.runtimes ==>
              after.runtimes[r.agentId.value].status == Online && Age(after.runtimes[r.agentId.value], now) <= timeout
  {
    hide AfterOrphans, AfterReconcile;
    var rec := AfterReconcile(db, now, timeout);
    var i :| 0 <= i < |rec.phases| && rec.phases[i] == r;
    NoActiveOrphansLeft(db, now, timeout, i);
    StepsKeepKeys(db, now, timeout);
  }

  /** Garbage collection removes no runtime that owns an active phase or went offline in this sweep. */
  lemma CollectionIsSafe(db: Db, now: int, timeout: int, retention: int, id: string)
    requires Keyed(db.phases) && retention >= 0
    requires id in db.runtimes && id !in AfterSweep(db, now, timeout, retention).runtimes
    ensures id !in NewlyOffline(db, now, timeout)
    ensures forall r :: r in AfterSweep(db, now, timeout, retention).phases && r.status == Active ==>
              r.agentId != Some(id)
    ensures db.runtimes[id].status == Offline && Expired(db.runtimes[id], now, retention)
  {
    hide AfterOrphans, AfterReconcile;
    var rec := AfterReconcile(db, now, timeout);
    StepsKeepKeys(db, now, timeout);
    forall r | r in rec.phases && r.status == Active
      ensures r.agentId != Some(id)
    {
      var i :| 0 <= i < |rec.phases| && rec.phases[i] == r;
      NoActiveOrphansLeft(db, now, timeout, i);
    }
  }

  lemma WorkflowAfterFailing(db: Db, ids: set<string>, now: int, w: string)
    requires w in db.workflows
    ensures var r := FailOrphans(db, ids, now).workflows;
            w in r && (|| r[w] == db.workflows[w]
                       || (!Protected(db.workflows[w].status) && r[w] == WorkflowRow(WfFailed, now)))
  {
  }

  /** A sweep never touches a completed, cancelled or user-terminated workflow; others it can only fail. */
  lemma FinishedWorkflowsAreKept(db: Db, now: int, timeout: int, retention: int, w: string)
    requires w in db.workflows
    ensures var after := AfterSweep(db, now, timeout, retention).workflows;
            w in after && (after[w] == db.workflows[w] ||
                           (!Protected(db.workflows[w].status) && after[w] == WorkflowRow(WfFailed, now)))
  {
    hide FailOrphans;
    WorkflowAfterFailing(AfterTimeout(db, now, timeout), NewlyOffline(db, now, timeout), now, w);
    WorkflowAfterFailing(AfterOrphans(db, now, timeout), OfflineIds(AfterOrphans(db, now, timeout)), now, w);
  }

  // -------------------------------------------------------------------------- counting

  /** How many rows are active in `a` and failed in `b`. */
  function WentFailed(a: seq<PhaseRow>, b: seq<PhaseRow>): nat
    requires |a| == |b|
  {
    if a == [] then 0
    else WentFailed(a[..|a|-1], b[..|b|-1]) + if a[|a|-1].status == Active && b[|b|-1].status == Failed then 1 else 0
  }

  /** Each step turns its orphans, and nothing else, from active to failed. */
  ghost predicate FailsJust(a: seq<PhaseRow>, b: seq<PhaseRow>, ids: set<string>, now: int) {
    |a| == |b| && forall i :: 0 <= i < |a| ==> b[i] == if IsOrphan(a[i], ids) then FailRow(a[i], now) else a[i]
  }

  lemma {:induction false} TwoStepsCount(a: seq<PhaseRow>, b: seq<PhaseRow>, c: seq<PhaseRow>, x: set<string>,
                                         y: set<string>, now: int)
    requires FailsJust(a, b, x, now) && FailsJust(b, c, y, now)
    ensures WentFailed(a, c) == |Orphans(a, x)| + |Orphans(b, y)|
  {
    if a != [] {
      var n := |a| - 1;
      TwoStepsCount(a[..n], b[..n], c[..n], x, y, now);
    }
  }

  lemma FailingFailsJust(db: Db, ids: set<string>, now: int)
    requires Keyed(db.phases)
    ensures FailsJust(db.phases, FailOrphans(db, ids, now).phases, ids, now)
  {
    forall i | 0 <= i < |db.phases|
      ensures FailOrphans(db, ids, now).phases[i] ==
                if IsOrphan(db.phases[i], ids) then FailRow(db.phases[i], now) else db.phases[i]
    {
      RowAfterFailing(db, ids, now, i);
    }
  }

  /** The two counters together count the phases that went from active to failed. */
  lemma ReportCountsFailures(db: Db, now: int, timeout: int, retention: int)
    requires Keyed(db.phases)
    ensures var report := SweepReport(db, now, timeout, retention);
            |AfterSweep(db, now, timeout, retention).phases| == |db.phases| &&
            report.orphanFailed + report.reconciled ==
            WentFailed(db.phases, AfterSweep(db, now, timeout, retention).phases)
  {
    hide FailOrphans;
    StepsKeepKeys(db, now, timeout);
    var mid := AfterOrphans(db, now, timeout);
    FailingFailsJust(AfterTimeout(db, now, timeout), NewlyOffline(db, now, timeout), now);
    FailingFailsJust(mid, OfflineIds(mid), now);
    TwoStepsCount(db.phases, mid.phases, AfterReconcile(db, now, timeout).phases,
                  NewlyOffline(db, now, timeout), OfflineIds(mid), now);
  }

  // ----------------------------------------------------------------------- sweeping again

  lemma NoOneTimesOutTwice(db: Db, now: int, timeout: int, retention: int)
    requires Keyed(db.phases)
    ensures NewlyOffline(AfterSweep(db, now, timeout, retention), now, timeout) == {}
    ensures AfterTimeout(AfterSweep(db, now, timeout, retention), now, timeout) ==
              AfterSweep(db, now, timeout, retention)
  {
    hide AfterOrphans, AfterReconcile;
    StepsKeepKeys(db, now, timeout);
    var after := AfterSweep(db, now, timeout, retention);
    assert NewlyOffline(after, now, timeout) == {};
    assert MarkAll(after, {}, now).runtimes == after.runtimes;
  }

  /** A second sweep at the same time changes nothing and reports zeros. */
  lemma SweepIsIdempotent(db: Db, now: int, timeout: int, retention: int)
    requires Keyed(db.phases)
    ensures var after := AfterSweep(db, now, timeout, retention);
            AfterSweep(after, now, timeout, retention) == after &&
              SweepReport(after, now, timeout, retention) == Report(0, 0, 0, 0)
  {
    var after := AfterSweep(db, now, timeout, retention);
    var rec := AfterReconcile(db, now, timeout);
    NoOneTimesOutTwice(db, now, timeout, retention);
    NoOrphansNoChange(after, {}, now);
    assert AfterOrphans(after, now, timeout) == after;
    forall i | 0 <= i < |after.phases|
      ensures !IsOrphan(after.phases[i], OfflineIds(after))
    {
      NoActiveOrphansLeft(db, now, timeout, i);
    }
    NoOrphansNoChange(after, OfflineIds(after), now);
    assert AfterReconcile(after, now, timeout) == after;
    assert ExpiredIds(after, now, retention) == {};
    assert after.runtimes - {} == after.runtimes;
  }
}
