/** Reading workflows back: one query per workflow against the batched read. */
module StoreReads {
  import opened Collections
  import opened Sorting
  import opened StringOrder

  /** A row of the phase table; the columns besides the key are parsed after the query. */
  datatype PhaseRecord = PhaseRecord(workflowId: string, order: int, columns: string)

  datatype WorkflowRecord = WorkflowRecord(workflowId: string, columns: string)

  datatype Loaded<+H, +P> = Loaded(workflowId: string, header: H, phases: seq<P>)

  type Parser<!V> = string -> Option<V>

  const BATCH: nat := 999

  function OrderKey(): PhaseRecord -> int {
    (r: PhaseRecord) => r.order
  }

  function Of(table: seq<PhaseRecord>, id: string): seq<PhaseRecord> {
    Filter((r: PhaseRecord) => r.workflowId == id, table)
  }

  function In(table: seq<PhaseRecord>, ids: set<string>): seq<PhaseRecord> {
    Filter((r: PhaseRecord) => r.workflowId in ids, table)
  }

  /** Within a workflow no two phases share a position. */
  ghost predicate DistinctOrders(table: seq<PhaseRecord>) {
    forall i, j :: 0 <= i < j < |table| && table[i].workflowId == table[j].workflowId ==>
      table[i].order != table[j].order
  }

  ghost predicate AscendsWithinWorkflows(rows: seq<PhaseRecord>) {
    forall i, j :: 0 <= i < j < |rows| && rows[i].workflowId == rows[j].workflowId ==> rows[i].order <= rows[j].order
  }

  /** What the query orders by: the workflow, then the position. */
  predicate Ordered(a: PhaseRecord, b: PhaseRecord) {
    Before(a.workflowId, b.workflowId) || (a.workflowId == b.workflowId && a.order <= b.order)
  }

  ghost predicate InOrder(rows: seq<PhaseRecord>) {
    forall i, j :: 0 <= i < j < |rows| ==> Ordered(rows[i], rows[j])
  }

  /** An answer of the database to a query for the phases of `ids`, ordered by workflow and position. */
  ghost predicate IsAnswer(table: seq<PhaseRecord>, ids: set<string>, rows: seq<PhaseRecord>) {
    multiset(rows) == multiset(In(table, ids)) && InOrder(rows)
  }

  lemma InOrderAscends(rows: seq<PhaseRecord>)
    requires InOrder(rows)
    ensures AscendsWithinWorkflows(rows)
  {
    forall i, j | 0 <= i < j < |rows| && rows[i].workflowId == rows[j].workflowId
      ensures rows[i].order <= rows[j].order
    {
      assert Ordered(rows[i], rows[j]);
      BeforeIsIrreflexive(rows[i].workflowId);
    }
  }

  /** The database: every query gets some answer. */
  type Database = set<string> -> seq<PhaseRecord>

  ghost predicate Answers(table: seq<PhaseRecord>, query: Database) {
    forall ids :: IsAnswer(table, ids, query(ids))
  }

  // -------------------------------------------------------- batches hold the same groups

  lemma {:induction false} FilterMultiset(keep: PhaseRecord -> bool, rows: seq<PhaseRecord>, x: PhaseRecord)
    ensures multiset(Filter(keep, rows))[x] == if keep(x) then multiset(rows)[x] else 0
  {
    if rows != [] {
      var front, last := rows[..|rows|-1], rows[|rows|-1];
      assert rows == front + [last];
      FilterMultiset(keep, front, x);
    }
  }

  lemma {:induction false} FilterAscends(keep: PhaseRecord -> bool, rows: seq<PhaseRecord>)
    requires AscendsWithinWorkflows(rows)
    ensures AscendsWithinWorkflows(Filter(keep, rows))
  {
    if rows != [] {
      var front, last := rows[..|rows|-1], rows[|rows|-1];
      FilterAscends(keep, front);
      var r := Filter(keep, front);
      forall i | 0 <= i < |r| && r[i].workflowId == last.workflowId
        ensures r[i].order <= last.order
      {
        assert r[i] in front;
        var j :| 0 <= j < |front| && front[j] == r[i];
        assert rows[j] == r[i];
      }
    }
  }

  lemma SplitOnce<T>(s: seq<T>, i: nat, j: nat)
    requires i < j < |s|
    ensures multiset(s) >= multiset{s[i], s[j]}
  {
    assert s == s[..i] + [s[i]] + s[i+1..j] + [s[j]] + s[j+1..];
  }

  lemma {:induction false} CountAtMostOne(table: seq<PhaseRecord>, x: PhaseRecord)
    requires DistinctOrders(table)
    ensures multiset(table)[x] <= 1
  {
    if table != [] {
      var front, last := table[..|table|-1], table[|table|-1];
      assert table == front + [last];
      CountAtMostOne(front, x);
      if last == x {
        assert x !in front;
      }
    }
  }

  /** The rows of one workflow inside any answer are strictly ordered, and the same in every answer that covers it. */
  lemma GroupIsStrict(table: seq<PhaseRecord>, ids: set<string>, rows: seq<PhaseRecord>, id: string)
    requires DistinctOrders(table) && IsAnswer(table, ids, rows) && id in ids
    ensures StrictlySorted(OrderKey(), Of(rows, id))
    ensures forall x :: x in Of(rows, id) <==> x in table && x.workflowId == id
  {
    var g := Of(rows, id);
    InOrderAscends(rows);
    FilterAscends((r: PhaseRecord) => r.workflowId == id, rows);
    forall x: PhaseRecord
      ensures multiset(g)[x] == if x.workflowId == id then multiset(table)[x] else 0
    {
      FilterMultiset((r: PhaseRecord) => r.workflowId == id, rows, x);
      FilterMultiset((r: PhaseRecord) => r.workflowId in ids, table, x);
    }
    forall x
      ensures x in g <==> x in table && x.workflowId == id
    {
      assert x in g <==> x in multiset(g);
      assert x in table <==> x in multiset(table);
    }
    forall i, j | 0 <= i < j < |g|
      ensures g[i].order < g[j].order
    {
      assert g[i] in g && g[j] in g;
      if g[i].order == g[j].order {
        SameOrderSameRow(table, g[i], g[j]);
        SplitOnce(g, i, j);
        CountAtMostOne(table, g[i]);
        assert false;
      }
    }
  }

  lemma SameOrderSameRow(table: seq<PhaseRecord>, a: PhaseRecord, b: PhaseRecord)
    requires DistinctOrders(table) && a in table && b in table && a.workflowId == b.workflowId && a.order == b.order
    ensures a == b
  {
  }

  /** A batch and a query of its own give one workflow the same phases in the same order. */
  lemma BatchAgrees(table: seq<PhaseRecord>, query: Database, ids: set<string>, id: string)
    requires DistinctOrders(table) && Answers(table, query) && id in ids
    ensures Of(query(ids), id) == query({id})
  {
    GroupIsStrict(table, ids, query(ids), id);
    GroupIsStrict(table, {id}, query({id}), id);
    StrictlySortedUnique(OrderKey(), Of(query(ids), id), Of(query({id}), id));
    OnlyThose(table, {id}, query({id}));
    AllKept(query({id}), id);
  }

  lemma OnlyThose(table: seq<PhaseRecord>, ids: set<string>, rows: seq<PhaseRecord>)
    requires IsAnswer(table, ids, rows)
    ensures forall i :: 0 <= i < |rows| ==> rows[i].workflowId in ids
  {
    forall i | 0 <= i < |rows|
      ensures rows[i].workflowId in ids
    {
      assert rows[i] in multiset(In(table, ids));
      assert rows[i] in In(table, ids);
    }
  }

  lemma {:induction false} AllKept(rows: seq<PhaseRecord>, id: string)
    requires forall i :: 0 <= i < |rows| ==> rows[i].workflowId == id
    ensures Of(rows, id) == rows
  {
    if rows != [] {
      AllKept(rows[..|rows|-1], id);
      assert rows == rows[..|rows|-1] + [rows[|rows|-1]];
    }
  }

  lemma {:induction false} NoneKept(rows: seq<PhaseRecord>, id: string)
    requires forall i :: 0 <= i < |rows| ==> rows[i].workflowId != id
    ensures Of(rows, id) == []
  {
    if rows != [] {
      NoneKept(rows[..|rows|-1], id);
    }
  }

  // ------------------------------------------------------------------ one at a time

  /** Parse rows in order; one bad row fails the whole list. */
  function ParseRows<P>(rows: seq<PhaseRecord>, parse: Parser<P>): Option<seq<P>> {
    if rows == [] then Some([])
    else match (ParseRows(rows[..|rows|-1], parse), parse(rows[|rows|-1].columns))
         case (Some(front), Some(p)) => Some(front + [p])
         case _ => None
  }

  /** Load one workflow with its own phase query. */
  function LoadOne<H, P>(w: WorkflowRecord, query: Database, header: Parser<H>, parse: Parser<P>)
    : Option<Loaded<H, P>>
  {
    match (header(w.columns), ParseRows(query({w.workflowId}), parse))
    case (Some(h), Some(phases)) => Some(Loaded(w.workflowId, h, phases))
    case _ => None
  }

  /** Load the workflows one by one; one failure fails the list. */
  function LoadEach<H, P>(ws: seq<WorkflowRecord>, query: Database, header: Parser<H>, parse: Parser<P>)
    : Option<seq<Loaded<H, P>>>
  {
    if ws == [] then Some([])
    else match (LoadEach(ws[..|ws|-1], query, header, parse), LoadOne(ws[|ws|-1], query, header, parse))
         case (Some(front), Some(l)) => Some(front + [l])
         case _ => None
  }

  // ---------------------------------------------------------------------- in batches

  function Entry<P>(m: map<string, seq<P>>, id: string): seq<P> {
    if id in m then m[id] else []
  }

  /** Parse rows and file each under its workflow. */
  function FileRows<P>(m: map<string, seq<P>>, rows: seq<PhaseRecord>, parse: Parser<P>): Option<map<string, seq<P>>> {
    if rows == [] then Some(m)
    else match (FileRows(m, rows[..|rows|-1], parse), parse(rows[|rows|-1].columns))
         case (Some(front), Some(p)) =>
           var id := rows[|rows|-1].workflowId;
           Some(front[id := Entry(front, id) + [p]])
         case _ => None
  }

  /** Filing is grouping: every workflow's entry grows by its own rows, in their order. */
  lemma {:induction false} FilingGroups<P>(m: map<string, seq<P>>, rows: seq<PhaseRecord>, parse: Parser<P>, id: string)
    requires FileRows(m, rows, parse).Some?
    ensures ParseRows(Of(rows, id), parse).Some?
    ensures Entry(FileRows(m, rows, parse).value, id) == Entry(m, id) + ParseRows(Of(rows, id), parse).value
  {
    if rows != [] {
      var front, last := rows[..|rows|-1], rows[|rows|-1];
      FilingGroups(m, front, parse, id);
      if last.workflowId == id {
        assert Of(rows, id) == Of(front, id) + [last];
        assert Of(rows, id)[..|Of(front, id)|] == Of(front, id);
      }
    }
  }

  /** Filing fails exactly when some row does not parse. */
  lemma {:induction false} FilingFails<P>(m: map<string, seq<P>>, rows: seq<PhaseRecord>, parse: Parser<P>)
    ensures FileRows(m, rows, parse).Some? <==> forall i :: 0 <= i < |rows| ==> parse(rows[i].columns).Some?
  {
    if rows != [] {
      FilingFails(m, rows[..|rows|-1], parse);
    }
  }

  lemma {:induction false} ParsingFails<P>(rows: seq<PhaseRecord>, parse: Parser<P>)
    ensures ParseRows(rows, parse).Some? <==> forall i :: 0 <= i < |rows| ==> parse(rows[i].columns).Some?
  {
    if rows != [] {
      ParsingFails(rows[..|rows|-1], parse);
    }
  }

  method FilePhases<P>(m: map<string, seq<P>>, rows: seq<PhaseRecord>, parse: Parser<P>)
    returns (r: Option<map<string, seq<P>>>)
    ensures r == FileRows(m, rows, parse)
  {
    var phaseMap := m;
    for k := 0 to |rows|
      invariant Some(phaseMap) == FileRows(m, rows[..k], parse)
    {
      assert rows[..k+1][..k] == rows[..k];
      var p := parse(rows[k].columns);
      if p == None {
        FilingFails(m, rows, parse);
        return None;
      }
      phaseMap := phaseMap[rows[k].workflowId := Entry(phaseMap, rows[k].workflowId) + [p.value]];
    }
    assert rows[..|rows|] == rows;
    return Some(phaseMap);
  }

  function IdsOf(ws: seq<WorkflowRecord>): set<string> {
    set i | 0 <= i < |ws| :: ws[i].workflowId
  }

  ghost predicate DistinctIds(ws: seq<WorkflowRecord>) {
    forall i, j :: 0 <= i < j < |ws| ==> ws[i].workflowId != ws[j].workflowId
  }

  /** The phases of the workflows in `ids` are filed, and nothing else. */
  ghost predicate Filed<P(!new)>(m: map<string, seq<P>>, ids: set<string>, query: Database, parse: Parser<P>) {
    forall id :: if id in ids then ParseRows(query({id}), parse) == Some(Entry(m, id)) else Entry(m, id) == []
  }

  lemma BatchFiles<P(!new)>(table: seq<PhaseRecord>, query: Database, m: map<string, seq<P>>, done: set<string>,
                     batch: set<string>, parse: Parser<P>)
    requires DistinctOrders(table) && Answers(table, query) && Filed(m, done, query, parse) && done !! batch
    requires FileRows(m, query(batch), parse).Some?
    ensures Filed(FileRows(m, query(batch), parse).value, done + batch, query, parse)
  {
    hide IsAnswer, DistinctOrders;
    assert IsAnswer(table, batch, query(batch));
    OnlyThose(table, batch, query(batch));
    forall id
      ensures var m' := FileRows(m, query(batch), parse).value;
              if id in done + batch then ParseRows(query({id}), parse) == Some(Entry(m', id)) else Entry(m', id) == []
    {
      FilingGroups(m, query(batch), parse, id);
      var own := ParseRows(Of(query(batch), id), parse).value;
      assert [] + own == own && Entry(m, id) + [] == Entry(m, id);
      if id in batch {
        BatchAgrees(table, query, batch, id);
        assert Entry(m, id) == [];
      } else {
        NoneKept(query(batch), id);
      }
    }
  }

  /** A row that does not parse in a batch belongs to a workflow that cannot be loaded on its own. */
  lemma BadBatchBadWorkflow<P>(table: seq<PhaseRecord>, query: Database, m: map<string, seq<P>>, batch: set<string>,
                               parse: Parser<P>)
    returns (id: string)
    requires DistinctOrders(table) && Answers(table, query)
    requires FileRows(m, query(batch), parse) == None
    ensures id in batch && ParseRows(query({id}), parse) == None
  {
    var rows := query(batch);
    FilingFails(m, rows, parse);
    var i :| 0 <= i < |rows| && parse(rows[i].columns) == None;
    assert IsAnswer(table, batch, rows);
    OnlyThose(table, batch, rows);
    id := rows[i].workflowId;
    BatchAgrees(table, query, batch, id);
    assert rows[i] in rows && rows[i] in Of(rows, id);
    var j :| 0 <= j < |query({id})| && query({id})[j] == rows[i];
    ParsingFails(query({id}), parse);
  }

  lemma {:induction false} OneFailureFailsAll<H, P>(ws: seq<WorkflowRecord>, query: Database, header: Parser<H>,
                                                    parse: Parser<P>, i: nat)
    requires i < |ws| && LoadOne(ws[i], query, header, parse) == None
    ensures LoadEach(ws, query, header, parse) == None
  {
    if i < |ws| - 1 {
      OneFailureFailsAll(ws[..|ws|-1], query, header, parse, i);
    }
  }

  lemma BatchIds(ws: seq<WorkflowRecord>, start: nat, end: nat)
    requires DistinctIds(ws) && start <= end <= |ws|
    ensures IdsOf(ws[..start]) !! IdsOf(ws[start..end])
    ensures IdsOf(ws[..end]) == IdsOf(ws[..start]) + IdsOf(ws[start..end])
  {
    assert ws[..end] == ws[..start] + ws[start..end];
    forall id | id in IdsOf(ws[..start])
      ensures id !in IdsOf(ws[start..end])
    {
      var i :| 0 <= i < start && ws[i].workflowId == id;
      assert forall k :: 0 <= k < end - start ==> ws[start..end][k] == ws[start + k];
    }
  }

  /** The second query, in batches. */
  method FetchPhases<P(!new)>(ghost table: seq<PhaseRecord>, ws: seq<WorkflowRecord>, query: Database, parse: Parser<P>)
    returns (r: Option<map<string, seq<P>>>)
    requires DistinctOrders(table) && Answers(table, query) && DistinctIds(ws)
    ensures r.Some? ==> Filed(r.value, IdsOf(ws), query, parse)
    ensures r == None ==> exists i :: 0 <= i < |ws| && ParseRows(query({ws[i].workflowId}), parse) == None
  {
    var phaseMap: map<string, seq<P>> := map[];
    var start: nat := 0;
    while start < |ws|
      invariant start <= |ws|
      invariant Filed(phaseMap, IdsOf(ws[..start]), query, parse)
    {
      hide Filed, Answers, DistinctOrders, IsAnswer, InOrder, Before;
      var end := if start + BATCH < |ws| then start + BATCH else |ws|;
      var batch := IdsOf(ws[start..end]);
      BatchIds(ws, start, end);
      var filed := FilePhases(phaseMap, query(batch), parse);
      if filed == None {
        ghost var id := BadBatchBadWorkflow(table, query, phaseMap, batch, parse);
        ghost var i :| 0 <= i < |ws[start..end]| && ws[start..end][i].workflowId == id;
        assert ws[start + i].workflowId == id;
        return None;
      }
      BatchFiles(table, query, phaseMap, IdsOf(ws[..start]), batch, parse);
      phaseMap := filed.value;
      start := end;
    }
    assert ws[..start] == ws;
    return Some(phaseMap);
  }

  /**
   * The batched read returns what loading each listed workflow on its own returns, and fails
   * exactly when that fails, for any number of workflows.
   */
  method ListActiveWorkflows<H, P(!new)>(ghost table: seq<PhaseRecord>, active: seq<WorkflowRecord>, query: Database,
                                         header: Parser<H>, parse: Parser<P>) returns (r: Option<seq<Loaded<H, P>>>)
    requires DistinctOrders(table) && Answers(table, query) && DistinctIds(active)
    ensures r == LoadEach(active, query, header, parse)
  {
    if active == [] {
      return Some([]);
    }
    var fetched := FetchPhases(table, active, query, parse);
    if fetched == None {
      ghost var i :| 0 <= i < |active| && ParseRows(query({active[i].workflowId}), parse) == None;
      OneFailureFailsAll(active, query, header, parse, i);
      return None;
    }
    r := Assemble(active, query, fetched.value, header, parse);
  }

  /** The workflow rows with their entries of the phase map, taken out one by one. */
  method Assemble<H, P(!new)>(active: seq<WorkflowRecord>, ghost query: Database, filed: map<string, seq<P>>,
                              header: Parser<H>, parse: Parser<P>) returns (r: Option<seq<Loaded<H, P>>>)
    requires DistinctIds(active) && Filed(filed, IdsOf(active), query, parse)
    ensures r == LoadEach(active, query, header, parse)
  {
    var phaseMap := filed;
    var results: seq<Loaded<H, P>> := [];
    EntriesAreFiled(active, filed, query, parse);
    hide Filed, ParseRows, IdsOf;
    for k := 0 to |active|
      invariant Some(results) == LoadEach(active[..k], query, header, parse)
      invariant forall i :: k <= i < |active| ==>
                  ParseRows(query({active[i].workflowId}), parse) == Some(Entry(phaseMap, active[i].workflowId))
    {
      assert active[..k+1][..k] == active[..k];
      var w := active[k];
      var h := header(w.columns);
      if h == None {
        OneFailureFailsAll(active, query, header, parse, k);
        return None;
      }
      results := results + [Loaded(w.workflowId, h.value, Entry(phaseMap, w.workflowId))];
      phaseMap := phaseMap - {w.workflowId};
    }
    assert active[..|active|] == active;
    return Some(results);
  }

  lemma EntriesAreFiled<P(!new)>(ws: seq<WorkflowRecord>, m: map<string, seq<P>>, query: Database, parse: Parser<P>)
    requires Filed(m, IdsOf(ws), query, parse)
    ensures forall i :: 0 <= i < |ws| ==>
              ParseRows(query({ws[i].workflowId}), parse) == Some(Entry(m, ws[i].workflowId))
  {
    hide ParseRows;
    assert forall i :: 0 <= i < |ws| ==> ws[i].workflowId in IdsOf(ws);
  }

  // -------------------------------------------------------------- tied positions

  /** Batches and single queries agree, whatever is asked. */
  ghost predicate Agreeing(query: Database) {
    forall ids, id :: id in ids ==> Of(query(ids), id) == query({id})
  }

  lemma OrderedIsTotal(a: PhaseRecord, b: PhaseRecord)
    ensures Ordered(a, b) || Ordered(b, a)
  {
    BeforeIsTotal(a.workflowId, b.workflowId);
  }

  lemma OrderedIsTransitive(a: PhaseRecord, b: PhaseRecord, c: PhaseRecord)
    requires Ordered(a, b) && Ordered(b, c)
    ensures Ordered(a, c)
  {
    if Before(a.workflowId, b.workflowId) && Before(b.workflowId, c.workflowId) {
      BeforeIsTransitive(a.workflowId, b.workflowId, c.workflowId);
    }
  }

  function InsertRow(x: PhaseRecord, rows: seq<PhaseRecord>): (r: seq<PhaseRecord>)
    ensures multiset(r) == multiset(rows) + multiset{x}
  {
    if rows == [] then [x]
    else if Ordered(x, rows[0]) then [x] + rows
    else
      assert rows == [rows[0]] + rows[1..];
      [rows[0]] + InsertRow(x, rows[1..])
  }

  function SortRows(rows: seq<PhaseRecord>): (r: seq<PhaseRecord>)
    ensures multiset(r) == multiset(rows)
  {
    if rows == [] then []
    else
      assert rows == rows[..|rows|-1] + [rows[|rows|-1]];
      InsertRow(rows[|rows|-1], SortRows(rows[..|rows|-1]))
  }

  lemma ConsInOrder(x: PhaseRecord, rows: seq<PhaseRecord>)
    requires InOrder(rows) && forall r :: r in rows ==> Ordered(x, r)
    ensures InOrder([x] + rows)
  {
    var all := [x] + rows;
    assert forall j :: 0 < j < |all| ==> all[j] == rows[j-1] && all[j] in rows;
  }

  lemma {:induction false} InsertKeepsOrder(x: PhaseRecord, rows: seq<PhaseRecord>)
    requires InOrder(rows)
    ensures InOrder(InsertRow(x, rows))
  {
    if rows == [] {
    } else if Ordered(x, rows[0]) {
      forall r | r in rows
        ensures Ordered(x, r)
      {
        if r != rows[0] {
          OrderedIsTransitive(x, rows[0], r);
        }
      }
      ConsInOrder(x, rows);
    } else {
      var rest := InsertRow(x, rows[1..]);
      InsertKeepsOrder(x, rows[1..]);
      OrderedIsTotal(x, rows[0]);
      forall r | r in rest
        ensures Ordered(rows[0], r)
      {
        assert r in multiset(rows[1..]) + multiset{x};
      }
      ConsInOrder(rows[0], rest);
    }
  }

  lemma {:induction false} SortedInOrder(rows: seq<PhaseRecord>)
    ensures InOrder(SortRows(rows))
  {
    if rows != [] {
      SortedInOrder(rows[..|rows|-1]);
      InsertKeepsOrder(rows[|rows|-1], SortRows(rows[..|rows|-1]));
    }
  }

  lemma {:induction false} OfAppends(a: seq<PhaseRecord>, b: seq<PhaseRecord>, id: string)
    ensures Of(a + b, id) == Of(a, id) + Of(b, id)
  {
    if b == [] {
      assert a + b == a;
    } else {
      var front := b[..|b|-1];
      assert (a + b)[..|a+b|-1] == a + front;
      OfAppends(a, front, id);
    }
  }

  /** Two lists that part at a row of the workflow give it different rows. */
  lemma PartingRowsShow(a: seq<PhaseRecord>, b: seq<PhaseRecord>, m: nat, id: string)
    requires m < |a| && m < |b| && a[..m] == b[..m]
    requires a[m] != b[m] && a[m].workflowId == id && b[m].workflowId == id
    ensures Of(a, id) != Of(b, id)
  {
    var prefix := Of(a[..m], id);
    RowsAfter(a, m, id);
    RowsAfter(b, m, id);
    hide Of;
    assert Of(a, id)[|prefix|] == a[m] && Of(b, id)[|prefix|] == b[m];
  }

  lemma RowsAfter(a: seq<PhaseRecord>, m: nat, id: string)
    requires m < |a| && a[m].workflowId == id
    ensures Of(a, id) == Of(a[..m], id) + [a[m]] + Of(a[m+1..], id)
  {
    assert a == (a[..m] + [a[m]]) + a[m+1..];
    OfAppends(a[..m] + [a[m]], a[m+1..], id);
    OfAppends(a[..m], [a[m]], id);
    AllKept([a[m]], id);
  }

  lemma SwapKeepsMultiset(rows: seq<PhaseRecord>, p: nat, q: nat)
    requires p < |rows| && q < |rows|
    ensures multiset(rows[p := rows[q]][q := rows[p]]) == multiset(rows)
  {
  }

  /** Two tied rows can change places. */
  lemma SwapTied(rows: seq<PhaseRecord>, a: PhaseRecord, b: PhaseRecord) returns (r: seq<PhaseRecord>)
    requires InOrder(rows) && a in rows && b in rows && a != b
    requires a.workflowId == b.workflowId && a.order == b.order
    ensures InOrder(r) && multiset(r) == multiset(rows) && Of(r, a.workflowId) != Of(rows, a.workflowId)
  {
    var p :| 0 <= p < |rows| && rows[p] == a;
    var q :| 0 <= q < |rows| && rows[q] == b;
    r := rows[p := b][q := a];
    SwapKeepsMultiset(rows, p, q);
    forall i, j | 0 <= i < j < |r|
      ensures Ordered(r[i], r[j])
    {
      assert Ordered(rows[i], rows[j]);
    }
    PartingRowsShow(r, rows, if p < q then p else q, a.workflowId);
  }

  /** A database that answers one batch in a way of its own. */
  function Fickle(table: seq<PhaseRecord>, batch: set<string>, rows: seq<PhaseRecord>): Database {
    (ids: set<string>) => if ids == batch then rows else SortRows(In(table, ids))
  }

  lemma FickleAnswers(table: seq<PhaseRecord>, batch: set<string>, rows: seq<PhaseRecord>)
    requires IsAnswer(table, batch, rows)
    ensures Answers(table, Fickle(table, batch, rows))
  {
    forall ids
      ensures IsAnswer(table, ids, Fickle(table, batch, rows)(ids))
    {
      SortedInOrder(In(table, ids));
    }
  }

  lemma FickleDisagrees(table: seq<PhaseRecord>, w: string, batch: set<string>, rows: seq<PhaseRecord>)
    requires w in batch && batch != {w} && Of(rows, w) != SortRows(In(table, {w}))
    ensures !Agreeing(Fickle(table, batch, rows))
  {
    var query := Fickle(table, batch, rows);
    assert query(batch) == rows && query({w}) == SortRows(In(table, {w}));
    hide SortRows, In, Of, Fickle;
  }

  lemma MemberIsSorted(table: seq<PhaseRecord>, ids: set<string>, x: PhaseRecord)
    requires x in table && x.workflowId in ids
    ensures x in SortRows(In(table, ids))
  {
    SameMembers(SortRows(In(table, ids)), In(table, ids));
  }

  /** A sorted answer for the batch that gives `w` other rows than its own query gets. */
  lemma TiedBatch(table: seq<PhaseRecord>, w: string, batch: set<string>, a: PhaseRecord, b: PhaseRecord)
    returns (rows: seq<PhaseRecord>)
    requires a in table && b in table && a != b && a.workflowId == b.workflowId == w && a.order == b.order
    requires w in batch
    ensures IsAnswer(table, batch, rows) && Of(rows, w) != SortRows(In(table, {w}))
  {
    var sorted := SortRows(In(table, batch));
    SortedInOrder(In(table, batch));
    MemberIsSorted(table, batch, a);
    MemberIsSorted(table, batch, b);
    assert multiset(sorted) == multiset(In(table, batch));
    hide SortRows, In, Of, InOrder;
    var swapped := SwapTied(sorted, a, b);
    rows := if Of(sorted, w) == SortRows(In(table, {w})) then swapped else sorted;
  }

  /** Two rows of one workflow at one position: some database answers batches and single queries differently. */
  lemma TiesCanDisagree(table: seq<PhaseRecord>, i: nat, j: nat) returns (query: Database)
    requires i < j < |table| && table[i] != table[j]
    requires table[i].workflowId == table[j].workflowId && table[i].order == table[j].order
    ensures Answers(table, query) && !Agreeing(query)
  {
    hide *;
    var w := table[i].workflowId;
    var batch := {w, w + "x"};
    assert w + "x" in batch && w + "x" != w && batch != {w};
    var rows := TiedBatch(table, w, batch, table[i], table[j]);
    query := Fickle(table, batch, rows);
    FickleAnswers(table, batch, rows);
    FickleDisagrees(table, w, batch, rows);
  }

  /** Every database agrees with itself exactly when no two phases of a workflow share a position. */
  lemma AgreementIffDistinctOrders(table: seq<PhaseRecord>)
    requires Distinct(table)
    ensures (forall query :: Answers(table, query) ==> Agreeing(query)) <==> DistinctOrders(table)
  {
    hide Answers, Agreeing;
    if DistinctOrders(table) {
      forall query | Answers(table, query)
        ensures Agreeing(query)
      {
        DistinctOrdersAgree(table, query);
      }
    } else {
      var i, j :| 0 <= i < j < |table| && table[i].workflowId == table[j].workflowId &&
                  table[i].order == table[j].order;
      var query := TiesCanDisagree(table, i, j);
    }
  }

  lemma DistinctOrdersAgree(table: seq<PhaseRecord>, query: Database)
    requires DistinctOrders(table) && Answers(table, query)
    ensures Agreeing(query)
  {
    forall ids, id | id in ids
      ensures Of(query(ids), id) == query({id})
    {
      BatchAgrees(table, query, ids, id);
    }
  }

  // --------------------------------------------------------------- what a loaded list is

  /** The phases are those of the rows, parsed one by one in order. */
  ghost predicate ParsedFrom<P(!new)>(rows: seq<PhaseRecord>, parse: Parser<P>, phases: seq<P>) {
    |phases| == |rows| && forall i :: 0 <= i < |rows| ==> parse(rows[i].columns) == Some(phases[i])
  }

  lemma {:induction false} ParsingIsRowwise<P(!new)>(rows: seq<PhaseRecord>, parse: Parser<P>)
    ensures ParseRows(rows, parse).Some? ==> ParsedFrom(rows, parse, ParseRows(rows, parse).value)
  {
    if rows != [] {
      ParsingIsRowwise(rows[..|rows|-1], parse);
    }
  }

  /** One entry per workflow row, in order, with its id, its own parsed header and its own parsed phases. */
  ghost predicate LoadedFrom<H(!new), P(!new)>(w: WorkflowRecord, query: Database, header: Parser<H>, parse: Parser<P>,
                                               l: Loaded<H, P>) {
    && l.workflowId == w.workflowId && header(w.columns) == Some(l.header)
    && ParsedFrom(query({w.workflowId}), parse, l.phases)
  }

  lemma {:induction false} LoadingIsRowwise<H(!new), P(!new)>(ws: seq<WorkflowRecord>, query: Database,
                                                             header: Parser<H>, parse: Parser<P>)
    ensures match LoadEach(ws, query, header, parse)
            case Some(r) =>
              |r| == |ws| && forall i :: 0 <= i < |ws| ==> LoadedFrom(ws[i], query, header, parse, r[i])
            case None =>
              exists i :: 0 <= i < |ws| &&
                (header(ws[i].columns) == None || ParseRows(query({ws[i].workflowId}), parse) == None)
  {
    hide ParseRows;
    if ws != [] {
      var front, w := ws[..|ws|-1], ws[|ws|-1];
      LoadingIsRowwise(front, query, header, parse);
      ParsingIsRowwise(query({w.workflowId}), parse);
      assert w == ws[|ws|-1];
      assert forall i :: 0 <= i < |front| ==> front[i] == ws[i];
    }
  }
}
