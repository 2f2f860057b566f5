// The usage tables and the statements written to them. Each dialect's
// statement is built as data and given the meaning of the SQL it renders to;
// all of them, in batches of any size, mean "add every row".
module Upserts {
  import opened Ledgers
  import opened Pieces
  import opened SafeExecution
  import opened UsageTotals

  datatype Dialect = PostgreSQL | MySQL | SQLite

  const MYSQL_BATCH := 1000
  const SQLITE_BATCH := 400

  // The key of the node_user_usages table.
  datatype ChartKey = ChartKey(bucket: int, uid: int, node: int)

  type ChartRow = Entry<ChartKey>
  type Chart = Ledger<ChartKey>

  // ---- The simple meaning ----

  // Rows of users that do not exist are dropped by the join with the users table.
  function AddRow(t: Chart, users: set<int>, row: ChartRow): Chart {
    if row.key.uid in users then Credit(t, row) else t
  }

  function AddRows(t: Chart, users: set<int>, rows: seq<ChartRow>): Chart {
    if rows == [] then t else AddRow(AddRows(t, users, rows[..|rows|-1]), users, rows[|rows|-1])
  }

  function Joined(rows: seq<ChartRow>, users: set<int>): seq<ChartRow> {
    if rows == [] then [] else
    Joined(rows[..|rows|-1], users) + (if rows[|rows|-1].key.uid in users then [rows[|rows|-1]] else [])
  }

  lemma PlusCreditChart(t: Chart, g: Chart, row: ChartRow)
    ensures Plus(t, Credit(g, row)) == Credit(Plus(t, g), row)
  {
    assert Plus(t, Credit(g, row)).Keys == Credit(Plus(t, g), row).Keys;
  }

  // Grouping first and adding the sums is adding row by row.
  lemma {:induction false} GroupedIsRowByRow(t: Chart, users: set<int>, rows: seq<ChartRow>)
    ensures Plus(t, Totals(Joined(rows, users))) == AddRows(t, users, rows)
  {
    if rows == [] {
      assert Totals<ChartKey>([]) == map[];
      assert Plus(t, map[]) == t;
    } else {
      var front, row := rows[..|rows|-1], rows[|rows|-1];
      GroupedIsRowByRow(t, users, front);
      if row.key.uid in users {
        TotalsSnoc(Joined(front, users), row);
        PlusCreditChart(t, Totals(Joined(front, users)), row);
      } else {
        assert Joined(front, users) + [] == Joined(front, users);
      }
    }
  }

  lemma {:induction false} AddRowsConcat(t: Chart, users: set<int>, xs: seq<ChartRow>, ys: seq<ChartRow>)
    ensures AddRows(t, users, xs + ys) == AddRows(AddRows(t, users, xs), users, ys)
  {
    if ys == [] {
      assert xs + ys == xs;
    } else {
      assert (xs + ys)[..|xs + ys|-1] == xs + ys[..|ys|-1];
      AddRowsConcat(t, users, xs, ys[..|ys|-1]);
    }
  }

  lemma {:induction false} JoinedMultiset(rows: seq<ChartRow>, users: set<int>, row: ChartRow)
    ensures multiset(Joined(rows, users))[row] == if row.key.uid in users then multiset(rows)[row] else 0
  {
    if rows != [] {
      assert rows == rows[..|rows|-1] + [rows[|rows|-1]];
      JoinedMultiset(rows[..|rows|-1], users, row);
    }
  }

  // Rows may be written in any order.
  lemma AddRowsOrderFree(t: Chart, users: set<int>, xs: seq<ChartRow>, ys: seq<ChartRow>)
    requires multiset(xs) == multiset(ys)
    ensures AddRows(t, users, xs) == AddRows(t, users, ys)
  {
    forall row ensures multiset(Joined(xs, users))[row] == multiset(Joined(ys, users))[row] {
      JoinedMultiset(xs, users, row);
      JoinedMultiset(ys, users, row);
    }
    TotalsOrderFree(Joined(xs, users), Joined(ys, users));
    GroupedIsRowByRow(t, users, xs);
    GroupedIsRowByRow(t, users, ys);
  }

  // ---- The statements ----

  // Where the statement takes its rows from: four parallel arrays unnested side
  // by side (PostgreSQL), or a UNION ALL of one SELECT per row.
  datatype Source =
    | Unnest(uids: seq<int>, nodeIds: seq<int>, createdAts: seq<int>, trafficValues: seq<nat>)
    | UnionAll(parts: seq<ChartRow>)

  // What an existing row's counter becomes: stored + excluded.used_traffic, or
  // stored + insert_source.used_traffic.
  datatype OnConflict = AddExcluded | AddInsertSource

  datatype ChartUpsert = ChartUpsert(source: Source, onConflict: OnConflict)

  function BuildNodeUserUsageUpsert(dialect: Dialect, rows: seq<ChartRow>): ChartUpsert {
    match dialect
    case PostgreSQL =>
      ChartUpsert(
        Unnest(
          seq(|rows|, i requires 0 <= i < |rows| => rows[i].key.uid),
          seq(|rows|, i requires 0 <= i < |rows| => rows[i].key.node),
          seq(|rows|, i requires 0 <= i < |rows| => rows[i].key.bucket),
          seq(|rows|, i requires 0 <= i < |rows| => rows[i].value)),
        AddExcluded)
    case MySQL => ChartUpsert(UnionAll(rows), AddInsertSource)
    case SQLite => ChartUpsert(UnionAll(rows), AddExcluded)
  }

  function Smallest(a: nat, b: nat): nat { if a < b then a else b }

  function SourceRows(source: Source): seq<ChartRow> {
    match source
    case Unnest(uids, nodeIds, createdAts, values) =>
      var n := Smallest(Smallest(|uids|, |nodeIds|), Smallest(|createdAts|, |values|));
      seq(n, i requires 0 <= i < n => Entry(ChartKey(createdAts[i], uids[i], nodeIds[i]), values[i]))
    case UnionAll(parts) => parts
  }

  // INSERT ... SELECT ... JOIN users ... GROUP BY ... ON CONFLICT: the grouped
  // sums are proposed; a key already stored takes the conflict branch.
  function ExecChartUpsert(stmt: ChartUpsert, users: set<int>, t: Chart): Chart {
    var proposed := Totals(Joined(SourceRows(stmt.source), users));
    map k | k in t.Keys + proposed.Keys ::
      if k !in proposed then t[k]
      else if k !in t then proposed[k]
      else match stmt.onConflict
        case AddExcluded => t[k] + proposed[k]
        case AddInsertSource => t[k] + proposed[k]
  }

  // Unnesting the four arrays side by side gives the rows back.
  lemma SourceHoldsRows(dialect: Dialect, rows: seq<ChartRow>)
    ensures SourceRows(BuildNodeUserUsageUpsert(dialect, rows).source) == rows
  {
    if dialect == PostgreSQL {
      var back := SourceRows(BuildNodeUserUsageUpsert(dialect, rows).source);
      assert |back| == |rows|;
      assert forall i :: 0 <= i < |rows| ==> back[i] == rows[i];
    }
  }

  lemma ExecAddsGrouped(stmt: ChartUpsert, users: set<int>, t: Chart)
    ensures ExecChartUpsert(stmt, users, t) == Plus(t, Totals(Joined(SourceRows(stmt.source), users)))
  {
    var l, r := ExecChartUpsert(stmt, users, t), Plus(t, Totals(Joined(SourceRows(stmt.source), users)));
    assert l.Keys == r.Keys;
  }

  // One statement of any dialect adds exactly its rows, one at a time.
  lemma ChartUpsertAddsEveryRow(dialect: Dialect, rows: seq<ChartRow>, users: set<int>, t: Chart)
    ensures ExecChartUpsert(BuildNodeUserUsageUpsert(dialect, rows), users, t) == AddRows(t, users, rows)
  {
    SourceHoldsRows(dialect, rows);
    ExecAddsGrouped(BuildNodeUserUsageUpsert(dialect, rows), users, t);
    GroupedIsRowByRow(t, users, rows);
  }

  // ---- One cycle's chart call ----

  function NodeRows(params: seq<Stat>, coeff: Coefficient, node: int, bucket: int): seq<ChartRow> {
    seq(|params|, i requires 0 <= i < |params| =>
      Entry(ChartKey(bucket, params[i].key, node), Scale(params[i].value, coeff)))
  }

  function ChartRows(stats: seq<NodeStats>, coefficients: map<int, Coefficient>, bucket: int): seq<ChartRow> {
    if stats == [] then [] else
    var last := stats[|stats|-1];
    ChartRows(stats[..|stats|-1], coefficients, bucket)
    + NodeRows(last.params, CoefficientOf(coefficients, last.node), last.node, bucket)
  }

  // A row is for one report: under the bucket, user and node of the report, and
  // worth its value times the node's coefficient, truncated to whole bytes.
  ghost predicate RowOf(row: ChartRow, report: (int, Stat), coefficients: map<int, Coefficient>, bucket: int) {
    var exact := report.1.value as real * (if report.0 in coefficients then coefficients[report.0] else 1.0);
    row.key == ChartKey(bucket, report.1.key, report.0) && row.value as real <= exact < (row.value + 1) as real
  }

  ghost predicate RowPerReport(rows: seq<ChartRow>, stats: seq<NodeStats>, coefficients: map<int, Coefficient>,
                               bucket: int) {
    |rows| == |Reports(stats)| && forall i ::
      0 <= i < |rows| ==> RowOf(rows[i], Reports(stats)[i], coefficients, bucket)
  }

  lemma {:induction false} ChartRowsAreReports(stats: seq<NodeStats>, coefficients: map<int, Coefficient>, bucket: int)
    ensures RowPerReport(ChartRows(stats, coefficients, bucket), stats, coefficients, bucket)
  {
    if stats != [] {
      var front, last := stats[..|stats|-1], stats[|stats|-1];
      ChartRowsAreReports(front, coefficients, bucket);
      var added := NodeRows(last.params, CoefficientOf(coefficients, last.node), last.node, bucket);
      forall i | 0 <= i < |added| ensures RowOf(added[i], (last.node, last.params[i]), coefficients, bucket) {
      }
    }
  }

  function BatchSize(dialect: Dialect, rows: nat): nat {
    match dialect
    case MySQL => MYSQL_BATCH
    case SQLite => SQLITE_BATCH
    case PostgreSQL => rows
  }

  method CollectRows(stats: seq<NodeStats>, coefficients: map<int, Coefficient>, bucket: int)
    returns (rows: seq<ChartRow>)
    ensures rows == ChartRows(stats, coefficients, bucket)
    ensures RowPerReport(rows, stats, coefficients, bucket)
  {
    ChartRowsAreReports(stats, coefficients, bucket);
    rows := [];
    for i := 0 to |stats|
      invariant rows == ChartRows(stats[..i], coefficients, bucket)
    {
      assert stats[..i+1][..i] == stats[..i];
      var coeff := CoefficientOf(coefficients, stats[i].node);
      ghost var before, added := rows, NodeRows(stats[i].params, coeff, stats[i].node, bucket);
      for j := 0 to |stats[i].params|
        invariant rows == before + added[..j]
      {
        var p := stats[i].params[j];
        rows := rows + [Entry(ChartKey(bucket, p.key, stats[i].node), Scale(p.value, coeff))];
      }
      assert added[..|added|] == added;
    }
    assert stats[..|stats|] == stats;
  }

  lemma NextBatch(t: Chart, users: set<int>, batches: seq<seq<ChartRow>>, i: nat, dialect: Dialect)
    requires i < |batches|
    ensures AddRows(t, users, Flatten(batches[..i+1]))
         == ExecChartUpsert(BuildNodeUserUsageUpsert(dialect, batches[i]), users,
           AddRows(t, users, Flatten(batches[..i])))
  {
    var before := Flatten(batches[..i]);
    assert batches[..i+1] == batches[..i] + [batches[i]];
    FlattenSnoc(batches[..i], batches[i]);
    AddRowsConcat(t, users, before, batches[i]);
    ChartUpsertAddsEveryRow(dialect, batches[i], users, AddRows(t, users, before));
  }

  // The statements of one call, each its own transaction.
  function Batches(dialect: Dialect, rows: seq<ChartRow>): (batches: seq<seq<ChartRow>>)
    ensures Flatten(batches) == rows
    ensures forall batch :: batch in batches ==> batch != []
    ensures FitsOneStatement(dialect, rows) ==> |batches| <= 1
  {
    ChunkedKeepsEverything(rows, if rows == [] then 1 else BatchSize(dialect, |rows|));
    if rows == [] then [] else Chunked(rows, BatchSize(dialect, |rows|))
  }

  // MySQL takes a thousand rows in a statement, SQLite four hundred, and PostgreSQL
  // all there are.
  function WidestStatement(dialect: Dialect, rows: nat): nat {
    match dialect
    case PostgreSQL => rows
    case MySQL => 1000
    case SQLite => 400
  }

  lemma BatchesAreSized(dialect: Dialect, rows: seq<ChartRow>)
    ensures forall batch :: batch in Batches(dialect, rows) ==> |batch| <= WidestStatement(dialect, |rows|)
  {
    if rows != [] {
      ChunkedKeepsEverything(rows, BatchSize(dialect, |rows|));
    }
  }

  lemma FitsOneStatementIff(dialect: Dialect, rows: seq<ChartRow>)
    ensures FitsOneStatement(dialect, rows) <==> |rows| <= WidestStatement(dialect, |rows|)
  {
  }

  // A caller can tell beforehand whether its rows go out in one statement.
  predicate FitsOneStatement(dialect: Dialect, rows: seq<ChartRow>) {
    |rows| <= BatchSize(dialect, |rows|)
  }

  // The first of n statements that does not succeed, or n.
  function FirstFailure(writes: seq<WriteResult>, i: nat, n: nat): (k: nat)
    requires i <= n
    ensures i <= k <= n
    ensures i < k ==> k <= |writes|
    ensures forall m :: i <= m < k ==> writes[m].Success?
    ensures k < n ==> k >= |writes| || !writes[k].Success?
    decreases n - i
  {
    if i == n || i >= |writes| || !writes[i].Success? then i else FirstFailure(writes, i + 1, n)
  }

  // What a call has added when it ends, and how it ends.
  datatype Call = Call(applied: seq<ChartRow>, result: WriteResult)

  // The statements run until one of them fails; `writes` are their results in
  // turn. A call with more statements than results is cancelled between two.
  function ChartCall(dialect: Dialect, rows: seq<ChartRow>, writes: seq<WriteResult>): (call: Call)
    ensures call.applied <= rows
    ensures call.result.Success? ==> call.applied == rows
    ensures call.result.CertainRollback? && FitsOneStatement(dialect, rows) ==> call.applied == []
    ensures rows == [] ==> call.result.Success?
  {
    var batches := Batches(dialect, rows);
    var k := FirstFailure(writes, 0, |batches|);
    if k == |batches| then Call(rows, Success)
    else
      var last := if k < |writes| then writes[k] else Unknown(false);
      var applied := if Applied(last) then k + 1 else k;
      FlattenPrefix(batches, applied);
      Call(Flatten(batches[..applied]), last)
  }

  function Ends(tries: seq<Tries>): (writes: seq<WriteResult>)
    ensures |writes| == |tries|
    ensures forall i :: 0 <= i < |tries| ==> writes[i] == EndOf(tries[i])
  {
    seq(|tries|, i requires 0 <= i < |tries| => EndOf(tries[i]))
  }

  // One chart call: statement after statement, each retried and committed on its
  // own, until one raises.
  method RecordUserStatsBatched(stats: seq<NodeStats>, coefficients: map<int, Coefficient>, bucket: int,
                                dialect: Dialect, users: set<int>, table: Chart, tries: seq<Tries>)
    returns (written: Chart, result: WriteResult)
    ensures var call := ChartCall(dialect, ChartRows(stats, coefficients, bucket), Ends(tries));
            written == AddRows(table, users, call.applied) && result == call.result
  {
    var rows := CollectRows(stats, coefficients, bucket);
    written, result := WriteBatches(rows, dialect, users, table, tries);
  }

  // One statement after another, until one raises.
  method WriteBatches(rows: seq<ChartRow>, dialect: Dialect, users: set<int>, table: Chart, tries: seq<Tries>)
    returns (written: Chart, result: WriteResult)
    ensures var call := ChartCall(dialect, rows, Ends(tries));
            written == AddRows(table, users, call.applied) && result == call.result
  {
    var batches := Batches(dialect, rows);
    written := table;
    for i := 0 to |batches|
      invariant written == AddRows(table, users, Flatten(batches[..i]))
      invariant FirstFailure(Ends(tries), 0, |batches|) == FirstFailure(Ends(tries), i, |batches|)
    {
      if i >= |tries| {
        return written, Unknown(false);
      }
      var end, _ := WriteOnce(tries[i]);
      if Applied(end) {
        NextBatch(table, users, batches, i, dialect);
        written := ExecChartUpsert(BuildNodeUserUsageUpsert(dialect, batches[i]), users, written);
      }
      if !end.Success? {
        return written, end;
      }
    }
    assert batches[..|batches|] == batches;
    return written, Success;
  }

  // The chart rows of a cycle, regrouped by user, are what the cycle bills.
  lemma {:induction false} ChartRowsByUser(stats: seq<NodeStats>, coefficients: map<int, Coefficient>, bucket: int)
    ensures Rekey(ChartRows(stats, coefficients, bucket), (k: ChartKey) => k.uid) == Collected(stats, coefficients)
  {
    if stats != [] {
      ChartRowsByUser(stats[..|stats|-1], coefficients, bucket);
    }
  }

  // A user's billed traffic is the sum of their per-node chart rows.
  lemma UserBillIsChartSum(stats: seq<NodeStats>, coefficients: map<int, Coefficient>, bucket: int, uid: int)
    ensures TotalFor(Collected(stats, coefficients), uid)
         == Sum(Slice(Totals(ChartRows(stats, coefficients, bucket)), (k: ChartKey) => k.uid, uid))
  {
    ChartRowsByUser(stats, coefficients, bucket);
    Regroup(ChartRows(stats, coefficients, bucket), (k: ChartKey) => k.uid, uid);
  }

  // ---- Node and inbound totals: up and down counters per key ----

  datatype Flow = Flow(up: nat, down: nat)

  type Flows<K> = map<K, Flow>

  function FlowAt<K>(t: Flows<K>, k: K): Flow {
    if k in t then t[k] else Flow(0, 0)
  }

  function AddFlow(a: Flow, b: Flow): Flow {
    Flow(a.up + b.up, a.down + b.down)
  }

  datatype Increment = OfParams(flow: Flow) | OfInserted

  datatype FlowStmt<K> =
    | InsertOnConflict(key: K, values: Flow, add: Increment)
    | InsertOrIgnore(key: K, values: Flow)
    | UpdateWhere(key: K, extra: Flow)

  // The statements for one node (key: bucket, node) or one inbound (key:
  // bucket, node, tag).
  function BuildFlowUpsert<K>(dialect: Dialect, key: K, flow: Flow): seq<FlowStmt<K>> {
    match dialect
    case PostgreSQL => [InsertOnConflict(key, flow, OfParams(flow))]
    case MySQL => [InsertOnConflict(key, flow, OfInserted)]
    case SQLite => [InsertOrIgnore(key, Flow(0, 0)), UpdateWhere(key, flow)]
  }

  function ExecFlow<K>(stmt: FlowStmt<K>, t: Flows<K>): Flows<K> {
    match stmt
    case InsertOnConflict(key, values, add) =>
      if key !in t then t[key := values]
      else t[key := AddFlow(t[key], if add.OfParams? then add.flow else values)]
    case InsertOrIgnore(key, values) => if key in t then t else t[key := values]
    case UpdateWhere(key, extra) => if key in t then t[key := AddFlow(t[key], extra)] else t
  }

  function ExecFlows<K>(stmts: seq<FlowStmt<K>>, t: Flows<K>): Flows<K> {
    if stmts == [] then t else ExecFlows(stmts[1..], ExecFlow(stmts[0], t))
  }

  // SQLite's insert-ignore-zero then update, and both single upserts, are one
  // addition; and when only SQLite's first statement lands nothing is counted.
  lemma FlowUpsertAddsOnce<K>(dialect: Dialect, key: K, flow: Flow, t: Flows<K>)
    ensures ExecFlows(BuildFlowUpsert(dialect, key, flow), t) == t[key := AddFlow(FlowAt(t, key), flow)]
    ensures dialect == SQLite ==>
      forall k :: FlowAt(ExecFlow(BuildFlowUpsert(dialect, key, flow)[0], t), k) == FlowAt(t, k)
  {
    var stmts := BuildFlowUpsert(dialect, key, flow);
    if dialect == SQLite {
      ExecTwo(stmts[0], stmts[1], t);
    } else {
      ExecOne(stmts[0], t);
    }
  }

  lemma ExecOne<K>(stmt: FlowStmt<K>, t: Flows<K>)
    ensures ExecFlows([stmt], t) == ExecFlow(stmt, t)
  {
    assert [stmt][1..] == [];
  }

  lemma ExecTwo<K>(first: FlowStmt<K>, second: FlowStmt<K>, t: Flows<K>)
    ensures ExecFlows([first, second], t) == ExecFlow(second, ExecFlow(first, t))
  {
    assert [first, second][1..] == [second];
    ExecOne(second, ExecFlow(first, t));
  }
}
