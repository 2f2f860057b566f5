// What the billing cycles keep over every run: no byte is billed twice to a
// user, an admin or a chart cell, nothing is lost while every failed write is a
// certain rollback, and the three ledgers agree.
module UsageLedgerTheorems {
  import opened Ledgers
  import opened Options
  import opened Pieces
  import opened UsageTotals
  import opened Upserts
  import opened SafeExecution
  import opened UsageLedger

  // ---- What is held for one account: stored in the database plus carried ----

  function StoredUser(b: Books, u: int): nat {
    if u in b.users then b.users[u].used else 0
  }

  function HeldUser(b: Books, u: int): nat {
    StoredUser(b, u) + At(b.carriedUsers, u)
  }

  function HeldAdmin(b: Books, a: int): nat {
    At(b.admins, a) + At(b.carriedAdmins, a)
  }

  // Chart rows are compared per group -- a (user, node) cell, or a user --
  // whatever bucket they landed in. Each group belongs to one user.
  function Cell(k: ChartKey): (int, int) {
    (k.uid, k.node)
  }

  function UserOf(k: ChartKey): int {
    k.uid
  }

  lemma SameByUser(rows: seq<ChartRow>)
    ensures Rekey(rows, UserOf) == Rekey(rows, (k: ChartKey) => k.uid)
  {
    var byName, byField := Rekey(rows, UserOf), Rekey(rows, (k: ChartKey) => k.uid);
    forall i | 0 <= i < |rows| ensures byName[i] == byField[i] {
      assert UserOf(rows[i].key) == rows[i].key.uid;
    }
  }

  ghost predicate UserGroup<J(!new)>(group: ChartKey -> J, j: J, uid: int) {
    && (forall k: ChartKey :: group(k) == j ==> k.uid == uid)
    && (forall k: ChartKey, bucket: int :: group(ChartKey(bucket, k.uid, k.node)) == group(k))
  }

  ghost function GroupEntries<J>(stats: seq<NodeStats>, coefficients: map<int, Coefficient>,
                                 group: ChartKey -> J): seq<Entry<J>> {
    Rekey(ChartRows(stats, coefficients, 0), group)
  }

  ghost function StoredGroup<J>(chart: Chart, group: ChartKey -> J, j: J): nat {
    Sum(Slice(chart, group, j))
  }

  ghost function HeldGroup<J>(b: Books, group: ChartKey -> J, j: J): nat {
    StoredGroup(b.chart, group, j) + TotalFor(GroupEntries(b.carriedNodes, b.carriedCoefficients, group), j)
  }

  // ---- One stage at a time ----

  // Later stages leave the user and admin books alone.
  lemma StagesSplit(b: Books, c: Cycle, users: Ledger<int>, admins: Ledger<int>, batch: seq<NodeStats>)
    ensures var after, s1 := AfterWrites(b, c, users, admins, batch), UserStage(b, c.userWrite, users);
            && after.users == s1.books.users && after.carriedUsers == s1.books.carriedUsers
            && (!s1.goesOn ==> after == s1.books)
            && (s1.goesOn ==>
                 var s2 := AdminStage(s1.books, c, admins);
                 after.admins == s2.books.admins && after.carriedAdmins == s2.books.carriedAdmins)
  {
  }

  // A window is billed at most once whatever the write did; and exactly once,
  // now or later, unless the outcome is unknown.
  lemma UserStageHolds(b: Books, r: WriteResult, window: Ledger<int>, u: int)
    requires window == map[] ==> b.carriedUsers == map[]
    ensures var s := UserStage(b, r, window);
            && HeldUser(s.books, u) <= StoredUser(b, u) + At(window, u)
            && (u in b.users && !r.Unknown? ==> HeldUser(s.books, u) == StoredUser(b, u) + At(window, u))
            && (r.Success? ==> s.books.carriedUsers == map[])
            && s.books.users.Keys == b.users.Keys
            && (forall v :: v in b.users ==> s.books.users[v].admin == b.users[v].admin)
  {
  }

  lemma AdminStageHolds(b: Books, c: Cycle, window: Ledger<int>, a: int)
    requires window == map[] ==> b.carriedAdmins == map[]
    ensures var s := AdminStage(b, c, window);
            && HeldAdmin(s.books, a) <= At(b.admins, a) + At(window, a)
            && (a in b.admins && !c.adminWrite.Unknown? ==> HeldAdmin(s.books, a) == At(b.admins, a) + At(window, a))
            && (c.adminWrite.Success? ==> s.books.carriedAdmins == map[])
            && s.books.admins.Keys == b.admins.Keys
  {
  }

  lemma UserWindowAt(b: Books, c: Cycle, u: int)
    ensures At(UserWindow(b, c), u) <= At(b.carriedUsers, u) + At(Fresh(c), u)
    ensures u in b.users ==> At(UserWindow(b, c), u) == At(b.carriedUsers, u) + At(Fresh(c), u)
    ensures UserWindow(b, c) == map[] ==> b.carriedUsers == map[]
  {
    assert b.carriedUsers.Keys <= UserWindow(b, c).Keys;
  }

  ghost function Share(b: Books, c: Cycle, a: int): nat {
    At(AdminShares(Fresh(c), Owners(b.users)), a)
  }

  lemma AdminWindowAt(b: Books, c: Cycle, a: int)
    ensures At(AdminWindow(b, c), a) == At(b.carriedAdmins, a) + Share(b, c, a)
    ensures AdminWindow(b, c) == map[] ==> b.carriedAdmins == map[]
  {
    assert b.carriedAdmins.Keys <= AdminWindow(b, c).Keys;
  }

  predicate RunsToWrites(c: Cycle) {
    c.stats != [] && c.lookupCompletes
  }

  lemma CycleKeepsUsers(b: Books, c: Cycle, u: int)
    ensures HeldUser(AfterCycle(b, c), u) <= HeldUser(b, u) + At(Fresh(c), u)
    ensures u in b.users && RunsToWrites(c) && !c.userWrite.Unknown? ==>
      HeldUser(AfterCycle(b, c), u) == HeldUser(b, u) + At(Fresh(c), u)
    ensures RunsToWrites(c) && c.userWrite.Success? ==> AfterCycle(b, c).carriedUsers == map[]
    ensures AfterCycle(b, c).users.Keys == b.users.Keys
  {
    UserWindowAt(b, c, u);
    UserStageHolds(b, c.userWrite, UserWindow(b, c), u);
    StagesSplit(b, c, UserWindow(b, c), AdminWindow(b, c), FreshBatch(b, c));
  }

  // The user write must succeed for an admin's share to be counted at all: it
  // raises before the admin stage, and the share is not parked.
  predicate ReachesAdmins(b: Books, c: Cycle) {
    RunsToWrites(c) && (UserWindow(b, c) == map[] || c.userWrite.Success?)
  }

  lemma CycleKeepsAdmins(b: Books, c: Cycle, a: int)
    ensures HeldAdmin(AfterCycle(b, c), a) <= HeldAdmin(b, a) + Share(b, c, a)
    ensures ReachesAdmins(b, c) && a in b.admins && !c.adminWrite.Unknown? ==>
      HeldAdmin(AfterCycle(b, c), a) == HeldAdmin(b, a) + Share(b, c, a)
    ensures !ReachesAdmins(b, c) ==> HeldAdmin(AfterCycle(b, c), a) == HeldAdmin(b, a)
    ensures ReachesAdmins(b, c) && c.adminWrite.Success? ==> AfterCycle(b, c).carriedAdmins == map[]
    ensures AfterCycle(b, c).admins.Keys == b.admins.Keys
  {
    var users, admins := UserWindow(b, c), AdminWindow(b, c);
    AdminWindowAt(b, c, a);
    StagesSplit(b, c, users, admins, FreshBatch(b, c));
    AdminStageHolds(UserStage(b, c.userWrite, users).books, c, admins, a);
  }

  // An admin's ledger loses exactly the shares of cycles whose user write did
  // not succeed: with no outcome in doubt, a cycle conserves an admin's traffic
  // if and only if the cycle got past the user write, or there was nothing to lose.
  lemma AdminConservedIff(b: Books, c: Cycle, a: int)
    requires a in b.admins && !c.adminWrite.Unknown?
    ensures HeldAdmin(AfterCycle(b, c), a) == HeldAdmin(b, a) + Share(b, c, a)
       <==> ReachesAdmins(b, c) || Share(b, c, a) == 0
  {
    CycleKeepsAdmins(b, c, a);
  }

  // ---- The chart ----

  lemma {:induction false} AddRowsToGroup<J(!new)>(t: Chart, users: set<int>, rows: seq<ChartRow>,
                                                   group: ChartKey -> J, j: J, uid: int)
    requires UserGroup(group, j, uid)
    ensures StoredGroup(AddRows(t, users, rows), group, j)
         == StoredGroup(t, group, j) + (if uid in users then TotalFor(Rekey(rows, group), j) else 0)
  {
    if rows == [] {
    } else {
      var front, row := rows[..|rows|-1], rows[|rows|-1];
      AddRowsToGroup(t, users, front, group, j, uid);
      SliceCredit(AddRows(t, users, front), row, group, j);
      var e := Entry(group(row.key), row.value);
      assert Rekey(rows, group) == Rekey(front, group) + [e];
      TotalForAppend(Rekey(front, group), [e], j);
      assert [e][1..] == [];
    }
  }

  lemma NodeRowsBucket<J(!new)>(params: seq<Stat>, coeff: Coefficient, node: int, bucket: int, group: ChartKey -> J,
                                j: J, uid: int)
    requires UserGroup(group, j, uid)
    ensures Rekey(NodeRows(params, coeff, node, bucket), group) == Rekey(NodeRows(params, coeff, node, 0), group)
  {
    forall i | 0 <= i < |params|
      ensures Rekey(NodeRows(params, coeff, node, bucket), group)[i] ==
                Rekey(NodeRows(params, coeff, node, 0), group)[i]
    {
      assert group(ChartKey(bucket, params[i].key, node)) == group(ChartKey(0, params[i].key, node));
    }
  }

  lemma {:induction false} BucketDoesNotMatter<J(!new)>(stats: seq<NodeStats>, coefficients: map<int, Coefficient>,
                                                        bucket: int, group: ChartKey -> J, j: J, uid: int)
    requires UserGroup(group, j, uid)
    ensures Rekey(ChartRows(stats, coefficients, bucket), group) == GroupEntries(stats, coefficients, group)
  {
    if stats != [] {
      var front, last := stats[..|stats|-1], stats[|stats|-1];
      var coeff := CoefficientOf(coefficients, last.node);
      BucketDoesNotMatter(front, coefficients, bucket, group, j, uid);
      assert Rekey(ChartRows(stats, coefficients, bucket), group)
          == Rekey(ChartRows(front, coefficients, bucket), group)
           + Rekey(NodeRows(last.params, coeff, last.node, bucket), group);
      NodeRowsBucket(last.params, coeff, last.node, bucket, group, j, uid);
    }
  }

  ghost function NodeShare<J>(one: NodeStats, coefficients: map<int, Coefficient>,
                              group: ChartKey -> J): seq<Entry<J>> {
    Rekey(NodeRows(one.params, CoefficientOf(coefficients, one.node), one.node, 0), group)
  }

  lemma GroupEntriesSnoc<J>(stats: seq<NodeStats>, last: NodeStats, coefficients: map<int, Coefficient>,
                            group: ChartKey -> J, j: J)
    ensures TotalFor(GroupEntries(stats + [last], coefficients, group), j)
         == TotalFor(GroupEntries(stats, coefficients, group), j) + TotalFor(NodeShare(last, coefficients, group), j)
  {
    assert (stats + [last])[..|stats|] == stats;
    assert GroupEntries(stats + [last], coefficients, group)
        == GroupEntries(stats, coefficients, group) + NodeShare(last, coefficients, group);
    TotalForAppend(GroupEntries(stats, coefficients, group), NodeShare(last, coefficients, group), j);
  }

  lemma NodeShareSnoc<J>(node: int, params: seq<Stat>, last: Stat, coefficients: map<int, Coefficient>,
                         group: ChartKey -> J, j: J)
    ensures TotalFor(NodeShare(NodeStats(node, params + [last]), coefficients, group), j)
         == TotalFor(NodeShare(NodeStats(node, params), coefficients, group), j)
          + (if group(ChartKey(0, last.key, node)) == j then Scale(last.value, CoefficientOf(coefficients, node))
            else 0)
  {
    var e := Entry(group(ChartKey(0, last.key, node)), Scale(last.value, CoefficientOf(coefficients, node)));
    assert NodeShare(NodeStats(node, params + [last]), coefficients, group)
        == NodeShare(NodeStats(node, params), coefficients, group) + [e];
    TotalForAppend(NodeShare(NodeStats(node, params), coefficients, group), [e], j);
    assert [e][1..] == [];
  }

  lemma {:induction false} FilteredNode<J(!new)>(node: int, params: seq<Stat>, valid: set<int>,
                                                 coefficients: map<int, Coefficient>,
                                                 group: ChartKey -> J, j: J, uid: int)
    requires UserGroup(group, j, uid)
    ensures TotalFor(NodeShare(NodeStats(node, OnlyValid(params, valid)), coefficients, group), j)
         == if uid in valid then TotalFor(NodeShare(NodeStats(node, params), coefficients, group), j) else 0
  {
    if params != [] {
      var front, last := params[..|params|-1], params[|params|-1];
      FilteredNode(node, front, valid, coefficients, group, j, uid);
      assert params == front + [last];
      NodeShareSnoc(node, front, last, coefficients, group, j);
      if last.key in valid {
        NodeShareSnoc(node, OnlyValid(front, valid), last, coefficients, group, j);
      } else {
        assert OnlyValid(front, valid) + [] == OnlyValid(front, valid);
      }
      assert group(ChartKey(0, last.key, node)) == j ==> last.key == uid;
    }
  }

  // The chart batch holds exactly the known users' part of what was collected.
  lemma {:induction false} FilteredBatch<J(!new)>(stats: seq<NodeStats>, valid: set<int>,
                                                  coefficients: map<int, Coefficient>,
                                                  group: ChartKey -> J, j: J, uid: int)
    requires UserGroup(group, j, uid)
    ensures TotalFor(GroupEntries(ValidStats(stats, valid), coefficients, group), j)
         == if uid in valid then TotalFor(GroupEntries(stats, coefficients, group), j) else 0
  {
    if stats != [] {
      var front, last := stats[..|stats|-1], stats[|stats|-1];
      FilteredBatch(front, valid, coefficients, group, j, uid);
      assert stats == front + [last];
      GroupEntriesSnoc(front, last, coefficients, group, j);
      FilteredNode(last.node, last.params, valid, coefficients, group, j, uid);
      var kept := NodeStats(last.node, OnlyValid(last.params, valid));
      if kept.params != [] {
        GroupEntriesSnoc(ValidStats(front, valid), kept, coefficients, group, j);
      } else {
        assert ValidStats(front, valid) + [] == ValidStats(front, valid);
        assert NodeShare(kept, coefficients, group) == [];
      }
    }
  }

  // A call has added no more than its rows.
  lemma PartOfCall<J(!new)>(rows: seq<ChartRow>, applied: seq<ChartRow>, group: ChartKey -> J, j: J)
    requires applied <= rows
    ensures TotalFor(Rekey(applied, group), j) <= TotalFor(Rekey(rows, group), j)
  {
    var rest := rows[|applied|..];
    assert Rekey(rows, group) == Rekey(applied, group) + Rekey(rest, group);
    TotalForAppend(Rekey(applied, group), Rekey(rest, group), j);
  }

  // Rows that are both stored and parked again: what the statements before the
  // one that rolled back had committed.
  function Doubled(call: Call): seq<ChartRow> {
    if call.result.CertainRollback? then call.applied else []
  }

  ghost function InRows<J>(rows: seq<ChartRow>, group: ChartKey -> J, j: J): nat {
    TotalFor(Rekey(rows, group), j)
  }

  // One call: stored plus parked grows by what the call was given and by what
  // it doubled.
  lemma CallHolds<J(!new)>(chart: Chart, users: set<int>, stats: seq<NodeStats>, coefficients: map<int, Coefficient>,
                           bucket: int,
                           dialect: Dialect, writes: seq<WriteResult>, group: ChartKey -> J, j: J, uid: int)
    requires UserGroup(group, j, uid)
    ensures var call, given := ChartCall(dialect, ChartRows(stats, coefficients, bucket), writes),
              TotalFor(GroupEntries(stats, coefficients, group), j);
            var stored := StoredGroup(AddRows(chart, users, call.applied), group, j);
            var parked := if call.result.CertainRollback? then given else 0;
            && stored + parked <= StoredGroup(chart, group, j) + given + InRows(Doubled(call), group, j)
            && (uid in users && !call.result.Unknown? ==>
                 stored + parked == StoredGroup(chart, group, j) + given + InRows(Doubled(call), group, j))
  {
    var rows := ChartRows(stats, coefficients, bucket);
    var call := ChartCall(dialect, rows, writes);
    BucketDoesNotMatter(stats, coefficients, bucket, group, j, uid);
    AddRowsToGroup(chart, users, call.applied, group, j, uid);
    PartOfCall(rows, call.applied, group, j);
  }

  lemma RetryHolds<J(!new)>(b: Books, c: Cycle, group: ChartKey -> J, j: J, uid: int)
    requires UserGroup(group, j, uid)
    ensures var s, call := RetryStage(b, c), RetryCall(b, c);
            && HeldGroup(s.books, group, j) <= HeldGroup(b, group, j) + InRows(Doubled(call), group, j)
            && (uid in b.users && !call.result.Unknown? ==>
                 HeldGroup(s.books, group, j) == HeldGroup(b, group, j) + InRows(Doubled(call), group, j))
  {
    CallHolds(b.chart, b.users.Keys, b.carriedNodes, b.carriedCoefficients, c.retryBucket, c.dialect, c.retryWrites,
      group, j, uid);
    assert GroupEntries([], map[], group) == [];
    assert Rekey<ChartKey, J>([], group) == [];
  }

  lemma FreshHolds<J(!new)>(b: Books, c: Cycle, batch: seq<NodeStats>, group: ChartKey -> J, j: J, uid: int)
    requires b.carriedNodes == [] && UserGroup(group, j, uid)
    ensures var after, call, added :=
              ChartStage(b, c, batch), FreshCall(c, batch), TotalFor(GroupEntries(batch, c.coefficients, group), j);
            && HeldGroup(after, group, j) <= HeldGroup(b, group, j) + added + InRows(Doubled(call), group, j)
            && (uid in b.users && !call.result.Unknown? ==>
                 HeldGroup(after, group, j) == HeldGroup(b, group, j) + added + InRows(Doubled(call), group, j))
  {
    CallHolds(b.chart, b.users.Keys, batch, c.coefficients, c.freshBucket, c.dialect, c.freshWrites, group, j, uid);
    assert GroupEntries([], b.carriedCoefficients, group) == [];
    assert GroupEntries([], c.coefficients, group) == [];
    assert Rekey<ChartKey, J>([], group) == [];
  }

  // What a cycle collected for a group of chart rows.
  ghost function CollectedIn<J>(c: Cycle, group: ChartKey -> J, j: J): nat {
    TotalFor(GroupEntries(c.stats, c.coefficients, group), j)
  }

  // The cycle gets as far as the chart.
  ghost predicate ReachesRetry(b: Books, c: Cycle) {
    && ReachesAdmins(b, c)
    && (AdminWindow(b, c) == map[] || (c.adminWrite.Success? && c.limitsComplete))
    && c.recordNodeUsage
  }

  ghost predicate ReachesChart(b: Books, c: Cycle) {
    ReachesRetry(b, c) && RetryCall(b, c).result.Success?
  }

  // The rows a cycle leaves both stored and parked. At most one of its two calls
  // does so: after a retry that raised, the fresh rows are not written at all.
  ghost function DoubledRows(b: Books, c: Cycle): seq<ChartRow> {
    if ReachesChart(b, c) then Doubled(FreshCall(c, FreshBatch(b, c)))
    else if ReachesRetry(b, c) then Doubled(RetryCall(b, c))
    else []
  }

  ghost function DoubledIn<J>(b: Books, c: Cycle, group: ChartKey -> J, j: J): nat {
    InRows(DoubledRows(b, c), group, j)
  }

  // Both chart calls of the cycle go out in one statement, if they are made.
  ghost predicate SingleStatements(b: Books, c: Cycle) {
    && FitsOneStatement(c.dialect, ChartRows(b.carriedNodes, b.carriedCoefficients, c.retryBucket))
    && FitsOneStatement(c.dialect, ChartRows(FreshBatch(b, c), c.coefficients, c.freshBucket))
  }

  lemma SingleStatementsDoubleNothing<J(!new)>(b: Books, c: Cycle, group: ChartKey -> J, j: J)
    requires SingleStatements(b, c)
    ensures DoubledIn(b, c, group, j) == 0
  {
    assert DoubledRows(b, c) == [];
    assert Rekey<ChartKey, J>([], group) == [];
  }

  // The books when the chart is reached: only accounts have changed.
  ghost function BeforeChart(b: Books, c: Cycle): Books
    requires RunsToWrites(c)
  {
    AdminStage(UserStage(b, c.userWrite, UserWindow(b, c)).books, c, AdminWindow(b, c)).books
  }

  lemma WritesReachChart(b: Books, c: Cycle)
    requires RunsToWrites(c)
    ensures KeepsChart(b, BeforeChart(b, c))
    ensures !ReachesRetry(b, c) ==> KeepsChart(b, AfterCycle(b, c))
    ensures ReachesRetry(b, c) && !ReachesChart(b, c) ==> AfterCycle(b, c) == RetryStage(BeforeChart(b, c), c).books
    ensures ReachesChart(b, c) ==>
              AfterCycle(b, c) == ChartStage(RetryStage(BeforeChart(b, c), c).books, c, FreshBatch(b, c))
  {
    var s1 := UserStage(b, c.userWrite, UserWindow(b, c));
    if s1.goesOn {
      var s2 := AdminStage(s1.books, c, AdminWindow(b, c));
      if s2.goesOn && c.recordNodeUsage {
        assert RetryCall(s2.books, c) == RetryCall(b, c);
        var s3 := RetryStage(s2.books, c);
      }
    }
  }

  // What was collected for known users.
  lemma FreshBatchIsCollected<J(!new)>(b: Books, c: Cycle, group: ChartKey -> J, j: J, uid: int)
    requires UserGroup(group, j, uid)
    ensures TotalFor(GroupEntries(FreshBatch(b, c), c.coefficients, group), j) <= CollectedIn(c, group, j)
    ensures uid in b.users ==>
              TotalFor(GroupEntries(FreshBatch(b, c), c.coefficients, group), j) == CollectedIn(c, group, j)
  {
    FilteredBatch(c.stats, Fresh(c).Keys * b.users.Keys, c.coefficients, group, j, uid);
    if uid !in Fresh(c).Keys {
      UncollectedUser(c, group, j, uid);
    }
  }

  // What the chart accounts for in a cycle: everything collected, or nothing if
  // the cycle does not get to its fresh rows.
  ghost function ForChart<J>(b: Books, c: Cycle, group: ChartKey -> J, j: J): nat {
    if ReachesChart(b, c) then CollectedIn(c, group, j) else 0
  }

  ghost predicate ChartInDoubt(b: Books, c: Cycle) {
    || (ReachesRetry(b, c) && RetryCall(b, c).result.Unknown?)
    || (ReachesChart(b, c) && FreshCall(c, FreshBatch(b, c)).result.Unknown?)
  }

  // A cycle that ends before its fresh rows.
  lemma RetryOnlyHolds<J(!new)>(b: Books, c: Cycle, group: ChartKey -> J, j: J, uid: int)
    requires UserGroup(group, j, uid) && RunsToWrites(c) && !ReachesChart(b, c)
    ensures HeldGroup(AfterCycle(b, c), group, j) <=
              HeldGroup(b, group, j) + ForChart(b, c, group, j) + DoubledIn(b, c, group, j)
    ensures uid in b.users && !ChartInDoubt(b, c) ==>
      HeldGroup(AfterCycle(b, c), group, j) ==
        HeldGroup(b, group, j) + ForChart(b, c, group, j) + DoubledIn(b, c, group, j)
  {
    WritesReachChart(b, c);
    var before := BeforeChart(b, c);
    assert HeldGroup(before, group, j) == HeldGroup(b, group, j) && RetryCall(before, c) == RetryCall(b, c);
    if ReachesRetry(b, c) {
      RetryHolds(before, c, group, j, uid);
    } else {
      assert HeldGroup(AfterCycle(b, c), group, j) == HeldGroup(b, group, j);
      assert InRows([], group, j) == 0;
    }
  }

  // A cycle that writes them.
  lemma RetryAndFreshHold<J(!new)>(b: Books, c: Cycle, group: ChartKey -> J, j: J, uid: int)
    requires UserGroup(group, j, uid) && RunsToWrites(c) && ReachesChart(b, c)
    ensures HeldGroup(AfterCycle(b, c), group, j) <=
              HeldGroup(b, group, j) + ForChart(b, c, group, j) + DoubledIn(b, c, group, j)
    ensures uid in b.users && !ChartInDoubt(b, c) ==>
      HeldGroup(AfterCycle(b, c), group, j) ==
        HeldGroup(b, group, j) + ForChart(b, c, group, j) + DoubledIn(b, c, group, j)
  {
    WritesReachChart(b, c);
    var before := BeforeChart(b, c);
    assert HeldGroup(before, group, j) == HeldGroup(b, group, j) && RetryCall(before, c) == RetryCall(b, c);
    RetryHolds(before, c, group, j, uid);
    FreshHolds(RetryStage(before, c).books, c, FreshBatch(b, c), group, j, uid);
    FreshBatchIsCollected(b, c, group, j, uid);
    assert Rekey<ChartKey, J>([], group) == [];
  }

  // A carried batch keeps its own coefficients, so a retry never re-scales it;
  // and a cycle adds at most what it collected, plus what it doubled.
  lemma CycleKeepsChart<J(!new)>(b: Books, c: Cycle, group: ChartKey -> J, j: J, uid: int)
    requires UserGroup(group, j, uid)
    ensures HeldGroup(AfterCycle(b, c), group, j) <=
              HeldGroup(b, group, j) + ForChart(b, c, group, j) + DoubledIn(b, c, group, j)
    ensures uid in b.users && !ChartInDoubt(b, c) ==>
      HeldGroup(AfterCycle(b, c), group, j) ==
        HeldGroup(b, group, j) + ForChart(b, c, group, j) + DoubledIn(b, c, group, j)
    ensures SingleStatements(b, c) ==> DoubledIn(b, c, group, j) == 0
  {
    if SingleStatements(b, c) {
      SingleStatementsDoubleNothing(b, c, group, j);
    }
    if RunsToWrites(c) && ReachesChart(b, c) {
      RetryAndFreshHold(b, c, group, j, uid);
    } else if RunsToWrites(c) {
      RetryOnlyHolds(b, c, group, j, uid);
    }
  }

  lemma UncollectedUser<J(!new)>(c: Cycle, group: ChartKey -> J, j: J, uid: int)
    requires UserGroup(group, j, uid) && uid !in Fresh(c)
    ensures CollectedIn(c, group, j) == 0
  {
    var rows := ChartRows(c.stats, c.coefficients, 0);
    ChartRowsByUser(c.stats, c.coefficients, 0);
    forall e | e in Rekey(rows, group) ensures e.key != j {
      var i :| 0 <= i < |rows| && e == Rekey(rows, group)[i];
      var byUser := Collected(c.stats, c.coefficients)[i];
      assert byUser in Collected(c.stats, c.coefficients) && byUser.key == rows[i].key.uid;
    }
    TotalForAbsent(Rekey(rows, group), j);
  }

  // ---- Whole runs ----

  // Between cycles anything else may lower or delete what is stored: users are
  // deleted with their chart rows, counters are reset.
  datatype Event =
    | Run(cycle: Cycle)
    | Outside(users: map<int, User>, admins: Ledger<int>, chart: Chart)

  ghost function Next(b: Books, e: Event): Books {
    match e
    case Run(cycle) => AfterCycle(b, cycle)
    case Outside(users, admins, chart) => b.(users := users, admins := admins, chart := chart)
  }

  ghost predicate OnlyLowers(b: Books, e: Event) {
    e.Outside? ==>
      && (forall u :: StoredUser(Next(b, e), u) <= StoredUser(b, u))
      && (forall a :: At(e.admins, a) <= At(b.admins, a))
      && (forall cell :: StoredGroup(e.chart, Cell, cell) <= StoredGroup(b.chart, Cell, cell))
  }

  ghost function After(b: Books, events: seq<Event>): Books {
    if events == [] then b else Next(After(b, events[..|events|-1]), events[|events|-1])
  }

  ghost predicate Plausible(b: Books, events: seq<Event>) {
    events == [] ||
    (Plausible(b, events[..|events|-1]) && OnlyLowers(After(b, events[..|events|-1]), events[|events|-1]))
  }

  // Everything collected for a user, an admin and a chart cell over a run. An
  // admin's collected traffic follows who owned the user at the time.
  ghost function CollectedUser(events: seq<Event>, u: int): nat {
    if events == [] then 0 else
    var last := events[|events|-1];
    CollectedUser(events[..|events|-1], u) + (if last.Run? then At(Fresh(last.cycle), u) else 0)
  }

  ghost function CollectedAdmin(b: Books, events: seq<Event>, a: int): nat {
    if events == [] then 0 else
    var front, last := events[..|events|-1], events[|events|-1];
    CollectedAdmin(b, front, a) + (if last.Run? then Share(After(b, front), last.cycle, a) else 0)
  }

  ghost function CollectedCell(events: seq<Event>, cell: (int, int)): nat {
    if events == [] then 0 else
    var last := events[|events|-1];
    CollectedCell(events[..|events|-1], cell) + (if last.Run? then CollectedIn(last.cycle, Cell, cell) else 0)
  }

  ghost function DoubledCell(b: Books, events: seq<Event>, cell: (int, int)): nat {
    if events == [] then 0 else
    var front, last := events[..|events|-1], events[|events|-1];
    DoubledCell(b, front, cell) + (if last.Run? then DoubledIn(After(b, front), last.cycle, Cell, cell) else 0)
  }

  // Every chart call of the run is one statement: always so on PostgreSQL, and
  // elsewhere while the rows of a call fit one batch.
  ghost predicate SingleStatementRun(b: Books, events: seq<Event>) {
    events == [] ||
    (var front, last := events[..|events|-1], events[|events|-1];
     SingleStatementRun(b, front) && (last.Run? ==> SingleStatements(After(b, front), last.cycle)))
  }

  lemma {:induction false} UserNeverBilledTwice(b: Books, events: seq<Event>, u: int)
    requires Plausible(b, events)
    ensures HeldUser(After(b, events), u) <= HeldUser(b, u) + CollectedUser(events, u)
  {
    if events != [] {
      var front, last := events[..|events|-1], events[|events|-1];
      UserNeverBilledTwice(b, front, u);
      if last.Run? {
        CycleKeepsUsers(After(b, front), last.cycle, u);
      }
    }
  }

  lemma {:induction false} AdminNeverBilledTwice(b: Books, events: seq<Event>, a: int)
    requires Plausible(b, events)
    ensures HeldAdmin(After(b, events), a) <= HeldAdmin(b, a) + CollectedAdmin(b, events, a)
  {
    if events != [] {
      var front, last := events[..|events|-1], events[|events|-1];
      AdminNeverBilledTwice(b, front, a);
      if last.Run? {
        CycleKeepsAdmins(After(b, front), last.cycle, a);
      }
    }
  }

  lemma {:induction false} CellWithinDoubled(b: Books, events: seq<Event>, cell: (int, int))
    requires Plausible(b, events)
    ensures HeldGroup(After(b, events), Cell, cell) <=
              HeldGroup(b, Cell, cell) + CollectedCell(events, cell) + DoubledCell(b, events, cell)
  {
    if events != [] {
      var front, last := events[..|events|-1], events[|events|-1];
      CellWithinDoubled(b, front, cell);
      if last.Run? {
        CycleKeepsChart(After(b, front), last.cycle, Cell, cell, cell.0);
      }
    }
  }

  lemma {:induction false} SingleStatementRunDoublesNothing(b: Books, events: seq<Event>, cell: (int, int))
    requires SingleStatementRun(b, events)
    ensures DoubledCell(b, events, cell) == 0
  {
    if events != [] {
      var front, last := events[..|events|-1], events[|events|-1];
      SingleStatementRunDoublesNothing(b, front, cell);
      if last.Run? {
        SingleStatementsDoubleNothing(After(b, front), last.cycle, Cell, cell);
      }
    }
  }

  // Whatever happens to every write of every cycle, stored plus carried never
  // exceeds what there was plus what was collected -- for users and admins
  // always, for chart cells up to the rows a split call doubled, and so without
  // exception while every chart call is one statement.
  lemma NeverBilledTwice(b: Books, events: seq<Event>, u: int, a: int, cell: (int, int))
    requires Plausible(b, events)
    ensures HeldUser(After(b, events), u) <= HeldUser(b, u) + CollectedUser(events, u)
    ensures HeldAdmin(After(b, events), a) <= HeldAdmin(b, a) + CollectedAdmin(b, events, a)
    ensures HeldGroup(After(b, events), Cell, cell) <=
              HeldGroup(b, Cell, cell) + CollectedCell(events, cell) + DoubledCell(b, events, cell)
    ensures SingleStatementRun(b, events) ==> DoubledCell(b, events, cell) == 0
    ensures SingleStatementRun(b, events) ==>
      HeldGroup(After(b, events), Cell, cell) <= HeldGroup(b, Cell, cell) + CollectedCell(events, cell)
  {
    UserNeverBilledTwice(b, events, u);
    AdminNeverBilledTwice(b, events, a);
    CellWithinDoubled(b, events, cell);
    if SingleStatementRun(b, events) {
      SingleStatementRunDoublesNothing(b, events, cell);
    }
  }

  // No node was healthy, so nothing was collected.
  predicate Idle(c: Cycle) {
    c.stats == []
  }

  lemma IdleCycle(b: Books, c: Cycle, u: int, a: int)
    requires Idle(c)
    ensures AfterCycle(b, c) == b && At(Fresh(c), u) == 0 && Share(b, c, a) == 0
  {
    assert Fresh(c) == map[];
  }

  // Runs in which nothing is cancelled, every lookup completes and every failed
  // user write is a certain rollback. Cycles may find nothing to collect.
  predicate UserWritesCertain(events: seq<Event>) {
    forall e :: e in events ==> e.Run? && (Idle(e.cycle) || (RunsToWrites(e.cycle) && !e.cycle.userWrite.Unknown?))
  }

  // Then nothing is lost either: every existing user's books balance after every
  // cycle, and nothing is carried after a successful write.
  lemma {:induction false} UserTrafficConserved(b: Books, events: seq<Event>, u: int)
    requires UserWritesCertain(events) && u in b.users
    ensures u in After(b, events).users
    ensures HeldUser(After(b, events), u) == HeldUser(b, u) + CollectedUser(events, u)
    ensures events != [] && !Idle(events[|events|-1].cycle) && events[|events|-1].cycle.userWrite.Success? ==>
      After(b, events).carriedUsers == map[] &&
        StoredUser(After(b, events), u) == HeldUser(b, u) + CollectedUser(events, u)
  {
    if events != [] {
      var front, last := events[..|events|-1], events[|events|-1];
      assert last in events;
      UserTrafficConserved(b, front, u);
      if Idle(last.cycle) {
        IdleCycle(After(b, front), last.cycle, u, 0);
      } else {
        CycleKeepsUsers(After(b, front), last.cycle, u);
      }
    }
  }

  // Runs in which, besides, only the admin write may fail.
  ghost predicate OnlyAdminWritesFail(b: Books, events: seq<Event>) {
    events == [] ||
    (var front, last := events[..|events|-1], events[|events|-1];
     && OnlyAdminWritesFail(b, front)
     && last.Run?
     && (Idle(last.cycle) || (ReachesAdmins(After(b, front), last.cycle) && !last.cycle.adminWrite.Unknown?)))
  }

  lemma {:induction false} AdminTrafficConserved(b: Books, events: seq<Event>, a: int)
    requires OnlyAdminWritesFail(b, events) && a in b.admins
    ensures a in After(b, events).admins
    ensures HeldAdmin(After(b, events), a) == HeldAdmin(b, a) + CollectedAdmin(b, events, a)
    ensures events != [] && !Idle(events[|events|-1].cycle) && events[|events|-1].cycle.adminWrite.Success? ==>
              After(b, events).carriedAdmins == map[]
  {
    if events != [] {
      var front, last := events[..|events|-1], events[|events|-1];
      AdminTrafficConserved(b, front, a);
      if Idle(last.cycle) {
        IdleCycle(After(b, front), last.cycle, 0, a);
      } else {
        CycleKeepsAdmins(After(b, front), last.cycle, a);
      }
    }
  }

  // One deadlocked user write, then a clean cycle: the user is billed for both
  // windows, the user's admin only for the second.
  lemma AdminShareLostOnUserRollback(b: Books, deadlocked: Cycle, clean: Cycle, u: int, a: int)
    requires a in b.admins && u in b.users && b.users[u].admin == Some(a) && a != 0
    requires RunsToWrites(deadlocked) && deadlocked.userWrite.CertainRollback? && At(Fresh(deadlocked), u) > 0
    requires RunsToWrites(clean) && clean.userWrite.Success? && clean.adminWrite.Success?
    ensures var after := AfterCycle(AfterCycle(b, deadlocked), clean);
            && StoredUser(after, u) == HeldUser(b, u) + At(Fresh(deadlocked), u) + At(Fresh(clean), u)
            && At(after.admins, a) == HeldAdmin(b, a) + Share(AfterCycle(b, deadlocked), clean, a)
    ensures Share(b, deadlocked, a) > 0
  {
    var mid := AfterCycle(b, deadlocked);
    CycleKeepsUsers(b, deadlocked, u);
    CycleKeepsUsers(mid, clean, u);
    assert u in UserWindow(b, deadlocked);
    CycleKeepsAdmins(b, deadlocked, a);
    CycleKeepsAdmins(mid, clean, a);
    OwnerHasShare(b, deadlocked, u, a);
  }

  lemma OwnerHasShare(b: Books, c: Cycle, u: int, a: int)
    requires u in b.users && b.users[u].admin == Some(a) && a != 0 && At(Fresh(c), u) > 0
    ensures Share(b, c, a) > 0
  {
    var owners, taken := Owners(b.users), Fresh(c);
    assert BilledAdmin(owners, u) == Some(a);
    var part := Slice(taken, v => BilledAdmin(owners, v), Some(a));
    SumRemove(part, u);
    assert a in ChargedAdmins(taken, owners);
  }

  // ---- A cycle in which nothing fails ----

  predicate CleanCycle(b: Books, c: Cycle) {
    && RunsToWrites(c) && c.userWrite.Success? && c.adminWrite.Success? && c.limitsComplete && c.recordNodeUsage
    && FreshCall(c, FreshBatch(b, c)).result.Success?
    && b.carriedUsers == map[] && b.carriedAdmins == map[] && b.carriedNodes == []
  }

  // What each user's counter grew by.
  function Billed(b: Books, after: Books): Ledger<int> {
    map u | u in b.users && u in after.users && after.users[u].used >= b.users[u].used
      :: after.users[u].used - b.users[u].used
  }

  // The three ledgers agree: a user is billed what the chart rows written for
  // them add up to over all nodes, and an admin what their users are billed.
  lemma CleanCycleReconciles(b: Books, c: Cycle, u: int, a: int)
    requires CleanCycle(b, c)
    ensures var after := AfterCycle(b, c);
            && (u in b.users ==>
                 && At(Billed(b, after), u) == At(Fresh(c), u)
                 && StoredGroup(after.chart, UserOf, u) == StoredGroup(b.chart, UserOf, u) + At(Billed(b, after), u))
            && (a in b.admins ==>
                 after.admins[a] == b.admins[a]
                   + Sum(Slice(Billed(b, after), v => BilledAdmin(Owners(b.users), v), Some(a))))
  {
    if u in b.users {
      UserBilled(b, c, u);
      UserChartGrowth(b, c, u);
    }
    if a in b.admins {
      CycleKeepsAdmins(b, c, a);
      ShareIsSum(b, c, a);
      ShareIsBilledSum(b, c, a);
    }
  }

  lemma UserBilled(b: Books, c: Cycle, v: int)
    requires CleanCycle(b, c) && v in b.users
    ensures At(Billed(b, AfterCycle(b, c)), v) == At(Fresh(c), v)
  {
    CycleKeepsUsers(b, c, v);
  }

  lemma ShareIsBilledSum(b: Books, c: Cycle, a: int)
    requires CleanCycle(b, c)
    ensures var owner := v => BilledAdmin(Owners(b.users), v);
            Sum(Slice(Fresh(c), owner, Some(a))) == Sum(Slice(Billed(b, AfterCycle(b, c)), owner, Some(a)))
  {
    var owner := v => BilledAdmin(Owners(b.users), v);
    var billed := Billed(b, AfterCycle(b, c));
    forall v ensures At(Slice(Fresh(c), owner, Some(a)), v) == At(Slice(billed, owner, Some(a)), v) {
      if v in b.users {
        UserBilled(b, c, v);
      }
    }
    SumByAmounts(Slice(Fresh(c), owner, Some(a)), Slice(billed, owner, Some(a)));
  }

  lemma ShareIsSum(b: Books, c: Cycle, a: int)
    ensures Share(b, c, a) == Sum(Slice(Fresh(c), v => BilledAdmin(Owners(b.users), v), Some(a)))
  {
    var owners := Owners(b.users);
    if a !in ChargedAdmins(Fresh(c), owners) {
      assert Slice(Fresh(c), v => BilledAdmin(owners, v), Some(a)) == map[];
    }
  }

  lemma UserChartGrowth(b: Books, c: Cycle, u: int)
    requires CleanCycle(b, c) && u in b.users
    ensures StoredGroup(AfterCycle(b, c).chart, UserOf, u) == StoredGroup(b.chart, UserOf, u) + At(Fresh(c), u)
  {
    CycleKeepsChart(b, c, UserOf, u, u);
    NothingParked(b, c);
    ChartRowsByUser(c.stats, c.coefficients, 0);
    SameByUser(ChartRows(c.stats, c.coefficients, 0));
    AtTotals(Collected(c.stats, c.coefficients), u);
    assert GroupEntries([], b.carriedCoefficients, UserOf) == [];
    assert GroupEntries([], AfterCycle(b, c).carriedCoefficients, UserOf) == [];
    assert Rekey<ChartKey, int>([], UserOf) == [];
  }

  lemma NothingParked(b: Books, c: Cycle)
    requires CleanCycle(b, c)
    ensures ReachesChart(b, c) && AfterCycle(b, c).carriedNodes == []
  {
    WritesReachChart(b, c);
  }

  // ---- Calls of more than one statement ----

  // A call that is split into statements is parked whole when one of them rolls
  // back for certain, although the earlier ones are committed. For a known user
  // and no outcome in doubt, a cycle over-counts a group of chart rows exactly by
  // the rows of those earlier statements, and so exactly when one of them
  // belongs to the group and is not zero.
  lemma SplitCallOvercountsIff<J(!new)>(b: Books, c: Cycle, group: ChartKey -> J, j: J, uid: int)
    requires UserGroup(group, j, uid) && uid in b.users && !ChartInDoubt(b, c)
    ensures HeldGroup(AfterCycle(b, c), group, j) > HeldGroup(b, group, j) + ForChart(b, c, group, j) <==>
            exists row :: row in DoubledRows(b, c) && group(row.key) == j && row.value > 0
  {
    CycleKeepsChart(b, c, group, j, uid);
    RowsCount(DoubledRows(b, c), group, j);
  }

  lemma {:induction false} RowsCount<J(!new)>(rows: seq<ChartRow>, group: ChartKey -> J, j: J)
    ensures InRows(rows, group, j) > 0 <==> exists row :: row in rows && group(row.key) == j && row.value > 0
  {
    if rows == [] {
      assert Rekey<ChartKey, J>([], group) == [];
    } else {
      var front, last := rows[..|rows|-1], rows[|rows|-1];
      RowsCount(front, group, j);
      var e := Entry(group(last.key), last.value);
      assert rows == front + [last];
      assert Rekey(rows, group) == Rekey(front, group) + [e];
      TotalForAppend(Rekey(front, group), [e], j);
      assert [e][1..] == [];
    }
  }

  // Before a call is made: some failure of it would double traffic of the group
  // exactly if a statement other than the last carries some.
  lemma OvercountPossibleIff<J(!new)>(dialect: Dialect, rows: seq<ChartRow>, group: ChartKey -> J, j: J)
    ensures (exists writes :: InRows(Doubled(ChartCall(dialect, rows, writes)), group, j) > 0) <==>
            InRows(BeforeLastStatement(dialect, rows), group, j) > 0
  {
    var batches := Batches(dialect, rows);
    if writes :| InRows(Doubled(ChartCall(dialect, rows, writes)), group, j) > 0 {
      DoubledBeforeLast(dialect, rows, writes, group, j);
    }
    if InRows(BeforeLastStatement(dialect, rows), group, j) > 0 {
      var writes := LastRollsBack(dialect, rows);
      assert InRows(Doubled(ChartCall(dialect, rows, writes)), group, j) > 0;
    }
  }

  function BeforeLastStatement(dialect: Dialect, rows: seq<ChartRow>): seq<ChartRow> {
    var batches := Batches(dialect, rows);
    if batches == [] then [] else Flatten(batches[..|batches|-1])
  }

  lemma DoubledBeforeLast<J(!new)>(dialect: Dialect, rows: seq<ChartRow>, writes: seq<WriteResult>,
                                   group: ChartKey -> J, j: J)
    ensures InRows(Doubled(ChartCall(dialect, rows, writes)), group, j) <=
              InRows(BeforeLastStatement(dialect, rows), group, j)
  {
    var batches := Batches(dialect, rows);
    var k := FirstFailure(writes, 0, |batches|);
    assert Rekey<ChartKey, J>([], group) == [];
    if k < |batches| && ChartCall(dialect, rows, writes).result.CertainRollback? {
      var early := batches[..|batches|-1];
      assert batches[..k] == early[..k];
      FlattenPrefix(early, k);
      PartOfCall(Flatten(early), Flatten(early[..k]), group, j);
    }
  }

  // Every statement but the last commits.
  lemma LastRollsBack(dialect: Dialect, rows: seq<ChartRow>) returns (writes: seq<WriteResult>)
    requires rows != []
    ensures ChartCall(dialect, rows, writes) == Call(BeforeLastStatement(dialect, rows), CertainRollback)
  {
    var batches := Batches(dialect, rows);
    var n: nat := |batches| - 1;
    writes := seq(n, i => Success) + [CertainRollback];
    assert writes[n].CertainRollback? && forall i :: 0 <= i < n ==> writes[i].Success?;
    assert FirstFailure(writes, 0, |batches|) == n;
  }

  // ---- A call of two statements ----

  // 401 users on one node of a SQLite panel, one byte each.
  function OneByteEach(n: nat): seq<Stat> {
    seq(n, i => Entry(i, 1))
  }

  ghost function TwoStatements(c: Cycle): Cycle {
    c.(stats := [NodeStats(1, OneByteEach(SQLITE_BATCH + 1))], coefficients := map[], lookupCompletes := true,
       userWrite := Success, adminWrite := Success, limitsComplete := true, recordNodeUsage := true,
       dialect := SQLite, freshWrites := [Success, CertainRollback])
  }

  function EmptyBooks(n: nat): Books {
    Books(map[], map[], [], map[], map u | u in KeysOf(OneByteEach(n)) :: User(0, None), map[], map[])
  }

  lemma OneByteEachKeys(n: nat, u: nat)
    requires u < n
    ensures u in KeysOf(OneByteEach(n)) && OneByteEach(n)[u] == Entry(u, 1)
  {
    assert OneByteEach(n)[u] in OneByteEach(n);
  }

  lemma {:induction false} AllOnlyValid(params: seq<Stat>, valid: set<int>)
    requires forall e :: e in params ==> e.key in valid
    ensures OnlyValid(params, valid) == params
  {
    if params != [] {
      AllOnlyValid(params[..|params|-1], valid);
      assert params[|params|-1] in params;
      assert params == params[..|params|-1] + [params[|params|-1]];
    }
  }

  lemma OneNodeCollected(stats: seq<NodeStats>, params: seq<Stat>)
    requires stats == [NodeStats(1, params)]
    ensures Collected(stats, map[]) == ScaleAll(params, 1.0)
  {
    assert stats[..0] == [];
    assert CoefficientOf(map[], 1) == 1.0;
    assert Collected(stats, map[]) == [] + ScaleAll(params, 1.0);
  }

  lemma OneNodeValid(stats: seq<NodeStats>, params: seq<Stat>, valid: set<int>)
    requires stats == [NodeStats(1, params)] && params != [] && forall e :: e in params ==> e.key in valid
    ensures ValidStats(stats, valid) == stats
  {
    assert stats[..0] == [];
    AllOnlyValid(params, valid);
    assert ValidStats(stats, valid) == [] + [NodeStats(1, params)];
  }

  lemma ScaledKeys(params: seq<Stat>, coeff: Coefficient, e: Stat)
    requires e in params
    ensures e.key in KeysOf(ScaleAll(params, coeff))
  {
    var i :| 0 <= i < |params| && params[i] == e;
    assert ScaleAll(params, coeff)[i].key == e.key;
    assert ScaleAll(params, coeff)[i] in ScaleAll(params, coeff);
  }

  // Every user is known, so the batch is what was collected.
  lemma KnownUsersBatch(b: Books, c: Cycle, params: seq<Stat>)
    requires params != [] && c.stats == [NodeStats(1, params)] && c.coefficients == map[] &&
              b.users.Keys == KeysOf(params)
    ensures FreshBatch(b, c) == c.stats
  {
    var valid := Fresh(c).Keys * b.users.Keys;
    forall e | e in params ensures e.key in valid {
      OneNodeCollected(c.stats, params);
      ScaledKeys(params, 1.0, e);
    }
    OneNodeValid(c.stats, params, valid);
  }

  lemma TwoStatementsBatch(any: Cycle)
    ensures FreshBatch(EmptyBooks(SQLITE_BATCH + 1), TwoStatements(any)) == TwoStatements(any).stats
  {
    KnownUsersBatch(EmptyBooks(SQLITE_BATCH + 1), TwoStatements(any), OneByteEach(SQLITE_BATCH + 1));
  }

  lemma TwoStatementsRows(c: Cycle)
    requires c.stats == [NodeStats(1, OneByteEach(SQLITE_BATCH + 1))] && c.coefficients == map[]
    ensures var rows := ChartRows(c.stats, c.coefficients, c.freshBucket);
            |rows| == SQLITE_BATCH + 1 && rows[0] == Entry(ChartKey(c.freshBucket, 0, 1), 1)
  {
    assert c.stats[..0] == [];
    assert ChartRows(c.stats, c.coefficients, c.freshBucket) ==
      NodeRows(OneByteEach(SQLITE_BATCH + 1), 1.0, 1, c.freshBucket);
  }

  // A SQLite call of 401 rows whose second statement rolls back.
  lemma SecondStatementRollsBack(rows: seq<ChartRow>)
    requires |rows| == SQLITE_BATCH + 1
    ensures ChartCall(SQLite, rows, [Success, CertainRollback]) == Call(rows[..SQLITE_BATCH], CertainRollback)
  {
    var first, second := rows[..SQLITE_BATCH], rows[SQLITE_BATCH..];
    var batches := Batches(SQLite, rows);
    assert Chunked(second, SQLITE_BATCH) == [second];
    assert batches == [first] + [second];
    assert FirstFailure([Success, CertainRollback], 0, 2) == 1;
    assert batches[..1] == [first] && [first][1..] == [];
    assert Flatten([first]) == first + [];
  }

  // The first statement commits 400 rows, the second rolls back: user 0 now has
  // a byte in the chart that is also parked to be written again.
  lemma TwoStatementsOvercount(any: Cycle)
    ensures var b, c := EmptyBooks(SQLITE_BATCH + 1), TwoStatements(any);
            HeldGroup(AfterCycle(b, c), Cell, (0, 1)) > HeldGroup(b, Cell, (0, 1)) + CollectedIn(c, Cell, (0, 1))
  {
    var b, c := EmptyBooks(SQLITE_BATCH + 1), TwoStatements(any);
    var rows := ChartRows(c.stats, c.coefficients, c.freshBucket);
    TwoStatementsBatch(any);
    TwoStatementsRows(c);
    SecondStatementRollsBack(rows);
    assert RetryCall(b, c).result.Success? && ReachesChart(b, c) && !ChartInDoubt(b, c);
    assert DoubledRows(b, c) == rows[..SQLITE_BATCH];
    assert rows[..SQLITE_BATCH][0] in DoubledRows(b, c);
    OneByteEachKeys(SQLITE_BATCH + 1, 0);
    SplitCallOvercountsIff(b, c, Cell, (0, 1), 0);
  }
}
