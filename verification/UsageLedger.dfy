// One billing cycle: fold in what an earlier cycle could not write, then write
// the user, admin and chart ledgers, re-parking exactly the windows whose write
// is certain to have rolled back.
module UsageLedger {
  import opened Ledgers
  import opened Options
  import opened UsageTotals
  import opened Upserts
  import opened SafeExecution

  datatype User = User(used: nat, admin: Option<int>)

  // The carry buffers and the three ledgers in the database.
  datatype Books = Books(
    carriedUsers: Ledger<int>,
    carriedAdmins: Ledger<int>,
    carriedNodes: seq<NodeStats>,
    carriedCoefficients: map<int, Coefficient>,
    users: map<int, User>,
    admins: Ledger<int>,
    chart: Chart)

  // Everything a cycle meets: the counters it took off the nodes (one entry per
  // healthy node), and how each later step turns out. A cancellation during a
  // write is Unknown; before or between writes it is one of the two flags. The
  // two chart calls may take several statements each, one result per statement.
  datatype Cycle = Cycle(
    stats: seq<NodeStats>,
    coefficients: map<int, Coefficient>,
    poolReady: bool,
    executorFails: bool,
    lookupCompletes: bool,
    userWrite: WriteResult,
    adminWrite: WriteResult,
    limitsComplete: bool,
    recordNodeUsage: bool,
    dialect: Dialect,
    retryWrites: seq<WriteResult>,
    retryBucket: int,
    freshWrites: seq<WriteResult>,
    freshBucket: int)

  // What the database does with every attempt of every write of a cycle.
  datatype Attempts = Attempts(user: Tries, admin: Tries, retry: seq<Tries>, newRows: seq<Tries>)

  // The cycle whose writes end the way these attempts end.
  function Ending(c: Cycle, t: Attempts): Cycle {
    c.(userWrite := EndOf(t.user), adminWrite := EndOf(t.admin), retryWrites := Ends(t.retry), freshWrites :=
      Ends(t.newRows))
  }

  function Owners(users: map<int, User>): map<int, Option<int>> {
    map u | u in users :: users[u].admin
  }

  // The coefficient-applied traffic a cycle collected, per user.
  function Fresh(c: Cycle): Ledger<int> {
    Totals(Collected(c.stats, c.coefficients))
  }

  // What the cycle tries to bill each user.
  function UserWindow(b: Books, c: Cycle): Ledger<int> {
    Plus(b.carriedUsers, map u | u in Fresh(c) && u in b.users && Fresh(c)[u] > 0 :: Fresh(c)[u])
  }

  function ChargedAdmins(taken: Ledger<int>, owners: map<int, Option<int>>): set<int> {
    set u | u in taken && BilledAdmin(owners, u).Some? :: BilledAdmin(owners, u).value
  }

  // Each admin's share: the sum of what their users collected.
  ghost function AdminShares(taken: Ledger<int>, owners: map<int, Option<int>>): Ledger<int> {
    map a | a in ChargedAdmins(taken, owners) :: Sum(Slice(taken, u => BilledAdmin(owners, u), Some(a)))
  }

  ghost function AdminWindow(b: Books, c: Cycle): Ledger<int> {
    Plus(b.carriedAdmins, AdminShares(Fresh(c), Owners(b.users)))
  }

  // UPDATE users SET used_traffic = used_traffic + :value WHERE id = :uid
  function BillUsers(users: map<int, User>, window: Ledger<int>): map<int, User> {
    map u | u in users :: users[u].(used := users[u].used + At(window, u))
  }

  function BillAdmins(admins: Ledger<int>, window: Ledger<int>): Ledger<int> {
    map a | a in admins :: admins[a] + At(window, a)
  }

  function Parked(r: WriteResult, window: Ledger<int>): Ledger<int> {
    if r.CertainRollback? then window else map[]
  }

  function OnlyValid(params: seq<Stat>, valid: set<int>): seq<Stat> {
    if params == [] then [] else
    OnlyValid(params[..|params|-1], valid) + (if params[|params|-1].key in valid then [params[|params|-1]] else [])
  }

  // The chart batch: each node's entries of known users, nodes without any left out.
  function ValidStats(stats: seq<NodeStats>, valid: set<int>): seq<NodeStats> {
    if stats == [] then [] else
    var last := stats[|stats|-1];
    var kept := OnlyValid(last.params, valid);
    ValidStats(stats[..|stats|-1], valid) + (if kept != [] then [NodeStats(last.node, kept)] else [])
  }

  // The user and admin books are as they were.
  predicate KeepsAccounts(b: Books, after: Books) {
    && after.users == b.users && after.carriedUsers == b.carriedUsers
    && after.admins == b.admins && after.carriedAdmins == b.carriedAdmins
  }

  predicate KeepsChart(b: Books, after: Books) {
    && after.chart == b.chart && after.carriedNodes == b.carriedNodes
    && after.carriedCoefficients == b.carriedCoefficients && after.users.Keys == b.users.Keys
  }

  // ---- The stages of a cycle; each says whether the cycle goes on ----

  datatype Stage = Stage(books: Books, goesOn: bool)

  function UserStage(b: Books, r: WriteResult, window: Ledger<int>): (s: Stage)
    ensures KeepsChart(b, s.books)
    ensures s.goesOn <==> window == map[] || r.Success?
  {
    if window == map[] then Stage(b, true)
    else Stage(
      b.(carriedUsers := Parked(r, window),
         users := if Applied(r) then BillUsers(b.users, window) else b.users),
      r.Success?)
  }

  function AdminStage(b: Books, c: Cycle, window: Ledger<int>): (s: Stage)
    ensures s.books.users == b.users && s.books.carriedUsers == b.carriedUsers && KeepsChart(b, s.books)
    ensures s.goesOn <==> window == map[] || (c.adminWrite.Success? && c.limitsComplete)
  {
    if window == map[] then Stage(b, true)
    else Stage(
      b.(carriedAdmins := Parked(c.adminWrite, window),
         admins := if Applied(c.adminWrite) then BillAdmins(b.admins, window) else b.admins),
      c.adminWrite.Success? && c.limitsComplete)
  }

  function RetryCall(b: Books, c: Cycle): Call {
    ChartCall(c.dialect, ChartRows(b.carriedNodes, b.carriedCoefficients, c.retryBucket), c.retryWrites)
  }

  // A call that raises is parked whole if the statement it raised in is certain
  // to have rolled back, whatever its earlier statements committed.
  function RetryStage(b: Books, c: Cycle): (s: Stage)
    ensures KeepsAccounts(b, s.books)
    ensures s.goesOn ==> s.books.carriedNodes == []
  {
    if b.carriedNodes == [] then Stage(b, true)
    else
      var call := RetryCall(b, c);
      var cleared := b.(carriedNodes := [], carriedCoefficients := map[]);
      Stage(
        (if call.result.CertainRollback? then b else cleared).(chart := AddRows(b.chart, b.users.Keys, call.applied)),
        call.result.Success?)
  }

  function FreshCall(c: Cycle, batch: seq<NodeStats>): Call {
    ChartCall(c.dialect, ChartRows(batch, c.coefficients, c.freshBucket), c.freshWrites)
  }

  function ChartStage(b: Books, c: Cycle, batch: seq<NodeStats>): (after: Books)
    ensures KeepsAccounts(b, after)
  {
    if batch == [] then b
    else
      var call := FreshCall(c, batch);
      (if call.result.CertainRollback? then b.(carriedNodes := batch, carriedCoefficients := c.coefficients) else b)
        .(chart := AddRows(b.chart, b.users.Keys, call.applied))
  }

  // The writes of a cycle, given what is to be written.
  function AfterWrites(b: Books, c: Cycle, users: Ledger<int>, admins: Ledger<int>, batch: seq<NodeStats>): Books {
    var s1 := UserStage(b, c.userWrite, users);
    if !s1.goesOn then s1.books else
    var s2 := AdminStage(s1.books, c, admins);
    if !s2.goesOn || !c.recordNodeUsage then s2.books else
    var s3 := RetryStage(s2.books, c);
    if !s3.goesOn then s3.books else
    ChartStage(s3.books, c, batch)
  }

  function FreshBatch(b: Books, c: Cycle): seq<NodeStats> {
    ValidStats(c.stats, Fresh(c).Keys * b.users.Keys)
  }

  ghost function AfterCycle(b: Books, c: Cycle): Books {
    if c.stats == [] || !c.lookupCompletes then b
    else AfterWrites(b, c, UserWindow(b, c), AdminWindow(b, c), FreshBatch(b, c))
  }

  // ---- The job ----

  // Folds carried amounts into this cycle's list, summing per id.
  method MergeUsage(taken: seq<Stat>, carried: Ledger<int>, ghost m: Ledger<int>) returns (merged: seq<Stat>)
    requires Lists(taken, m)
    ensures Lists(merged, Plus(carried, m))
  {
    if carried == map[] {
      assert Plus(carried, m) == m;
      return taken;
    }
    var sums := carried;
    assert taken[..0] == [];
    assert Plus(carried, map[]) == carried;
    for i := 0 to |taken|
      invariant sums == Plus(carried, Totals(taken[..i]))
    {
      PlusTotalsNext(carried, taken, i);
      sums := Credit(sums, taken[i]);
    }
    assert taken[..|taken|] == taken;
    ListingTotals(taken, m);
    merged := ListOf(sums);
  }

  // A dictionary comprehension over a list of records: the last one of an id wins.
  method DictOf(items: seq<Stat>, ghost m: Ledger<int>) returns (d: Ledger<int>)
    requires Lists(items, m)
    ensures d == m
  {
    d := map[];
    for i := 0 to |items|
      invariant forall j :: 0 <= j < i ==> items[j].key in d && d[items[j].key] == items[j].value
      invariant d.Keys <= m.Keys
    {
      assert items[i] in items;
      d := d[items[i].key := items[i].value];
    }
    forall k | k in m ensures k in d && d[k] == m[k] {
      assert Entry(k, m[k]) in items;
      var j :| 0 <= j < |items| && items[j] == Entry(k, m[k]);
    }
    assert d.Keys == m.Keys;
  }

  // One record of the executemany UPDATE: an absent row is left alone.
  function BillUser(users: map<int, User>, e: Stat): map<int, User> {
    if e.key in users then users[e.key := users[e.key].(used := users[e.key].used + e.value)] else users
  }

  function BillAdmin(admins: Ledger<int>, e: Stat): Ledger<int> {
    if e.key in admins then admins[e.key := admins[e.key] + e.value] else admins
  }

  lemma BillUsersNext(users: map<int, User>, rows: seq<Stat>, i: nat)
    requires i < |rows|
    ensures BillUsers(users, Totals(rows[..i+1])) == BillUser(BillUsers(users, Totals(rows[..i])), rows[i])
  {
    TotalsSnoc(rows[..i], rows[i]);
    assert rows[..i+1] == rows[..i] + [rows[i]];
    var l, r := BillUsers(users, Totals(rows[..i+1])), BillUser(BillUsers(users, Totals(rows[..i])), rows[i]);
    assert l.Keys == r.Keys;
    assert forall u :: u in l ==> l[u] == r[u];
  }

  lemma BillAdminsNext(admins: Ledger<int>, rows: seq<Stat>, i: nat)
    requires i < |rows|
    ensures BillAdmins(admins, Totals(rows[..i+1])) == BillAdmin(BillAdmins(admins, Totals(rows[..i])), rows[i])
  {
    TotalsSnoc(rows[..i], rows[i]);
    assert rows[..i+1] == rows[..i] + [rows[i]];
    var l, r := BillAdmins(admins, Totals(rows[..i+1])), BillAdmin(BillAdmins(admins, Totals(rows[..i])), rows[i]);
    assert l.Keys == r.Keys;
    assert forall a :: a in l ==> l[a] == r[a];
  }

  lemma BillNothing(users: map<int, User>, admins: Ledger<int>)
    ensures BillUsers(users, map[]) == users && BillAdmins(admins, map[]) == admins
  {
    assert forall u :: u in users ==> BillUsers(users, map[])[u] == users[u];
    assert forall a :: a in admins ==> BillAdmins(admins, map[])[a] == admins[a];
    assert BillAdmins(admins, map[]).Keys == admins.Keys;
  }

  // The executemany UPDATE of the users table, one record after another.
  method UpdateUsers(table: map<int, User>, rows: seq<Stat>, ghost window: Ledger<int>)
    returns (updated: map<int, User>)
    requires Lists(rows, window)
    ensures updated == BillUsers(table, window)
  {
    updated := table;
    assert Totals(rows[..0]) == map[];
    BillNothing(table, map[]);
    for i := 0 to |rows|
      invariant updated == BillUsers(table, Totals(rows[..i]))
    {
      BillUsersNext(table, rows, i);
      updated := BillUser(updated, rows[i]);
    }
    assert rows[..|rows|] == rows;
    ListingTotals(rows, window);
  }

  method UpdateAdmins(table: Ledger<int>, rows: seq<Stat>, ghost window: Ledger<int>) returns (updated: Ledger<int>)
    requires Lists(rows, window)
    ensures updated == BillAdmins(table, window)
  {
    updated := table;
    assert Totals(rows[..0]) == map[];
    BillNothing(map[], table);
    for i := 0 to |rows|
      invariant updated == BillAdmins(table, Totals(rows[..i]))
    {
      BillAdminsNext(table, rows, i);
      updated := BillAdmin(updated, rows[i]);
    }
    assert rows[..|rows|] == rows;
    ListingTotals(rows, window);
  }

  // Keeps the entries of known users with non-zero traffic.
  method FilterUsage(usage: seq<Stat>, valid: set<int>, ghost m: Ledger<int>) returns (kept: seq<Stat>)
    requires Lists(usage, m)
    ensures Lists(kept, map u | u in m && u in valid && m[u] > 0 :: m[u])
  {
    kept := [];
    for i := 0 to |usage|
      invariant forall e :: e in kept <==> e in usage[..i] && e.key in valid && e.value > 0
      invariant forall j, k :: 0 <= j < k < |kept| ==> kept[j].key != kept[k].key
    {
      assert forall e :: e in usage[..i] ==> e.key != usage[i].key;
      assert usage[..i+1] == usage[..i] + [usage[i]];
      if usage[i].key in valid && usage[i].value > 0 {
        kept := kept + [usage[i]];
      }
    }
    assert usage[..|usage|] == usage;
  }

  lemma {:induction false} OnlyValidSnoc(params: seq<Stat>, i: nat, valid: set<int>)
    requires i < |params|
    ensures OnlyValid(params[..i+1], valid)
         == OnlyValid(params[..i], valid) + (if params[i].key in valid then [params[i]] else [])
  {
    assert params[..i+1][..i] == params[..i];
  }

  method FilterParams(stats: seq<NodeStats>, valid: set<int>) returns (kept: seq<NodeStats>)
    ensures kept == ValidStats(stats, valid)
  {
    kept := [];
    for i := 0 to |stats|
      invariant kept == ValidStats(stats[..i], valid)
    {
      assert stats[..i+1][..i] == stats[..i];
      var params := stats[i].params;
      var filtered: seq<Stat> := [];
      for j := 0 to |params|
        invariant filtered == OnlyValid(params[..j], valid)
      {
        OnlyValidSnoc(params, j, valid);
        if params[j].key in valid {
          filtered := filtered + [params[j]];
        }
      }
      assert params[..|params|] == params;
      if filtered != [] {
        kept := kept + [NodeStats(stats[i].node, filtered)];
      }
    }
    assert stats[..|stats|] == stats;
  }

  lemma ChargedAdminsAgree(usage: seq<Stat>, taken: Ledger<int>, owners: map<int, Option<int>>, a: int)
    requires Lists(usage, taken)
    ensures a in KeysOf(AdminEntries(usage, owners)) <==> a in ChargedAdmins(taken, owners)
  {
    AdminEntryKeys(usage, owners, a);
    if a in ChargedAdmins(taken, owners) {
      var u :| u in taken && BilledAdmin(owners, u) == Some(a);
      assert Entry(u, taken[u]) in usage;
    }
  }

  lemma AdminSharesAgree(usage: seq<Stat>, taken: Ledger<int>, owners: map<int, Option<int>>)
    requires Lists(usage, taken)
    ensures Totals(AdminEntries(usage, owners)) == AdminShares(taken, owners)
  {
    ListingTotals(usage, taken);
    var l, r := Totals(AdminEntries(usage, owners)), AdminShares(taken, owners);
    forall a ensures a in l <==> a in r {
      ChargedAdminsAgree(usage, taken, owners, a);
    }
    forall a | a in l ensures l[a] == r[a] {
      AdminShareIsUsersSum(usage, owners, a);
    }
  }

  lemma {:induction false} AdminEntryKeys(usage: seq<Stat>, owners: map<int, Option<int>>, a: int)
    ensures a in KeysOf(AdminEntries(usage, owners))
       <==> exists e :: e in usage && BilledAdmin(owners, e.key) == Some(a)
  {
    if usage != [] {
      var front, last := usage[..|usage|-1], usage[|usage|-1];
      AdminEntryKeys(front, owners, a);
      var admin := BilledAdmin(owners, last.key);
      assert usage == front + [last];
      var tail := if admin.Some? then [Entry(admin.value, last.value)] else [];
      assert KeysOf(AdminEntries(front, owners) + tail) == KeysOf(AdminEntries(front, owners)) + KeysOf(tail);
      assert admin.Some? ==> KeysOf(tail) == {admin.value} by {
        if admin.Some? { assert tail[0] in tail; }
      }
      assert last in usage;
    }
  }

  class UsageRecorder {
    var carriedUserUsage: Ledger<int>
    var carriedAdminUsage: Ledger<int>
    var carriedNodeParams: seq<NodeStats>
    var carriedNodeCoefficients: map<int, Coefficient>
    var users: map<int, User>
    var admins: Ledger<int>
    var chart: Chart

    ghost function State(): Books
      reads this
    {
      Books(carriedUserUsage, carriedAdminUsage, carriedNodeParams, carriedNodeCoefficients, users, admins, chart)
    }

    constructor (users: map<int, User>, admins: Ledger<int>, chart: Chart)
      ensures State() == Books(map[], map[], [], map[], users, admins, chart)
    {
      carriedUserUsage, carriedAdminUsage := map[], map[];
      carriedNodeParams, carriedNodeCoefficients := [], map[];
      this.users, this.admins, this.chart := users, admins, chart;
    }

    // Stage one, with this cycle's window already merged: true when the cycle goes on.
    method WriteUsers(rows: seq<Stat>, tries: Tries, ghost window: Ledger<int>) returns (ok: bool)
      requires Lists(rows, window)
      modifies this`users, this`carriedUserUsage
      ensures State() == UserStage(old(State()), EndOf(tries), window).books
      ensures ok == UserStage(old(State()), EndOf(tries), window).goesOn
    {
      EmptyListing(rows, window);
      if rows == [] {
        return true;
      }
      carriedUserUsage := map[];
      var write, _ := WriteOnce(tries);
      if Applied(write) {
        users := UpdateUsers(users, rows, window);
      }
      if !write.Success? {
        if write.CertainRollback? {
          carriedUserUsage := DictOf(rows, window);
        }
        return false;
      }
      return true;
    }

    // Stage two, with the totals of this cycle already summed per admin.
    method WriteAdmins(adminUsage: Ledger<int>, c: Cycle, tries: Tries) returns (ok: bool)
      requires c.adminWrite == EndOf(tries)
      modifies this`admins, this`carriedAdminUsage
      ensures State() == AdminStage(old(State()), c, adminUsage).books
      ensures ok == AdminStage(old(State()), c, adminUsage).goesOn
    {
      if adminUsage == map[] {
        return true;
      }
      var rows := ListOf(adminUsage);
      carriedAdminUsage := map[];
      var write, _ := WriteOnce(tries);
      if Applied(write) {
        admins := UpdateAdmins(admins, rows, adminUsage);
      }
      if !write.Success? {
        if write.CertainRollback? {
          carriedAdminUsage := adminUsage;
        }
        return false;
      }
      return c.limitsComplete;
    }

    // A parked batch is retried on its own, with its own coefficients.
    method RetryChart(c: Cycle, tries: seq<Tries>) returns (ok: bool)
      requires c.retryWrites == Ends(tries)
      modifies this`chart, this`carriedNodeParams, this`carriedNodeCoefficients
      ensures State() == RetryStage(old(State()), c).books && ok == RetryStage(old(State()), c).goesOn
    {
      if carriedNodeParams == [] {
        return true;
      }
      var retryParams, retryCoefficients := carriedNodeParams, carriedNodeCoefficients;
      carriedNodeParams, carriedNodeCoefficients := [], map[];
      var result;
      chart, result :=
        RecordUserStatsBatched(retryParams, retryCoefficients, c.retryBucket, c.dialect, users.Keys, chart, tries);
      if result.CertainRollback? {
        carriedNodeParams, carriedNodeCoefficients := retryParams, retryCoefficients;
      }
      return result.Success?;
    }

    method WriteChart(c: Cycle, batch: seq<NodeStats>, tries: seq<Tries>)
      requires c.freshWrites == Ends(tries)
      modifies this`chart, this`carriedNodeParams, this`carriedNodeCoefficients
      ensures State() == ChartStage(old(State()), c, batch)
    {
      if batch == [] {
        return;
      }
      var result;
      chart, result :=
        RecordUserStatsBatched(batch, c.coefficients, c.freshBucket, c.dialect, users.Keys, chart, tries);
      if result.CertainRollback? {
        carriedNodeParams, carriedNodeCoefficients := batch, c.coefficients;
      }
    }

    predicate NothingCarried()
      reads this
    {
      carriedUserUsage == map[] && carriedAdminUsage == map[] && carriedNodeParams == []
    }

    // The two lists to write: both fold in what an earlier cycle parked.
    method MergeWindows(c: Cycle, usage: seq<Stat>, shares: Ledger<int>, valid: set<int>)
      returns (rows: seq<Stat>, adminUsage: Ledger<int>)
      requires Lists(usage, Fresh(c)) && valid == Fresh(c).Keys * users.Keys
      requires shares == AdminShares(Fresh(c), Owners(users))
      ensures Lists(rows, UserWindow(State(), c))
      ensures adminUsage == AdminWindow(State(), c)
    {
      var kept := FilterUsage(usage, valid, Fresh(c));
      ghost var sums := map u | u in Fresh(c) && u in valid && Fresh(c)[u] > 0 :: Fresh(c)[u];
      assert sums == map u | u in Fresh(c) && u in users && Fresh(c)[u] > 0 :: Fresh(c)[u];
      rows := MergeUsage(kept, carriedUserUsage, sums);
      adminUsage := AddDict(shares, carriedAdminUsage);
      assert Plus(shares, carriedAdminUsage) == Plus(carriedAdminUsage, shares);
    }

    // The whole job. How its writes end is left to the attempts.
    method RecordUserUsages(c: Cycle, t: Attempts)
      modifies this
      ensures State() == AfterCycle(old(State()), Ending(c, t))
    {
      ghost var b := State();
      if c.stats == [] {
        return;
      }
      var usage := CalculateUsersUsage(c.stats, c.coefficients, c.poolReady, c.executorFails);
      EmptyListing(usage, Fresh(c));
      if usage == [] && NothingCarried() {
        NothingToWrite(b, Ending(c, t));
        return;
      }
      if c.lookupCompletes {
        BillUsage(Ending(c, t), t, usage);
      }
    }

    // From the lookup of the owners to the last write.
    method BillUsage(c: Cycle, t: Attempts, usage: seq<Stat>)
      requires c == Ending(c, t)
      requires c.stats != [] && c.lookupCompletes && Lists(usage, Fresh(c))
      requires usage != [] || !NothingCarried()
      modifies this
      ensures State() == AfterCycle(old(State()), c)
    {
      ghost var b := State();
      EmptyListing(usage, Fresh(c));
      var shares, valid := AdminTotals(c, usage);
      if valid == {} && NothingCarried() {
        NothingToWrite(b, c);
        return;
      }
      var rows, adminUsage := MergeWindows(c, usage, shares, valid);
      WriteLedgers(c, t, rows, adminUsage, valid, UserWindow(b, c));
    }

    method WriteLedgers(c: Cycle, t: Attempts, rows: seq<Stat>, adminUsage: Ledger<int>, valid: set<int>,
                        ghost window: Ledger<int>)
      requires c == Ending(c, t) && Lists(rows, window)
      modifies this
      ensures State() == AfterWrites(old(State()), c, window, adminUsage, ValidStats(c.stats, valid))
    {
      var ok := WriteUsers(rows, t.user, window);
      if !ok {
        return;
      }
      ok := WriteAdmins(adminUsage, c, t.admin);
      if !ok || !c.recordNodeUsage {
        return;
      }
      var batch := FilterParams(c.stats, valid);
      ok := RetryChart(c, t.retry);
      if !ok {
        return;
      }
      WriteChart(c, batch, t.newRows);
    }

    method AdminTotals(c: Cycle, usage: seq<Stat>) returns (shares: Ledger<int>, valid: set<int>)
      requires Lists(usage, Fresh(c))
      ensures shares == AdminShares(Fresh(c), Owners(users))
      ensures valid == Fresh(c).Keys * users.Keys
    {
      shares, valid := CalculateAdminUsage(usage, Owners(users));
      AdminSharesAgree(usage, Fresh(c), Owners(users));
      ListingTotals(usage, Fresh(c));
      assert KeysOf(usage) == Totals(usage).Keys;
    }
  }

  lemma EmptyListing(items: seq<Stat>, m: Ledger<int>)
    requires Lists(items, m)
    ensures items == [] <==> m == map[]
  {
    if items != [] {
      assert items[0] in items;
    }
  }

  lemma {:induction false} NoneValid(params: seq<Stat>, valid: set<int>)
    requires forall e :: e in params ==> e.key !in valid
    ensures OnlyValid(params, valid) == []
  {
    if params != [] {
      NoneValid(params[..|params|-1], valid);
      assert params[|params|-1] in params;
    }
  }

  // Without a known user or anything carried, a cycle changes nothing: the two
  // early returns only skip work.
  lemma NothingToWrite(b: Books, c: Cycle)
    requires b.carriedUsers == map[] && b.carriedAdmins == map[] && b.carriedNodes == []
    requires Fresh(c).Keys * b.users.Keys == {}
    ensures AfterCycle(b, c) == b
  {
    var owners := Owners(b.users);
    assert forall u :: u in Fresh(c) && u in b.users ==> u in Fresh(c).Keys * b.users.Keys;
    assert UserWindow(b, c) == map[];
    assert forall u :: u in Fresh(c) && u in owners ==> u in Fresh(c).Keys * b.users.Keys;
    assert ChargedAdmins(Fresh(c), owners) == {};
    assert AdminWindow(b, c) == map[];
    NoValidStats(c.stats, {});
  }

  lemma {:induction false} NoValidStats(stats: seq<NodeStats>, valid: set<int>)
    requires valid == {}
    ensures ValidStats(stats, valid) == []
  {
    if stats != [] {
      NoValidStats(stats[..|stats|-1], valid);
      NoneValid(stats[|stats|-1].params, valid);
    }
  }
}
