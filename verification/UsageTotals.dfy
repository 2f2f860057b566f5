// Scaling and summing the counters taken off the nodes: the per-node chunks,
// the threaded four-way merge, the sequential fallback and the per-admin sums.
module UsageTotals {
  import opened Iteration
  import opened Ledgers
  import opened Options
  import opened Pieces

  type Coefficient = c: real | c > 0.0 witness 1.0

  type Stat = Entry<int>

  // The validated counters of one node.
  datatype NodeStats = NodeStats(node: int, params: seq<Stat>)

  datatype Chunk = Chunk(node: int, params: seq<Stat>, coeff: Coefficient)

  const SMALL_BATCH := 1000
  const USER_ADMIN_LOOKUP_BATCH_SIZE := 1000

  // A counter with the node's coefficient applied, truncated to whole bytes.
  function Scale(value: nat, coeff: Coefficient): nat {
    (value as real * coeff).Floor
  }

  function ScaleAll(params: seq<Stat>, coeff: Coefficient): seq<Stat> {
    seq(|params|, i requires 0 <= i < |params| => Entry(params[i].key, Scale(params[i].value, coeff)))
  }

  function CoefficientOf(coefficients: map<int, Coefficient>, node: int): Coefficient {
    if node in coefficients then coefficients[node] else 1.0
  }

  // Every entry a cycle collected, scaled by its own node's coefficient.
  function Collected(stats: seq<NodeStats>, coefficients: map<int, Coefficient>): seq<Stat> {
    if stats == [] then [] else
    Collected(stats[..|stats|-1], coefficients)
      + ScaleAll(stats[|stats|-1].params, CoefficientOf(coefficients, stats[|stats|-1].node))
  }

  function CollectedFrom(chunks: seq<Chunk>): seq<Stat> {
    if chunks == [] then [] else
    CollectedFrom(chunks[..|chunks|-1]) + ScaleAll(chunks[|chunks|-1].params, chunks[|chunks|-1].coeff)
  }

  // The pointwise sum of several dictionaries.
  function PlusAll(dicts: seq<Ledger<int>>): Ledger<int> {
    if dicts == [] then map[] else Plus(PlusAll(dicts[..|dicts|-1]), dicts[|dicts|-1])
  }

  lemma PlusAssociative(a: Ledger<int>, b: Ledger<int>, c: Ledger<int>)
    ensures Plus(Plus(a, b), c) == Plus(a, Plus(b, c))
  {
    assert Plus(Plus(a, b), c).Keys == Plus(a, Plus(b, c)).Keys;
  }

  lemma {:induction false} PlusAllConcat(xs: seq<Ledger<int>>, ys: seq<Ledger<int>>)
    ensures PlusAll(xs + ys) == Plus(PlusAll(xs), PlusAll(ys))
  {
    if ys == [] {
      assert xs + ys == xs;
      assert Plus(PlusAll(xs), map[]) == PlusAll(xs);
    } else {
      var front, last := ys[..|ys|-1], ys[|ys|-1];
      assert (xs + ys)[..|xs + ys|-1] == xs + front;
      PlusAllConcat(xs, front);
      PlusAssociative(PlusAll(xs), PlusAll(front), last);
    }
  }

  function MergeEach(pieces: seq<seq<Ledger<int>>>): seq<Ledger<int>> {
    seq(|pieces|, i requires 0 <= i < |pieces| => PlusAll(pieces[i]))
  }

  // Merging the pieces and then the partial results is merging everything.
  lemma {:induction false} MergeOfMerges(pieces: seq<seq<Ledger<int>>>)
    ensures PlusAll(MergeEach(pieces)) == PlusAll(Flatten(pieces))
  {
    if pieces != [] {
      var head := [PlusAll(pieces[0])];
      assert MergeEach(pieces) == head + MergeEach(pieces[1..]);
      PlusAllConcat(head, MergeEach(pieces[1..]));
      assert head[..0] == [];
      assert Plus(map[], PlusAll(pieces[0])) == PlusAll(pieces[0]);
      PlusAllConcat(pieces[0], Flatten(pieces[1..]));
      MergeOfMerges(pieces[1..]);
    }
  }

  function ChunkTotals(chunks: seq<Chunk>): seq<Ledger<int>> {
    seq(|chunks|, i requires 0 <= i < |chunks| => Totals(ScaleAll(chunks[i].params, chunks[i].coeff)))
  }

  // Per-node work merged afterwards is the single loop over all nodes.
  lemma {:induction false} ParallelEqualsSequential(chunks: seq<Chunk>)
    ensures PlusAll(ChunkTotals(chunks)) == Totals(CollectedFrom(chunks))
  {
    if chunks == [] {
      assert Totals<int>([]) == map[];
    } else {
      var front, last := chunks[..|chunks|-1], chunks[|chunks|-1];
      assert ChunkTotals(chunks)[..|chunks|-1] == ChunkTotals(front);
      ParallelEqualsSequential(front);
      TotalsConcat(CollectedFrom(front), ScaleAll(last.params, last.coeff));
    }
  }

  // The inner loop of both the threaded and the sequential calculation.
  method AddNode(sums: Ledger<int>, params: seq<Stat>, coeff: Coefficient) returns (usage: Ledger<int>)
    ensures usage == Plus(sums, Totals(ScaleAll(params, coeff)))
  {
    ghost var scaled := ScaleAll(params, coeff);
    usage := sums;
    assert scaled[..0] == [];
    assert Plus(sums, map[]) == sums;
    for i := 0 to |params|
      invariant usage == Plus(sums, Totals(scaled[..i]))
    {
      var e := Entry(params[i].key, Scale(params[i].value, coeff));
      PlusTotalsNext(sums, scaled, i);
      assert e == scaled[i];
      usage := Credit(usage, e);
    }
    assert scaled[..|scaled|] == scaled;
  }

  lemma PlusCredit(a: Ledger<int>, b: Ledger<int>, e: Stat)
    ensures Plus(a, Credit(b, e)) == Credit(Plus(a, b), e)
  {
    assert Plus(a, Credit(b, e)).Keys == Credit(Plus(a, b), e).Keys;
  }

  lemma PlusTotalsNext(a: Ledger<int>, items: seq<Stat>, i: nat)
    requires i < |items|
    ensures Plus(a, Totals(items[..i+1])) == Credit(Plus(a, Totals(items[..i])), items[i])
  {
    TotalsSnoc(items[..i], items[i]);
    assert items[..i+1] == items[..i] + [items[i]];
    PlusCredit(a, Totals(items[..i]), items[i]);
  }

  // One node's counters, scaled and summed per user.
  method ProcessNodeChunk(chunk: Chunk) returns (usage: Ledger<int>)
    ensures usage == Totals(ScaleAll(chunk.params, chunk.coeff))
  {
    usage := AddNode(map[], chunk.params, chunk.coeff);
    assert Plus(map[], Totals(ScaleAll(chunk.params, chunk.coeff))) == Totals(ScaleAll(chunk.params, chunk.coeff));
  }

  ghost function PartOf(d: Ledger<int>, uids: seq<int>): Ledger<int>
    requires forall uid :: uid in uids ==> uid in d
  {
    map uid | uid in uids :: d[uid]
  }

  lemma PartOfNext(d: Ledger<int>, uids: seq<int>, i: nat)
    requires i < |uids| && uids[i] !in uids[..i]
    requires forall uid :: uid in uids ==> uid in d
    ensures PartOf(d, uids[..i+1]) == Credit(PartOf(d, uids[..i]), Entry(uids[i], d[uids[i]]))
  {
    assert uids[..i+1] == uids[..i] + [uids[i]];
  }

  method AddDict(before: Ledger<int>, d: Ledger<int>) returns (merged: Ledger<int>)
    ensures merged == Plus(before, d)
  {
    merged := before;
    var order := IterationOrder(d.Keys);
    assert Plus(before, map[]) == before;
    for i := 0 to |order|
      invariant merged == Plus(before, PartOf(d, order[..i]))
    {
      var uid := order[i];
      PartOfNext(d, order, i);
      PlusCredit(before, PartOf(d, order[..i]), Entry(uid, d[uid]));
      merged := Credit(merged, Entry(uid, d[uid]));
    }
    assert order[..|order|] == order;
    assert PartOf(d, order) == d;
  }

  method MergeUsageDicts(dicts: seq<Ledger<int>>) returns (merged: Ledger<int>)
    ensures merged == PlusAll(dicts)
  {
    merged := map[];
    for i := 0 to |dicts|
      invariant merged == PlusAll(dicts[..i])
    {
      assert dicts[..i+1][..i] == dicts[..i];
      merged := AddDict(merged, dicts[i]);
    }
    assert dicts[..|dicts|] == dicts;
  }

  // Reads a dictionary out into a list, in whatever order it iterates.
  method ListOf(m: Ledger<int>) returns (items: seq<Stat>)
    ensures Lists(items, m)
  {
    var order := IterationOrder(m.Keys);
    items := [];
    for i := 0 to |order|
      invariant |items| == i
      invariant forall j :: 0 <= j < i ==> items[j] == Entry(order[j], m[order[j]])
    {
      items := items + [Entry(order[i], m[order[i]])];
    }
    forall k | k in m ensures Entry(k, m[k]) in items {
      var j :| 0 <= j < |order| && order[j] == k;
      assert items[j] == Entry(k, m[k]);
    }
  }

  method ProcessUsageSync(chunks: seq<Chunk>) returns (usage: seq<Stat>)
    ensures Lists(usage, Totals(CollectedFrom(chunks)))
  {
    var sums: Ledger<int> := map[];
    for i := 0 to |chunks|
      invariant sums == Totals(CollectedFrom(chunks[..i]))
    {
      TotalsConcat(CollectedFrom(chunks[..i]), ScaleAll(chunks[i].params, chunks[i].coeff));
      assert chunks[..i+1][..i] == chunks[..i];
      sums := AddNode(sums, chunks[i].params, chunks[i].coeff);
    }
    assert chunks[..|chunks|] == chunks;
    usage := ListOf(sums);
  }

  // The whole calculation. Whether it runs in one loop, over a thread pool with
  // or without the four-way merge, or falls back after the pool could not be
  // created or an executor failed, it lists the same totals.
  method CalculateUsersUsage(stats: seq<NodeStats>, coefficients: map<int, Coefficient>,
                             poolReady: bool, executorFails: bool)
    returns (usage: seq<Stat>)
    ensures Lists(usage, Totals(Collected(stats, coefficients)))
    ensures forall uid :: LossBelow(ExactFor(stats, coefficients, uid), TotalFor(usage, uid), ReportsFor(stats, uid))
  {
    var chunks: seq<Chunk> := [];
    var totalParams := 0;
    for i := 0 to |stats|
      invariant CollectedFrom(chunks) == Collected(stats[..i], coefficients)
    {
      assert stats[..i+1][..i] == stats[..i];
      var coeff := CoefficientOf(coefficients, stats[i].node);
      assert ScaleAll([], coeff) == [];
      if stats[i].params != [] {
        var chunk := Chunk(stats[i].node, stats[i].params, coeff);
        assert (chunks + [chunk])[..|chunks|] == chunks;
        chunks := chunks + [chunk];
        totalParams := totalParams + |stats[i].params|;
      }
    }
    assert stats[..|stats|] == stats;

    if totalParams < SMALL_BATCH || !poolReady || executorFails {
      usage := ProcessUsageSync(chunks);
    } else {
      usage := ProcessUsageParallel(chunks);
    }
    ListedIsBilled(stats, coefficients, usage);
  }

  // The bill, read off the list, is the exact traffic but for the truncation.
  lemma ListedIsBilled(stats: seq<NodeStats>, coefficients: map<int, Coefficient>, usage: seq<Stat>)
    requires Lists(usage, Totals(Collected(stats, coefficients)))
    ensures forall uid :: LossBelow(ExactFor(stats, coefficients, uid), TotalFor(usage, uid), ReportsFor(stats, uid))
  {
    ListingTotals(usage, Totals(Collected(stats, coefficients)));
    forall uid ensures LossBelow(ExactFor(stats, coefficients, uid), TotalFor(usage, uid), ReportsFor(stats, uid)) {
      AtTotals(usage, uid);
      AtTotals(Collected(stats, coefficients), uid);
      TruncationLoss(stats, coefficients, uid);
    }
  }

  // One task per chunk, then up to five partial merges, then the final one.
  method ProcessUsageParallel(chunks: seq<Chunk>) returns (usage: seq<Stat>)
    ensures Lists(usage, Totals(CollectedFrom(chunks)))
  {
    var results := ProcessChunks(chunks);
    var final: Ledger<int>;
    if |results| > 4 {
      var pieces := Chunked(results, |results| / 4);
      var partial := MergePieces(pieces);
      final := MergeUsageDicts(partial);
      MergeOfMerges(pieces);
      ChunkedKeepsEverything(results, |results| / 4);
    } else {
      final := MergeUsageDicts(results);
    }
    ParallelEqualsSequential(chunks);
    usage := ListOf(final);
  }

  method ProcessChunks(chunks: seq<Chunk>) returns (results: seq<Ledger<int>>)
    ensures results == ChunkTotals(chunks)
  {
    results := [];
    for i := 0 to |chunks|
      invariant results == ChunkTotals(chunks[..i])
    {
      var r := ProcessNodeChunk(chunks[i]);
      assert ChunkTotals(chunks[..i+1]) == ChunkTotals(chunks[..i]) + [r];
      results := results + [r];
    }
    assert chunks[..|chunks|] == chunks;
  }

  method MergePieces(pieces: seq<seq<Ledger<int>>>) returns (partial: seq<Ledger<int>>)
    ensures partial == MergeEach(pieces)
  {
    partial := [];
    for i := 0 to |pieces|
      invariant partial == MergeEach(pieces[..i])
    {
      var p := MergeUsageDicts(pieces[i]);
      assert MergeEach(pieces[..i+1]) == MergeEach(pieces[..i]) + [p];
      partial := partial + [p];
    }
    assert pieces[..|pieces|] == pieces;
  }

  // ---- Truncation ----

  // What a user's traffic would come to without rounding: every counter times its
  // node's coefficient, which is 1 if the node has none.
  function ExactFor(stats: seq<NodeStats>, coefficients: map<int, Coefficient>, uid: int): real {
    if stats == [] then 0.0 else
    var last := stats[|stats|-1];
    ExactFor(stats[..|stats|-1], coefficients, uid)
      + ExactInNode(last.params, if last.node in coefficients then coefficients[last.node] else 1.0, uid)
  }

  function ExactInNode(params: seq<Stat>, coeff: Coefficient, uid: int): real {
    if params == [] then 0.0 else
    (if params[0].key == uid then params[0].value as real * coeff else 0.0)
      + ExactInNode(params[1..], coeff, uid)
  }

  // How many entries were reported for a user.
  function ReportsFor(stats: seq<NodeStats>, uid: int): nat {
    if stats == [] then 0 else
    ReportsFor(stats[..|stats|-1], uid) + ReportsInNode(stats[|stats|-1].params, uid)
  }

  function ReportsInNode(params: seq<Stat>, uid: int): nat {
    if params == [] then 0 else
    (if params[0].key == uid then 1 else 0) + ReportsInNode(params[1..], uid)
  }

  // The counters as they come, each with its node.
  function Reports(stats: seq<NodeStats>): seq<(int, Stat)> {
    if stats == [] then [] else
    var last := stats[|stats|-1];
    Reports(stats[..|stats|-1]) + seq(|last.params|, i requires 0 <= i < |last.params| => (last.node, last.params[i]))
  }

  ghost predicate LossBelow(exact: real, billed: nat, reports: nat) {
    && billed as real <= exact
    && (exact - billed as real < reports as real || reports == 0)
    && (reports == 0 ==> exact == billed as real)
  }

  lemma {:induction false} TruncationInNode(params: seq<Stat>, coeff: Coefficient, uid: int)
    ensures LossBelow(ExactInNode(params, coeff, uid), TotalFor(ScaleAll(params, coeff), uid),
              ReportsInNode(params, uid))
  {
    if params != [] {
      TruncationInNode(params[1..], coeff, uid);
      assert ScaleAll(params, coeff)[1..] == ScaleAll(params[1..], coeff);
    }
  }

  // Billing never exceeds the exact traffic, and a user loses strictly less
  // than one byte per entry reported for them.
  lemma {:induction false} TruncationLoss(stats: seq<NodeStats>, coefficients: map<int, Coefficient>, uid: int)
    ensures LossBelow(ExactFor(stats, coefficients, uid), TotalFor(Collected(stats, coefficients), uid),
                      ReportsFor(stats, uid))
  {
    if stats != [] {
      var front, last := stats[..|stats|-1], stats[|stats|-1];
      var coeff := CoefficientOf(coefficients, last.node);
      TruncationLoss(front, coefficients, uid);
      TruncationInNode(last.params, coeff, uid);
      TotalForAppend(Collected(front, coefficients), ScaleAll(last.params, coeff), uid);
    }
  }

  // ---- Per-admin sums ----

  // The admin a user's traffic counts against; users without one, or with id 0, count for nobody.
  function BilledAdmin(owners: map<int, Option<int>>, uid: int): Option<int> {
    if uid in owners && owners[uid].Some? && owners[uid].value != 0 then owners[uid] else None
  }

  function AdminEntries(usage: seq<Stat>, owners: map<int, Option<int>>): seq<Entry<int>> {
    if usage == [] then []
    else
      var last := usage[|usage|-1];
      var admin := BilledAdmin(owners, last.key);
      AdminEntries(usage[..|usage|-1], owners)
      + (if admin.Some? then [Entry(admin.value, last.value)] else [])
  }

  // An admin is charged exactly what their users are charged.
  lemma {:induction false} AdminShareIsUsersSum(usage: seq<Stat>, owners: map<int, Option<int>>, admin: int)
    ensures TotalFor(AdminEntries(usage, owners), admin)
         == Sum(Slice(Totals(usage), uid => BilledAdmin(owners, uid), Some(admin)))
  {
    var owner := uid => BilledAdmin(owners, uid);
    if usage == [] {
      assert Slice(Totals(usage), owner, Some(admin)) == map[];
    } else {
      var front, last := usage[..|usage|-1], usage[|usage|-1];
      AdminShareIsUsersSum(front, owners, admin);
      assert usage == front + [last];
      TotalsSnoc(front, last);
      SliceCredit(Totals(front), last, owner, Some(admin));
      var a := BilledAdmin(owners, last.key);
      var tail := if a.Some? then [Entry(a.value, last.value)] else [];
      TotalForAppend(AdminEntries(front, owners), tail, admin);
      assert a.Some? ==> tail[1..] == [];
    }
  }

  // What the listed users of one admin come to; no admin has the id 0.
  function OwnedTotal(usage: seq<Stat>, rows: map<int, Option<int>>, admin: int): nat {
    if usage == [] || admin == 0 then 0 else
    var last := usage[|usage|-1];
    OwnedTotal(usage[..|usage|-1], rows, admin)
      + (if last.key in rows && rows[last.key] == Some(admin) then last.value else 0)
  }

  lemma {:induction false} AdminIsChargedItsUsers(usage: seq<Stat>, rows: map<int, Option<int>>, admin: int)
    ensures TotalFor(AdminEntries(usage, rows), admin) == OwnedTotal(usage, rows, admin)
  {
    if usage != [] {
      var front, last := usage[..|usage|-1], usage[|usage|-1];
      AdminIsChargedItsUsers(front, rows, admin);
      var a := BilledAdmin(rows, last.key);
      var tail := if a.Some? then [Entry(a.value, last.value)] else [];
      TotalForAppend(AdminEntries(front, rows), tail, admin);
      assert a.Some? ==> tail[1..] == [];
    }
  }

  // Only owners are charged.
  lemma {:induction false} ChargedOwnSomeone(usage: seq<Stat>, rows: map<int, Option<int>>)
    ensures forall a :: a in KeysOf(AdminEntries(usage, rows)) ==>
              exists e :: e in usage && e.key in rows && rows[e.key] == Some(a) && a != 0
  {
    if usage != [] {
      var front, last := usage[..|usage|-1], usage[|usage|-1];
      ChargedOwnSomeone(front, rows);
      assert last in usage && forall e :: e in front ==> e in usage;
      forall a | a in KeysOf(AdminEntries(usage, rows))
        ensures exists e :: e in usage && e.key in rows && rows[e.key] == Some(a) && a != 0 {
        var entry :| entry in AdminEntries(usage, rows) && entry.key == a;
        if entry in AdminEntries(front, rows) {
          assert a in KeysOf(AdminEntries(front, rows));
        } else {
          assert rows[last.key] == Some(a);
        }
      }
    }
  }

  method LookUpOwners(uids: set<int>, rows: map<int, Option<int>>) returns (owners: map<int, Option<int>>)
    ensures owners == map uid | uid in uids && uid in rows :: rows[uid]
  {
    var uidList := IterationOrder(uids);
    var batches := Chunked(uidList, USER_ADMIN_LOOKUP_BATCH_SIZE);
    ChunkedKeepsEverything(uidList, USER_ADMIN_LOOKUP_BATCH_SIZE);
    owners := map[];
    for i := 0 to |batches|
      invariant owners == OwnersOf(Flatten(batches[..i]), rows)
    {
      OwnersOfNext(batches, i, rows);
      owners := owners + OwnersOf(batches[i], rows);
    }
    assert batches[..|batches|] == batches;
    assert forall uid :: uid in uidList <==> uid in uids;
  }

  function OwnersOf(uids: seq<int>, rows: map<int, Option<int>>): map<int, Option<int>> {
    map uid | uid in uids && uid in rows :: rows[uid]
  }

  lemma OwnersOfConcat(xs: seq<int>, ys: seq<int>, rows: map<int, Option<int>>)
    ensures OwnersOf(xs + ys, rows) == OwnersOf(xs, rows) + OwnersOf(ys, rows)
  {
  }

  lemma OwnersOfNext(batches: seq<seq<int>>, i: nat, rows: map<int, Option<int>>)
    requires i < |batches|
    ensures OwnersOf(Flatten(batches[..i+1]), rows)
         == OwnersOf(Flatten(batches[..i]), rows) + OwnersOf(batches[i], rows)
  {
    FlattenSnoc(batches[..i], batches[i]);
    assert batches[..i+1] == batches[..i] + [batches[i]];
    OwnersOfConcat(Flatten(batches[..i]), batches[i], rows);
  }

  // Looks the users' admins up in batches, then sums per admin. `rows` is the
  // users table: the owner of every existing user.
  method CalculateAdminUsage(usage: seq<Stat>, rows: map<int, Option<int>>)
    returns (adminUsage: Ledger<int>, valid: set<int>)
    ensures adminUsage == Totals(AdminEntries(usage, rows))
    ensures forall a :: At(adminUsage, a) == OwnedTotal(usage, rows, a)
    ensures forall a :: a in adminUsage ==> exists e :: e in usage && e.key in rows && rows[e.key] == Some(a) && a != 0
    ensures valid == KeysOf(usage) * rows.Keys
  {
    ChargedOwnSomeone(usage, rows);
    forall a ensures At(Totals(AdminEntries(usage, rows)), a) == OwnedTotal(usage, rows, a) {
      AtTotals(AdminEntries(usage, rows), a);
      AdminIsChargedItsUsers(usage, rows, a);
    }
    if usage == [] {
      return map[], {};
    }
    var uids := KeysOf(usage);
    var owners := LookUpOwners(uids, rows);
    adminUsage := map[];
    for i := 0 to |usage|
      invariant adminUsage == Totals(AdminEntries(usage[..i], rows))
    {
      assert usage[i] in usage && usage[i].key in uids;
      assert usage[..i+1][..i] == usage[..i];
      var admin := BilledAdmin(owners, usage[i].key);
      assert admin == BilledAdmin(rows, usage[i].key);
      if admin.Some? {
        TotalsSnoc(AdminEntries(usage[..i], rows), Entry(admin.value, usage[i].value));
        adminUsage := Credit(adminUsage, Entry(admin.value, usage[i].value));
      } else {
        assert AdminEntries(usage[..i], rows) + [] == AdminEntries(usage[..i], rows);
      }
    }
    assert usage[..|usage|] == usage;
    valid := owners.Keys;
  }
}
