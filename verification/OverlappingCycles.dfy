// Cycles that overlap. The event loop switches jobs only at an await, so a
// cycle is three atomic segments: fold both carries in and clear the user
// carry; after the user write, clear the admin carry; after the admin write,
// settle it. The user carry is read and cleared in one segment, the admin carry
// is not.
module OverlappingCycles {
  import opened Ledgers
  import opened SafeExecution

  datatype Job =
    | WritingUsers(users: Ledger<int>, admins: Ledger<int>)
    | WritingAdmins(admins: Ledger<int>)

  datatype Shared = Shared(
    carriedUsers: Ledger<int>,
    carriedAdmins: Ledger<int>,
    storedUsers: Ledger<int>,
    storedAdmins: Ledger<int>,
    jobs: map<int, Job>)

  // The user and admin traffic a starting cycle has collected for existing accounts.
  datatype Step =
    | Start(job: int, users: Ledger<int>, admins: Ledger<int>)
    | UsersWritten(job: int, result: WriteResult)
    | AdminsWritten(job: int, result: WriteResult)

  predicate Enabled(s: Shared, step: Step) {
    match step
    case Start(job, _, _) => job !in s.jobs
    case UsersWritten(job, _) => job in s.jobs && s.jobs[job].WritingUsers?
    case AdminsWritten(job, _) => job in s.jobs && s.jobs[job].WritingAdmins?
  }

  function Store(stored: Ledger<int>, result: WriteResult, window: Ledger<int>): Ledger<int> {
    if Applied(result) then Plus(stored, window) else stored
  }

  // The admin write starts by clearing the carry; with nothing to write it is skipped.
  function EnterAdmins(s: Shared, job: int, window: Ledger<int>): Shared {
    if window == map[] then s.(jobs := s.jobs - {job})
    else s.(carriedAdmins := map[], jobs := s.jobs[job := WritingAdmins(window)])
  }

  function DoStart(s: Shared, job: int, users: Ledger<int>, admins: Ledger<int>): Shared {
    var userWindow, adminWindow := Plus(s.carriedUsers, users), Plus(s.carriedAdmins, admins);
    if userWindow == map[] then EnterAdmins(s, job, adminWindow)
    else s.(carriedUsers := map[], jobs := s.jobs[job := WritingUsers(userWindow, adminWindow)])
  }

  function DoUsersWritten(s: Shared, job: int, result: WriteResult): Shared
    requires job in s.jobs && s.jobs[job].WritingUsers?
  {
    var j := s.jobs[job];
    var stored := s.(storedUsers := Store(s.storedUsers, result, j.users));
    if result.Success? then EnterAdmins(stored, job, j.admins)
    else stored.(carriedUsers := if result.CertainRollback? then j.users else s.carriedUsers,
                 jobs := s.jobs - {job})
  }

  function DoAdminsWritten(s: Shared, job: int, result: WriteResult): Shared
    requires job in s.jobs && s.jobs[job].WritingAdmins?
  {
    var j := s.jobs[job];
    s.(storedAdmins := Store(s.storedAdmins, result, j.admins),
       carriedAdmins := if result.CertainRollback? then j.admins else s.carriedAdmins,
       jobs := s.jobs - {job})
  }

  function Do(s: Shared, step: Step): Shared
    requires Enabled(s, step)
  {
    match step
    case Start(job, users, admins) => DoStart(s, job, users, admins)
    case UsersWritten(job, result) => DoUsersWritten(s, job, result)
    case AdminsWritten(job, result) => DoAdminsWritten(s, job, result)
  }

  ghost predicate RunOf(s: Shared, steps: seq<Step>)
    decreases |steps|
  {
    steps == [] || (Enabled(s, steps[0]) && RunOf(Do(s, steps[0]), steps[1..]))
  }

  ghost function After(s: Shared, steps: seq<Step>): Shared
    requires RunOf(s, steps)
    decreases |steps|
  {
    if steps == [] then s else After(Do(s, steps[0]), steps[1..])
  }

  function CollectedUser(steps: seq<Step>, u: int): nat {
    if steps == [] then 0
    else (if steps[0].Start? then At(steps[0].users, u) else 0) + CollectedUser(steps[1..], u)
  }

  function CollectedAdmin(steps: seq<Step>, a: int): nat {
    if steps == [] then 0
    else (if steps[0].Start? then At(steps[0].admins, a) else 0) + CollectedAdmin(steps[1..], a)
  }

  // ---- What the running jobs are about to bill ----

  function UserClaim(u: int): Job -> nat {
    (j: Job) => if j.WritingUsers? then At(j.users, u) else 0
  }

  function AdminClaim(a: int): Job -> nat {
    (j: Job) => if j.WritingAdmins? then At(j.admins, a) else 0
  }

  // Folded in, but the user write is still to succeed.
  function AwaitedAdmin(a: int): Job -> nat {
    (j: Job) => if j.WritingUsers? then At(j.admins, a) else 0
  }

  ghost function Claims(jobs: map<int, Job>, claim: Job -> nat): nat {
    Sum(map j | j in jobs :: claim(jobs[j]))
  }

  lemma ClaimsSplit(jobs: map<int, Job>, job: int, claim: Job -> nat)
    ensures job in jobs ==> Claims(jobs, claim) == Claims(jobs - {job}, claim) + claim(jobs[job])
    ensures job !in jobs ==> jobs - {job} == jobs
  {
    if job in jobs {
      var claims := map j | j in jobs :: claim(jobs[j]);
      SumRemove(claims, job);
      assert claims - {job} == map j | j in jobs - {job} :: claim((jobs - {job})[j]);
    }
  }

  lemma ClaimsSet(jobs: map<int, Job>, job: int, j: Job, claim: Job -> nat)
    ensures Claims(jobs[job := j], claim) == Claims(jobs - {job}, claim) + claim(j)
  {
    ClaimsSplit(jobs[job := j], job, claim);
    assert jobs[job := j] - {job} == jobs - {job};
  }

  lemma SomeJob(jobs: map<int, Job>) returns (job: int)
    requires jobs != map[]
    ensures job in jobs
  {
    assert (forall j :: j !in jobs) ==> jobs == map[];
    job :| job in jobs;
  }

  lemma {:induction false} NoClaimsIff(jobs: map<int, Job>, claim: Job -> nat)
    ensures Claims(jobs, claim) == 0 <==> forall j :: j in jobs ==> claim(jobs[j]) == 0
    decreases |jobs|
  {
    if jobs != map[] {
      var job := SomeJob(jobs);
      ClaimsSplit(jobs, job, claim);
      NoClaimsIff(jobs - {job}, claim);
      assert forall j :: j in jobs && j != job ==> (jobs - {job})[j] == jobs[j];
    }
  }

  // ---- Users: safe in every interleaving ----

  ghost function UserTotal(s: Shared, u: int): nat {
    At(s.storedUsers, u) + At(s.carriedUsers, u) + Claims(s.jobs, UserClaim(u))
  }

  lemma EnterAdminsKeepsUser(s: Shared, job: int, window: Ledger<int>, u: int)
    ensures UserTotal(EnterAdmins(s, job, window), u)
         == At(s.storedUsers, u) + At(s.carriedUsers, u) + Claims(s.jobs - {job}, UserClaim(u))
  {
    ClaimsSet(s.jobs, job, WritingAdmins(window), UserClaim(u));
  }

  lemma StartKeepsUser(s: Shared, job: int, users: Ledger<int>, admins: Ledger<int>, u: int)
    requires Enabled(s, Start(job, users, admins))
    ensures UserTotal(Do(s, Start(job, users, admins)), u) <= UserTotal(s, u) + At(users, u)
  {
    var userWindow, adminWindow := Plus(s.carriedUsers, users), Plus(s.carriedAdmins, admins);
    ClaimsSplit(s.jobs, job, UserClaim(u));
    EnterAdminsKeepsUser(s, job, adminWindow, u);
    ClaimsSet(s.jobs, job, WritingUsers(userWindow, adminWindow), UserClaim(u));
  }

  lemma UsersWrittenKeepsUser(s: Shared, job: int, result: WriteResult, u: int)
    requires Enabled(s, UsersWritten(job, result))
    ensures UserTotal(Do(s, UsersWritten(job, result)), u) <= UserTotal(s, u)
  {
    var j := s.jobs[job];
    ClaimsSplit(s.jobs, job, UserClaim(u));
    EnterAdminsKeepsUser(s.(storedUsers := Store(s.storedUsers, result, j.users)), job, j.admins, u);
  }

  lemma StepKeepsUser(s: Shared, step: Step, u: int)
    requires Enabled(s, step)
    ensures UserTotal(Do(s, step), u) <= UserTotal(s, u) + (if step.Start? then At(step.users, u) else 0)
  {
    match step
    case Start(job, users, admins) => StartKeepsUser(s, job, users, admins, u);
    case UsersWritten(job, result) => UsersWrittenKeepsUser(s, job, result, u);
    case AdminsWritten(job, result) => ClaimsSplit(s.jobs, job, UserClaim(u));
  }

  // However cycles interleave and whatever their writes do, no user is billed twice.
  lemma {:induction false} OverlapNeverDoubleBillsUsers(s: Shared, steps: seq<Step>, u: int)
    requires RunOf(s, steps)
    ensures UserTotal(After(s, steps), u) <= UserTotal(s, u) + CollectedUser(steps, u)
    decreases |steps|
  {
    if steps != [] {
      StepKeepsUser(s, steps[0], u);
      OverlapNeverDoubleBillsUsers(Do(s, steps[0]), steps[1..], u);
    }
  }

  // ---- Admins: how much can still be billed ----

  ghost function Billed(s: Shared, a: int): nat {
    At(s.storedAdmins, a) + At(s.carriedAdmins, a)
  }

  function Max(x: nat, y: nat): nat {
    if x < y then y else x
  }

  function Min(x: nat, y: nat): nat {
    if x < y then x else y
  }

  // Either every job that is still writing users gets its window through, and
  // the first to do so clears the carry; or none does, and the carry stays.
  ghost function Potential(s: Shared, a: int): nat {
    At(s.storedAdmins, a) + Claims(s.jobs, AdminClaim(a)) + Max(At(s.carriedAdmins, a), Claims(s.jobs, AwaitedAdmin(a)))
  }

  // What a start would fold in although it may be billed beside a window that is
  // already on its way.
  ghost function Refolded(s: Shared, a: int): nat {
    Min(At(s.carriedAdmins, a), Claims(s.jobs, AwaitedAdmin(a)))
  }

  lemma EnterAdminsPotential(s: Shared, job: int, window: Ledger<int>, a: int)
    ensures var after := EnterAdmins(s, job, window);
      Potential(after, a) == At(s.storedAdmins, a) + Claims(s.jobs - {job}, AdminClaim(a)) + At(window, a)
                             + Max(if window == map[] then At(s.carriedAdmins, a) else 0,
                                   Claims(s.jobs - {job}, AwaitedAdmin(a)))
  {
    ClaimsSet(s.jobs, job, WritingAdmins(window), AdminClaim(a));
    ClaimsSet(s.jobs, job, WritingAdmins(window), AwaitedAdmin(a));
  }

  // A start adds what it collected, and what it folds in a second time.
  lemma StartPotential(s: Shared, job: int, users: Ledger<int>, admins: Ledger<int>, a: int)
    requires Enabled(s, Start(job, users, admins))
    ensures Potential(Do(s, Start(job, users, admins)), a) == Potential(s, a) + At(admins, a) + Refolded(s, a)
  {
    var userWindow, adminWindow := Plus(s.carriedUsers, users), Plus(s.carriedAdmins, admins);
    assert At(adminWindow, a) == At(s.carriedAdmins, a) + At(admins, a);
    ClaimsSplit(s.jobs, job, AdminClaim(a));
    if userWindow == map[] {
      EnterAdminsPotential(s, job, adminWindow, a);
    } else {
      ClaimsSet(s.jobs, job, WritingUsers(userWindow, adminWindow), AdminClaim(a));
      ClaimsSet(s.jobs, job, WritingUsers(userWindow, adminWindow), AwaitedAdmin(a));
    }
  }

  lemma UsersWrittenPotential(s: Shared, job: int, result: WriteResult, a: int)
    requires Enabled(s, UsersWritten(job, result))
    ensures Potential(Do(s, UsersWritten(job, result)), a) <= Potential(s, a)
    ensures result.Success? && At(s.carriedAdmins, a) <= Claims(s.jobs, AwaitedAdmin(a)) ==>
              Potential(Do(s, UsersWritten(job, result)), a) == Potential(s, a)
    ensures !result.Success? && Claims(s.jobs, AwaitedAdmin(a)) <= At(s.carriedAdmins, a) ==>
              Potential(Do(s, UsersWritten(job, result)), a) == Potential(s, a)
  {
    var j := s.jobs[job];
    ClaimsSplit(s.jobs, job, AdminClaim(a));
    ClaimsSplit(s.jobs, job, AwaitedAdmin(a));
    EnterAdminsPotential(s.(storedUsers := Store(s.storedUsers, result, j.users)), job, j.admins, a);
  }

  lemma AdminsWrittenPotential(s: Shared, job: int, result: WriteResult, a: int)
    requires Enabled(s, AdminsWritten(job, result))
    ensures Potential(Do(s, AdminsWritten(job, result)), a) <= Potential(s, a)
    ensures result.Success? ==> Potential(Do(s, AdminsWritten(job, result)), a) == Potential(s, a)
  {
    ClaimsSplit(s.jobs, job, AdminClaim(a));
    ClaimsSplit(s.jobs, job, AwaitedAdmin(a));
  }

  lemma StepPotential(s: Shared, step: Step, a: int)
    requires Enabled(s, step)
    ensures step.Start? ==> Potential(Do(s, step), a) == Potential(s, a) + At(step.admins, a) + Refolded(s, a)
    ensures !step.Start? ==> Potential(Do(s, step), a) <= Potential(s, a)
  {
    match step
    case Start(job, users, admins) => StartPotential(s, job, users, admins, a);
    case UsersWritten(job, result) => UsersWrittenPotential(s, job, result, a);
    case AdminsWritten(job, result) => AdminsWrittenPotential(s, job, result, a);
  }

  // ---- It is what can be reached ----

  ghost predicate NoStarts(steps: seq<Step>) {
    forall step :: step in steps ==> !step.Start?
  }

  ghost predicate Bills(s: Shared, steps: seq<Step>, a: int, amount: nat) {
    RunOf(s, steps) && NoStarts(steps) && Billed(After(s, steps), a) >= amount
  }

  // The running jobs can still end with at least this much billed.
  ghost predicate CanBill(s: Shared, a: int, amount: nat) {
    exists steps :: Bills(s, steps, a, amount)
  }

  // Some next step of a running job gives nothing away.
  lemma LosslessStep(s: Shared, a: int) returns (step: Step)
    requires s.jobs != map[]
    ensures Enabled(s, step) && !step.Start? && Potential(Do(s, step), a) == Potential(s, a)
    ensures Remaining(Do(s, step).jobs) < Remaining(s.jobs)
  {
    var job := SomeJob(s.jobs);
    var awaited := Claims(s.jobs, AwaitedAdmin(a));
    if s.jobs[job].WritingAdmins? {
      step := AdminsWritten(job, Success);
      AdminsWrittenPotential(s, job, Success, a);
    } else {
      var result := if At(s.carriedAdmins, a) <= awaited then Success else Unknown(false);
      step := UsersWritten(job, result);
      UsersWrittenPotential(s, job, result, a);
    }
    StepAdvances(s, step, job);
  }

  // Writes still to come.
  ghost function Remaining(jobs: map<int, Job>): nat {
    Claims(jobs, WritesLeft)
  }

  function WritesLeft(j: Job): nat {
    if j.WritingUsers? then 2 else 1
  }

  lemma StepAdvances(s: Shared, step: Step, job: int)
    requires Enabled(s, step) && !step.Start? && job == step.job
    ensures Remaining(Do(s, step).jobs) < Remaining(s.jobs)
  {
    ClaimsSplit(s.jobs, job, WritesLeft);
    if s.jobs[job].WritingUsers? {
      ClaimsSet(s.jobs, job, WritingAdmins(s.jobs[job].admins), WritesLeft);
    }
  }

  lemma {:induction false} PotentialIsReached(s: Shared, a: int) returns (steps: seq<Step>)
    ensures RunOf(s, steps) && NoStarts(steps) && Billed(After(s, steps), a) == Potential(s, a)
    ensures After(s, steps).jobs == map[]
    decreases Remaining(s.jobs)
  {
    if s.jobs == map[] {
      steps := [];
    } else {
      var step := LosslessStep(s, a);
      var rest := PotentialIsReached(Do(s, step), a);
      RunCons(s, step, rest);
      steps := [step] + rest;
    }
  }

  lemma BilledWithinPotential(s: Shared, a: int)
    ensures Billed(s, a) <= Potential(s, a)
    ensures s.jobs == map[] ==> Billed(s, a) == Potential(s, a)
  {
    NoClaimsIff(s.jobs, AdminClaim(a));
    NoClaimsIff(s.jobs, AwaitedAdmin(a));
  }

  lemma {:induction false} NoMoreThanPotential(s: Shared, steps: seq<Step>, a: int)
    requires RunOf(s, steps) && NoStarts(steps)
    ensures Potential(After(s, steps), a) <= Potential(s, a)
    decreases |steps|
  {
    if steps != [] {
      assert steps[0] in steps && forall step :: step in steps[1..] ==> step in steps;
      StepPotential(s, steps[0], a);
      NoMoreThanPotential(Do(s, steps[0]), steps[1..], a);
    }
  }

  lemma CanBillIff(s: Shared, a: int, amount: nat)
    ensures CanBill(s, a, amount) <==> amount <= Potential(s, a)
  {
    if CanBill(s, a, amount) {
      var steps :| Bills(s, steps, a, amount);
      NoMoreThanPotential(s, steps, a);
      BilledWithinPotential(After(s, steps), a);
    }
    if amount <= Potential(s, a) {
      var steps := PotentialIsReached(s, a);
      assert Bills(s, steps, a, amount);
    }
  }

  // ---- When a start over-bills ----

  // Nothing is parked for the admin, or no job that still writes users has
  // anything for it.
  predicate HarmlessStart(s: Shared, a: int) {
    At(s.carriedAdmins, a) == 0 || forall j :: j in s.jobs && s.jobs[j].WritingUsers? ==> At(s.jobs[j].admins, a) == 0
  }

  lemma HarmlessIff(s: Shared, a: int)
    ensures HarmlessStart(s, a) <==> Refolded(s, a) == 0
  {
    NoClaimsIff(s.jobs, AwaitedAdmin(a));
    assert forall j :: j in s.jobs ==>
      AwaitedAdmin(a)(s.jobs[j]) == if s.jobs[j].WritingUsers? then At(s.jobs[j].admins, a) else 0;
  }

  // A start makes nothing billable beyond what it collected itself, exactly when
  // it is harmless.
  lemma StartOverBillsIff(s: Shared, start: Step, a: int)
    requires start.Start? && Enabled(s, start)
    ensures (forall amount :: At(start.admins, a) <= amount && CanBill(Do(s, start), a, amount) ==>
                                CanBill(s, a, amount - At(start.admins, a))) <==>
            HarmlessStart(s, a)
  {
    var after, own := Do(s, start), At(start.admins, a);
    HarmlessIff(s, a);
    StepPotential(s, start, a);
    forall amount: nat ensures CanBill(after, a, amount) <==> amount <= Potential(s, a) + own + Refolded(s, a) {
      CanBillIff(after, a, amount);
    }
    forall amount: nat ensures CanBill(s, a, amount) <==> amount <= Potential(s, a) {
      CanBillIff(s, a, amount);
    }
    assert CanBill(after, a, Potential(s, a) + own + Refolded(s, a));
  }

  // ---- Whole runs ----

  ghost predicate HarmlessStarts(s: Shared, steps: seq<Step>, a: int)
    requires RunOf(s, steps)
    decreases |steps|
  {
    steps == [] ||
    ((steps[0].Start? ==> HarmlessStart(s, a)) && HarmlessStarts(Do(s, steps[0]), steps[1..], a))
  }

  // Steps that only write give nothing away.
  ghost predicate Lossless(s: Shared, steps: seq<Step>, a: int)
    requires RunOf(s, steps)
    decreases |steps|
  {
    steps == [] ||
    ((!steps[0].Start? ==> Potential(Do(s, steps[0]), a) == Potential(s, a)) &&
      Lossless(Do(s, steps[0]), steps[1..], a))
  }

  ghost function TotalRefolded(s: Shared, steps: seq<Step>, a: int): nat
    requires RunOf(s, steps)
    decreases |steps|
  {
    if steps == [] then 0
    else (if steps[0].Start? then Refolded(s, a) else 0) + TotalRefolded(Do(s, steps[0]), steps[1..], a)
  }

  lemma {:induction false} RunPotential(s: Shared, steps: seq<Step>, a: int)
    requires RunOf(s, steps)
    ensures Potential(After(s, steps), a) <= Potential(s, a) + CollectedAdmin(steps, a) + TotalRefolded(s, steps, a)
    ensures Lossless(s, steps, a) ==>
              Potential(After(s, steps), a) == Potential(s, a) + CollectedAdmin(steps, a) + TotalRefolded(s, steps, a)
    ensures HarmlessStarts(s, steps, a) <==> TotalRefolded(s, steps, a) == 0
    decreases |steps|
  {
    if steps != [] {
      StepPotential(s, steps[0], a);
      HarmlessIff(s, a);
      RunPotential(Do(s, steps[0]), steps[1..], a);
    }
  }

  // While every start is harmless no admin is billed twice, whatever the writes do.
  lemma ApartNeverDoubleBillsAdmins(s: Shared, steps: seq<Step>, a: int)
    requires RunOf(s, steps) && HarmlessStarts(s, steps, a)
    ensures Billed(After(s, steps), a) <= Potential(s, a) + CollectedAdmin(steps, a)
  {
    RunPotential(s, steps, a);
    BilledWithinPotential(After(s, steps), a);
  }

  // And after a run that has lost nothing, some course of the writes still to
  // come bills the admin too much exactly when some start was not harmless.
  lemma OverBillingPossibleIff(s: Shared, steps: seq<Step>, a: int)
    requires RunOf(s, steps) && Lossless(s, steps, a)
    ensures CanBill(After(s, steps), a, Potential(s, a) + CollectedAdmin(steps, a) + 1) <==>
              !HarmlessStarts(s, steps, a)
  {
    var after, limit := After(s, steps), Potential(s, a) + CollectedAdmin(steps, a);
    assert limit < Potential(after, a) <==> !HarmlessStarts(s, steps, a) by {
      RunPotential(s, steps, a);
    }
    CanBillIff(after, a, limit + 1);
  }

  predicate AllSucceed(steps: seq<Step>) {
    forall step :: step in steps && !step.Start? ==> step.result.Success?
  }

  // Every job that still writes users has folded in what is parked.
  predicate AllFolded(s: Shared, a: int) {
    forall j :: j in s.jobs && s.jobs[j].WritingUsers? ==> At(s.carriedAdmins, a) <= At(s.jobs[j].admins, a)
  }

  lemma SuccessStep(s: Shared, step: Step, a: int)
    requires Enabled(s, step) && AllSucceed([step]) && AllFolded(s, a)
    ensures AllFolded(Do(s, step), a)
    ensures !step.Start? ==> Potential(Do(s, step), a) == Potential(s, a)
  {
    assert step in [step];
    match step
    case Start(_, _, _) =>
    case UsersWritten(job, result) =>
      ClaimsSplit(s.jobs, job, AwaitedAdmin(a));
      UsersWrittenPotential(s, job, result, a);
    case AdminsWritten(job, result) =>
      AdminsWrittenPotential(s, job, result, a);
  }

  // Such is every run from a quiet state in which all writes succeed.
  lemma {:induction false} SuccessIsLossless(s: Shared, steps: seq<Step>, a: int)
    requires RunOf(s, steps) && AllSucceed(steps) && AllFolded(s, a)
    ensures Lossless(s, steps, a)
    decreases |steps|
  {
    if steps != [] {
      assert steps[0] in steps && forall step :: step in steps[1..] ==> step in steps;
      SuccessStep(s, steps[0], a);
      SuccessIsLossless(Do(s, steps[0]), steps[1..], a);
    }
  }

  // ---- The failing family ----

  function TwoOverlapping(u1: Ledger<int>, a1: Ledger<int>, u2: Ledger<int>, a2: Ledger<int>): seq<Step> {
    [Start(1, u1, a1), Start(2, u2, a2)]
    + ([UsersWritten(1, Success), UsersWritten(2, Success)] + [AdminsWritten(1, Success), AdminsWritten(2, Success)])
  }

  // Two cycles that overlap before their admin writes, every write succeeding,
  // bill each admin's parked window once too often: such a run is wrong for an
  // admin exactly when something was parked for them.
  lemma OverlapBillsParkedAdminTwice(s: Shared, u1: Ledger<int>, a1: Ledger<int>, u2: Ledger<int>, a2: Ledger<int>,
                                     a: int)
    requires s.jobs == map[] && u1 != map[] && u2 != map[] && a1 != map[] && a2 != map[]
    ensures var steps := TwoOverlapping(u1, a1, u2, a2);
            && RunOf(s, steps)
            && var after := After(s, steps);
               && after.jobs == map[]
               && At(after.storedAdmins, a) + At(after.carriedAdmins, a)
                  == At(s.storedAdmins, a) + At(s.carriedAdmins, a) + At(a1, a) + At(a2, a) + At(s.carriedAdmins, a)
  {
    var s2 := BothFolded(s, u1, a1, u2, a2);
    var w1, w2 := Plus(s.carriedAdmins, a1), Plus(s.carriedAdmins, a2);
    var s4 := BothPastUsers(s2, w1, w2);
    BothSettled(s4, w1, w2, a);
    var last := [AdminsWritten(1, Success), AdminsWritten(2, Success)];
    RunPair(s2, UsersWritten(1, Success), UsersWritten(2, Success), last);
    RunPair(s, Start(1, u1, a1), Start(2, u2, a2), [UsersWritten(1, Success), UsersWritten(2, Success)] + last);
  }

  lemma BothSettled(s4: Shared, w1: Ledger<int>, w2: Ledger<int>, a: int)
    requires s4.jobs == map[1 := WritingAdmins(w1), 2 := WritingAdmins(w2)] && s4.carriedAdmins == map[]
    ensures var steps := [AdminsWritten(1, Success), AdminsWritten(2, Success)];
            && RunOf(s4, steps)
            && var after := After(s4, steps);
               && after.jobs == map[] && after.carriedAdmins == map[]
               && At(after.storedAdmins, a) == At(s4.storedAdmins, a) + At(w1, a) + At(w2, a)
  {
    var s5 := DoAdminsWritten(s4, 1, Success);
    assert s5.jobs == map[2 := WritingAdmins(w2)];
    var s6 := DoAdminsWritten(s5, 2, Success);
    RunPair(s4, AdminsWritten(1, Success), AdminsWritten(2, Success), []);
  }

  lemma PlusNonEmpty(a: Ledger<int>, b: Ledger<int>)
    requires b != map[]
    ensures Plus(a, b) != map[]
  {
    assert b.Keys <= Plus(a, b).Keys;
  }

  lemma BothFolded(s: Shared, u1: Ledger<int>, a1: Ledger<int>, u2: Ledger<int>, a2: Ledger<int>) returns (s2: Shared)
    requires s.jobs == map[] && u1 != map[] && u2 != map[] && a1 != map[] && a2 != map[]
    ensures s2 == DoStart(DoStart(s, 1, u1, a1), 2, u2, a2)
    ensures 2 !in DoStart(s, 1, u1, a1).jobs
    ensures s2.jobs.Keys == {1, 2} && s2.jobs[1].WritingUsers? && s2.jobs[2].WritingUsers?
    ensures s2.jobs[1].admins == Plus(s.carriedAdmins, a1) != map[]
    ensures s2.jobs[2].admins == Plus(s.carriedAdmins, a2) != map[]
    ensures s2.storedAdmins == s.storedAdmins
  {
    PlusNonEmpty(s.carriedUsers, u1);
    PlusNonEmpty(map[], u2);
    PlusNonEmpty(s.carriedAdmins, a1);
    PlusNonEmpty(s.carriedAdmins, a2);
    var s1 := DoStart(s, 1, u1, a1);
    assert s1.carriedUsers == map[] && s1.carriedAdmins == s.carriedAdmins && s1.jobs.Keys == {1};
    s2 := DoStart(s1, 2, u2, a2);
  }

  lemma BothPastUsers(s2: Shared, w1: Ledger<int>, w2: Ledger<int>) returns (s4: Shared)
    requires s2.jobs.Keys == {1, 2} && s2.jobs[1].WritingUsers? && s2.jobs[2].WritingUsers?
    requires s2.jobs[1].admins == w1 != map[] && s2.jobs[2].admins == w2 != map[]
    ensures var s3 := DoUsersWritten(s2, 1, Success);
            && 2 in s3.jobs && s3.jobs[2].WritingUsers? && s4 == DoUsersWritten(s3, 2, Success)
    ensures s4.jobs == map[1 := WritingAdmins(w1), 2 := WritingAdmins(w2)]
    ensures s4.storedAdmins == s2.storedAdmins && s4.carriedAdmins == map[]
  {
    var s3 := DoUsersWritten(s2, 1, Success);
    s4 := DoUsersWritten(s3, 2, Success);
  }

  lemma RunPair(s: Shared, first: Step, second: Step, rest: seq<Step>)
    requires Enabled(s, first) && Enabled(Do(s, first), second) && RunOf(Do(Do(s, first), second), rest)
    ensures RunOf(s, [first, second] + rest)
    ensures After(s, [first, second] + rest) == After(Do(Do(s, first), second), rest)
  {
    RunCons(Do(s, first), second, rest);
    RunCons(s, first, [second] + rest);
    assert [first] + ([second] + rest) == [first, second] + rest;
  }

  lemma RunCons(s: Shared, step: Step, rest: seq<Step>)
    requires Enabled(s, step) && RunOf(Do(s, step), rest)
    ensures RunOf(s, [step] + rest) && After(s, [step] + rest) == After(Do(s, step), rest)
  {
    assert ([step] + rest)[1..] == rest;
  }
}
