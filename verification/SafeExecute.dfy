// One database write with deadlock retries, and what a failed write is known
// to have left behind.
module SafeExecution {
  import opened Options

  datatype Arg = Number(n: int) | Text

  // The driver's own exception, when there is one.
  datatype DriverError = DriverError(args: seq<Arg>, code: Option<string>)

  datatype Exc =
    | DbError(orig: Option<DriverError>, text: string)  // OperationalError or any other DatabaseError
    | Cancelled
    | OtherError

  const MYSQL_DEADLOCK := 1213
  const MYSQL_LOCK_WAIT := 1205
  const PG_DEADLOCK := "40P01"
  const SQLITE_LOCKED := "database is locked"

  predicate Contains(text: string, part: string) {
    exists i :: 0 <= i <= |text| && part <= text[i..]
  }

  function Errno(orig: Option<DriverError>): Option<int> {
    if orig.Some? && orig.value.args != [] && orig.value.args[0].Number?
    then Some(orig.value.args[0].n) else None
  }

  predicate MysqlRetriable(exc: Exc) {
    exc.DbError? && Errno(exc.orig) in {Some(MYSQL_DEADLOCK), Some(MYSQL_LOCK_WAIT)}
  }

  predicate PgDeadlock(exc: Exc) {
    exc.DbError? && exc.orig.Some? && exc.orig.value.code == Some(PG_DEADLOCK)
  }

  predicate SqliteLocked(exc: Exc) {
    exc.DbError? && Contains(exc.text, SQLITE_LOCKED)
  }

  // A failed write that is certain to have left nothing committed.
  function WriteRolledBack(exc: Exc): (certain: bool)
    ensures certain <==> MysqlRetriable(exc) || PgDeadlock(exc) || SqliteLocked(exc)
    ensures exc.Cancelled? || exc.OtherError? ==> !certain
  {
    match exc
    case DbError(orig, text) =>
      var errno := Errno(orig);
      if errno == Some(MYSQL_DEADLOCK) || errno == Some(MYSQL_LOCK_WAIT) then true
      else if orig.Some? && orig.value.code == Some(PG_DEADLOCK) then true
      else Contains(text, SQLITE_LOCKED)
    case Cancelled => false
    case OtherError => false
  }

  // The same by what the driver reports: the first argument is MySQL's deadlock or
  // lock wait number, the code PostgreSQL's for a deadlock, or SQLite says so.
  ghost predicate DeadlockOrWait(exc: Exc) {
    exc.DbError? && exc.orig.Some? &&
    (|| (|exc.orig.value.args| > 0 && exc.orig.value.args[0] in {Number(1213), Number(1205)})
     || exc.orig.value.code == Some("40P01"))
  }

  ghost predicate SaysLocked(exc: Exc) {
    exc.DbError? && exists before, after :: exc.text == before + "database is locked" + after
  }

  lemma ContainsIff(text: string, part: string)
    ensures Contains(text, part) <==> exists before, after :: text == before + part + after
  {
    if Contains(text, part) {
      var i :| 0 <= i <= |text| && part <= text[i..];
      assert text == text[..i] + part + text[i + |part|..];
    }
    if before, after :| text == before + part + after {
      assert text[|before|..] == part + after;
    }
  }

  // A failure is certain to have left nothing exactly in these cases.
  lemma RolledBackIff(exc: Exc)
    ensures WriteRolledBack(exc) <==> DeadlockOrWait(exc) || SaysLocked(exc)
  {
    if exc.DbError? {
      ContainsIff(exc.text, SQLITE_LOCKED);
    }
  }

  // What the database does with one attempt. A failed attempt may have been
  // committed before the error was raised.
  datatype Attempt = Committed | Failed(exc: Exc, landed: bool)

  predicate Landed(a: Attempt) {
    a.Committed? || a.landed
  }

  // The assumption the whole design rests on: a deadlock, a lock wait timeout
  // and a locked SQLite file roll the transaction back.
  predicate Honest(tries: seq<Attempt>) {
    forall i :: 0 <= i < |tries| && tries[i].Failed? && WriteRolledBack(tries[i].exc) ==> !tries[i].landed
  }

  function Landings(tries: seq<Attempt>): nat {
    if tries == [] then 0
    else Landings(tries[..|tries|-1]) + (if Landed(tries[|tries|-1]) then 1 else 0)
  }

  // Whether the loop goes round again after this attempt: SQLite locks are
  // retried once only, and the last attempt never is.
  predicate Retried(a: Attempt, attempt: nat, maxRetries: nat) {
    && a.Failed?
    && attempt + 1 < maxRetries
    && (MysqlRetriable(a.exc) || PgDeadlock(a.exc) || (SqliteLocked(a.exc) && attempt == 0))
  }

  lemma RetriedIff(exc: Exc, landed: bool, attempt: nat, maxRetries: nat)
    ensures Retried(Failed(exc, landed), attempt, maxRetries) <==>
            attempt + 1 < maxRetries && (DeadlockOrWait(exc) || (SaysLocked(exc) && attempt == 0))
    ensures !Retried(Committed, attempt, maxRetries)
  {
    if exc.DbError? {
      ContainsIff(exc.text, SQLITE_LOCKED);
    }
  }

  datatype Outcome = Returned | Raised(exc: Exc)

  lemma {:induction false} RetriedNeverLanded(tries: seq<Attempt>, n: nat, maxRetries: nat)
    requires n <= |tries| && Honest(tries)
    requires forall i :: 0 <= i < n ==> Retried(tries[i], i, maxRetries)
    ensures Landings(tries[..n]) == 0
  {
    if n > 0 {
      assert tries[..n][..n-1] == tries[..n-1];
      RetriedNeverLanded(tries, n - 1, maxRetries);
    }
  }

  // Runs a statement, at most maxRetries times. tries[i] is what the database
  // does with attempt i; `used` is how many attempts were made.
  method SafeExecute(tries: seq<Attempt>, maxRetries: nat) returns (outcome: Outcome, used: nat)
    requires |tries| >= maxRetries
    ensures used <= maxRetries
    // every attempt but the last was retried, and the last one was not
    ensures forall i :: 0 <= i < used - 1 ==> Retried(tries[i], i, maxRetries)
    ensures used > 0 ==> !Retried(tries[used-1], used - 1, maxRetries)
    ensures maxRetries >= 1 ==> used > 0
    ensures used > 0 ==>
      outcome == if tries[used-1].Committed? then Returned else Raised(tries[used-1].exc)
    ensures used == 0 ==> outcome == Returned
    // at most one effect; exactly one on return; none after a certain rollback
    ensures Honest(tries) ==> Landings(tries[..used]) <= 1
    ensures Honest(tries) && outcome.Returned? ==>
      (Landings(tries[..used]) == 1 <==> maxRetries >= 1)
    ensures Honest(tries) && outcome.Raised? && WriteRolledBack(outcome.exc) ==> Landings(tries[..used]) == 0
  {
    var attempt := 0;
    while attempt < maxRetries
      invariant attempt < maxRetries || attempt == 0
      invariant forall i :: 0 <= i < attempt ==> Retried(tries[i], i, maxRetries)
    {
      if Honest(tries) { RetriedNeverLanded(tries, attempt, maxRetries); }
      assert tries[..attempt+1][..attempt] == tries[..attempt];
      used := attempt + 1;
      match tries[attempt]
      case Committed =>
        return Returned, used;
      case Failed(exc, _) =>
        if !exc.DbError? {
          return Raised(exc), used;
        }
        if attempt + 1 < maxRetries {
          if MysqlRetriable(exc) || PgDeadlock(exc) {
            attempt := attempt + 1;
            continue;
          } else if SqliteLocked(exc) {
            if attempt == 0 {
              attempt := attempt + 1;
              continue;
            }
            return Raised(exc), used;
          }
        }
        return Raised(exc), used;
    }
    return Returned, 0;
  }

  // What a caller that catches every exception can tell about its write.
  datatype WriteResult = Success | CertainRollback | Unknown(landed: bool)

  predicate Applied(r: WriteResult) {
    r.Success? || (r.Unknown? && r.landed)
  }

  // The attempt that ends the loop.
  function LastAttempt(tries: seq<Attempt>, attempt: nat, maxRetries: nat): (last: nat)
    requires attempt < maxRetries <= |tries|
    ensures attempt <= last < maxRetries && !Retried(tries[last], last, maxRetries)
    ensures forall i :: attempt <= i < last ==> Retried(tries[i], i, maxRetries)
    decreases maxRetries - attempt
  {
    if Retried(tries[attempt], attempt, maxRetries) then LastAttempt(tries, attempt + 1, maxRetries) else attempt
  }

  // How a write ends for its caller.
  function ResultOf(tries: seq<Attempt>, maxRetries: nat): WriteResult
    requires 1 <= maxRetries <= |tries|
  {
    match tries[LastAttempt(tries, 0, maxRetries)]
    case Committed => Success
    case Failed(exc, landed) => if WriteRolledBack(exc) then CertainRollback else Unknown(landed)
  }

  // One write with its retries, classified the way the job classifies it. The
  // statement takes effect exactly when Applied says so, and at most once.
  method Write(tries: seq<Attempt>, maxRetries: nat) returns (r: WriteResult, used: nat)
    requires 1 <= maxRetries <= |tries|
    ensures used <= maxRetries
    ensures r == ResultOf(tries, maxRetries)
    ensures Honest(tries) ==> Landings(tries[..used]) == (if Applied(r) then 1 else 0)
    ensures r.CertainRollback? ==> used > 0 && tries[used-1].Failed? && WriteRolledBack(tries[used-1].exc)
    ensures r.Unknown? ==> used > 0 && tries[used-1].Failed? && !WriteRolledBack(tries[used-1].exc)
  {
    var outcome;
    outcome, used := SafeExecute(tries, maxRetries);
    assert used - 1 == LastAttempt(tries, 0, maxRetries);
    match outcome
    case Returned => r := Success;
    case Raised(exc) =>
      if WriteRolledBack(exc) {
        r := CertainRollback;
      } else {
        r := Unknown(tries[used-1].landed);
        if Honest(tries) {
          RetriedNeverLanded(tries, used - 1, maxRetries);
          assert tries[..used][..used-1] == tries[..used-1];
        }
      }
  }

  // The default number of attempts, which the job leaves alone.
  const MAX_RETRIES: nat := 2

  // What the database does with the attempts of one write of the job.
  type Tries = t: seq<Attempt> | |t| == MAX_RETRIES && Honest(t) witness [Committed, Committed]

  function EndOf(tries: Tries): WriteResult {
    ResultOf(tries, MAX_RETRIES)
  }

  // A write of the job: it lands once if it is Applied, and otherwise not at all.
  method WriteOnce(tries: Tries) returns (r: WriteResult, ghost landings: nat)
    ensures r == EndOf(tries)
    ensures landings == if Applied(r) then 1 else 0
  {
    var used;
    r, used := Write(tries, MAX_RETRIES);
    landings := Landings(tries[..used]);
  }
}
