// The segments of a cycle that runs alone, as overlapping cycles are made of them,
// are the user and admin stages of the cycle.
module CycleSteps {
  import opened Ledgers
  import opened SafeExecution
  import opened UsageLedger
  import UsageTotals
  import Overlap = OverlappingCycles

  // The carry buffers, with nothing stored yet and no job running.
  function Quiet(b: Books): Overlap.Shared {
    Overlap.Shared(b.carriedUsers, b.carriedAdmins, map[], map[], map[])
  }

  function NewUsers(b: Books, c: Cycle): Ledger<int> {
    map u | u in Fresh(c) && u in b.users && Fresh(c)[u] > 0 :: Fresh(c)[u]
  }

  // One job starts, and its writes end as those of the cycle do.
  function Alone(s: Overlap.Shared, users: Ledger<int>, admins: Ledger<int>, c: Cycle): Overlap.Shared
    requires s.jobs == map[]
  {
    var started := Overlap.Do(s, Overlap.Start(1, users, admins));
    var written :=
      if 1 in started.jobs && started.jobs[1].WritingUsers?
      then Overlap.Do(started, Overlap.UsersWritten(1, c.userWrite)) else started;
    if 1 in written.jobs && written.jobs[1].WritingAdmins?
    then Overlap.Do(written, Overlap.AdminsWritten(1, c.adminWrite)) else written
  }

  // What is stored when a window is written.
  function Written(window: Ledger<int>, result: WriteResult): Ledger<int> {
    if Applied(result) then window else map[]
  }

  // The whole course in one step: an empty window is skipped, and the admin write
  // is only made if the user write was not needed or succeeded.
  lemma AloneEnds(s: Overlap.Shared, users: Ledger<int>, admins: Ledger<int>, c: Cycle)
    requires s.jobs == map[] && s.storedUsers == map[] && s.storedAdmins == map[]
    ensures var u, a := Plus(s.carriedUsers, users), Plus(s.carriedAdmins, admins);
      var goesOn := u == map[] || c.userWrite.Success?;
      var end := Alone(s, users, admins, c);
      && end.jobs == map[]
      && end.carriedUsers == (if u == map[] then s.carriedUsers else Parked(c.userWrite, u))
      && end.storedUsers == (if u == map[] then map[] else Written(u, c.userWrite))
      && end.carriedAdmins == (if goesOn && a != map[] then Parked(c.adminWrite, a) else s.carriedAdmins)
      && end.storedAdmins == (if goesOn && a != map[] then Written(a, c.adminWrite) else map[])
  {
    var u, a := Plus(s.carriedUsers, users), Plus(s.carriedAdmins, admins);
    assert Plus(map[], u) == u && Plus(map[], a) == a;
    var started := Overlap.Do(s, Overlap.Start(1, users, admins));
    if u == map[] {
      AdminsEnd(started, a, c);
    } else {
      UsersEnd(started, u, a, c);
      if c.userWrite.Success? {
        AdminsEnd(Overlap.Do(started, Overlap.UsersWritten(1, c.userWrite)), a, c);
      }
    }
  }

  // A job that is writing users.
  lemma UsersEnd(s: Overlap.Shared, u: Ledger<int>, a: Ledger<int>, c: Cycle)
    requires s.jobs == map[1 := Overlap.WritingUsers(u, a)] && s.storedUsers == s.carriedUsers == map[]
    ensures var end := Overlap.Do(s, Overlap.UsersWritten(1, c.userWrite));
      && end.jobs == (if c.userWrite.Success? && a != map[] then map[1 := Overlap.WritingAdmins(a)] else map[])
      && end.carriedUsers == Parked(c.userWrite, u) && end.storedUsers == Written(u, c.userWrite)
      && end.storedAdmins == s.storedAdmins &&
        (!c.userWrite.Success? || a == map[] ==> end.carriedAdmins == s.carriedAdmins)
      && (c.userWrite.Success? && a != map[] ==> end.carriedAdmins == map[])
  {
    assert Plus(map[], u) == u;
  }

  // A job that has entered the admin write, or skipped it.
  lemma AdminsEnd(s: Overlap.Shared, a: Ledger<int>, c: Cycle)
    requires s.jobs == (if a == map[] then map[] else map[1 := Overlap.WritingAdmins(a)]) && s.storedAdmins == map[]
    ensures var end :=
        if 1 in s.jobs && s.jobs[1].WritingAdmins? then Overlap.Do(s, Overlap.AdminsWritten(1, c.adminWrite)) else s;
      && end.jobs == map[] && end.carriedUsers == s.carriedUsers && end.storedUsers == s.storedUsers
      && (a == map[] ==> end == s)
      && (a != map[] ==> end.storedAdmins == Written(a, c.adminWrite))
      && (a != map[] ==> end.carriedAdmins == if c.adminWrite.CertainRollback? then a else s.carriedAdmins)
  {
    assert Plus(map[], a) == a;
  }

  // The user and admin stages, in the same terms.
  lemma StagesEnd(b: Books, c: Cycle, u: Ledger<int>, a: Ledger<int>)
    ensures var s1 := UserStage(b, c.userWrite, u);
      var after := if s1.goesOn then AdminStage(s1.books, c, a).books else s1.books;
      && after.carriedUsers == (if u == map[] then b.carriedUsers else Parked(c.userWrite, u))
      && after.carriedAdmins == (if s1.goesOn && a != map[] then Parked(c.adminWrite, a) else b.carriedAdmins)
      && after.users == (if u == map[] || !Applied(c.userWrite) then b.users else BillUsers(b.users, u))
      && after.admins ==
        (if !s1.goesOn || a == map[] || !Applied(c.adminWrite) then b.admins else BillAdmins(b.admins, a))
  {
  }

  // The job alone leaves the same carry buffers as the cycle, and adds the same to
  // every counter.
  lemma AloneIsTheCycle(b: Books, c: Cycle)
    requires c.stats != [] && c.lookupCompletes
    ensures var s, after :=
              Alone(Quiet(b), NewUsers(b, c), AdminShares(Fresh(c), Owners(b.users)), c), AfterCycle(b, c);
      && s.jobs == map[]
      && s.carriedUsers == after.carriedUsers && s.carriedAdmins == after.carriedAdmins
      && (forall u ::
        u in b.users ==> u in after.users && after.users[u].used == b.users[u].used + At(s.storedUsers, u))
      && forall a :: a in b.admins ==> a in after.admins && after.admins[a] == b.admins[a] + At(s.storedAdmins, a)
  {
    AloneEnds(Quiet(b), NewUsers(b, c), AdminShares(Fresh(c), Owners(b.users)), c);
    StagesEnd(b, c, UserWindow(b, c), AdminWindow(b, c));
    AccountsSettled(b, c, UserWindow(b, c), AdminWindow(b, c), FreshBatch(b, c));
  }

  // The chart stages leave the accounts alone.
  lemma AccountsSettled(b: Books, c: Cycle, users: Ledger<int>, admins: Ledger<int>, batch: seq<UsageTotals.NodeStats>)
    ensures var s1 := UserStage(b, c.userWrite, users);
      KeepsAccounts(if s1.goesOn then AdminStage(s1.books, c, admins).books else s1.books,
                    AfterWrites(b, c, users, admins, batch))
  {
  }
}
