// Keeping one node's users what the panel's tables say they should be, by
// sending changes as they happen instead of the whole user set.
module NodeSync {
  import opened Options
  import opened Iteration
  import opened CommaText
  import opened PanelData
  import opened SyncBlocked
  import opened StatefulNodes
  import GroupResync

  // A user as the node holds it.
  datatype NodeUser = NodeUser(settings: ProxySettings, tags: set<Tag>)

  type View = map<int, NodeUser>

  function Held(view: View, id: int): Option<NodeUser> {
    if id in view then Some(view[id]) else None
  }

  // What the node makes of one user: it keeps the inbounds it runs, and drops a
  // user left with none.
  function Kept(nodeTags: set<Tag>, settings: ProxySettings, tags: set<Tag>): Option<NodeUser> {
    if tags * nodeTags == {} then None else Some(NodeUser(settings, tags * nodeTags))
  }

  function Received(nodeTags: set<Tag>, view: View, id: int, settings: ProxySettings, tags: set<Tag>): (after: View)
    ensures forall k :: Held(after, k) == if k == id then Kept(nodeTags, settings, tags) else Held(view, k)
  {
    match Kept(nodeTags, settings, tags)
    case None => view - {id}
    case Some(user) => view[id := user]
  }

  // The user the node should hold, by the tables alone.
  function Wanted(db: Database, nodeTags: set<Tag>, id: int): Option<NodeUser> {
    if id in db.users then Kept(nodeTags, db.users[id].settings, Desired(db, id)) else None
  }

  ghost predicate MatchedUser(db: Database, nodeTags: set<Tag>, view: View, id: int) {
    Held(view, id) == Wanted(db, nodeTags, id)
  }

  ghost predicate Matched(db: Database, nodeTags: set<Tag>, view: View) {
    forall id :: MatchedUser(db, nodeTags, view, id)
  }

  predicate OwnedBy(db: Database, id: int, admin: int) {
    id in db.users && db.users[id].adminId == Some(admin)
  }

  // Whom a transition is about: all users of an admin that stops blocking, the
  // live ones of an admin that starts.
  predicate Affected(db: Database, id: int, admin: int, wasBlocked: bool) {
    OwnedBy(db, id, admin) && wasBlocked != AdminBlocked(db, admin) && (wasBlocked || Live(db.users[id]))
  }

  ghost predicate TellsAll(before: Database, db: Database, admins: set<int>, told: set<int>) {
    forall a, k :: a in admins && Affected(db, k, a, AdminBlocked(before, a)) ==> k in told
  }

  predicate Exceeded(admin: Admin) {
    && admin.status == AdminActive
    && admin.dataLimit.Some? && 0 < admin.dataLimit.value <= admin.usedTraffic
  }

  // An active admin that has used up a limit above zero becomes limited.
  function Overdrawn(admin: Admin): Admin {
    match admin
    case Admin(AdminActive, role, used, Some(limit)) =>
      if limit <= 0 || used < limit then admin else Admin(AdminLimited, role, used, Some(limit))
    case _ => admin
  }

  function WithStatus(admins: map<int, Admin>, ids: set<int>, status: AdminStatus): map<int, Admin> {
    map id | id in admins :: if id in ids then admins[id].(status := status) else admins[id]
  }

  function ExceededIds(admins: map<int, Admin>): set<int> {
    set id | id in admins && Exceeded(admins[id])
  }

  ghost predicate AllOverdrawn(before: map<int, Admin>, after: map<int, Admin>) {
    after.Keys == before.Keys && forall a :: a in before ==> after[a] == Overdrawn(before[a])
  }

  lemma LimitingOverdraws(admins: map<int, Admin>)
    ensures AllOverdrawn(admins, WithStatus(admins, ExceededIds(admins), AdminLimited))
  {
  }

  // Exactly the listed admins change, and nothing but their status.
  ghost predicate AllSwitched(before: map<int, Admin>, after: map<int, Admin>, ids: set<int>, disabled: bool) {
    && after.Keys == before.Keys
    && (forall a :: a in before && a !in ids ==> after[a] == before[a])
    && (forall a :: a in before && a in ids ==> after[a] == before[a].(status := after[a].status))
    && forall a :: a in before && a in ids ==>
         (after[a].status.AdminDisabled? <==> disabled) && (after[a].status.AdminActive? <==> !disabled)
  }

  lemma WithStatusSwitches(admins: map<int, Admin>, ids: set<int>, disabled: bool)
    ensures AllSwitched(admins, WithStatus(admins, ids, if disabled then AdminDisabled else AdminActive), ids, disabled)
  {
  }

  lemma WithStatusNext(admins: map<int, Admin>, done: set<int>, id: int, status: AdminStatus)
    requires id in admins && id !in done
    ensures WithStatus(admins, done + {id}, status) ==
              WithStatus(admins, done, status)[id := admins[id].(status := status)]
  {
  }

  function ResolveEnabledUserStatus(u: User, now: int): UserStatus {
    var l := u.limits;
    if l.expire.Some? && l.expire.value <= now then UserExpired
    else if l.dataLimit.Some? && 0 < l.dataLimit.value <= l.usedTraffic then UserLimited
    else if l.onHoldDuration.Some? then UserOnHold
    else UserActive
  }

  // Disabled users are all alike; enabling resolves a status for each.
  function Toggled(u: User, disabled: bool, now: int): (status: UserStatus)
    ensures ToggledTo(u.limits, status, disabled, now)
  {
    if disabled then UserDisabled else ResolveEnabledUserStatus(u, now)
  }

  // What the status of a toggled user says of its limits.
  predicate ToggledTo(l: Limits, status: UserStatus, disabled: bool, now: int) {
    var expired := l.expire.Some? && now >= l.expire.value;
    var usedUp := l.dataLimit.Some? && l.dataLimit.value > 0 && l.usedTraffic >= l.dataLimit.value;
    match status
    case UserDisabled => disabled
    case UserExpired => !disabled && expired
    case UserLimited => !disabled && !expired && usedUp
    case UserOnHold => !disabled && !expired && !usedUp && l.onHoldDuration != None
    case UserActive => !disabled && !expired && !usedUp && l.onHoldDuration == None
  }

  // Exactly the listed users change, and nothing but their status.
  ghost predicate AllToggled(before: map<int, User>, after: map<int, User>, ids: set<int>, disabled: bool, now: int) {
    && after.Keys == before.Keys
    && (forall k :: k in before ==> after[k] == before[k].(status := after[k].status))
    && (forall k :: k in before && k !in ids ==> after[k] == before[k])
    && forall k :: k in before && k in ids ==> ToggledTo(before[k].limits, after[k].status, disabled, now)
  }

  lemma WithToggledToggles(users: map<int, User>, ids: set<int>, disabled: bool, now: int)
    ensures AllToggled(users, WithToggled(users, ids, disabled, now), ids, disabled, now)
  {
  }

  function WithToggled(users: map<int, User>, ids: set<int>, disabled: bool, now: int): map<int, User> {
    map id | id in users :: if id in ids then users[id].(status := Toggled(users[id], disabled, now)) else users[id]
  }

  lemma OnlyChangesMatter(users: map<int, User>, ids: set<int>, disabled: bool, now: int)
    requires ids <= users.Keys
    ensures WithToggled(users, (set id | id in ids && users[id].status != Toggled(users[id], disabled, now)), disabled,
              now)
         == WithToggled(users, ids, disabled, now)
  {
  }

  // Who is pushed: everyone listed whose owner does not block it.
  predicate Pushed(db: Database, ids: seq<int>, id: int) {
    id in ids && id in db.users && !OwnerBlocked(db, db.users[id])
  }

  // The tags a user is sent with.
  function SentTags(db: Database, u: User): set<Tag> {
    if Live(u) then UserTags(db, u) else {}
  }

  // A push brings a user to what is wanted.
  lemma PushSettles(db: Database, nodeTags: set<Tag>, view: View, id: int)
    requires id in db.users && !OwnerBlocked(db, db.users[id])
    ensures var u := db.users[id];
      forall k :: Held(Received(nodeTags, view, id, u.settings, SentTags(db, u)), k) ==
              if k == id then Wanted(db, nodeTags, id) else Held(view, k)
  {
    var u := db.users[id];
    if !Live(u) {
      assert SentTags(db, u) * nodeTags == {};
    }
  }

  // The tables want the same for a user, whatever the node.
  ghost predicate SameWish(before: Database, db: Database, id: int) {
    && Desired(before, id) == Desired(db, id)
    && (Desired(db, id) != {} ==> before.users[id].settings == db.users[id].settings)
  }

  lemma SameWishSameWanted(before: Database, db: Database, nodeTags: set<Tag>, id: int)
    requires SameWish(before, db, id)
    ensures Wanted(before, nodeTags, id) == Wanted(db, nodeTags, id)
  {
  }

  // A user's wish depends only on its row, its owner's state and its groups.
  lemma WishDependsOn(db: Database, other: Database, id: int)
    requires id in db.users && id in other.users && db.users[id] == other.users[id]
    requires OwnerBlocked(db, db.users[id]) == OwnerBlocked(other, db.users[id])
    requires forall g :: g in db.users[id].groups ==> GroupGrants(db, g) == GroupGrants(other, g)
    requires forall g :: g in db.users[id].groups && GroupGrants(db, g) && GroupGrants(other, g) ==>
              db.groups[g].tags == other.groups[g].tags
    ensures SameWish(db, other, id)
  {
    TagsDependOn(db, other, db.users[id], db.users[id]);
  }

  // Nobody's wish changed but that of the users the node was told about.
  ghost predicate Honest(before: Database, db: Database, told: set<int>) {
    forall k :: k !in told ==> SameWish(before, db, k)
  }

  // Those the node was told about are as wanted, the others as they were.
  ghost predicate Delivered(db: Database, nodeTags: set<Tag>, held: View, view: View, told: set<int>) {
    forall k :: Held(view, k) == if k in told then Wanted(db, nodeTags, k) else Held(held, k)
  }

  lemma DeliveredMatches(before: Database, db: Database, nodeTags: set<Tag>, held: View, view: View, told: set<int>)
    requires Honest(before, db, told) && Delivered(db, nodeTags, held, view, told)
    ensures forall k :: MatchedUser(db, nodeTags, view, k) <==> (k in told || MatchedUser(before, nodeTags, held, k))
  {
    forall k ensures MatchedUser(db, nodeTags, view, k) <==> (k in told || MatchedUser(before, nodeTags, held, k)) {
      if k !in told {
        SameWishSameWanted(before, db, nodeTags, k);
      }
    }
  }

  // A user as the node should hold it, by the columns of the tables: with its own
  // settings and exactly the inbounds of the node it is entitled to, and not at all
  // if there are none.
  ghost predicate HeldByRight(db: Database, nodeTags: set<Tag>, view: View, id: int) {
    && (id in view ==> id in db.users && view[id].settings == db.users[id].settings && view[id].tags != {})
    && forall t :: (id in view && t in view[id].tags) <==> (EntitledTo(db, id, t) && t in nodeTags)
  }

  lemma MatchedIsByRight(db: Database, nodeTags: set<Tag>, view: View, id: int)
    ensures MatchedUser(db, nodeTags, view, id) <==> HeldByRight(db, nodeTags, view, id)
  {
    DesiredIsEntitled(db, id);
    var due := Desired(db, id) * nodeTags;
    assert forall t :: t in due <==> EntitledTo(db, id, t) && t in nodeTags;
    if HeldByRight(db, nodeTags, view, id) {
      if id in view {
        assert view[id].tags == due;
      } else {
        assert due == {};
      }
    }
  }

  // What the node was last sent for a user, in a log of changes.
  function LastSent(nodeTags: set<Tag>, base: View, changes: seq<Change>, id: int): Option<NodeUser> {
    if changes == [] then Held(base, id) else
    var last := changes[|changes|-1];
    if id in last.told then Wanted(last.db, nodeTags, id) else LastSent(nodeTags, base, changes[..|changes|-1], id)
  }

  function TagsOf(user: Option<NodeUser>): set<Tag> {
    if user.Some? then user.value.tags else {}
  }

  // Among the inbounds without state, the view is what the node serves.
  ghost predicate IsStateless(view: View, stateTags: set<Tag>, served: GroupResync.Served) {
    forall id :: TagsOf(Held(view, id)) == GroupResync.Serves(served, id) - stateTags
  }

  lemma {:induction false} LastSentTags(runTags: set<Tag>, stateTags: set<Tag>, base: View, was: GroupResync.Served,
                                        changes: seq<Change>, id: int)
    requires IsStateless(base, stateTags, was)
    ensures TagsOf(LastSent(runTags - stateTags, base, changes, id)) == LastWish(runTags, was, changes, id) - stateTags
  {
    if changes != [] {
      var last := changes[|changes|-1];
      LastSentTags(runTags, stateTags, base, was, changes[..|changes|-1], id);
      assert Desired(last.db, id) * (runTags - stateTags) == Desired(last.db, id) * runTags - stateTags;
    }
  }

  // A user as some code path has it in memory: its row, a session, and whatever
  // happens to be loaded of its admin and its groups.
  datatype InMemory = InMemory(id: int, user: LoadedUser, groups: Option<seq<LoadedGroup>>, groupIds: seq<int>)

  ghost predicate Recalled(db: Database, m: InMemory) {
    && m.id in db.users && m.user.row == db.users[m.id]
    && Faithful(db, m.user) && m.user.session.Some?
    && (m.groups.Some? ==> GroupsFaithful(db, m.user.row, m.groups.value, m.groupIds))
  }

  function IdsOf(ms: seq<InMemory>): (ids: seq<int>)
    ensures |ids| == |ms| && forall i :: 0 <= i < |ms| ==> ids[i] == ms[i].id
  {
    seq(|ms|, i requires 0 <= i < |ms| => ms[i].id)
  }

  // A user-facing change, an administrative one, or a reconnect.
  datatype Event =
    | CreateUser(id: int, row: User)
    | UpdateUser(id: int, status: UserStatus, settings: ProxySettings, groups: set<int>, limits: Limits)
    | BulkSetUsersDisabled(ids: set<int>, disabled: bool, now: int)
    | DeleteUsers(ids: set<int>)
    | ModifyAdmin(id: int, admin: Admin)
    | BulkSetAdminsDisabled(ids: set<int>, disabled: bool)
    | ResetAdminUsage(id: int)
    | LimitAdmins
    | SetGroup(id: int, group: Group)
    | RemoveGroup(id: int)
    | SetOwner(id: int, owner: int)
    | RemoveAdmins(ids: set<int>)
    | Reconnect

  // `view` is what the node holds among its inbounds without state: a push
  // settles those. `base` is the view after the last full replacement, `origin`
  // the tables then, and `changes` each change since with the users told about it.
  class Panel {
    var db: Database
    var view: View
    const runTags: set<Tag>
    const stateTags: set<Tag>
    const nodeTags: set<Tag> := runTags - stateTags
    ghost var origin: Database
    ghost var base: View
    ghost var changes: seq<Change>
    ghost var told: set<int>

    constructor (db: Database, runTags: set<Tag>, stateTags: set<Tag>)
      ensures this.db == db && this.runTags == runTags && this.stateTags == stateTags && view == map[]
      ensures Logged()
    {
      this.db, this.runTags, this.stateTags, view := db, runTags, stateTags, map[];
      origin, base, changes, told := db, map[], [], {};
    }

    // The log leads to the present tables, and the node holds of every user what
    // it was last sent.
    ghost predicate Logged() reads this {
      LastDb(origin, changes) == db && forall k :: Held(view, k) == LastSent(nodeTags, base, changes, k)
    }

    // The tables changed once, and the node was told about everyone concerned.
    ghost predicate Recorded(before: Database, held: View, was: seq<Change>) reads this {
      && changes == was + [Change(db, told)]
      && Honest(before, db, told) && Delivered(db, nodeTags, held, view, told)
    }

    ghost method Record(before: Database, held: View)
      requires Honest(before, db, told) && Delivered(db, nodeTags, held, view, told)
      requires forall k :: Held(held, k) == LastSent(nodeTags, base, changes, k)
      modifies this`changes
      ensures Recorded(before, held, old(changes)) && Logged()
      ensures Matched(before, nodeTags, held) ==> InSync()
    {
      DeliveredMatches(before, db, nodeTags, held, view, told);
      var was := changes;
      changes := changes + [Change(db, told)];
      assert changes[..|was|] == was;
      assert forall k :: MatchedUser(before, nodeTags, held, k) ==> MatchedUser(db, nodeTags, view, k);
    }

    ghost predicate InSync() reads this {
      Matched(db, nodeTags, view)
    }

    // ---- What is in memory of a user: any part of its admin and groups ----

    method Recall(id: int) returns (m: InMemory)
      requires id in db.users
      ensures m.id == id && Recalled(db, m)
    {
      var row := db.users[id];
      var admin: Option<LoadedAdmin> := None;
      var hasAdmin, hasStatus, hasRole: bool := *, *, *;
      if hasAdmin && row.adminId.Some? && row.adminId.value in db.admins {
        var owner := db.admins[row.adminId.value];
        var status, role := if hasStatus then Some(owner.status) else None, if hasRole then RoleOf(db, owner) else None;
        admin := Some(LoadedAdmin(status, role));
      }
      m := InMemory(id, LoadedUser(row, admin, Some(db)), None, []);
      if * {
        var groups, ids := RecallGroups(row);
        m := m.(groups := Some(groups), groupIds := ids);
      }
    }

    method RecallGroups(row: User) returns (groups: seq<LoadedGroup>, ids: seq<int>)
      ensures GroupsFaithful(db, row, groups, ids)
    {
      ids := IterationOrder(set g | g in row.groups && g in db.groups);
      groups := [];
      assert forall k :: 0 <= k < |ids| ==> ids[k] in ids;
      for i := 0 to |ids|
        invariant |groups| == i
        invariant forall k :: 0 <= k < |ids| ==> ids[k] in db.groups
        invariant forall k :: 0 <= k < i ==> groups[k].isDisabled == db.groups[ids[k]].isDisabled
        invariant forall k :: 0 <= k < i && groups[k].inbounds.Some? ==>
                    forall t :: t in groups[k].inbounds.value <==> t in db.groups[ids[k]].tags
      {
        assert ids[i] in ids;
        var tags := IterationOrder(db.groups[ids[i]].tags);
        var hasInbounds: bool := *;
        groups := groups + [LoadedGroup(db.groups[ids[i]].isDisabled, if hasInbounds then Some(tags) else None)];
      }
      assert forall i :: 0 <= i < |ids| ==> ids[i] in ids;
    }

    method RecallAll(ids: seq<int>) returns (ms: seq<InMemory>)
      requires forall id :: id in ids ==> id in db.users
      ensures IdsOf(ms) == ids && forall m :: m in ms ==> Recalled(db, m)
    {
      ms := [];
      for i := 0 to |ids|
        invariant |ms| == i && IdsOf(ms) == ids[..i]
        invariant forall m :: m in ms ==> Recalled(db, m)
      {
        assert ids[i] in ids;
        var m := Recall(ids[i]);
        ms := ms + [m];
      }
      assert ids[..|ids|] == ids;
    }

    // ---- Messages to the node, delivered in order ----

    // Sends one user as it is serialized from memory.
    method Send(m: InMemory)
      requires Recalled(db, m) && !OwnerBlocked(db, m.user.row)
      modifies this`view, this`told
      ensures forall k :: Held(view, k) == if k == m.id then Wanted(db, nodeTags, k) else old(Held(view, k))
      ensures told == old(told) + {m.id} && HeldByRight(db, nodeTags, view, m.id)
    {
      var tags := SerializeInbounds(m.user.row, m.groups, m.user.session.value, m.groupIds);
      PushSettles(db, nodeTags, view, m.id);
      view := Received(nodeTags, view, m.id, m.user.row.settings, tags);
      told := told + {m.id};
      MatchedIsByRight(db, nodeTags, view, m.id);
    }

    method SyncUser(m: InMemory)
      requires Recalled(db, m) && 0 !in db.admins
      modifies this`view, this`told
      ensures forall k :: Held(view, k) == if Pushed(db, [m.id], k) then Wanted(db, nodeTags, k) else old(Held(view, k))
      ensures forall k :: k in told <==> k in old(told) || Pushed(db, [m.id], k)
    {
      BlockedFormsAgree(db, m.user);
      if UserSyncBlocked(m.user) {
        return;
      }
      Send(m);
    }

    method RemoveUsers(ids: seq<int>)
      modifies this`view, this`told
      ensures forall k :: Held(view, k) == if k in ids then None else old(Held(view, k))
      ensures told == old(told) + set k | k in ids
    {
      for i := 0 to |ids|
        invariant forall k :: Held(view, k) == if k in ids[..i] then None else old(Held(view, k))
        invariant told == old(told) + set k | k in ids[..i]
      {
        assert forall k :: k in ids[..i+1] <==> k in ids[..i] || k == ids[i];
        view := Received(nodeTags, view, ids[i], "", {});
        told := told + {ids[i]};
      }
      assert ids[..|ids|] == ids;
    }

    // The admins among the owners that keep their users off the node.
    method BlockedOwners(ms: seq<InMemory>) returns (blocked: set<int>)
      requires forall m :: m in ms ==> Recalled(db, m)
      ensures forall m :: m in ms && m.user.row.adminId.Some? ==>
                (m.user.row.adminId.value in blocked <==> AdminBlocked(db, m.user.row.adminId.value))
    {
      var users := seq(|ms|, i requires 0 <= i < |ms| => ms[i].user);
      assert forall i :: 0 <= i < |ms| ==> ms[i] in ms && Recalled(db, ms[i]);
      blocked := BlockedAdminIdsForUsers(users, db);
      assert ms != [] ==> users[0].session.Some?;
      assert blocked == BlockingOwners(db, users);
      forall m | m in ms && m.user.row.adminId.Some? ensures m.user.row.adminId.value in AdminIds(users) {
        var i :| 0 <= i < |ms| && ms[i] == m;
        assert users[i].row.adminId.value == m.user.row.adminId.value;
      }
    }

    method SyncUsers(ms: seq<InMemory>)
      requires forall m :: m in ms ==> Recalled(db, m)
      modifies this`view, this`told
      ensures forall k ::
                Held(view, k) == if Pushed(db, IdsOf(ms), k) then Wanted(db, nodeTags, k) else old(Held(view, k))
      ensures forall k :: k in told <==> k in old(told) || Pushed(db, IdsOf(ms), k)
    {
      var blocked := BlockedOwners(ms);
      for i := 0 to |ms|
        invariant forall k ::
                  Held(view, k) == if Pushed(db, IdsOf(ms)[..i], k) then Wanted(db, nodeTags, k) else old(Held(view, k))
        invariant forall k :: k in told <==> k in old(told) || Pushed(db, IdsOf(ms)[..i], k)
      {
        assert ms[i] in ms && IdsOf(ms)[..i+1] == IdsOf(ms)[..i] + [ms[i].id];
        var owner := ms[i].user.row.adminId;
        if owner.None? || owner.value !in blocked {
          Send(ms[i]);
        }
      }
      assert IdsOf(ms)[..|ms|] == IdsOf(ms);
    }

    // Loads the users again, in some order, and pushes them.
    method SyncUsersByIds(ids: set<int>)
      requires ids <= db.users.Keys
      modifies this`view, this`told
      ensures forall k :: Held(view, k) ==
                if k in ids && !OwnerBlocked(db, db.users[k]) then Wanted(db, nodeTags, k) else old(Held(view, k))
      ensures forall k :: k in told <==> k in old(told) || (k in ids && !OwnerBlocked(db, db.users[k]))
    {
      var order := IterationOrder(ids);
      var loaded := RecallAll(order);
      SyncUsers(loaded);
      assert forall k :: Pushed(db, order, k) <==> k in ids && !OwnerBlocked(db, db.users[k]);
    }

    // ---- Administrators ----

    // The admin's own answer; its role is loaded on demand.
    method AdminIsBlocked(admin: int) returns (blocked: bool)
      requires admin in db.admins
      ensures blocked == AdminBlocked(db, admin)
    {
      blocked := AdminUsersSyncBlocked(db.admins[admin], RoleOf(db, db.admins[admin]));
    }

    method SyncAdminUsersForBlockTransition(admin: int, wasBlocked: bool) returns (count: nat)
      requires admin in db.admins
      modifies this`view, this`told
      ensures forall k :: Held(view, k) ==
                if Affected(db, k, admin, wasBlocked) then (if wasBlocked then Wanted(db, nodeTags, k) else None)
                  else old(Held(view, k))
      ensures forall k :: Affected(db, k, admin, wasBlocked) ==> Held(view, k) == Wanted(db, nodeTags, k)
      ensures forall k :: k in told <==> k in old(told) || Affected(db, k, admin, wasBlocked)
      ensures count > 0 <==> exists k :: Affected(db, k, admin, wasBlocked)
    {
      var isBlocked := AdminIsBlocked(admin);
      if wasBlocked == isBlocked {
        return 0;
      }
      var users := set k | k in db.users && OwnedBy(db, k, admin) && (wasBlocked || Live(db.users[k]));
      var ids := IterationOrder(users);
      if isBlocked {
        RemoveUsers(ids);
      } else {
        var loaded := RecallAll(ids);
        SyncUsers(loaded);
      }
      count := |ids|;
      assert count > 0 ==> ids[0] in ids && Affected(db, ids[0], admin, wasBlocked);
      assert forall k :: Affected(db, k, admin, wasBlocked) ==> k in ids;
    }

    // What the transition owes: whoever it is about ends as wanted, the admin's
    // other users want what they wanted, and nobody else moves.
    lemma TransitionSettles(before: Database, held: View, after: View, admin: int)
      requires before.users == db.users && before.groups == db.groups
      requires forall k :: Held(after, k) ==
                 if Affected(db, k, admin, AdminBlocked(before, admin))
                 then (if AdminBlocked(before, admin) then Wanted(db, nodeTags, k) else None) else Held(held, k)
      ensures forall k :: OwnedBy(db, k, admin) ==>
                 if Affected(db, k, admin, AdminBlocked(before, admin)) then MatchedUser(db, nodeTags, after, k)
                 else SameWish(before, db, k)
      ensures forall k :: OwnedBy(db, k, admin) && MatchedUser(before, nodeTags, held, k) ==>
                MatchedUser(db, nodeTags, after, k)
      ensures forall k :: !OwnedBy(db, k, admin) ==> Held(after, k) == Held(held, k)
    {
      forall k | OwnedBy(db, k, admin) && !Affected(db, k, admin, AdminBlocked(before, admin))
        ensures SameWish(before, db, k) && Wanted(before, nodeTags, k) == Wanted(db, nodeTags, k) {
        if AdminBlocked(before, admin) == AdminBlocked(db, admin) {
          WishDependsOn(before, db, k);
        }
      }
    }

    // Users of other admins keep their wish when one admin's row changes.
    lemma OthersKeepWish(before: Database, admin: int)
      requires before.users == db.users && before.groups == db.groups && before.roles == db.roles
      requires before.admins - {admin} == db.admins - {admin}
      ensures forall k :: !OwnedBy(db, k, admin) ==> SameWish(before, db, k)
    {
      forall k | !OwnedBy(db, k, admin) && k in db.users ensures SameWish(before, db, k) {
        var u := db.users[k];
        if u.adminId.Some? {
          var other := u.adminId.value;
          assert other in before.admins <==> other in before.admins - {admin};
          assert other in db.admins <==> other in db.admins - {admin};
          if other in db.admins {
            assert (before.admins - {admin})[other] == (db.admins - {admin})[other];
          }
        }
        WishDependsOn(before, db, k);
      }
    }

    // Writes one admin's row and runs the transition.
    method SetAdmin(id: int, admin: Admin, wasBlocked: bool) returns (count: nat)
      requires Logged() && id in db.admins && wasBlocked == AdminBlocked(db, id)
      modifies this`db, this`view, this`told, this`changes
      ensures old(InSync()) ==> InSync()
      ensures Recorded(old(db), old(view), old(changes)) && Logged()
      ensures db == old(db).(admins := old(db).admins[id := admin])
    {
      ghost var before, held := db, view;
      db, told := db.(admins := db.admins[id := admin]), {};
      count := SyncAdminUsersForBlockTransition(id, wasBlocked);
      TransitionSettles(before, held, view, id);
      SetAdminTellsAll(before, id);
      Record(before, held);
    }

    // Users not told about want what they wanted.
    lemma SetAdminTellsAll(before: Database, id: int)
      requires id in before.admins && id in db.admins && db == before.(admins := before.admins[id := db.admins[id]])
      requires forall k :: Affected(db, k, id, AdminBlocked(before, id)) ==> k in told
      ensures Honest(before, db, told)
    {
      assert before.admins - {id} == db.admins - {id};
      OthersKeepWish(before, id);
      forall k | k !in told && OwnedBy(db, k, id) ensures SameWish(before, db, k) {
        if AdminBlocked(before, id) == AdminBlocked(db, id) {
          WishDependsOn(before, db, k);
        }
      }
    }

    method ModifyAdmin(id: int, admin: Admin)
      requires Logged() && id in db.admins
      modifies this`db, this`view, this`told, this`changes
      ensures old(InSync()) ==> InSync()
      ensures Recorded(old(db), old(view), old(changes)) && Logged()
      ensures db == old(db).(admins := old(db).admins[id := admin])
    {
      var wasBlocked := AdminIsBlocked(id);
      var _ := SetAdmin(id, admin, wasBlocked);
    }

    // Flips every active admin over its limit; they were active, so not blocked.
    method LimitExceededAdmins() returns (limited: nat)
      requires Logged()
      modifies this`db, this`view, this`told, this`changes
      ensures Logged() && (old(InSync()) ==> InSync())
      ensures db == old(db).(admins := WithStatus(old(db).admins, ExceededIds(old(db).admins), AdminLimited))
      ensures limited == |ExceededIds(old(db).admins)|
      ensures AllOverdrawn(old(db).admins, db.admins)
    {
      ghost var before := db;
      var exceeded := ExceededIds(db.admins);
      var ids := IterationOrder(exceeded);
      ghost var done: set<int> := {};
      assert WithStatus(before.admins, done, AdminLimited) == before.admins;
      for i := 0 to |ids|
        invariant forall k :: k in done <==> k in ids[..i]
        invariant Logged() && (old(InSync()) ==> InSync())
        invariant db == before.(admins := WithStatus(before.admins, done, AdminLimited))
      {
        assert ids[i] in ids && ids[i] !in ids[..i];
        var _ := SetAdmin(ids[i], db.admins[ids[i]].(status := AdminLimited), false);
        WithStatusNext(before.admins, done, ids[i], AdminLimited);
        done := done + {ids[i]};
      }
      assert forall k :: k in done <==> k in ids[..|ids|];
      assert ids[..|ids|] == ids;
      assert done == exceeded;
      OrderCounts(ids, exceeded);
      LimitingOverdraws(before.admins);
      limited := |ids|;
    }

    // The reset passes "was blocked" for any admin that stops being limited,
    // whether or not its role blocked its users; the extra push changes nothing.
    method ResetAdminUsage(id: int)
      requires Logged() && id in db.admins
      modifies this`db, this`view, this`told, this`changes
      ensures old(InSync()) ==> InSync()
      ensures Recorded(old(db), old(view), old(changes)) && Logged()
      ensures db == WithUsageReset(old(db), id)
      ensures var was, now := old(db).admins[id], db.admins[id];
        && now.usedTraffic == 0 && now.roleId == was.roleId && now.dataLimit == was.dataLimit
        && now.status == if was.status.AdminLimited? && was.usedTraffic != 0 then AdminActive else was.status
    {
      ghost var before, held := db, view;
      var admin := db.admins[id];
      told := {};
      if admin.usedTraffic == 0 {
        Record(before, held);
        return;
      }
      var status := if admin.status == AdminLimited then AdminActive else admin.status;
      db := db.(admins := db.admins[id := admin.(usedTraffic := 0, status := status)]);
      if admin.status == AdminLimited && status == AdminActive {
        var _ := SyncAdminUsersForBlockTransition(id, true);
      }
      SetAdminTellsAll(before, id);
      Record(before, held);
    }

    method AdminsAreBlocked(ids: set<int>) returns (blocked: map<int, bool>)
      requires ids <= db.admins.Keys
      ensures blocked == map id | id in ids :: AdminBlocked(db, id)
    {
      blocked := map id | id in ids :: AdminUsersSyncBlocked(db.admins[id], RoleOf(db, db.admins[id]));
    }

    // The transitions of several admins, one by one, after their common change.
    method SyncTransitions(order: seq<int>, wasBlocked: map<int, bool>, ghost before: Database)
      requires told == {}
      requires forall a :: a in order ==> a in db.admins && a in wasBlocked && wasBlocked[a] == AdminBlocked(before, a)
      modifies this`view, this`told
      ensures TellsAll(before, db, (set a | a in order), told)
      ensures Delivered(db, nodeTags, old(view), view, told)
    {
      ghost var held, done := view, {};
      for i := 0 to |order|
        invariant forall a :: a in done <==> a in order[..i]
        invariant TellsAll(before, db, done, told)
        invariant Delivered(db, nodeTags, held, view, told)
      {
        assert order[i] in order;
        var _ := SyncAdminUsersForBlockTransition(order[i], wasBlocked[order[i]]);
        assert TellsAll(before, db, done + {order[i]}, told);
        done := done + {order[i]};
      }
      assert order[..|order|] == order;
      assert forall a :: a in done <==> a in order;
    }

    // All statuses change in one commit; the transitions follow one by one.
    method BulkSetAdminsDisabled(ids: set<int>, disabled: bool)
      requires Logged() && ids <= db.admins.Keys
      modifies this`db, this`view, this`told, this`changes
      ensures old(InSync()) ==> InSync()
      ensures Recorded(old(db), old(view), old(changes)) && Logged()
      ensures db == old(db).(admins := WithStatus(old(db).admins, ids, if disabled then AdminDisabled else AdminActive))
      ensures AllSwitched(old(db).admins, db.admins, ids, disabled)
    {
      ghost var before, held := db, view;
      var status := if disabled then AdminDisabled else AdminActive;
      var changed := set id | id in ids && db.admins[id].status != status;
      var order := IterationOrder(changed);
      var wasBlocked := AdminsAreBlocked(changed);
      db, told := db.(admins := WithStatus(db.admins, changed, status)), {};
      SyncTransitions(order, wasBlocked, before);
      assert (set a | a in order) == changed;
      OnlyChangedStatusesMatter(before, ids, changed, status);
      WithStatusSwitches(before.admins, ids, disabled);
      BulkTellsAll(before, changed);
      Record(before, held);
    }

    lemma OnlyChangedStatusesMatter(before: Database, ids: set<int>, changed: set<int>, status: AdminStatus)
      requires db == before.(admins := WithStatus(before.admins, changed, status))
      requires forall a :: a in changed <==> a in ids && a in before.admins && before.admins[a].status != status
      ensures db.admins == WithStatus(before.admins, ids, status)
      ensures forall a :: a !in changed ==> AdminBlocked(before, a) == AdminBlocked(db, a)
    {
      forall a | a in before.admins ensures db.admins[a] == WithStatus(before.admins, ids, status)[a] {
        assert before.admins[a].status == status ==> before.admins[a].(status := status) == before.admins[a];
      }
    }

    lemma BulkTellsAll(before: Database, done: set<int>)
      requires before.users == db.users && before.groups == db.groups && before.roles == db.roles
      requires forall a :: a !in done ==> AdminBlocked(before, a) == AdminBlocked(db, a)
      requires TellsAll(before, db, done, told)
      ensures Honest(before, db, told)
    {
      forall k | k !in told ensures SameWish(before, db, k) {
        if k in db.users && OwnerBlocked(before, db.users[k]) == OwnerBlocked(db, db.users[k]) {
          WishDependsOn(before, db, k);
        } else if k in db.users {
          assert OwnedBy(db, k, db.users[k].adminId.value);
        }
      }
    }

    // ---- Users and groups ----

    // The users in `touched` were told about, or hold nothing while blocked.
    lemma UsersTellAll(before: Database, touched: set<int>)
      requires db == before.(users := db.users)
      requires forall k :: k !in touched ==> (k in before.users <==> k in db.users)
      requires forall k :: k !in touched && k in db.users ==> before.users[k] == db.users[k]
      requires forall k ::
                k in touched && k in db.users && k in before.users ==> before.users[k].adminId == db.users[k].adminId
      requires forall k :: k in touched && (k !in db.users || !OwnerBlocked(db, db.users[k])) ==> k in told
      ensures Honest(before, db, told)
    {
      forall k | k !in touched && k in db.users ensures SameWish(before, db, k) {
        WishDependsOn(before, db, k);
      }
    }

    method CreateUser(id: int, row: User)
      requires Logged() && id !in db.users && 0 !in db.admins
      modifies this`db, this`view, this`told, this`changes
      ensures old(InSync()) ==> InSync()
      ensures Recorded(old(db), old(view), old(changes)) && Logged()
      ensures db == old(db).(users := old(db).users[id := row])
    {
      ghost var before, held := db, view;
      db, told := db.(users := db.users[id := row]), {};
      var loaded := Recall(id);
      SyncUser(loaded);
      UsersTellAll(before, {id});
      Record(before, held);
    }

    method UpdateUser(id: int, status: UserStatus, settings: ProxySettings, groups: set<int>, limits: Limits)
      requires Logged() && id in db.users && 0 !in db.admins
      modifies this`db, this`view, this`told, this`changes
      ensures old(InSync()) ==> InSync()
      ensures Recorded(old(db), old(view), old(changes)) && Logged()
      ensures db == old(db).(users := old(db).users[id :=
                      old(db).users[id].(status := status, settings := settings, groups := groups, limits := limits)])
    {
      ghost var before, held := db, view;
      db := db.(users :=
        db.users[id := db.users[id].(status := status, settings := settings, groups := groups, limits := limits)]);
      told := {};
      var loaded := Recall(id);
      SyncUser(loaded);
      UsersTellAll(before, {id});
      Record(before, held);
    }

    // Only the users whose status changes are written and pushed.
    method BulkSetUsersDisabled(ids: set<int>, disabled: bool, now: int)
      requires Logged() && ids <= db.users.Keys
      modifies this`db, this`view, this`told, this`changes
      ensures old(InSync()) ==> InSync()
      ensures Recorded(old(db), old(view), old(changes)) && Logged()
      ensures db == old(db).(users := WithToggled(old(db).users, ids, disabled, now))
      ensures AllToggled(old(db).users, db.users, ids, disabled, now)
    {
      ghost var before, held := db, view;
      var changed := set id | id in ids && db.users[id].status != Toggled(db.users[id], disabled, now);
      db, told := db.(users := WithToggled(db.users, changed, disabled, now)), {};
      OnlyChangesMatter(before.users, ids, disabled, now);
      WithToggledToggles(before.users, ids, disabled, now);
      if changed != {} {
        SyncUsersByIds(changed);
      }
      UsersTellAll(before, changed);
      Record(before, held);
    }

    method DeleteUsers(ids: set<int>)
      requires Logged() && ids <= db.users.Keys
      modifies this`db, this`view, this`told, this`changes
      ensures old(InSync()) ==> InSync()
      ensures Recorded(old(db), old(view), old(changes)) && Logged()
      ensures db == old(db).(users := old(db).users - ids)
    {
      ghost var before, held := db, view;
      db, told := db.(users := db.users - ids), {};
      var order := IterationOrder(ids);
      RemoveUsers(order);
      UsersTellAll(before, ids);
      Record(before, held);
    }

    // The members of a group are pushed after it changes. The full resync
    // that follows on nodes with state is a `Reconnect` here.
    method SetGroup(id: int, group: Group)
      requires Logged()
      modifies this`db, this`view, this`told, this`changes
      ensures old(InSync()) ==> InSync()
      ensures Recorded(old(db), old(view), old(changes)) && Logged()
      ensures db == old(db).(groups := old(db).groups[id := group])
    {
      ghost var before, held := db, view;
      db, told := db.(groups := db.groups[id := group]), {};
      var members := set k | k in db.users && id in db.users[k].groups;
      SyncUsersByIds(members);
      GroupsTellAll(before, members);
      Record(before, held);
    }

    // A change of groups moves only users that changed themselves or are in a
    // group that did; the node was told about them.
    lemma GroupsTellAll(before: Database, touched: set<int>)
      requires before.admins == db.admins && before.roles == db.roles && before.users.Keys == db.users.Keys
      requires forall k :: k in db.users ==> before.users[k].adminId == db.users[k].adminId
      requires forall k :: k in db.users && k !in touched ==> before.users[k] == db.users[k]
      requires forall k, g :: k in db.users && k !in touched && g in db.users[k].groups ==>
                 (g in db.groups <==> g in before.groups) && (g in db.groups ==> before.groups[g] == db.groups[g])
      requires forall k :: k in touched && k in db.users && !OwnerBlocked(db, db.users[k]) ==> k in told
      ensures Honest(before, db, told)
    {
      forall k | k in db.users && k !in touched ensures SameWish(before, db, k) {
        WishDependsOn(before, db, k);
      }
    }

    // The former members are looked up again by name; a group without members
    // looks up every user.
    method RemoveGroup(id: int)
      requires Logged()
      modifies this`db, this`view, this`told, this`changes
      ensures old(InSync()) ==> InSync()
      ensures Recorded(old(db), old(view), old(changes)) && Logged()
      ensures db == WithoutGroups(old(db), {id})
      ensures GroupResync.LosesGroups(old(db), {id}, db)
    {
      ghost var before, held := db, view;
      var members := set k | k in db.users && id in db.users[k].groups;
      db, told := WithoutGroups(db, {id}), {};
      SyncUsersByIds(if members == {} then db.users.Keys else members);
      RemovalTellsAll(before, id);
      GroupResync.WithoutGroupsLoses(before, {id});
      Record(before, held);
    }

    lemma RemovalTellsAll(before: Database, id: int)
      requires db == WithoutGroups(before, {id})
      requires forall k :: k in db.users && id in before.users[k].groups && !OwnerBlocked(db, db.users[k]) ==> k in told
      ensures Honest(before, db, told)
    {
      forall k | k in db.users && id !in before.users[k].groups ensures db.users[k] == before.users[k] {
        assert before.users[k].groups - {id} == before.users[k].groups;
      }
      GroupsTellAll(before, set k | k in db.users && id in before.users[k].groups);
    }

    // ---- The full query ----

    // One row of the full query: the granted tags within the node's own, in one
    // text column. An empty list of tags means no restriction.
    method CoreUsersRow(u: User) returns (tags: seq<Tag>)
      ensures (set t | t in tags) == Columned(if runTags == {} then UserTags(db, u) else UserTags(db, u) * runTags)
    {
      var granted := if runTags == {} then UserTags(db, u) else UserTags(db, u) * runTags;
      var order := IterationOrder(granted);
      tags := ReadColumn(Join(order));
      ColumnedOf(order, granted);
    }

    // The users of the full query, as the node takes them.
    method CoreUsers() returns (users: View)
      ensures forall k :: Held(users, k) == Queried(db, runTags, nodeTags, k)
      ensures forall k ::
                k in db.users && db.users[k].status in {UserDisabled, UserLimited, UserExpired} ==> k !in users
      ensures GroupResync.CleanTags(db) ==> forall k :: HeldByRight(db, nodeTags, users, k)
    {
      var order := IterationOrder(db.users.Keys);
      users := map[];
      for i := 0 to |order|
        invariant forall k :: Held(users, k) == if k in order[..i] then Queried(db, runTags, nodeTags, k) else None
      {
        var u := db.users[order[i]];
        assert order[..i+1] == order[..i] + [order[i]] && order[i] !in order[..i];
        if Live(u) && CoreUsersAdmitsUser(db, u) {
          var tags := CoreUsersRow(u);
          if tags != [] {
            users := Received(nodeTags, users, order[i], u.settings, set t | t in tags);
          }
        }
      }
      assert order[..|order|] == order;
      QueriedByRight(db, runTags, stateTags, users);
    }

    // Replaces everything the node holds: on a reconnect, or in a full resync.
    method Reconnect()
      modifies this`view, this`origin, this`base, this`changes
      ensures forall k :: Held(view, k) == Queried(db, runTags, nodeTags, k)
      ensures forall k :: k in db.users && db.users[k].status in {UserDisabled, UserLimited, UserExpired} ==> k !in view
      ensures GroupResync.CleanTags(db) ==> forall k :: HeldByRight(db, nodeTags, view, k)
      ensures Logged() && origin == db && base == view && changes == []
      ensures IsStateless(view, stateTags, GroupResync.FullSet(db, runTags))
      ensures GroupResync.ColumnSafe(db, runTags) ==> InSync()
      ensures CleanState(stateTags) ==> (InSync() <==> GroupResync.ColumnSafe(db, runTags))
    {
      view := CoreUsers();
      origin, base, changes := db, view, [];
      QueriedMatchesIff(db, runTags, stateTags, view);
    }

    // ---- Changes that reach no node ----

    // The user's traffic moves from the old owner's counter to the new one's; a
    // user without an owner brings none. The node is not told, so it still
    // matches only if the two owners agree on blocking, or the node could not
    // serve the user anyway.
    method SetOwner(id: int, admin: int)
      requires Logged() && id in db.users && admin in db.admins
      modifies this`db, this`changes
      ensures db == WithOwner(old(db), id, admin)
      ensures OwnerChanged(old(db), db, id, admin)
      ensures changes == old(changes) + [Change(db, {})] && Logged()
      ensures old(InSync()) ==> (InSync() <==> OwnerHarmless(old(db), nodeTags, id, admin))
    {
      ghost var before := db;
      var row := db.users[id];
      var admins := db.admins;
      db := Reassigned(db, {id}, Some(admin));
      if row.adminId.Some? && row.adminId.value in admins && row.adminId.value != admin {
        var traffic: int := row.limits.usedTraffic;
        admins := Charged(admins, row.adminId.value, 0 - traffic);
        admins := Charged(admins, admin, traffic);
        db := db.(admins := admins);
      }
      ChargesMove(before, id, admin);
      WithOwnerChangesOwner(before, id, admin);
      RecordSilently();
      WithOwnerMatchesIff(before, nodeTags, view, id, admin);
    }

    // Users of the admins stay, without an owner. The node is not told, so it
    // still matches only if none of them was kept off it by its owner.
    method RemoveAdmins(ids: set<int>)
      requires Logged()
      modifies this`db, this`changes
      ensures db == WithoutAdmins(old(db), ids)
      ensures AdminsGone(old(db), ids, db) && db.groups == old(db).groups && db.roles == old(db).roles
      ensures changes == old(changes) + [Change(db, {})] && Logged()
      ensures forall k, a :: a in ids && k in db.users ==> db.users[k].adminId != Some(a)
      ensures forall k ::
                k in db.users ==> (db.users[k] == old(db).users[k] <==> !exists a :: a in ids && OwnedBy(old(db), k, a))
      ensures old(InSync()) ==> (InSync() <==> RemovalHarmless(old(db), nodeTags, ids))
    {
      ghost var before := db;
      var owned := UsersOf(db, ids);
      db := Reassigned(db, owned, None);
      db := db.(admins := db.admins - ids);
      forall k ensures k in owned <==> exists a :: a in ids && OwnedBy(before, k, a) {
        if k in owned {
          assert OwnedBy(before, k, before.users[k].adminId.value);
        }
      }
      RecordSilently();
      WithoutAdminsAreGone(before, ids);
      if Matched(before, nodeTags, view) {
        WithoutAdminsMatchesIff(before, nodeTags, view, ids);
      }
    }

    ghost method RecordSilently()
      requires forall k :: Held(view, k) == LastSent(nodeTags, base, changes, k)
      modifies this`changes
      ensures changes == old(changes) + [Change(db, {})] && Logged()
    {
      var was := changes;
      changes := changes + [Change(db, {})];
      assert changes[..|was|] == was;
    }

    // ---- Whole runs ----

    // A change that is pushed; a request for something that does not exist is refused.
    method HandlePushed(e: Event)
      requires Logged() && 0 !in db.admins && !Silent(e) && !e.Reconnect?
      modifies this`db, this`view, this`told, this`changes
      ensures db == AfterEvent(old(db), e) && Logged() && 0 !in db.admins
      ensures old(InSync()) ==> InSync()
    {
      match e
      case CreateUser(id, row) => if id !in db.users { CreateUser(id, row); }
      case UpdateUser(id, status, settings, groups, limits) =>
        if id in db.users { UpdateUser(id, status, settings, groups, limits); }
      case BulkSetUsersDisabled(ids, disabled, now) =>
        if ids <= db.users.Keys { BulkSetUsersDisabled(ids, disabled, now); }
      case DeleteUsers(ids) => if ids <= db.users.Keys { DeleteUsers(ids); }
      case ModifyAdmin(id, admin) => if id in db.admins { ModifyAdmin(id, admin); }
      case BulkSetAdminsDisabled(ids, disabled) => if ids <= db.admins.Keys { BulkSetAdminsDisabled(ids, disabled); }
      case ResetAdminUsage(id) => if id in db.admins { ResetAdminUsage(id); }
      case LimitAdmins => var _ := LimitExceededAdmins();
      case SetGroup(id, group) => SetGroup(id, group);
      case RemoveGroup(id) => RemoveGroup(id);
    }

    // One event. A matching node still matches exactly when the event is safe.
    method Handle(e: Event)
      requires Logged() && 0 !in db.admins
      modifies this
      ensures db == AfterEvent(old(db), e) && Logged() && 0 !in db.admins
      ensures (old(InSync()) || e.Reconnect?) && SafeEvent(old(db), runTags, nodeTags, e) ==> InSync()
      ensures (if e.Reconnect? then CleanState(stateTags) else old(InSync())) && InSync() ==>
                SafeEvent(old(db), runTags, nodeTags, e)
    {
      match e
      case SetOwner(id, admin) => if id in db.users && admin in db.admins { SetOwner(id, admin); }
      case RemoveAdmins(ids) => if Removable(db, ids) { RemoveAdmins(ids); }
      case Reconnect => Reconnect();
      case _ => HandlePushed(e);
    }

    // However requests are mixed, the node ends up as the tables want it if it
    // was or reconnected on the way, and every event since was safe. In any case
    // it holds of every user what it was last sent.
    method Run(events: seq<Event>)
      requires Logged() && 0 !in db.admins
      modifies this
      ensures db == AfterEvents(old(db), events) && Logged()
      ensures StaysMatched(old(db), runTags, nodeTags, old(InSync()), events) ==> InSync()
      ensures InSync() <==> forall k :: HeldByRight(db, nodeTags, view, k)
    {
      for i := 0 to |events|
        invariant db == AfterEvents(old(db), events[..i]) && Logged() && 0 !in db.admins
        invariant StaysMatched(old(db), runTags, nodeTags, old(InSync()), events[..i]) ==> InSync()
      {
        assert events[..i+1][..i] == events[..i];
        Handle(events[i]);
      }
      assert events[..|events|] == events;
      InSyncIsByRight();
    }

    lemma InSyncIsByRight()
      ensures InSync() <==> forall k :: HeldByRight(db, nodeTags, view, k)
    {
      forall k ensures MatchedUser(db, nodeTags, view, k) <==> HeldByRight(db, nodeTags, view, k) {
        MatchedIsByRight(db, nodeTags, view, k);
      }
    }

    // The whole node after the logged changes, whatever it kept by itself: without
    // its inbounds that hold state it is the view, and with them it is as wanted
    // if nobody's wish has drifted and no user has lost such an inbound since.
    lemma WholeNode(was: GroupResync.Served, now: GroupResync.Served)
      requires Logged() && IsStateless(base, stateTags, was) && Reaches(runTags, stateTags, was, changes, now)
      ensures IsStateless(view, stateTags, now)
      ensures (stateTags <= runTags && NothingDrifted(db, runTags, was, changes) &&
                 NothingStatefulLost(db, runTags, stateTags, was, changes)) ==>
                GroupResync.MatchedNode(db, runTags, now)
    {
      forall id ensures TagsOf(Held(view, id)) == GroupResync.Serves(now, id) - stateTags {
        AlwaysBetween(runTags, stateTags, was, changes, now, id);
        LastSentTags(runTags, stateTags, base, was, changes, id);
      }
      if stateTags <= runTags {
        RunSettlesIff(db, runTags, stateTags, was, changes);
      }
    }
  }

  // ---- The full query's answer ----

  // The user as the full query gives it to the node.
  function Queried(db: Database, runTags: set<Tag>, nodeTags: set<Tag>, id: int): Option<NodeUser> {
    if id !in db.users then None
    else Kept(nodeTags, db.users[id].settings, Columned(GroupResync.QueryRow(db, runTags, id)))
  }

  // Inbounds with state are validated not to hold a comma.
  ghost predicate CleanState(stateTags: set<Tag>) {
    forall t :: t in stateTags ==> Clean(t)
  }

  // The full query gives what is wanted exactly when what every user is to have
  // fits the column.
  lemma QueriedMatchesIff(db: Database, runTags: set<Tag>, stateTags: set<Tag>, view: View)
    requires forall k :: Held(view, k) == Queried(db, runTags, runTags - stateTags, k)
    ensures GroupResync.ColumnSafe(db, runTags) ==> Matched(db, runTags - stateTags, view)
    ensures CleanState(stateTags) ==>
              (Matched(db, runTags - stateTags, view) <==> GroupResync.ColumnSafe(db, runTags))
    ensures IsStateless(view, stateTags, GroupResync.FullSet(db, runTags))
  {
    var nodeTags := runTags - stateTags;
    forall k
      ensures FitsColumn(Desired(db, k) * runTags) ==> MatchedUser(db, nodeTags, view, k)
      ensures CleanState(stateTags) && MatchedUser(db, nodeTags, view, k) ==> FitsColumn(Desired(db, k) * runTags)
    {
      var wanted := Desired(db, k) * runTags;
      assert Desired(db, k) * nodeTags == wanted * nodeTags;
      if FitsColumn(wanted) {
        FittingIsKept(wanted);
      } else {
        BrokenUpIsMissed(wanted, nodeTags, stateTags);
      }
    }
    forall id ensures TagsOf(Held(view, id)) == GroupResync.Serves(GroupResync.FullSet(db, runTags), id) - stateTags {
      var row := Columned(GroupResync.QueryRow(db, runTags, id));
      assert row * nodeTags == row * runTags - stateTags;
    }
  }

  lemma QueriedByRight(db: Database, runTags: set<Tag>, stateTags: set<Tag>, view: View)
    requires forall k :: Held(view, k) == Queried(db, runTags, runTags - stateTags, k)
    ensures forall k :: k in db.users && db.users[k].status in {UserDisabled, UserLimited, UserExpired} ==> k !in view
    ensures GroupResync.CleanTags(db) ==> forall k :: HeldByRight(db, runTags - stateTags, view, k)
  {
    forall k | k in db.users && db.users[k].status in {UserDisabled, UserLimited, UserExpired} ensures k !in view {
      assert Held(view, k) == Queried(db, runTags, runTags - stateTags, k);
      assert GroupResync.QueryRow(db, runTags, k) == {};
    }
    if GroupResync.CleanTags(db) {
      GroupResync.CleanTagsAreSafe(db, runTags);
      QueriedMatchesIff(db, runTags, stateTags, view);
      forall k ensures HeldByRight(db, runTags - stateTags, view, k) {
        assert MatchedUser(db, runTags - stateTags, view, k);
        MatchedIsByRight(db, runTags - stateTags, view, k);
      }
    }
  }

  lemma BrokenUpIsMissed(wanted: set<Tag>, nodeTags: set<Tag>, stateTags: set<Tag>)
    requires !FitsColumn(wanted) && wanted <= nodeTags + stateTags
    ensures CleanState(stateTags) ==> Columned(wanted) * nodeTags != wanted * nodeTags
  {
    if CleanState(stateTags) {
      var t :| t in wanted && (',' in t || wanted == {t} == {""});
      assert t in wanted * nodeTags && t !in Columned(wanted);
    }
  }

  // ---- Requests ----

  // The panel's owner role, whose admins cannot be deleted.
  const OWNER_ROLE := 1

  predicate Removable(db: Database, ids: set<int>) {
    ids <= db.admins.Keys && forall a :: a in ids ==> db.admins[a].roleId != OWNER_ROLE
  }

  // The panel's owner is not deleted, alone or with others.
  lemma OwnerIsKept(db: Database, ids: set<int>, owner: int)
    requires owner in ids && owner in db.admins && db.admins[owner].roleId == 1
    ensures AfterEvent(db, RemoveAdmins(ids)) == db
  {
  }

  function WithUsageReset(db: Database, id: int): Database
    requires id in db.admins
  {
    var admin := db.admins[id];
    if admin.usedTraffic == 0 then db else
    db.(admins := db.admins[id := admin.(usedTraffic := 0,
      status := if admin.status == AdminLimited then AdminActive else admin.status)])
  }

  // The tables after an event; a refused request changes nothing.
  function AfterEvent(db: Database, e: Event): Database {
    match e
    case CreateUser(id, row) => if id in db.users then db else db.(users := db.users[id := row])
    case UpdateUser(id, status, settings, groups, limits) =>
      if id !in db.users then db else
      db.(users := db.users[id :=
        db.users[id].(status := status, settings := settings, groups := groups, limits := limits)])
    case BulkSetUsersDisabled(ids, disabled, now) =>
      if ids <= db.users.Keys then db.(users := WithToggled(db.users, ids, disabled, now)) else db
    case DeleteUsers(ids) => if ids <= db.users.Keys then db.(users := db.users - ids) else db
    case ModifyAdmin(id, admin) => if id in db.admins then db.(admins := db.admins[id := admin]) else db
    case BulkSetAdminsDisabled(ids, disabled) =>
      if ids <= db.admins.Keys
      then db.(admins := WithStatus(db.admins, ids, if disabled then AdminDisabled else AdminActive)) else db
    case ResetAdminUsage(id) => if id in db.admins then WithUsageReset(db, id) else db
    case LimitAdmins => db.(admins := WithStatus(db.admins, ExceededIds(db.admins), AdminLimited))
    case SetGroup(id, group) => db.(groups := db.groups[id := group])
    case RemoveGroup(id) => WithoutGroups(db, {id})
    case SetOwner(id, admin) => if id in db.users && admin in db.admins then WithOwner(db, id, admin) else db
    case RemoveAdmins(ids) => if Removable(db, ids) then WithoutAdmins(db, ids) else db
    case Reconnect => db
  }

  // What a granted request leaves in the tables, by what it changes.
  ghost predicate TakesEffect(before: Database, e: Event, after: Database) {
    match e
    case CreateUser(id, row) => id !in before.users ==> after == before.(users := before.users[id := row])
    case UpdateUser(id, status, settings, groups, limits) =>
      id in before.users ==>
        after == before.(users := before.users[id := User(before.users[id].adminId, status, settings, groups, limits)])
    case BulkSetUsersDisabled(ids, disabled, now) =>
      ids <= before.users.Keys ==> AllToggled(before.users, after.users, ids, disabled, now)
    case DeleteUsers(ids) => ids <= before.users.Keys ==> after == before.(users := before.users - ids)
    case ModifyAdmin(id, admin) => id in before.admins ==> after == before.(admins := before.admins[id := admin])
    case BulkSetAdminsDisabled(ids, disabled) =>
      ids <= before.admins.Keys ==> AllSwitched(before.admins, after.admins, ids, disabled)
    case ResetAdminUsage(id) => id in before.admins ==> id in after.admins && after.admins[id].usedTraffic == 0
    case LimitAdmins => AllOverdrawn(before.admins, after.admins)
    case SetGroup(id, group) => after == before.(groups := before.groups[id := group])
    case RemoveGroup(id) => GroupResync.LosesGroups(before, {id}, after)
    case SetOwner(id, owner) => id in before.users && owner in before.admins ==> OwnerChanged(before, after, id, owner)
    case RemoveAdmins(ids) =>
      (forall a :: a in ids ==> a in before.admins && before.admins[a].roleId != 1) ==> AdminsGone(before, ids, after)
    case Reconnect => after == before
  }

  // The users of the admins stay, without an owner.
  ghost predicate AdminsGone(before: Database, ids: set<int>, after: Database) {
    && after.admins == before.admins - ids && after.users.Keys == before.users.Keys
    && forall k :: k in before.users ==> after.users[k] == Freed(before.users[k], ids)
  }

  function Freed(u: User, ids: set<int>): User {
    match u.adminId
    case None => u
    case Some(a) => if a in ids then User(None, u.status, u.settings, u.groups, u.limits) else u
  }

  lemma WithoutAdminsAreGone(db: Database, ids: set<int>)
    ensures AdminsGone(db, ids, WithoutAdmins(db, ids))
  {
  }

  lemma EventTakesEffect(db: Database, e: Event)
    ensures TakesEffect(db, e, AfterEvent(db, e))
  {
    match e
    case BulkSetUsersDisabled(ids, disabled, now) => WithToggledToggles(db.users, ids, disabled, now);
    case BulkSetAdminsDisabled(ids, disabled) => WithStatusSwitches(db.admins, ids, disabled);
    case LimitAdmins => LimitingOverdraws(db.admins);
    case RemoveGroup(id) => GroupResync.WithoutGroupsLoses(db, {id});
    case SetOwner(id, owner) => if id in db.users && owner in db.admins { WithOwnerChangesOwner(db, id, owner); }
    case RemoveAdmins(ids) =>
      WithoutAdminsAreGone(db, ids);
      assert (forall a :: a in ids ==> a in db.admins && db.admins[a].roleId != 1) ==> Removable(db, ids);
    case _ =>
  }

  function AfterEvents(db: Database, events: seq<Event>): Database {
    if events == [] then db else AfterEvent(AfterEvents(db, events[..|events|-1]), events[|events|-1])
  }

  // The new owner blocks its users as the old one does, or the node could not
  // serve the user.
  predicate OwnerHarmless(db: Database, nodeTags: set<Tag>, id: int, admin: int)
    requires id in db.users
  {
    Servable(db, nodeTags, id) ==> OwnerBlocked(db, db.users[id]) == AdminBlocked(db, admin)
  }

  // None of the users that lose their owner was kept off the node by it.
  ghost predicate RemovalHarmless(db: Database, nodeTags: set<Tag>, ids: set<int>) {
    forall k :: k in UsersOf(db, ids) && Servable(db, nodeTags, k) ==> !OwnerBlocked(db, db.users[k])
  }

  // Pushed changes are always safe.
  ghost predicate SafeEvent(db: Database, runTags: set<Tag>, nodeTags: set<Tag>, e: Event) {
    match e
    case SetOwner(id, admin) => id in db.users && admin in db.admins ==> OwnerHarmless(db, nodeTags, id, admin)
    case RemoveAdmins(ids) => Removable(db, ids) ==> RemovalHarmless(db, nodeTags, ids)
    case Reconnect => GroupResync.ColumnSafe(db, runTags)
    case _ => true
  }

  // A safe full replacement settles the node, an unsafe event may unsettle it.
  ghost predicate StaysMatched(db: Database, runTags: set<Tag>, nodeTags: set<Tag>, matched: bool, events: seq<Event>) {
    if events == [] then matched else
    var front, last := events[..|events|-1], events[|events|-1];
    && (last.Reconnect? || StaysMatched(db, runTags, nodeTags, matched, front))
    && SafeEvent(AfterEvents(db, front), runTags, nodeTags, last)
  }

  function Charged(admins: map<int, Admin>, id: int, traffic: int): map<int, Admin>
    requires id in admins
  {
    admins[id := admins[id].(usedTraffic := admins[id].usedTraffic + traffic)]
  }

  // What a change of owner adds to an admin's counter.
  function Moved(db: Database, id: int, newOwner: int, admin: int): int
    requires id in db.users
  {
    var row := db.users[id];
    if row.adminId.None? || row.adminId.value !in db.admins || row.adminId.value == newOwner then 0
    else if admin == newOwner then row.limits.usedTraffic
    else if row.adminId == Some(admin) then 0 - row.limits.usedTraffic
    else 0
  }

  // The user has its new owner, who gains the traffic the old one loses if there
  // was another; nothing else changes.
  ghost predicate OwnerChanged(before: Database, after: Database, id: int, owner: int)
    requires id in before.users
  {
    var from, traffic := before.users[id].adminId, before.users[id].limits.usedTraffic;
    && after.roles == before.roles && after.groups == before.groups && after.admins.Keys == before.admins.Keys
    && after.users == before.users[id := before.users[id].(adminId := Some(owner))]
    && forall a :: a in before.admins ==>
         after.admins[a] == before.admins[a].(usedTraffic := before.admins[a].usedTraffic +
           (if from == None || from == Some(owner) || from.value !in before.admins then 0
            else if from == Some(a) then 0 - traffic as int else if a == owner then traffic else 0))
  }

  lemma ChargesMove(db: Database, id: int, owner: int)
    requires id in db.users && owner in db.admins
    ensures var row := db.users[id]; var traffic: int := row.limits.usedTraffic;
      WithOwner(db, id, owner).admins ==
        if row.adminId.Some? && row.adminId.value in db.admins && row.adminId.value != owner
        then Charged(Charged(db.admins, row.adminId.value, 0 - traffic), owner, traffic) else db.admins
  {
    var row := db.users[id];
    if row.adminId.Some? && row.adminId.value in db.admins && row.adminId.value != owner {
      var traffic: int := row.limits.usedTraffic;
      assert WithOwner(db, id, owner).admins ==
        Charged(Charged(db.admins, row.adminId.value, 0 - traffic), owner, traffic);
    } else {
      assert WithOwner(db, id, owner).admins == db.admins;
    }
  }

  lemma WithOwnerChangesOwner(db: Database, id: int, owner: int)
    requires id in db.users && owner in db.admins
    ensures OwnerChanged(db, WithOwner(db, id, owner), id, owner)
  {
    assert WithOwner(db, id, owner).users == db.users[id := db.users[id].(adminId := Some(owner))];
  }

  function WithOwner(db: Database, id: int, admin: int): Database
    requires id in db.users
  {
    Reassigned(db, {id}, Some(admin)).(admins := map a | a in db.admins ::
      db.admins[a].(usedTraffic := db.admins[a].usedTraffic + Moved(db, id, admin, a)))
  }

  // No wish depends on an admin's traffic.
  lemma CountersDoNotMatter(db: Database, other: Database, nodeTags: set<Tag>, view: View)
    requires db.users == other.users && db.groups == other.groups && db.roles == other.roles &&
              db.admins.Keys == other.admins.Keys
    requires forall a :: a in db.admins ==>
              db.admins[a].status == other.admins[a].status && db.admins[a].roleId == other.admins[a].roleId
    ensures Matched(db, nodeTags, view) <==> Matched(other, nodeTags, view)
  {
    forall id ensures MatchedUser(db, nodeTags, view, id) == MatchedUser(other, nodeTags, view, id) {
      if id in db.users {
        WishDependsOn(db, other, id);
      }
    }
  }

  // A group can be given clean tags only.
  ghost predicate CleanEvent(e: Event) {
    e.SetGroup? ==> GroupResync.CleanGroup(e.group)
  }

  lemma EventKeepsClean(db: Database, e: Event)
    requires GroupResync.CleanTags(db) && CleanEvent(e)
    ensures GroupResync.CleanTags(AfterEvent(db, e))
  {
    assert !e.SetGroup? ==> AfterEvent(db, e).groups.Items <= db.groups.Items;
  }

  lemma {:induction false} EventsKeepClean(db: Database, events: seq<Event>)
    requires GroupResync.CleanTags(db) && forall e :: e in events ==> CleanEvent(e)
    ensures GroupResync.CleanTags(AfterEvents(db, events))
  {
    if events != [] {
      assert events[|events|-1] in events && forall e :: e in events[..|events|-1] ==> e in events;
      EventsKeepClean(db, events[..|events|-1]);
      EventKeepsClean(AfterEvents(db, events[..|events|-1]), events[|events|-1]);
    }
  }

  // Where no tag holds a comma and no owner changes, any mix of events keeps a
  // matching node matching, and a reconnect makes any node match.
  lemma {:induction false} CleanRunsStayMatched(db: Database, runTags: set<Tag>, nodeTags: set<Tag>, matched: bool,
                                                events: seq<Event>)
    requires GroupResync.CleanTags(db) && forall e :: e in events ==> CleanEvent(e) && !Silent(e)
    ensures StaysMatched(db, runTags, nodeTags, matched, events) <==> (matched || Event.Reconnect in events)
  {
    if events != [] {
      var front, last := events[..|events|-1], events[|events|-1];
      assert forall e :: e in events <==> e in front || e == last by {
        assert events == front + [last];
      }
      CleanRunsStayMatched(db, runTags, nodeTags, matched, front);
      EventsKeepClean(db, front);
      GroupResync.CleanTagsAreSafe(AfterEvents(db, front), runTags);
      assert !Silent(last) && SafeEvent(AfterEvents(db, front), runTags, nodeTags, last);
      assert last.Reconnect? <==> last == Event.Reconnect;
    }
  }

  function Reassigned(db: Database, ids: set<int>, owner: Option<int>): Database {
    db.(users := map id | id in db.users :: if id in ids then db.users[id].(adminId := owner) else db.users[id])
  }

  function UsersOf(db: Database, admins: set<int>): set<int> {
    set id | id in db.users && db.users[id].adminId.Some? && db.users[id].adminId.value in admins
  }

  function WithoutAdmins(db: Database, ids: set<int>): Database {
    var freed := Reassigned(db, UsersOf(db, ids), None);
    freed.(admins := freed.admins - ids)
  }

  // Whether the node could serve this user at all, whoever owns it.
  predicate Servable(db: Database, nodeTags: set<Tag>, id: int) {
    id in db.users && Live(db.users[id]) && UserTags(db, db.users[id]) * nodeTags != {}
  }

  // The tables but for who owns whom, and what owners are like.
  ghost predicate SameButOwners(db: Database, after: Database) {
    && after.groups == db.groups && after.users.Keys == db.users.Keys
    && forall id :: id in db.users ==> after.users[id].(adminId := None) == db.users[id].(adminId := None)
  }

  // Changes of owners are never sent. However many there are, a matching node
  // matches in the end exactly when no user that could be served has moved between
  // an owner that blocks it and one that does not.
  lemma OwnersMovedMatchesIff(db: Database, after: Database, nodeTags: set<Tag>, view: View)
    requires Matched(db, nodeTags, view) && SameButOwners(db, after)
    ensures Matched(after, nodeTags, view) <==>
            forall id :: Servable(db, nodeTags, id) ==>
              OwnerBlocked(db, db.users[id]) == OwnerBlocked(after, after.users[id])
  {
    forall id ensures MatchedUser(after, nodeTags, view, id) <==>
      (Servable(db, nodeTags, id) ==> OwnerBlocked(db, db.users[id]) == OwnerBlocked(after, after.users[id])) {
      assert MatchedUser(db, nodeTags, view, id);
      if id in db.users {
        assert after.users[id].(adminId := None) == db.users[id].(adminId := None);
        TagsDependOn(db, after, db.users[id], after.users[id]);
      }
    }
  }

  predicate Silent(e: Event) {
    e.SetOwner? || e.RemoveAdmins?
  }

  lemma {:induction false} SilentRunsMoveOwners(db: Database, events: seq<Event>)
    requires forall e :: e in events ==> Silent(e)
    ensures SameButOwners(db, AfterEvents(db, events))
  {
    if events != [] {
      var front, last := events[..|events|-1], events[|events|-1];
      assert last in events && forall e :: e in front ==> e in events;
      SilentRunsMoveOwners(db, front);
      assert SameButOwners(AfterEvents(db, front), AfterEvents(db, events));
    }
  }

  // So it is after any run of such changes.
  lemma SilentRunMatchesIff(db: Database, nodeTags: set<Tag>, view: View, events: seq<Event>)
    requires Matched(db, nodeTags, view) && forall e :: e in events ==> Silent(e)
    ensures var after := AfterEvents(db, events);
      && after.users.Keys == db.users.Keys
      && (Matched(after, nodeTags, view) <==>
          forall id :: Servable(db, nodeTags, id) ==>
            OwnerBlocked(db, db.users[id]) == OwnerBlocked(after, after.users[id]))
  {
    SilentRunsMoveOwners(db, events);
    OwnersMovedMatchesIff(db, AfterEvents(db, events), nodeTags, view);
  }

  lemma WithOwnerMatchesIff(db: Database, nodeTags: set<Tag>, view: View, id: int, admin: int)
    requires id in db.users
    ensures Matched(db, nodeTags, view) ==>
              (Matched(WithOwner(db, id, admin), nodeTags, view) <==> OwnerHarmless(db, nodeTags, id, admin))
  {
    if Matched(db, nodeTags, view) {
      CountersDoNotMatter(WithOwner(db, id, admin), Reassigned(db, {id}, Some(admin)), nodeTags, view);
      ReassignedMatchesIff(db, nodeTags, view, {id}, Some(admin));
    }
  }

  // A change of owners is never sent. It is harmless exactly when no user that
  // could be served moves between an admin that blocks its users and one that
  // does not.
  lemma ReassignedMatchesIff(db: Database, nodeTags: set<Tag>, view: View, ids: set<int>, owner: Option<int>)
    requires Matched(db, nodeTags, view)
    ensures Matched(Reassigned(db, ids, owner), nodeTags, view) <==>
            forall id :: id in ids && Servable(db, nodeTags, id) ==>
              OwnerBlocked(db, db.users[id]) == (owner.Some? && AdminBlocked(db, owner.value))
  {
    OwnersMovedMatchesIff(db, Reassigned(db, ids, owner), nodeTags, view);
  }

  // Deleting admins frees their users without telling the node: the users of a
  // blocking admin stay cut off.
  lemma WithoutAdminsMatchesIff(db: Database, nodeTags: set<Tag>, view: View, ids: set<int>)
    requires Matched(db, nodeTags, view)
    ensures Matched(WithoutAdmins(db, ids), nodeTags, view) <==>
            RemovalHarmless(db, nodeTags, ids)
  {
    OwnersMovedMatchesIff(db, WithoutAdmins(db, ids), nodeTags, view);
  }

  // A user handed to a disabled admin whose role cuts its users off stays connected.
  lemma NewOwnerIsNotSynced()
    ensures exists db, nodeTags, view ::
              Matched(db, nodeTags, view) && !Matched(Reassigned(db, {7}, Some(2)), nodeTags, view)
  {
    var db := Database(
      map[1 := Role(true, true)],
      map[1 := Admin(AdminActive, 1, 0, None), 2 := Admin(AdminDisabled, 1, 0, None)],
      map[7 := User(Some(1), UserActive, "", {3}, Limits(None, None, 0, None))],
      map[3 := Group(false, {"vless"})]);
    var nodeTags: set<Tag>, view := {"vless"}, map[7 := NodeUser("", {"vless"})];
    assert GroupGrants(db, 3);
    assert UserTags(db, db.users[7]) == {"vless"};
    assert {"vless"} * nodeTags == {"vless"} != {};
    assert Matched(db, nodeTags, view);
    ReassignedMatchesIff(db, nodeTags, view, {7}, Some(2));
    assert Servable(db, nodeTags, 7);
  }

  lemma {:induction false} OrderCounts(order: seq<int>, items: set<int>)
    requires forall k :: k in order <==> k in items
    requires forall i, j :: 0 <= i < j < |order| ==> order[i] != order[j]
    ensures |order| == |items|
  {
    if order == [] {
      assert forall k :: k in items ==> k in order;
      assert items == {};
    } else {
      var last := order[|order|-1];
      assert last in order;
      forall k ensures k in order[..|order|-1] <==> k in items - {last} {
        assert k in order <==> k in order[..|order|-1] || k == last;
      }
      OrderCounts(order[..|order|-1], items - {last});
    }
  }
}
