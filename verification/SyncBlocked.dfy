// The panel's tables, as far as they decide which users a node may serve, and
// the question "does this admin's state keep its users off the nodes?", which
// the panel answers in four different ways.
module PanelData {
  import opened Options

  type Tag = string
  type ProxySettings = string

  datatype AdminStatus = AdminActive | AdminLimited | AdminDisabled

  datatype Role = Role(disconnectUsersWhenLimited: bool, disconnectUsersWhenDisabled: bool)

  datatype Admin = Admin(status: AdminStatus, roleId: int, usedTraffic: int, dataLimit: Option<int>)

  datatype UserStatus = UserActive | UserDisabled | UserLimited | UserExpired | UserOnHold

  // What decides the status of a user that is enabled again.
  datatype Limits = Limits(expire: Option<int>, dataLimit: Option<int>, usedTraffic: nat, onHoldDuration: Option<int>)

  datatype User = User(adminId: Option<int>, status: UserStatus, settings: ProxySettings, groups: set<int>,
                       limits: Limits)

  datatype Group = Group(isDisabled: bool, tags: set<Tag>)

  datatype Database = Database(roles: map<int, Role>, admins: map<int, Admin>, users: map<int, User>,
                               groups: map<int, Group>)

  predicate Live(u: User) {
    u.status == UserActive || u.status == UserOnHold
  }

  predicate Blocks(admin: Admin, role: Role) {
    || (admin.status == AdminLimited && role.disconnectUsersWhenLimited)
    || (admin.status == AdminDisabled && role.disconnectUsersWhenDisabled)
  }

  // Whether the admin with this id keeps its users off the nodes.
  predicate AdminBlocked(db: Database, id: int) {
    id in db.admins && db.admins[id].roleId in db.roles && Blocks(db.admins[id], db.roles[db.admins[id].roleId])
  }

  predicate OwnerBlocked(db: Database, u: User) {
    u.adminId.Some? && AdminBlocked(db, u.adminId.value)
  }

  predicate GroupGrants(db: Database, id: int) {
    id in db.groups && !db.groups[id].isDisabled
  }

  // The inbounds the user's enabled groups grant.
  function UserTags(db: Database, u: User): set<Tag> {
    set g, t | g in u.groups && GroupGrants(db, g) && t in db.groups[g].tags :: t
  }

  // The tags a user should have, whatever the node.
  function Desired(db: Database, id: int): set<Tag> {
    if id in db.users && Live(db.users[id]) && !OwnerBlocked(db, db.users[id]) then UserTags(db, db.users[id]) else {}
  }

  // Deleting groups also deletes their memberships.
  function WithoutGroups(db: Database, ids: set<int>): Database {
    db.(groups := db.groups - ids, users := map k | k in db.users :: db.users[k].(groups := db.users[k].groups - ids))
  }

  // Users the node is not told about want what they wanted.
  ghost predicate OthersUnchanged(db: Database, after: Database, told: set<int>) {
    forall id :: id !in told ==> Desired(after, id) == Desired(db, id)
  }

  // The same by the columns of the tables: an active or on-hold user is entitled
  // to the inbounds of its enabled groups, unless its owner is limited or disabled
  // and has a role that cuts users off then.
  ghost predicate EntitledTo(db: Database, id: int, t: Tag) {
    && id in db.users
    && db.users[id].status in {UserActive, UserOnHold}
    && (exists g :: g in db.users[id].groups && g in db.groups && !db.groups[g].isDisabled && t in db.groups[g].tags)
    && !CutOff(db, db.users[id].adminId)
  }

  ghost predicate CutOff(db: Database, owner: Option<int>) {
    exists a, r :: owner == Some(a) && a in db.admins && db.admins[a].roleId == r && r in db.roles &&
      match db.admins[a].status {
        case AdminActive => false
        case AdminLimited => db.roles[r].disconnectUsersWhenLimited
        case AdminDisabled => db.roles[r].disconnectUsersWhenDisabled
      }
  }

  lemma DesiredIsEntitled(db: Database, id: int)
    ensures forall t :: t in Desired(db, id) <==> EntitledTo(db, id, t)
  {
    if id in db.users {
      OwnerCutsOff(db, db.users[id]);
      forall t ensures t in Desired(db, id) <==> EntitledTo(db, id, t) {
        if t in Desired(db, id) {
          var g :| g in db.users[id].groups && GroupGrants(db, g) && t in db.groups[g].tags;
        }
        if EntitledTo(db, id, t) {
          var g :| g in db.users[id].groups && g in db.groups && !db.groups[g].isDisabled && t in db.groups[g].tags;
          assert GroupGrants(db, g);
        }
      }
    }
  }

  lemma OwnerCutsOff(db: Database, u: User)
    ensures OwnerBlocked(db, u) <==> CutOff(db, u.adminId)
  {
  }

  lemma TagsDependOn(db: Database, other: Database, u: User, v: User)
    requires u.groups == v.groups
    requires forall g :: g in u.groups ==> GroupGrants(db, g) == GroupGrants(other, g)
    requires forall g ::
              g in u.groups && GroupGrants(db, g) && GroupGrants(other, g) ==> db.groups[g].tags == other.groups[g].tags
    ensures UserTags(db, u) == UserTags(other, v)
  {
    assert forall t :: t in UserTags(db, u) <==> t in UserTags(other, v);
  }
}

module SyncBlocked {
  import opened Options
  import opened PanelData

  // What is already in memory of a user's admin; either part may be missing.
  datatype LoadedAdmin = LoadedAdmin(status: Option<AdminStatus>, role: Option<Role>)

  // A user row in memory; `session` is the database it can still be asked of.
  datatype LoadedUser = LoadedUser(row: User, admin: Option<LoadedAdmin>, session: Option<Database>)

  // What is in memory is what the database holds.
  ghost predicate Faithful(db: Database, u: LoadedUser) {
    && (u.session.Some? ==> u.session.value == db)
    && (u.admin.Some? ==> u.row.adminId.Some? && u.row.adminId.value in db.admins)
    && (u.admin.Some? ==>
          var admin := db.admins[u.row.adminId.value];
          && (u.admin.value.status.Some? ==> u.admin.value.status.value == admin.status)
          && (u.admin.value.role.Some? ==>
                admin.roleId in db.roles && u.admin.value.role.value == db.roles[admin.roleId]))
  }

  // None: what is loaded does not decide it.
  function LoadedAdminSyncBlocked(admin: LoadedAdmin): Option<bool> {
    match admin.status
    case None => None
    case Some(AdminActive) => Some(false)
    case Some(status) =>
      match admin.role
      case None => None
      case Some(role) =>
        Some(if status == AdminLimited then role.disconnectUsersWhenLimited else role.disconnectUsersWhenDisabled)
  }

  // Whether memory alone decides for this user.
  predicate Decides(u: LoadedUser) {
    u.admin.Some? && LoadedAdminSyncBlocked(u.admin.value).Some?
  }

  // ---- One user ----

  predicate UserSyncBlocked(u: LoadedUser) {
    if u.row.adminId.None? || u.row.adminId.value == 0 then false
    else if Decides(u) then LoadedAdminSyncBlocked(u.admin.value).value
    else u.session.Some? && AdminBlocked(u.session.value, u.row.adminId.value)
  }

  lemma LoadedAdminIsRight(db: Database, u: LoadedUser)
    requires Faithful(db, u) && Decides(u)
    ensures LoadedAdminSyncBlocked(u.admin.value).value ==> OwnerBlocked(db, u.row)
    ensures OwnerBlocked(db, u.row) ==> LoadedAdminSyncBlocked(u.admin.value).value
  {
  }

  // The single-user form is right exactly when it can find out: memory decides,
  // or a session is left, or there is nothing to find.
  lemma UserSyncBlockedIff(db: Database, u: LoadedUser)
    requires Faithful(db, u)
    ensures UserSyncBlocked(u) == OwnerBlocked(db, u.row) <==>
            (!OwnerBlocked(db, u.row) || (u.row.adminId != Some(0) && (Decides(u) || u.session.Some?)))
  {
    if Decides(u) {
      LoadedAdminIsRight(db, u);
    }
  }

  // ---- Many users ----

  function AdminIds(users: seq<LoadedUser>): set<int> {
    set i | 0 <= i < |users| && users[i].row.adminId.Some? :: users[i].row.adminId.value
  }

  ghost predicate LoadedFor(users: seq<LoadedUser>, id: int, admin: LoadedAdmin) {
    exists i :: 0 <= i < |users| && users[i].row.adminId == Some(id) && users[i].admin == Some(admin)
  }

  // The copy of an admin that counts: a later user's replaces an earlier one's.
  function LastLoaded(users: seq<LoadedUser>, id: int): (admin: Option<LoadedAdmin>)
    ensures admin.Some? ==> LoadedFor(users, id, admin.value)
  {
    if users == [] then None else
    var front, last := users[..|users|-1], users[|users|-1];
    if last.row.adminId == Some(id) && last.admin.Some? then last.admin
    else
      var earlier := LastLoaded(front, id);
      assert earlier.Some? ==> LoadedFor(users, id, earlier.value) by {
        assert forall i :: 0 <= i < |front| ==> front[i] == users[i];
      }
      earlier
  }

  // What is in memory of the admin decides.
  predicate MemoryDecides(users: seq<LoadedUser>, id: int) {
    LastLoaded(users, id).Some? && LoadedAdminSyncBlocked(LastLoaded(users, id).value).Some?
  }

  method LoadedAdminsById(users: seq<LoadedUser>) returns (loaded: map<int, LoadedAdmin>)
    ensures forall id :: Get(loaded, id) == LastLoaded(users, id)
    ensures loaded.Keys <= AdminIds(users)
  {
    loaded := map[];
    for i := 0 to |users|
      invariant forall id :: Get(loaded, id) == LastLoaded(users[..i], id)
      invariant loaded.Keys <= AdminIds(users)
    {
      assert users[..i+1][..i] == users[..i];
      if users[i].row.adminId.Some? && users[i].admin.Some? {
        loaded := loaded[users[i].row.adminId.value := users[i].admin.value];
      }
    }
    assert users[..|users|] == users;
  }

  method FindSession(users: seq<LoadedUser>) returns (session: Option<Database>)
    ensures session.Some? ==> exists i :: 0 <= i < |users| && users[i].session == session
    ensures session.None? ==> forall i :: 0 <= i < |users| ==> users[i].session.None?
  {
    for i := 0 to |users|
      invariant forall j :: 0 <= j < i ==> users[j].session.None?
    {
      if users[i].session.Some? {
        return users[i].session;
      }
    }
    return None;
  }

  // The owners that really block.
  ghost function BlockingOwners(db: Database, users: seq<LoadedUser>): set<int> {
    set id | id in AdminIds(users) && AdminBlocked(db, id)
  }

  ghost predicate AnySession(users: seq<LoadedUser>) {
    exists i :: 0 <= i < |users| && users[i].session.Some?
  }

  // Answers from memory if every admin's answer is there, else from a session,
  // else blocks nobody. It is right exactly when it can find out, or there is
  // nothing to find.
  method BlockedAdminIdsForUsers(users: seq<LoadedUser>, ghost db: Database) returns (blocked: set<int>)
    requires forall i :: 0 <= i < |users| ==> Faithful(db, users[i])
    ensures blocked <= BlockingOwners(db, users)
    ensures blocked == BlockingOwners(db, users) <==>
            (BlockingOwners(db, users) == {} || AnySession(users) ||
             forall id :: id in AdminIds(users) ==> MemoryDecides(users, id))
  {
    var ids := AdminIds(users);
    if ids == {} {
      return {};
    }
    var loaded := LoadedAdminsById(users);
    assert loaded.Keys == ids ==> forall id :: id in ids ==> Get(loaded, id).Some?;
    if loaded.Keys == ids {
      var results := map id | id in loaded && LoadedAdminSyncBlocked(loaded[id]).Some? ::
        LoadedAdminSyncBlocked(loaded[id]).value;
      MemoryIsRight(db, users, loaded);
      if results.Keys == ids {
        assert forall id :: id in ids ==> id in results && MemoryDecides(users, id);
        return set id | id in results && results[id];
      }
      assert (forall id :: id in loaded ==> LoadedAdminSyncBlocked(loaded[id]).Some?) ==> results.Keys == loaded.Keys;
    }
    NotAllInMemory(users, ids, loaded);
    var session := FindSession(users);
    if session.None? {
      return {};
    }
    return set id | id in ids && AdminBlocked(session.value, id);
  }

  lemma MemoryIsRight(db: Database, users: seq<LoadedUser>, loaded: map<int, LoadedAdmin>)
    requires forall i :: 0 <= i < |users| ==> Faithful(db, users[i])
    requires forall id :: Get(loaded, id) == LastLoaded(users, id)
    ensures forall id :: id in loaded && LoadedAdminSyncBlocked(loaded[id]).Some? ==>
              LoadedAdminSyncBlocked(loaded[id]).value == AdminBlocked(db, id)
  {
    forall id | id in loaded && LoadedAdminSyncBlocked(loaded[id]).Some?
      ensures LoadedAdminSyncBlocked(loaded[id]).value == AdminBlocked(db, id)
    {
      assert Get(loaded, id) == LastLoaded(users, id);
      var i :| 0 <= i < |users| && users[i].row.adminId == Some(id) && users[i].admin == Some(loaded[id]);
      LoadedAdminIsRight(db, users[i]);
    }
  }

  // Memory that decides for every admin would have been taken.
  lemma NotAllInMemory(users: seq<LoadedUser>, ids: set<int>, loaded: map<int, LoadedAdmin>)
    requires forall id :: Get(loaded, id) == LastLoaded(users, id)
    requires loaded.Keys <= ids
    ensures (forall id :: id in ids ==> MemoryDecides(users, id)) ==>
              loaded.Keys == ids && forall id :: id in loaded ==> LoadedAdminSyncBlocked(loaded[id]).Some?
  {
    if forall id :: id in ids ==> MemoryDecides(users, id) {
      forall id | id in ids ensures id in loaded && LoadedAdminSyncBlocked(loaded[id]).Some? {
        assert Get(loaded, id) == LastLoaded(users, id);
      }
    }
  }

  // ---- The admin itself, and the full query ----

  // The role is loaded on demand; an admin may have none.
  predicate AdminUsersSyncBlocked(admin: Admin, role: Option<Role>) {
    match admin.status
    case AdminLimited => role.Some? && role.value.disconnectUsersWhenLimited
    case AdminDisabled => role.Some? && role.value.disconnectUsersWhenDisabled
    case AdminActive => false
  }

  function RoleOf(db: Database, admin: Admin): Option<Role> {
    if admin.roleId in db.roles then Some(db.roles[admin.roleId]) else None
  }

  // The full query's filter over outer joins: a missing admin or role gives
  // NULL columns, and "flag is not true" accepts NULL.
  predicate CoreUsersAdmits(admin: Option<Admin>, limitedFlag: Option<bool>, disabledFlag: Option<bool>) {
    || admin.None?
    || (admin.value.status != AdminLimited && admin.value.status != AdminDisabled)
    || (admin.value.status == AdminLimited && limitedFlag != Some(true))
    || (admin.value.status == AdminDisabled && disabledFlag != Some(true))
  }

  // The columns the outer joins give the full query for this user.
  predicate CoreUsersAdmitsUser(db: Database, u: User) {
    var admin := if u.adminId.Some? && u.adminId.value in db.admins then Some(db.admins[u.adminId.value]) else None;
    var role := if admin.Some? then RoleOf(db, admin.value) else None;
    CoreUsersAdmits(admin,
      if role.Some? then Some(role.value.disconnectUsersWhenLimited) else None,
      if role.Some? then Some(role.value.disconnectUsersWhenDisabled) else None)
  }

  // All four forms give one answer for a user with a session.
  lemma BlockedFormsAgree(db: Database, u: LoadedUser)
    requires Faithful(db, u) && u.session.Some? && (u.row.adminId == Some(0) ==> 0 !in db.admins)
    ensures UserSyncBlocked(u) == OwnerBlocked(db, u.row)
    ensures CoreUsersAdmitsUser(db, u.row) == !OwnerBlocked(db, u.row)
    ensures u.row.adminId.Some? && u.row.adminId.value in db.admins ==>
              var admin := db.admins[u.row.adminId.value];
              AdminUsersSyncBlocked(admin, RoleOf(db, admin)) == OwnerBlocked(db, u.row)
  {
    UserSyncBlockedIff(db, u);
  }

  // ---- The inbounds a user is sent with ----

  datatype LoadedGroup = LoadedGroup(isDisabled: bool, inbounds: Option<seq<Tag>>)

  function TagsOfLoaded(groups: seq<LoadedGroup>): set<Tag> {
    set i, t | 0 <= i < |groups| && !groups[i].isDisabled && groups[i].inbounds.Some? &&
      t in groups[i].inbounds.value :: t
  }

  // None: some enabled group's inbounds are not in memory.
  method InboundsFromLoadedGroups(loaded: Option<seq<LoadedGroup>>) returns (tags: Option<set<Tag>>)
    ensures tags.Some? <==> loaded.Some? && forall g :: g in loaded.value && !g.isDisabled ==> g.inbounds.Some?
    ensures tags.Some? ==> tags.value == TagsOfLoaded(loaded.value)
    ensures tags.Some? ==> forall t :: t in tags.value <==>
              exists g :: g in loaded.value && !g.isDisabled && g.inbounds.Some? && t in g.inbounds.value
  {
    if loaded.None? {
      return None;
    }
    var groups := loaded.value;
    var found: set<Tag> := {};
    for i := 0 to |groups|
      invariant forall j :: 0 <= j < i && !groups[j].isDisabled ==> groups[j].inbounds.Some?
      invariant found == TagsOfLoaded(groups[..i])
    {
      if !groups[i].isDisabled {
        if groups[i].inbounds.None? {
          assert groups[i] in groups;
          return None;
        }
        found := found + set t | t in groups[i].inbounds.value;
      }
      LoadedTagsNext(groups, i);
    }
    assert groups[..|groups|] == groups;
    forall t
      ensures t in found <==> exists g :: g in groups && !g.isDisabled && g.inbounds.Some? && t in g.inbounds.value {
      if t in found {
        var j :|
          0 <= j < |groups| && !groups[j].isDisabled && groups[j].inbounds.Some? && t in groups[j].inbounds.value;
        assert groups[j] in groups;
      }
    }
    return Some(found);
  }

  lemma LoadedTagsNext(groups: seq<LoadedGroup>, i: nat)
    requires i < |groups|
    ensures TagsOfLoaded(groups[..i+1]) == TagsOfLoaded(groups[..i]) +
              if groups[i].isDisabled || groups[i].inbounds.None? then {} else set t | t in groups[i].inbounds.value
  {
    var now, was := groups[..i+1], groups[..i];
    forall t ensures t in TagsOfLoaded(now) <==>
      t in TagsOfLoaded(was) || (!groups[i].isDisabled && groups[i].inbounds.Some? && t in groups[i].inbounds.value) {
      if t in TagsOfLoaded(was) {
        var j :| 0 <= j < |was| && !was[j].isDisabled && was[j].inbounds.Some? && t in was[j].inbounds.value;
        assert now[j] == was[j];
      }
      if t in TagsOfLoaded(now) {
        var j :| 0 <= j < |now| && !now[j].isDisabled && now[j].inbounds.Some? && t in now[j].inbounds.value;
        assert j < i ==> was[j] == now[j];
      }
      assert now[i] == groups[i];
    }
  }

  // The groups in memory are the user's groups in the database.
  ghost predicate GroupsFaithful(db: Database, u: User, groups: seq<LoadedGroup>, ids: seq<int>) {
    && |ids| == |groups| && (forall i :: 0 <= i < |ids| ==> ids[i] in u.groups && ids[i] in db.groups)
    && (forall g :: g in u.groups && g in db.groups ==> g in ids)
    && (forall i :: 0 <= i < |ids| ==> db.groups[ids[i]].isDisabled == groups[i].isDisabled)
    && (forall i :: 0 <= i < |ids| && groups[i].inbounds.Some? ==>
          forall t :: t in groups[i].inbounds.value <==> t in db.groups[ids[i]].tags)
  }

  // A user is sent with the tags its enabled groups grant, from memory or not,
  // and with none when it is not live.
  method SerializeInbounds(u: User, loaded: Option<seq<LoadedGroup>>, session: Database, ghost ids: seq<int>)
    returns (tags: set<Tag>)
    requires loaded.Some? ==> GroupsFaithful(session, u, loaded.value, ids)
    ensures tags == if Live(u) then UserTags(session, u) else {}
    ensures u.status in {UserDisabled, UserLimited, UserExpired} ==> tags == {}
    ensures u.status in {UserActive, UserOnHold} ==> forall t :: t in tags <==>
              exists g ::
                g in u.groups && g in session.groups && !session.groups[g].isDisabled && t in session.groups[g].tags
  {
    tags := {};
    if Live(u) {
      var fromMemory := InboundsFromLoadedGroups(loaded);
      match fromMemory
      case None => tags := UserTags(session, u);
      case Some(found) =>
        tags := found;
        MemoryTagsAreRight(session, u, loaded.value, ids);
    }
  }

  lemma MemoryTagsAreRight(db: Database, u: User, groups: seq<LoadedGroup>, ids: seq<int>)
    requires GroupsFaithful(db, u, groups, ids)
    requires forall g :: g in groups && !g.isDisabled ==> g.inbounds.Some?
    ensures TagsOfLoaded(groups) == UserTags(db, u)
  {
    forall t ensures t in TagsOfLoaded(groups) <==> t in UserTags(db, u) {
      if t in TagsOfLoaded(groups) {
        var i :|
          0 <= i < |groups| && !groups[i].isDisabled && groups[i].inbounds.Some? && t in groups[i].inbounds.value;
        assert GroupGrants(db, ids[i]);
      }
      if t in UserTags(db, u) {
        var g :| g in u.groups && GroupGrants(db, g) && t in db.groups[g].tags;
        assert g in ids;
        var i :| 0 <= i < |ids| && ids[i] == g;
        assert groups[i] in groups;
      }
    }
  }
}
