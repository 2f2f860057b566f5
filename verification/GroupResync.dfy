// Revoking access on backends that hold state of their own. A pushed update may
// leave an old WireGuard peer or L2TP credential alive; after a group edit the
// panel therefore replaces the whole user set of the nodes that need it, and
// tries hard to find those nodes without touching the others.
module GroupResync {
  import opened Options
  import opened Iteration
  import opened CommaText
  import opened PanelData

  datatype CoreKind = Xray | WireGuard | L2tp | OpenVpn | SingBox

  // `stateTag` is the stripped interface name or inbound tag of the configuration,
  // empty when there is none.
  datatype Core = Core(kind: CoreKind, tags: set<Tag>, stateTag: Tag)

  datatype Node = Node(coreId: Option<int>, additional: seq<int>)

  const DEFAULT_CORE := 1

  // `rows` are the stored cores; `loaded` those that could be built from them.
  datatype Fleet = Fleet(rows: map<int, Core>, loaded: map<int, Core>, nodes: map<int, Node>)

  predicate Stateful(core: Core) {
    core.kind == WireGuard || core.kind == L2tp
  }

  // Loaded cores come from rows; a loaded stateful core serves its one tag, which
  // its validation keeps free of commas.
  ghost predicate ValidFleet(f: Fleet) {
    && (forall c :: c in f.loaded ==> c in f.rows && f.rows[c] == f.loaded[c])
    && (forall c :: c in f.loaded && Stateful(f.loaded[c]) ==>
      f.loaded[c].tags == {f.loaded[c].stateTag} && Clean(f.loaded[c].stateTag))
  }

  function Primary(node: Node): int {
    if node.coreId.None? || node.coreId.value == 0 then DEFAULT_CORE else node.coreId.value
  }

  function Running(f: Fleet, id: int): Option<Core> {
    if id in f.loaded then Some(f.loaded[id])
    else if DEFAULT_CORE in f.loaded then Some(f.loaded[DEFAULT_CORE])
    else None
  }

  // The cores a node is configured with, primary first, each once.
  method CoreIds(node: Node) returns (ids: seq<int>)
    ensures ids != [] && ids[0] == Primary(node)
    ensures forall c :: c in ids <==> c in Configured(node)
    ensures forall i, j :: 0 <= i < j < |ids| ==> ids[i] != ids[j]
  {
    ids := [Primary(node)];
    for i := 0 to |node.additional|
      invariant ids != [] && ids[0] == Primary(node)
      invariant forall c :: c in ids <==> c == Primary(node) || c in node.additional[..i]
      invariant forall i, j :: 0 <= i < j < |ids| ==> ids[i] != ids[j]
    {
      if node.additional[i] !in ids {
        ids := ids + [node.additional[i]];
      }
    }
  }

  function Configured(node: Node): set<int> {
    {Primary(node)} + set c | c in node.additional
  }

  // The same by the columns: no primary core, or 0, stands for core 1.
  predicate HasCore(node: Node, c: int) {
    || c in node.additional
    || (node.coreId == Some(c) && c != 0)
    || (c == 1 && (node.coreId == None || node.coreId == Some(0)))
  }

  lemma ConfiguredIff(node: Node)
    ensures forall c :: c in Configured(node) <==> HasCore(node, c)
  {
  }

  // The inbounds the node really runs, and those of them that hold state.
  function NodeTags(f: Fleet, node: Node): set<Tag> {
    set c, t | c in Configured(node) && Running(f, c).Some? && t in Running(f, c).value.tags :: t
  }

  function StateTags(f: Fleet, node: Node): set<Tag> {
    set c, t | c in Configured(node) && Running(f, c).Some? && Stateful(Running(f, c).value) &&
      t in Running(f, c).value.tags :: t
  }

  // A core that does not load is replaced by core 1.
  ghost predicate RunsTag(f: Fleet, node: Node, t: Tag) {
    exists c :: HasCore(node, c) &&
      if c in f.loaded then t in f.loaded[c].tags else 1 in f.loaded && t in f.loaded[1].tags
  }

  lemma NodeTagsAreRun(f: Fleet, node: Node)
    ensures forall t :: t in NodeTags(f, node) <==> RunsTag(f, node, t)
  {
    ConfiguredIff(node);
    forall t ensures t in NodeTags(f, node) <==> RunsTag(f, node, t) {
      if t in NodeTags(f, node) {
        var c :| c in Configured(node) && Running(f, c).Some? && t in Running(f, c).value.tags;
        assert HasCore(node, c);
      }
      if RunsTag(f, node, t) {
        var c :| HasCore(node, c) &&
          if c in f.loaded then t in f.loaded[c].tags else 1 in f.loaded && t in f.loaded[1].tags;
        assert c in Configured(node) && Running(f, c).Some? && t in Running(f, c).value.tags;
      }
    }
  }

  // One of the node's stored cores is of a kind that keeps peers or credentials.
  ghost predicate KeepsState(f: Fleet, node: Node) {
    exists c :: HasCore(node, c) && c in f.rows && f.rows[c].kind in {WireGuard, L2tp}
  }

  // The scope holds the inbound of a stored core of such a kind.
  ghost predicate ConcernsState(f: Fleet, scope: Scope) {
    match scope
    case Nowhere => false
    case Everywhere => true
    case Affecting(tags) => exists c :: NamedInbound(f, c) && f.rows[c].stateTag in tags
  }

  predicate NamedInbound(f: Fleet, c: int) {
    c in f.rows && f.rows[c].kind in {WireGuard, L2tp} && f.rows[c].stateTag != ""
  }

  lemma ResyncedIff(f: Fleet, scope: Scope, node: Node)
    ensures Resynced(f, scope, node) <==> KeepsState(f, node) && ConcernsState(f, scope)
  {
    KeepsStateIff(f, node);
    if scope.Affecting? {
      StateConcernedIff(f, scope.tags);
    }
  }

  lemma KeepsStateIff(f: Fleet, node: Node)
    ensures KeepsState(f, node) <==> Configured(node) * StatefulIds(f) != {}
  {
    ConfiguredIff(node);
    if KeepsState(f, node) {
      var c :| HasCore(node, c) && c in f.rows && f.rows[c].kind in {WireGuard, L2tp};
      assert c in Configured(node) * StatefulIds(f);
    } else {
      forall c | c in Configured(node) ensures c !in StatefulIds(f) {
        assert HasCore(node, c);
      }
      assert Configured(node) * StatefulIds(f) == {};
    }
  }

  lemma StateConcernedIff(f: Fleet, tags: set<Tag>)
    ensures ConcernsState(f, Affecting(tags)) <==> tags * StatefulCoreTags(f) != {}
  {
    if ConcernsState(f, Affecting(tags)) {
      var c :| NamedInbound(f, c) && f.rows[c].stateTag in tags;
      assert c in StatefulIds(f);
      assert f.rows[c].stateTag in tags * StatefulCoreTags(f);
    } else {
      assert forall c :: c in StatefulIds(f) && f.rows[c].stateTag != "" ==> NamedInbound(f, c);
      assert tags * StatefulCoreTags(f) == {};
    }
  }

  // The node serves each user the inbounds it runs and the user is entitled to.
  ghost predicate ServesByRight(f: Fleet, db: Database, node: Node, served: Served) {
    forall id, t :: t in Serves(served, id) <==> EntitledTo(db, id, t) && RunsTag(f, node, t)
  }

  lemma MatchedIsByRight(f: Fleet, db: Database, node: Node, served: Served)
    ensures MatchedNode(db, NodeTags(f, node), served) <==> ServesByRight(f, db, node, served)
  {
    NodeTagsAreRun(f, node);
    forall id ensures Serves(served, id) == Desired(db, id) * NodeTags(f, node) <==>
      forall t :: t in Serves(served, id) <==> EntitledTo(db, id, t) && RunsTag(f, node, t) {
      DesiredIsEntitled(db, id);
      assert forall t :: t in Desired(db, id) * NodeTags(f, node) <==> EntitledTo(db, id, t) && RunsTag(f, node, t);
    }
  }

  function StatefulIds(f: Fleet): set<int> {
    set c | c in f.rows && Stateful(f.rows[c])
  }

  function StatefulCoreTags(f: Fleet): set<Tag> {
    set c | c in StatefulIds(f) && f.rows[c].stateTag != "" :: f.rows[c].stateTag
  }

  // ---- One node ----

  type Served = map<int, set<Tag>>

  function Serves(served: Served, id: int): set<Tag> {
    if id in served then served[id] else {}
  }

  ghost predicate MatchedNode(db: Database, tags: set<Tag>, served: Served) {
    forall id :: Serves(served, id) == Desired(db, id) * tags
  }

  // One row of the full query; without any tags to look for it is not restricted.
  function QueryRow(db: Database, tags: set<Tag>, id: int): set<Tag> {
    if tags == {} then Desired(db, id) else Desired(db, id) * tags
  }

  // The whole user set: the rows pass through a comma-separated column each, and
  // the node keeps what it runs.
  function FullSet(db: Database, tags: set<Tag>): Served {
    map id | id in db.users && Columned(QueryRow(db, tags, id)) != {} :: Columned(QueryRow(db, tags, id)) * tags
  }

  ghost predicate ColumnSafe(db: Database, tags: set<Tag>) {
    forall id :: FitsColumn(Desired(db, id) * tags)
  }

  // The full set leaves the node as wanted exactly when what each user is to have
  // there fits the column.
  lemma FullSetMatchesIff(db: Database, tags: set<Tag>)
    ensures MatchedNode(db, tags, FullSet(db, tags)) <==> ColumnSafe(db, tags)
  {
    forall id ensures Serves(FullSet(db, tags), id) == Desired(db, id) * tags <==> FitsColumn(Desired(db, id) * tags) {
      ColumnKeepsIff(Desired(db, id) * tags, tags);
    }
  }

  lemma FullSetByRight(f: Fleet, db: Database, node: Node)
    requires CleanTags(db)
    ensures ServesByRight(f, db, node, FullSet(db, NodeTags(f, node)))
  {
    CleanTagsAreSafe(db, NodeTags(f, node));
    FullSetMatchesIff(db, NodeTags(f, node));
    MatchedIsByRight(f, db, node, FullSet(db, NodeTags(f, node)));
  }

  // The query breaks up a tag that holds a comma: the user loses it, and is served
  // the inbounds its parts name, if there are such.
  lemma CommaTagIsBrokenUp()
    ensures MatchedNode(OneMember("a,b"), {"a", "b", "a,b"}, map[7 := {"a,b"}])
    ensures Serves(FullSet(OneMember("a,b"), {"a", "b", "a,b"}), 7) == {"a", "b"}
  {
    var db, tags: set<Tag> := OneMember("a,b"), {"a", "b", "a,b"};
    OneMemberTags("a,b");
    assert Desired(db, 7) * tags == {"a,b"};
    assert forall id :: id != 7 ==> Desired(db, id) == {};
    CommaBreaksUp("a", "b");
    assert "a" + "," + "b" == "a,b";
  }

  // No group grants a tag that is empty or holds a comma.
  ghost predicate CleanTags(db: Database) {
    forall g :: g in db.groups ==> CleanGroup(db.groups[g])
  }

  ghost predicate CleanGroup(group: Group) {
    forall t :: t in group.tags ==> Clean(t)
  }

  lemma CleanTagsAreSafe(db: Database, tags: set<Tag>)
    requires CleanTags(db)
    ensures ColumnSafe(db, tags)
  {
    forall id, t | t in Desired(db, id) ensures Clean(t) {
      var g :| g in db.users[id].groups && GroupGrants(db, g) && t in db.groups[g].tags;
    }
    assert forall id :: "" !in Desired(db, id) * tags;
  }

  predicate IsPushed(db: Database, pushed: set<int>, id: int) {
    id in pushed && id in db.users && !OwnerBlocked(db, db.users[id])
  }

  // What a message does to the user it is about. The inbounds without state are
  // settled. Of the inbounds with state the user has the wanted ones, and any of
  // the old ones may stay.
  ghost predicate Effect(wanted: set<Tag>, stateTags: set<Tag>, was: set<Tag>, now: set<Tag>) {
    now - stateTags == wanted - stateTags && wanted <= now <= wanted + was * stateTags
  }

  // A node after it was told about some users, as the tables then are.
  ghost predicate AfterTold(db: Database, tags: set<Tag>, stateTags: set<Tag>, told: set<int>, was: Served,
                            now: Served) {
    forall id ::
      if id in told then Effect(Desired(db, id) * tags, stateTags, Serves(was, id), Serves(now, id))
      else Serves(now, id) == Serves(was, id)
  }

  // A push is about the users listed whose owners do not block them.
  function Told(db: Database, pushed: set<int>): set<int> {
    set id | id in pushed && IsPushed(db, pushed, id)
  }

  ghost predicate AfterPush(db: Database, tags: set<Tag>, stateTags: set<Tag>, pushed: set<int>, was: Served,
                            now: Served) {
    AfterTold(db, tags, stateTags, Told(db, pushed), was, now)
  }

  ghost predicate Took(f: Fleet, node: Node, db: Database, pushed: set<int>, was: Served, now: Served) {
    AfterPush(db, NodeTags(f, node), StateTags(f, node), pushed, was, now)
  }

  // ---- Edits ----

  // How far the resync after an edit has to look.
  datatype Scope = Nowhere | Affecting(tags: set<Tag>) | Everywhere

  // An edit of groups: the new tables, the users pushed, and the resync after it.
  datatype Edit = Edit(db: Database, pushed: set<int>, scope: Scope)

  function Members(db: Database, groups: set<int>): set<int> {
    set id | id in db.users && db.users[id].groups * groups != {}
  }

  function ModifyGroup(db: Database, id: int, group: Group): Edit
    requires id in db.groups
  {
    var after := db.(groups := db.groups[id := group]);
    Edit(after, Members(after, {id}), Affecting(db.groups[id].tags + group.tags))
  }

  // Without members, the lookup by an empty list of names finds every user.
  function RemoveGroup(db: Database, id: int): Edit
    requires id in db.groups
  {
    var members := Members(db, {id});
    Edit(WithoutGroups(db, {id}), if members == {} then db.users.Keys else members, Affecting(db.groups[id].tags))
  }

  function RemoveGroups(db: Database, ids: set<int>): Edit {
    Edit(WithoutGroups(db, ids), Members(db, ids), Everywhere)
  }

  function SetGroupsDisabled(db: Database, ids: set<int>, disabled: bool): Edit
    requires ids <= db.groups.Keys
  {
    var changed := set g | g in ids && db.groups[g].isDisabled != disabled;
    var after := db.(groups := map g | g in db.groups ::
      if g in changed then db.groups[g].(isDisabled := disabled) else db.groups[g]);
    Edit(after, Members(after, changed),
      if disabled then Affecting(set g, t | g in changed && t in db.groups[g].tags :: t) else Nowhere)
  }

  function Regrouped(db: Database, changed: map<int, set<int>>): Database {
    db.(users := map k | k in db.users ::
      if k in changed then db.users[k].(groups := changed[k]) else db.users[k])
  }

  // Some users are given groups; those who had them all are left alone.
  function AddGroups(db: Database, users: set<int>, groups: set<int>): Edit {
    var gained := set k | k in users && k in db.users && !(groups <= db.users[k].groups);
    Edit(Regrouped(db, map k | k in gained :: db.users[k].groups + groups), gained, Nowhere)
  }

  // Groups are taken from some users; those who had none of them are left alone.
  function TakeGroups(db: Database, users: set<int>, groups: set<int>): Edit {
    var affected := set k | k in users && k in Members(db, groups);
    Edit(Regrouped(db, map k | k in affected :: db.users[k].groups - groups), affected, Everywhere)
  }

  ghost predicate InOneOf(u: User, groups: set<int>) {
    exists g :: g in groups && g in u.groups
  }

  lemma CommonMember(a: set<int>, b: set<int>)
    ensures a * b != {} <==> exists g :: g in b && g in a
  {
    if g :| g in b && g in a {
      assert g in a * b;
    } else {
      forall g ensures g !in a * b {
      }
    }
  }

  lemma MembersIff(db: Database, groups: set<int>)
    ensures forall k :: k in Members(db, groups) <==> k in db.users && InOneOf(db.users[k], groups)
  {
    forall k | k in db.users ensures db.users[k].groups * groups != {} <==> InOneOf(db.users[k], groups) {
      CommonMember(db.users[k].groups, groups);
    }
  }

  // Whom an edit pushes, and where it resyncs: enabling groups and adding them to
  // users takes nothing away, and needs no resync.
  lemma EditsPushMembers(db: Database, id: int, group: Group, ids: set<int>, users: set<int>)
    requires id in db.groups && ids <= db.groups.Keys
    ensures forall k :: k in ModifyGroup(db, id, group).pushed <==> k in db.users && id in db.users[k].groups
    ensures forall k :: k in RemoveGroups(db, ids).pushed <==> k in db.users && InOneOf(db.users[k], ids)
    ensures forall disabled, k :: k in SetGroupsDisabled(db, ids, disabled).pushed <==>
              k in db.users && InOneOf(db.users[k], set g | g in ids && db.groups[g].isDisabled == !disabled)
    ensures SetGroupsDisabled(db, ids, false).scope == AddGroups(db, users, ids).scope == Nowhere
    ensures RemoveGroups(db, ids).scope == TakeGroups(db, users, ids).scope == Everywhere
  {
    MembersIff(db, {id});
    assert id in {id};
    MembersIff(db, ids);
    forall disabled: bool
      ensures SetGroupsDisabled(db, ids, disabled).pushed ==
                Members(db, set g | g in ids && db.groups[g].isDisabled == !disabled)
    {
      var e := SetGroupsDisabled(db, ids, disabled);
      assert (set g | g in ids && db.groups[g].isDisabled != disabled) ==
        set g | g in ids && db.groups[g].isDisabled == !disabled;
      assert e.db.users == db.users;
    }
    MembersIff(db, set g | g in ids && db.groups[g].isDisabled == !true);
    MembersIff(db, set g | g in ids && db.groups[g].isDisabled == !false);
  }

  // What the resync relies on: users not pushed keep their wish, and whatever is
  // lost lies within the scope.
  ghost predicate Honest(db: Database, e: Edit) {
    && OthersUnchanged(db, e.db, Told(e.db, e.pushed))
    && (forall id :: Lost(db, e.db, id) <= LossScope(db, e))
  }

  function Lost(db: Database, after: Database, id: int): set<Tag> {
    Desired(db, id) - Desired(after, id)
  }

  ghost function LossScope(db: Database, e: Edit): set<Tag> {
    match e.scope
    case Nowhere => {}
    case Affecting(tags) => tags
    case Everywhere => set id, t | id in db.users && t in Lost(db, e.db, id) :: t
  }

  // Losing a tag takes a group of the user that granted it and does not any more.
  lemma LossHasAGroup(db: Database, after: Database, id: int, t: Tag)
    requires id in db.users && id in after.users
    requires after.users[id].adminId == db.users[id].adminId && after.users[id].status == db.users[id].status
    requires after.admins == db.admins && after.roles == db.roles
    requires t in Desired(db, id) && t !in Desired(after, id)
    ensures exists g :: g in db.users[id].groups && GroupGrants(db, g) && t in db.groups[g].tags &&
              !(g in after.users[id].groups && GroupGrants(after, g) && t in after.groups[g].tags)
  {
    var g :| g in db.users[id].groups && GroupGrants(db, g) && t in db.groups[g].tags;
  }

  lemma ModifyGroupIsHonest(db: Database, id: int, group: Group)
    requires id in db.groups
    ensures Honest(db, ModifyGroup(db, id, group))
  {
    var e := ModifyGroup(db, id, group);
    forall k | !IsPushed(e.db, e.pushed, k) ensures Desired(e.db, k) == Desired(db, k) {
      if k in db.users && id !in db.users[k].groups {
        TagsDependOn(db, e.db, db.users[k], db.users[k]);
      }
      if k in db.users && id in db.users[k].groups {
        assert id in db.users[k].groups * {id};
      }
    }
    forall k, t | t in Lost(db, e.db, k) ensures t in e.scope.tags {
      LossHasAGroup(db, e.db, k, t);
    }
  }

  lemma RemovalsLose(db: Database, ids: set<int>, k: int, t: Tag)
    requires t in Desired(db, k) && t !in Desired(WithoutGroups(db, ids), k)
    ensures exists g :: g in ids && g in db.users[k].groups && g in db.groups && t in db.groups[g].tags
  {
    LossHasAGroup(db, WithoutGroups(db, ids), k, t);
  }

  lemma RemovalsKeepOthers(db: Database, ids: set<int>, k: int)
    requires k in db.users ==> db.users[k].groups * ids == {} || OwnerBlocked(db, db.users[k])
    ensures Desired(WithoutGroups(db, ids), k) == Desired(db, k)
  {
    if k in db.users && !OwnerBlocked(db, db.users[k]) {
      var after := WithoutGroups(db, ids);
      assert forall g :: g in db.users[k].groups && g in ids ==> g in db.users[k].groups * ids;
      TagsDependOn(db, after, db.users[k], after.users[k]);
    }
  }

  lemma RemoveGroupIsHonest(db: Database, id: int)
    requires id in db.groups
    ensures Honest(db, RemoveGroup(db, id))
  {
    var e := RemoveGroup(db, id);
    forall k | !IsPushed(e.db, e.pushed, k) ensures Desired(e.db, k) == Desired(db, k) {
      RemovalsKeepOthers(db, {id}, k);
    }
    forall k, t | t in Lost(db, e.db, k) ensures t in e.scope.tags {
      RemovalsLose(db, {id}, k, t);
    }
  }

  lemma RemoveGroupsIsHonest(db: Database, ids: set<int>)
    ensures Honest(db, RemoveGroups(db, ids))
  {
    var e := RemoveGroups(db, ids);
    forall k | !IsPushed(e.db, e.pushed, k) ensures Desired(e.db, k) == Desired(db, k) {
      RemovalsKeepOthers(db, ids, k);
    }
  }

  lemma SetGroupsDisabledIsHonest(db: Database, ids: set<int>, disabled: bool)
    requires ids <= db.groups.Keys
    ensures Honest(db, SetGroupsDisabled(db, ids, disabled))
  {
    var e := SetGroupsDisabled(db, ids, disabled);
    var changed := set g | g in ids && db.groups[g].isDisabled != disabled;
    forall k | !IsPushed(e.db, e.pushed, k) ensures Desired(e.db, k) == Desired(db, k) {
      if k in db.users && !OwnerBlocked(db, db.users[k]) {
        assert db.users[k].groups * changed == {};
        assert forall g :: g in db.users[k].groups && g in changed ==> g in db.users[k].groups * changed;
        TagsDependOn(db, e.db, db.users[k], db.users[k]);
      }
    }
    forall k, t | t in Lost(db, e.db, k) ensures t in LossScope(db, e) {
      LossHasAGroup(db, e.db, k, t);
    }
  }

  // A change of memberships is only felt by the users it is about.
  lemma RegroupedKeepsOthers(db: Database, changed: map<int, set<int>>, k: int)
    requires k !in changed || (k in db.users && OwnerBlocked(db, db.users[k]))
    ensures Desired(Regrouped(db, changed), k) == Desired(db, k)
  {
    if k in db.users && k !in changed {
      TagsDependOn(db, Regrouped(db, changed), db.users[k], db.users[k]);
    }
  }

  lemma AddGroupsIsHonest(db: Database, users: set<int>, groups: set<int>)
    ensures Honest(db, AddGroups(db, users, groups))
  {
    var e := AddGroups(db, users, groups);
    var changed := map k | k in e.pushed :: db.users[k].groups + groups;
    forall k | !IsPushed(e.db, e.pushed, k) ensures Desired(e.db, k) == Desired(db, k) {
      RegroupedKeepsOthers(db, changed, k);
    }
    forall k ensures Desired(db, k) <= Desired(e.db, k) {
      assert k in db.users ==> db.users[k].groups <= e.db.users[k].groups;
    }
  }

  lemma TakeGroupsIsHonest(db: Database, users: set<int>, groups: set<int>)
    ensures Honest(db, TakeGroups(db, users, groups))
  {
    var e := TakeGroups(db, users, groups);
    var changed := map k | k in e.pushed :: db.users[k].groups - groups;
    forall k | !IsPushed(e.db, e.pushed, k) ensures Desired(e.db, k) == Desired(db, k) {
      RegroupedKeepsOthers(db, changed, k);
    }
  }

  // ---- The resync ----

  // Whether the resync replaces this node's users.
  predicate Resynced(f: Fleet, scope: Scope, node: Node) {
    && scope != Nowhere
    && (scope.Affecting? ==> scope.tags * StatefulCoreTags(f) != {})
    && Configured(node) * StatefulIds(f) != {}
  }

  // What a node may hold after the push and the resync of an edit.
  ghost predicate AfterEdit(f: Fleet, e: Edit, node: Node, was: Served, now: Served) {
    var tags := NodeTags(f, node);
    if Resynced(f, e.scope, node) then now == FullSet(e.db, tags)
    else Took(f, node, e.db, e.pushed, was, now)
  }

  // The node is found by its core ids, or has no state to lose.
  predicate Covered(f: Fleet, node: Node) {
    Configured(node) * StatefulIds(f) != {} || StateTags(f, node) == {}
  }

  predicate AllLoaded(f: Fleet, node: Node) {
    forall c :: c in Configured(node) ==> c in f.loaded
  }

  // The one way to miss a node: a core of its that could not be loaded is
  // replaced by a default core that holds state.
  lemma CoveredIff(f: Fleet, node: Node)
    requires ValidFleet(f)
    ensures Covered(f, node) <==>
            (Configured(node) * StatefulIds(f) != {} || AllLoaded(f, node)
             || DEFAULT_CORE !in f.loaded || !Stateful(f.loaded[DEFAULT_CORE]))
  {
    if Configured(node) * StatefulIds(f) == {} {
      assert forall c ::
        c in Configured(node) && c in f.loaded && Stateful(f.loaded[c]) ==> c in Configured(node) * StatefulIds(f);
      if c :| c in Configured(node) && c !in f.loaded && DEFAULT_CORE in f.loaded && Stateful(f.loaded[DEFAULT_CORE]) {
        assert Running(f, c) == Some(f.loaded[DEFAULT_CORE]);
        assert f.loaded[DEFAULT_CORE].stateTag in StateTags(f, node);
        assert !AllLoaded(f, node);
      } else {
        assert DEFAULT_CORE in f.loaded && Stateful(f.loaded[DEFAULT_CORE]) ==> AllLoaded(f, node);
        assert StateTags(f, node) == {};
      }
    }
  }

  // Inbounds with state are inbounds of stored stateful cores.
  lemma StateTagsAreKnown(f: Fleet, node: Node)
    requires ValidFleet(f)
    ensures StateTags(f, node) <= StatefulCoreTags(f) && StateTags(f, node) <= NodeTags(f, node)
  {
    forall t | t in StateTags(f, node) ensures t in StatefulCoreTags(f) {
      var c :|
        c in Configured(node) && Running(f, c).Some? && Stateful(Running(f, c).value) && t in Running(f, c).value.tags;
      var source := if c in f.loaded then c else DEFAULT_CORE;
      assert source in StatefulIds(f) && f.rows[source].stateTag == t;
    }
  }

  // Telling the node is enough when nothing with state is lost.
  lemma PushSufficesWithoutLoss(db: Database, after: Database, told: set<int>, tags: set<Tag>, stateTags: set<Tag>,
                                was: Served, now: Served)
    requires MatchedNode(db, tags, was) && OthersUnchanged(db, after, told) && stateTags <= tags
    requires AfterTold(after, tags, stateTags, told, was, now)
    requires forall id :: Lost(db, after, id) * stateTags == {}
    ensures MatchedNode(after, tags, now)
  {
    forall id ensures Serves(now, id) == Desired(after, id) * tags {
      assert Serves(was, id) == Desired(db, id) * tags;
      assert forall t ::
        t in Desired(db, id) * stateTags ==> t in Desired(after, id) || t in Lost(db, after, id) * stateTags;
    }
  }

  // Pruning is sound: a covered node whose users the resync skips ends as wanted,
  // whatever it forgets by itself; one whose users it replaces does so exactly when
  // what they are to have there fits the column.
  lemma PrunedResyncIsSound(f: Fleet, db: Database, e: Edit, node: Node, was: Served, now: Served)
    requires ValidFleet(f) && Honest(db, e) && Covered(f, node)
    requires MatchedNode(db, NodeTags(f, node), was) && AfterEdit(f, e, node, was, now)
    ensures MatchedNode(e.db, NodeTags(f, node), now) <==>
            (Resynced(f, e.scope, node) ==> ColumnSafe(e.db, NodeTags(f, node)))
  {
    var tags, stateTags := NodeTags(f, node), StateTags(f, node);
    FullSetMatchesIff(e.db, tags);
    if !Resynced(f, e.scope, node) {
      StateTagsAreKnown(f, node);
      forall id ensures Lost(db, e.db, id) * stateTags == {} {
        assert Lost(db, e.db, id) <= LossScope(db, e);
        if stateTags != {} {
          assert forall t :: t in Lost(db, e.db, id) * stateTags ==> t in LossScope(db, e) && t in StatefulCoreTags(f);
          assert e.scope.Affecting? ==> forall t ::
            t in e.scope.tags && t in StatefulCoreTags(f) ==> t in e.scope.tags * StatefulCoreTags(f);
        }
      }
      PushSufficesWithoutLoss(db, e.db, Told(e.db, e.pushed), tags, stateTags, was, now);
    }
  }

  // Disabling the groups that grant the inbound of a WireGuard or L2TP core takes it
  // from everybody on a node that is configured with the core, whatever the node
  // would have kept.
  lemma RevokedInboundIsGone(f: Fleet, db: Database, ids: set<int>, node: Node, c: int, was: Served, now: Served)
    requires HasCore(node, c) && NamedInbound(f, c)
    requires ids <= db.groups.Keys && CleanTags(db)
    requires exists g :: g in ids && !db.groups[g].isDisabled && f.rows[c].stateTag in db.groups[g].tags
    requires forall g ::
              g in db.groups && f.rows[c].stateTag in db.groups[g].tags ==> g in ids || db.groups[g].isDisabled
    requires AfterEdit(f, SetGroupsDisabled(db, ids, true), node, was, now)
    ensures forall id :: f.rows[c].stateTag !in Serves(now, id)
  {
    var e, tag := SetGroupsDisabled(db, ids, true), f.rows[c].stateTag;
    var g :| g in ids && !db.groups[g].isDisabled && tag in db.groups[g].tags;
    assert tag in e.scope.tags;
    ResyncedIff(f, e.scope, node);
    assert CleanTags(e.db);
    FullSetByRight(f, e.db, node);
    forall id ensures tag !in Serves(now, id) {
      assert !EntitledTo(e.db, id, tag);
    }
  }

  // Every node that is not covered can keep serving a user who lost access.
  lemma OrphanSurvives(f: Fleet, node: Node)
    requires ValidFleet(f) && !Covered(f, node)
    ensures exists db: Database, served: Served ::
              && 5 in db.groups
              && MatchedNode(db, NodeTags(f, node), served)
              && AfterEdit(f, SetGroupsDisabled(db, {5}, true), node, served, served)
              && !MatchedNode(SetGroupsDisabled(db, {5}, true).db, NodeTags(f, node), served)
  {
    var tag :| tag in StateTags(f, node);
    OrphanKeepsTag(f, node, tag);
  }

  // One user in one enabled group.
  function OneMember(tag: Tag): Database {
    Database(map[], map[], map[7 := User(None, UserActive, "", {5}, Limits(None, None, 0, None))],
      map[5 := Group(false, {tag})])
  }

  lemma OneMemberTags(tag: Tag)
    ensures Desired(OneMember(tag), 7) == {tag} && Desired(SetGroupsDisabled(OneMember(tag), {5}, true).db, 7) == {}
  {
    var db, after := OneMember(tag), SetGroupsDisabled(OneMember(tag), {5}, true).db;
    assert GroupGrants(db, 5) && !GroupGrants(after, 5);
    assert UserTags(db, db.users[7]) == {tag};
    assert UserTags(after, after.users[7]) == {};
  }

  // The node forgets nothing, and is not told to.
  lemma OrphanKeepsTag(f: Fleet, node: Node, tag: Tag)
    requires ValidFleet(f) && !Covered(f, node) && tag in StateTags(f, node)
    ensures var e, served := SetGroupsDisabled(OneMember(tag), {5}, true), map[7 := {tag}];
      && MatchedNode(OneMember(tag), NodeTags(f, node), served)
      && AfterEdit(f, e, node, served, served) && !MatchedNode(e.db, NodeTags(f, node), served)
  {
    var db, tags, stateTags := OneMember(tag), NodeTags(f, node), StateTags(f, node);
    var e, served := SetGroupsDisabled(db, {5}, true), map[7 := {tag}];
    OneMemberTags(tag);
    StateTagsAreKnown(f, node);
    assert Serves(served, 7) == {tag} && Desired(e.db, 7) * tags == {};
    assert {tag} * tags == {tag} && {tag} * stateTags == {tag} && {tag} - stateTags == {};
    assert !Resynced(f, e.scope, node);
    assert forall id :: id != 7 ==> Serves(served, id) == {} && Desired(db, id) == {};
  }

  // Such a node: it is configured with core 2, which does not load, and so runs
  // the default core, a WireGuard one.
  lemma SomeNodeIsNotCovered() returns (f: Fleet, node: Node)
    ensures ValidFleet(f) && node in f.nodes.Values && !Covered(f, node)
  {
    var wireGuard := Core(WireGuard, {"wg0"}, "wg0");
    node := Node(Some(2), []);
    f := Fleet(map[1 := wireGuard, 2 := Core(Xray, {}, "")], map[1 := wireGuard], map[3 := node]);
    assert f.nodes[3] == node;
    assert Running(f, 2) == Some(wireGuard) && 2 in Configured(node);
    assert "wg0" in StateTags(f, node);
    assert Configured(node) == {2} && StatefulIds(f) == {1};
  }

  // ---- The panel ----

  datatype Request =
    | Modify(id: int, group: Group)
    | Remove(id: int)
    | RemoveMany(ids: set<int>)
    | SetDisabled(ids: set<int>, disabled: bool)
    | Add(users: set<int>, groups: set<int>)
    | Take(users: set<int>, groups: set<int>)

  // None: the group does not exist.
  function Planned(db: Database, r: Request): Option<Edit> {
    match r
    case Modify(id, group) => if id in db.groups then Some(ModifyGroup(db, id, group)) else None
    case Remove(id) => if id in db.groups then Some(RemoveGroup(db, id)) else None
    case RemoveMany(ids) => if ids <= db.groups.Keys then Some(RemoveGroups(db, ids)) else None
    case SetDisabled(ids, disabled) =>
      if ids <= db.groups.Keys then Some(SetGroupsDisabled(db, ids, disabled)) else None
    case Add(users, groups) => if groups <= db.groups.Keys then Some(AddGroups(db, users, groups)) else None
    case Take(users, groups) => if groups <= db.groups.Keys then Some(TakeGroups(db, users, groups)) else None
  }

  lemma PlannedIsHonest(db: Database, r: Request)
    ensures Planned(db, r).Some? ==> Honest(db, Planned(db, r).value)
  {
    match r
    case Modify(id, group) => if id in db.groups { ModifyGroupIsHonest(db, id, group); }
    case Remove(id) => if id in db.groups { RemoveGroupIsHonest(db, id); }
    case RemoveMany(ids) => RemoveGroupsIsHonest(db, ids);
    case SetDisabled(ids, disabled) => if ids <= db.groups.Keys { SetGroupsDisabledIsHonest(db, ids, disabled); }
    case Add(users, groups) => AddGroupsIsHonest(db, users, groups);
    case Take(users, groups) => TakeGroupsIsHonest(db, users, groups);
  }

  // Wherever the edit is followed by a full set, that set fits its column.
  ghost predicate ColumnsFit(f: Fleet, e: Edit) {
    forall n :: n in f.nodes && Resynced(f, e.scope, f.nodes[n]) ==> ColumnSafe(e.db, NodeTags(f, f.nodes[n]))
  }

  function AfterRequest(db: Database, r: Request): Database {
    if Planned(db, r).Some? then Planned(db, r).value.db else db
  }

  // What a request leaves in the tables; one for an unknown group changes nothing.
  ghost predicate Stores(before: Database, r: Request, after: Database) {
    && after.roles == before.roles && after.admins == before.admins && after.users.Keys == before.users.Keys
    && (forall k :: k in before.users ==> after.users[k] == before.users[k].(groups := after.users[k].groups))
    && match r {
      case Modify(id, group) =>
        && after.users == before.users
        && (if id in before.groups then after.groups == before.groups[id := group] else after.groups == before.groups)
      case Remove(id) => if id in before.groups then LosesGroups(before, {id}, after) else after == before
      case RemoveMany(ids) => if ids <= before.groups.Keys then LosesGroups(before, ids, after) else after == before
      case SetDisabled(ids, disabled) =>
        if ids <= before.groups.Keys then Switches(before, ids, disabled, after) else after == before
      case Add(users, groups) =>
        if groups <= before.groups.Keys then Regroups(before, users, groups, {}, after) else after == before
      case Take(users, groups) =>
        if groups <= before.groups.Keys then Regroups(before, users, {}, groups, after) else after == before
    }
  }

  ghost predicate Switches(before: Database, ids: set<int>, disabled: bool, after: Database) {
    && after.users == before.users && after.groups.Keys == before.groups.Keys
    && forall g :: g in before.groups ==>
         after.groups[g] == Group(if g in ids then disabled else before.groups[g].isDisabled, before.groups[g].tags)
  }

  ghost predicate Regroups(before: Database, users: set<int>, added: set<int>, taken: set<int>, after: Database) {
    && after.groups == before.groups && after.users.Keys == before.users.Keys
    && forall k :: k in before.users ==>
         after.users[k].groups ==
           (if k in users then before.users[k].groups + added - taken else before.users[k].groups)
  }

  ghost predicate LosesGroups(before: Database, ids: set<int>, after: Database) {
    && after.groups.Keys == before.groups.Keys - ids
    && (forall g :: g in after.groups ==> after.groups[g] == before.groups[g])
    && forall k :: k in before.users && k in after.users ==> after.users[k].groups == before.users[k].groups - ids
  }

  lemma WithoutGroupsLoses(db: Database, ids: set<int>)
    ensures LosesGroups(db, ids, WithoutGroups(db, ids))
  {
  }

  lemma AfterRequestStores(db: Database, r: Request)
    ensures Stores(db, r, AfterRequest(db, r))
  {
    match r
    case Modify(_, _) =>
    case Remove(_) =>
    case RemoveMany(_) =>
    case SetDisabled(ids, disabled) => SetGroupsDisabledSwitches(db, ids, disabled);
    case Add(users, groups) => AddGroupsRegroups(db, users, groups);
    case Take(users, groups) => TakeGroupsRegroups(db, users, groups);
  }

  lemma SetGroupsDisabledSwitches(db: Database, ids: set<int>, disabled: bool)
    ensures ids <= db.groups.Keys ==> Switches(db, ids, disabled, SetGroupsDisabled(db, ids, disabled).db)
  {
  }

  lemma AddGroupsRegroups(db: Database, users: set<int>, groups: set<int>)
    ensures Regroups(db, users, groups, {}, AddGroups(db, users, groups).db)
  {
    forall k | k in db.users && k in users && groups <= db.users[k].groups
      ensures db.users[k].groups + groups - {} == db.users[k].groups {
    }
    forall k | k in db.users && k in users
      ensures db.users[k].groups + groups - {} == db.users[k].groups + groups {
    }
  }

  lemma TakeGroupsRegroups(db: Database, users: set<int>, groups: set<int>)
    ensures Regroups(db, users, {}, groups, TakeGroups(db, users, groups).db)
  {
    forall k | k in db.users ensures db.users[k].groups + {} - groups == db.users[k].groups - groups {
    }
    forall k | k in db.users && db.users[k].groups * groups == {}
      ensures db.users[k].groups - groups == db.users[k].groups {
      assert forall g :: g in db.users[k].groups ==> g !in groups || g in db.users[k].groups * groups;
    }
  }

  function AfterRequests(db: Database, rs: seq<Request>): Database {
    if rs == [] then db else AfterRequest(AfterRequests(db, rs[..|rs|-1]), rs[|rs|-1])
  }

  ghost predicate RequestFits(f: Fleet, db: Database, r: Request) {
    Planned(db, r).Some? ==> ColumnsFit(f, Planned(db, r).value)
  }

  ghost predicate AllRequestsFit(f: Fleet, db: Database, rs: seq<Request>) {
    rs == [] ||
    (AllRequestsFit(f, db, rs[..|rs|-1]) && RequestFits(f, AfterRequests(db, rs[..|rs|-1]), rs[|rs|-1]))
  }

  // They do as long as nobody grants a tag with a comma.
  lemma {:induction false} CleanRequestsFit(f: Fleet, db: Database, rs: seq<Request>)
    requires CleanTags(db) && forall r :: r in rs && r.Modify? ==> CleanGroup(r.group)
    ensures AllRequestsFit(f, db, rs) && CleanTags(AfterRequests(db, rs))
  {
    if rs != [] {
      var front, last := rs[..|rs|-1], rs[|rs|-1];
      assert last in rs && forall r :: r in front ==> r in rs;
      CleanRequestsFit(f, db, front);
      var before := AfterRequests(db, front);
      RequestKeepsClean(before, last);
      if Planned(before, last).Some? {
        forall n | n in f.nodes ensures ColumnSafe(Planned(before, last).value.db, NodeTags(f, f.nodes[n])) {
          CleanTagsAreSafe(Planned(before, last).value.db, NodeTags(f, f.nodes[n]));
        }
      }
    }
  }

  lemma RequestKeepsClean(db: Database, r: Request)
    requires CleanTags(db) && (r.Modify? ==> CleanGroup(r.group))
    ensures CleanTags(AfterRequest(db, r))
  {
    match r
    case Modify(_, _) =>
    case Remove(_) =>
    case RemoveMany(_) =>
    case SetDisabled(_, _) =>
    case Add(_, _) =>
    case Take(_, _) =>
  }

  class Panel {
    const fleet: Fleet
    var db: Database
    var served: map<int, Served>

    constructor (fleet: Fleet, db: Database, served: map<int, Served>)
      ensures this.fleet == fleet && this.db == db && this.served == served
    {
      this.fleet, this.db, this.served := fleet, db, served;
    }

    ghost predicate Settled(reachable: set<int>) reads this {
      && ValidFleet(fleet)
      && forall n :: n in reachable && n in fleet.nodes && Covered(fleet, fleet.nodes[n]) ==>
           n in served && MatchedNode(db, NodeTags(fleet, fleet.nodes[n]), served[n])
    }

    // Pushes to every registered node; `stays` is what each node may keep.
    method SyncUsers(pushed: set<int>, stays: map<int, Served>)
      modifies this`served
      ensures served.Keys == old(served).Keys
      ensures forall n :: n in served && n in fleet.nodes ==>
                Took(fleet, fleet.nodes[n], db, pushed, old(served)[n], served[n])
    {
      ghost var before, done := served, {};
      var nodes := IterationOrder(served.Keys * fleet.nodes.Keys);
      var users := IterationOrder(pushed);
      for i := 0 to |nodes|
        invariant served.Keys == before.Keys
        invariant forall n :: n in done <==> n in nodes[..i]
        invariant forall n :: n in served && n !in done ==> served[n] == before[n]
        invariant forall n :: n in done ==>
                    n in served && n in fleet.nodes && Took(fleet, fleet.nodes[n], db, pushed, before[n], served[n])
      {
        var n := nodes[i];
        assert n in nodes && n !in nodes[..i];
        var now := UpdateUsers(fleet.nodes[n], served[n], users, pushed, Staying(stays, n));
        served := served[n := now];
        done := done + {n};
      }
      assert nodes[..|nodes|] == nodes;
      assert forall n :: n in served && n in fleet.nodes ==> n in before.Keys * fleet.nodes.Keys;
    }

    // One node takes the users one after another.
    method UpdateUsers(node: Node, was: Served, users: seq<int>, ghost pushed: set<int>, stays: Served)
      returns (now: Served)
      requires forall id :: id in users <==> id in pushed
      requires forall i, j :: 0 <= i < j < |users| ==> users[i] != users[j]
      ensures Took(fleet, node, db, pushed, was, now)
    {
      var tags, stateTags := NodeTags(fleet, node), StateTags(fleet, node);
      ghost var told := Told(db, pushed);
      now := was;
      for i := 0 to |users|
        invariant forall id :: id !in users[..i] || id !in told ==> Serves(now, id) == Serves(was, id)
        invariant forall id :: id in users[..i] && id in told ==>
                    Effect(Desired(db, id) * tags, stateTags, Serves(was, id), Serves(now, id))
      {
        var id := users[i];
        assert id in users && id !in users[..i];
        if id in db.users && !OwnerBlocked(db, db.users[id]) {
          now := now[id := Desired(db, id) * tags + Serves(now, id) * stateTags * Serves(stays, id)];
          MessageTakesEffect(Desired(db, id) * tags, stateTags, Serves(was, id), Serves(stays, id));
        }
      }
      assert users[..|users|] == users;
    }

    lemma MessageTakesEffect(wanted: set<Tag>, stateTags: set<Tag>, was: set<Tag>, stays: set<Tag>)
      ensures Effect(wanted, stateTags, was, wanted + was * stateTags * stays)
    {
    }

    // Replaces the users of every registered node with state; a node that does
    // not answer keeps what it has.
    method FullResyncStatefulNodes(scope: Scope, answering: set<int>)
      requires scope != Nowhere
      modifies this`served
      ensures served.Keys == old(served).Keys
      ensures forall n :: n in served ==>
                served[n] == if n in answering && n in fleet.nodes && Resynced(fleet, scope, fleet.nodes[n])
                             then FullSet(db, NodeTags(fleet, fleet.nodes[n])) else old(served)[n]
      ensures forall n :: n in served ==>
                if n in answering && n in fleet.nodes && KeepsState(fleet, fleet.nodes[n]) &&
                  ConcernsState(fleet, scope)
                then CleanTags(db) ==> ServesByRight(fleet, db, fleet.nodes[n], served[n])
                else served[n] == old(served)[n]
    {
      forall n | n in fleet.nodes
        ensures Resynced(fleet, scope, fleet.nodes[n]) <==>
                  KeepsState(fleet, fleet.nodes[n]) && ConcernsState(fleet, scope)
        ensures CleanTags(db) ==>
                  ServesByRight(fleet, db, fleet.nodes[n], FullSet(db, NodeTags(fleet, fleet.nodes[n])))
      {
        ResyncedIff(fleet, scope, fleet.nodes[n]);
        if CleanTags(db) {
          FullSetByRight(fleet, db, fleet.nodes[n]);
        }
      }
      var statefulIds := StatefulIds(fleet);
      if statefulIds == {} {
        return;
      }
      if scope.Affecting? && scope.tags * StatefulCoreTags(fleet) == {} {
        return;
      }
      var nodes := IterationOrder(fleet.nodes.Keys);
      for i := 0 to |nodes|
        invariant served.Keys == old(served).Keys
        invariant forall n :: n in served ==>
                    served[n] == if n in nodes[..i] && n in answering && Resynced(fleet, scope, fleet.nodes[n])
                                 then FullSet(db, NodeTags(fleet, fleet.nodes[n])) else old(served)[n]
      {
        var n := nodes[i];
        assert n in nodes && n !in nodes[..i];
        var node := fleet.nodes[n];
        var coreIds := CoreIds(node);
        var ids := set c | c in coreIds;
        assert ids == Configured(node);
        if ids * statefulIds != {} && n in served && n in answering {
          var tags := InboundTags(coreIds);
          TagsByIds(node, coreIds);
          served := served[n := FullSet(db, tags)];
        }
      }
    }

    function InboundTags(coreIds: seq<int>): set<Tag> {
      set i, t | 0 <= i < |coreIds| && Running(fleet, coreIds[i]).Some? &&
        t in Running(fleet, coreIds[i]).value.tags :: t
    }

    lemma TagsByIds(node: Node, coreIds: seq<int>)
      requires forall c :: c in coreIds <==> c in Configured(node)
      ensures InboundTags(coreIds) == NodeTags(fleet, node)
    {
      forall t ensures t in InboundTags(coreIds) <==> t in NodeTags(fleet, node) {
        if t in NodeTags(fleet, node) {
          var c :| c in Configured(node) && Running(fleet, c).Some? && t in Running(fleet, c).value.tags;
          assert c in coreIds;
        }
        if t in InboundTags(coreIds) {
          var i :| 0 <= i < |coreIds| && Running(fleet, coreIds[i]).Some? && t in Running(fleet, coreIds[i]).value.tags;
          assert coreIds[i] in Configured(node);
        }
      }
    }

    // One group request: write, push, resync.
    method Handle(r: Request, stays: map<int, Served>, answering: set<int>)
      modifies this
      ensures RequestFits(fleet, old(db), r) ==>
                forall reachable :: reachable <= answering && old(Settled(reachable)) ==> Settled(reachable)
      ensures db == AfterRequest(old(db), r) && Stores(old(db), r, db)
    {
      AfterRequestStores(db, r);
      ghost var before, was := db, served;
      var plan := Planned(db, r);
      if plan.None? {
        return;
      }
      PlannedIsHonest(db, r);
      var e := plan.value;
      db := e.db;
      SyncUsers(e.pushed, stays);
      if e.scope != Nowhere {
        FullResyncStatefulNodes(e.scope, answering);
      }
      if ColumnsFit(fleet, e) {
        forall reachable | reachable <= answering && old(Settled(reachable)) ensures Settled(reachable) {
          forall n | n in reachable && n in fleet.nodes && Covered(fleet, fleet.nodes[n])
            ensures n in served && MatchedNode(db, NodeTags(fleet, fleet.nodes[n]), served[n]) {
            PrunedResyncIsSound(fleet, before, e, fleet.nodes[n], was[n], served[n]);
          }
        }
      }
    }

    // Nodes that answer throughout end every run of group requests as wanted, as
    // long as no full set on the way breaks up a tag with a comma.
    method Run(requests: seq<Request>, stays: seq<map<int, Served>>, answering: set<int>)
      requires |stays| == |requests|
      modifies this
      ensures old(Settled(answering)) && AllRequestsFit(fleet, old(db), requests) ==> Settled(answering)
      ensures db == AfterRequests(old(db), requests)
    {
      for i := 0 to |requests|
        invariant old(Settled(answering)) && AllRequestsFit(fleet, old(db), requests[..i]) ==> Settled(answering)
        invariant db == AfterRequests(old(db), requests[..i])
      {
        assert requests[..i+1][..i] == requests[..i];
        Handle(requests[i], stays[i], answering);
      }
      assert requests[..|requests|] == requests;
    }
  }

  function Staying(stays: map<int, Served>, node: int): Served {
    if node in stays then stays[node] else map[]
  }
}
