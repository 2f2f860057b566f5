// Nodes whose inbounds hold state, over runs of ordinary changes. A group request
// that takes something away is followed by a full resync; changes of single users
// and of admins are not, so what is lost there can stay alive on such a node.
module StatefulNodes {
  import opened Options
  import opened PanelData
  import opened GroupResync

  // One change of the tables, and the users the node was told about after it.
  datatype Change = Change(db: Database, told: set<int>)

  function LastDb(origin: Database, changes: seq<Change>): Database {
    if changes == [] then origin else changes[|changes|-1].db
  }

  // What the node may hold after the changes: every message settles what it is
  // about, but of the inbounds with state any old ones may stay.
  ghost predicate Reaches(tags: set<Tag>, stateTags: set<Tag>, was: Served, changes: seq<Change>, now: Served) {
    if changes == [] then now == was else
    var front, last := changes[..|changes|-1], changes[|changes|-1];
    exists mid :: Reaches(tags, stateTags, was, front, mid) && AfterTold(last.db, tags, stateTags, last.told, mid, now)
  }

  // What the user was to have when the node was last told about it.
  function LastWish(tags: set<Tag>, was: Served, changes: seq<Change>, id: int): set<Tag> {
    if changes == [] then Serves(was, id) else
    var last := changes[|changes|-1];
    if id in last.told then Desired(last.db, id) * tags else LastWish(tags, was, changes[..|changes|-1], id)
  }

  // Everything the node was ever told to give the user.
  function Ever(tags: set<Tag>, was: Served, changes: seq<Change>, id: int): set<Tag> {
    if changes == [] then Serves(was, id) else
    var last := changes[|changes|-1];
    var before := Ever(tags, was, changes[..|changes|-1], id);
    if id in last.told then before + Desired(last.db, id) * tags else before
  }

  lemma {:induction false} EverHoldsLast(tags: set<Tag>, was: Served, changes: seq<Change>, id: int)
    ensures LastWish(tags, was, changes, id) <= Ever(tags, was, changes, id)
  {
    if changes != [] {
      EverHoldsLast(tags, was, changes[..|changes|-1], id);
    }
  }

  // ---- What always holds ----

  // Inbounds without state are exactly as last told, none that was told is
  // missing, and what is too much was told once.
  lemma {:induction false} AlwaysBetween(tags: set<Tag>, stateTags: set<Tag>, was: Served, changes: seq<Change>,
                                         now: Served, id: int)
    requires Reaches(tags, stateTags, was, changes, now)
    ensures var wish := LastWish(tags, was, changes, id);
      && Serves(now, id) - stateTags == wish - stateTags
      && wish <= Serves(now, id) <= wish + Ever(tags, was, changes, id) * stateTags
  {
    if changes != [] {
      var front, last := changes[..|changes|-1], changes[|changes|-1];
      var mid :| Reaches(tags, stateTags, was, front, mid) && AfterTold(last.db, tags, stateTags, last.told, mid, now);
      AlwaysBetween(tags, stateTags, was, front, mid, id);
      EverHoldsLast(tags, was, front, id);
    }
  }

  // ---- The node that forgets nothing, and the one that forgets all it can ----

  function Known(was: Served, changes: seq<Change>): set<int> {
    if changes == [] then was.Keys else Known(was, changes[..|changes|-1]) + changes[|changes|-1].db.users.Keys
  }

  lemma {:induction false} UnknownNeverTold(tags: set<Tag>, was: Served, changes: seq<Change>, id: int)
    requires id !in Known(was, changes)
    ensures Ever(tags, was, changes, id) == {}
  {
    if changes != [] {
      UnknownNeverTold(tags, was, changes[..|changes|-1], id);
    }
  }

  // The node that kept `stays` of all it was ever told.
  function Holding(tags: set<Tag>, was: Served, changes: seq<Change>, stays: set<Tag>): Served {
    map id | id in Known(was, changes) :: LastWish(tags, was, changes, id) + Ever(tags, was, changes, id) * stays
  }

  lemma HoldingAt(tags: set<Tag>, was: Served, changes: seq<Change>, stays: set<Tag>, id: int)
    ensures Serves(Holding(tags, was, changes, stays), id) ==
            LastWish(tags, was, changes, id) + Ever(tags, was, changes, id) * stays
  {
    if id !in Known(was, changes) {
      UnknownNeverTold(tags, was, changes, id);
      EverHoldsLast(tags, was, changes, id);
    }
  }

  lemma {:induction false} HoldingIsReached(tags: set<Tag>, stateTags: set<Tag>, was: Served, changes: seq<Change>,
                                            stays: set<Tag>) returns (now: Served)
    requires stays <= stateTags
    ensures Reaches(tags, stateTags, was, changes, now)
    ensures forall id :: Serves(now, id) == LastWish(tags, was, changes, id) + Ever(tags, was, changes, id) * stays
  {
    if changes == [] {
      now := was;
    } else {
      var front, last := changes[..|changes|-1], changes[|changes|-1];
      var mid := HoldingIsReached(tags, stateTags, was, front, stays);
      now := Holding(tags, was, changes, stays);
      forall id
        ensures if id in last.told then Effect(Desired(last.db, id) * tags, stateTags, Serves(mid, id), Serves(now, id))
                else Serves(now, id) == Serves(mid, id) {
        HoldingAt(tags, was, changes, stays, id);
        TellingHolder(stateTags, stays, Desired(last.db, id) * tags, LastWish(tags, was, front, id),
          Ever(tags, was, front, id));
      }
      assert AfterTold(last.db, tags, stateTags, last.told, mid, now);
      forall id ensures Serves(now, id) == LastWish(tags, was, changes, id) + Ever(tags, was, changes, id) * stays {
        HoldingAt(tags, was, changes, stays, id);
      }
    }
  }

  lemma TellingHolder(stateTags: set<Tag>, stays: set<Tag>, wanted: set<Tag>, before: set<Tag>, ever: set<Tag>)
    requires stays <= stateTags
    ensures Effect(wanted, stateTags, before + ever * stays, wanted + (ever + wanted) * stays)
  {
  }

  // ---- The exact condition ----

  ghost predicate SettlesAnyway(db: Database, tags: set<Tag>, stateTags: set<Tag>, was: Served, changes: seq<Change>) {
    forall now :: Reaches(tags, stateTags, was, changes, now) ==> MatchedNode(db, tags, now)
  }

  // What the node was last told is what is wanted now.
  ghost predicate NothingDrifted(db: Database, tags: set<Tag>, was: Served, changes: seq<Change>) {
    forall id :: LastWish(tags, was, changes, id) == Desired(db, id) * tags
  }

  // No inbound with state that the node was ever told of is one the user lost.
  ghost predicate NothingStatefulLost(db: Database, tags: set<Tag>, stateTags: set<Tag>, was: Served,
                                      changes: seq<Change>) {
    forall id :: Ever(tags, was, changes, id) * stateTags <= Desired(db, id)
  }

  // Whatever the node held at first and however many changes it was not told of:
  // without a full resync it is certain to be as wanted in the end exactly when
  // nobody's wish has changed since it was last told about them, and nobody has
  // lost an inbound that holds state.
  lemma RunSettlesIff(db: Database, tags: set<Tag>, stateTags: set<Tag>, was: Served, changes: seq<Change>)
    requires stateTags <= tags
    ensures SettlesAnyway(db, tags, stateTags, was, changes) <==>
            (NothingDrifted(db, tags, was, changes) && NothingStatefulLost(db, tags, stateTags, was, changes))
  {
    if NothingDrifted(db, tags, was, changes) && NothingStatefulLost(db, tags, stateTags, was, changes) {
      forall now | Reaches(tags, stateTags, was, changes, now) ensures MatchedNode(db, tags, now) {
        forall id ensures Serves(now, id) == Desired(db, id) * tags {
          AlwaysBetween(tags, stateTags, was, changes, now, id);
          assert Ever(tags, was, changes, id) * stateTags <= Desired(db, id) * tags;
        }
      }
    }
    if SettlesAnyway(db, tags, stateTags, was, changes) {
      var lean := HoldingIsReached(tags, stateTags, was, changes, {});
      var hoard := HoldingIsReached(tags, stateTags, was, changes, stateTags);
      assert MatchedNode(db, tags, lean) && MatchedNode(db, tags, hoard);
      forall id ensures LastWish(tags, was, changes, id) == Desired(db, id) * tags
                ensures Ever(tags, was, changes, id) * stateTags <= Desired(db, id) {
        assert Serves(lean, id) == Desired(db, id) * tags == Serves(hoard, id);
      }
    }
  }

  // ---- Runs whose messages reach everyone concerned ----

  // After each change, users the node was not told about want what they wanted.
  ghost predicate HonestRun(origin: Database, changes: seq<Change>) {
    changes == [] ||
    (var front, last := changes[..|changes|-1], changes[|changes|-1];
     HonestRun(origin, front) && OthersUnchanged(LastDb(origin, front), last.db, last.told))
  }

  lemma {:induction false} HonestRunsDoNotDrift(origin: Database, tags: set<Tag>, was: Served, changes: seq<Change>)
    requires MatchedNode(origin, tags, was) && HonestRun(origin, changes)
    ensures NothingDrifted(LastDb(origin, changes), tags, was, changes)
  {
    if changes != [] {
      HonestRunsDoNotDrift(origin, tags, was, changes[..|changes|-1]);
    }
  }

  // For them only what is lost matters.
  lemma HonestRunSettlesIff(origin: Database, tags: set<Tag>, stateTags: set<Tag>, was: Served, changes: seq<Change>)
    requires MatchedNode(origin, tags, was) && HonestRun(origin, changes) && stateTags <= tags
    ensures SettlesAnyway(LastDb(origin, changes), tags, stateTags, was, changes) <==>
            NothingStatefulLost(LastDb(origin, changes), tags, stateTags, was, changes)
  {
    HonestRunsDoNotDrift(origin, tags, was, changes);
    RunSettlesIff(LastDb(origin, changes), tags, stateTags, was, changes);
  }

  // ---- One change ----

  // A single change and its messages settle the node for certain exactly when
  // no user loses an inbound with state by it.
  lemma ChangeSettlesIff(db: Database, after: Database, told: set<int>, tags: set<Tag>, stateTags: set<Tag>,
                         was: Served)
    requires MatchedNode(db, tags, was) && OthersUnchanged(db, after, told) && stateTags <= tags
    ensures (forall now :: AfterTold(after, tags, stateTags, told, was, now) ==> MatchedNode(after, tags, now)) <==>
            forall id :: Lost(db, after, id) * stateTags == {}
  {
    if forall id :: Lost(db, after, id) * stateTags == {} {
      forall now | AfterTold(after, tags, stateTags, told, was, now) ensures MatchedNode(after, tags, now) {
        PushSufficesWithoutLoss(db, after, told, tags, stateTags, was, now);
      }
    }
    if forall now :: AfterTold(after, tags, stateTags, told, was, now) ==> MatchedNode(after, tags, now) {
      var now := KeepsEverything(after, told, tags, stateTags, was);
      forall id ensures Lost(db, after, id) * stateTags == {} {
        assert Serves(was, id) == Desired(db, id) * tags && Serves(now, id) == Desired(after, id) * tags;
        assert forall t :: t in Lost(db, after, id) * stateTags ==> t in Serves(was, id) * stateTags;
        assert forall t :: t in Lost(db, after, id) * stateTags ==> t in Serves(now, id);
      }
    }
  }

  lemma KeepsEverything(after: Database, told: set<int>, tags: set<Tag>, stateTags: set<Tag>, was: Served)
    returns (now: Served)
    ensures AfterTold(after, tags, stateTags, told, was, now)
    ensures forall id :: Serves(was, id) * stateTags <= Serves(now, id)
  {
    now := map id | id in was.Keys + after.users.Keys ::
      if id in told then Desired(after, id) * tags + Serves(was, id) * stateTags else Serves(was, id);
  }

  // User 7 is taken out of its group by an edit of the user, and the node is told:
  // its WireGuard peer may stay all the same.
  lemma UserEditLeavesPeer() returns (db: Database, after: Database, was: Served)
    ensures OthersUnchanged(db, after, {7}) && 7 in after.users && !OwnerBlocked(after, after.users[7])
    ensures AfterTold(after, {"wg0"}, {"wg0"}, {7}, was, was)
    ensures MatchedNode(db, {"wg0"}, was) && !MatchedNode(after, {"wg0"}, was)
  {
    var tags: set<Tag> := {"wg0"};
    db := OneMember("wg0");
    after := db.(users := db.users[7 := db.users[7].(groups := {})]);
    was := map[7 := tags];
    OneMemberTags("wg0");
    assert UserTags(after, after.users[7]) == {};
    assert Serves(was, 7) == Desired(db, 7) * tags == tags && Desired(after, 7) * tags == {};
    assert tags - tags == {} && tags * tags == tags;
    assert forall id :: id != 7 ==> Serves(was, id) == Desired(db, id) * tags == {};
  }
}
