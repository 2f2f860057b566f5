// The cores every worker keeps in memory. A worker applies a change locally,
// then broadcasts it; every worker, the writer included, handles all broadcasts
// in one order. The id-to-core maps converge; the merged inbound table, which
// depends on dictionary order, converges only when cores do not disagree on a tag.
module CoreReplicas {
  import opened Iteration
  import opened Options

  // The part of a validated core the manager reads.
  datatype Core = Core(inboundsByTag: map<string, string>)

  // A core's class validates its configuration; this is deterministic, so every
  // worker accepts the same configurations and builds the same cores.
  type Validator = string -> Option<Core>

  datatype Message = Update(id: int, config: string) | Remove(id: int)

  // A Python dict: its keys in insertion order, and what they map to.
  datatype Cores = Cores(order: seq<int>, byId: map<int, Core>) {
    ghost predicate Valid() {
      && (forall i, j :: 0 <= i < j < |order| ==> order[i] != order[j])
      && (forall id :: id in order <==> id in byId)
    }
  }

  const NO_CORES := Cores([], map[])

  // Assignment keeps an existing key in its place and appends a new one.
  function Put(d: Cores, id: int, core: Core): Cores {
    Cores(if id in d.byId then d.order else d.order + [id], d.byId[id := core])
  }

  function WithoutId(order: seq<int>, id: int): seq<int> {
    if order == [] then []
    else if order[0] == id then WithoutId(order[1..], id)
    else [order[0]] + WithoutId(order[1..], id)
  }

  function Del(d: Cores, id: int): Cores {
    Cores(WithoutId(d.order, id), d.byId - {id})
  }

  lemma {:induction false} WithoutIdKeeps(order: seq<int>, id: int)
    ensures forall x :: x in WithoutId(order, id) <==> x in order && x != id
    ensures (forall i, j :: 0 <= i < j < |order| ==> order[i] != order[j]) ==>
      forall i, j :: 0 <= i < j < |WithoutId(order, id)| ==> WithoutId(order, id)[i] != WithoutId(order, id)[j]
  {
    if order != [] {
      WithoutIdKeeps(order[1..], id);
      assert order == [order[0]] + order[1..];
      if forall i, j :: 0 <= i < j < |order| ==> order[i] != order[j] {
        assert order[0] !in order[1..];
        assert forall i, j :: 0 <= i < j < |order[1..]| ==> order[1..][i] == order[i+1] && order[1..][j] == order[j+1];
      }
    }
  }

  // What one change does to a worker's cores: a broken configuration is skipped.
  function Apply(validate: Validator, d: Cores, m: Message): Cores {
    match m
    case Update(id, config) =>
      var core := validate(config);
      if core.Some? then Put(d, id, core.value) else d
    case Remove(id) => if id in d.byId then Del(d, id) else d
  }

  lemma ApplyKeepsValid(validate: Validator, d: Cores, m: Message)
    requires d.Valid()
    ensures Apply(validate, d, m).Valid()
  {
    if m.Remove? {
      WithoutIdKeeps(d.order, m.id);
    }
  }

  // ---- The merged inbound table ----

  // Later cores overwrite the tags of earlier ones.
  function Merged(order: seq<int>, byId: map<int, Core>): map<string, string> {
    if order == [] then map[] else
    var front, last := order[..|order|-1], order[|order|-1];
    if last in byId then Merged(front, byId) + byId[last].inboundsByTag else Merged(front, byId)
  }

  function Table(d: Cores): map<string, string> {
    Merged(d.order, d.byId)
  }

  class CoreManager {
    const validate: Validator
    var cores: Cores
    var inbounds: seq<string>
    var inboundsByTag: map<string, string>

    ghost predicate Valid()
      reads this
    {
      && cores.Valid()
      && inboundsByTag == Table(cores)
      && (forall tag :: tag in inbounds <==> tag in inboundsByTag)
      && (forall i, j :: 0 <= i < j < |inbounds| ==> inbounds[i] != inbounds[j])
    }

    constructor (validate: Validator)
      ensures Valid() && cores == NO_CORES && this.validate == validate
    {
      this.validate := validate;
      cores, inbounds, inboundsByTag := NO_CORES, [], map[];
    }

    method UpdateInbounds()
      requires cores.Valid()
      modifies this`inbounds, this`inboundsByTag
      ensures Valid()
    {
      var merged: map<string, string> := map[];
      for i := 0 to |cores.order|
        invariant merged == Merged(cores.order[..i], cores.byId)
      {
        assert cores.order[..i+1][..i] == cores.order[..i];
        assert cores.order[i] in cores.order;
        merged := merged + cores.byId[cores.order[i]].inboundsByTag;
      }
      assert cores.order[..|cores.order|] == cores.order;
      inboundsByTag := merged;
      inbounds := IterationOrder(inboundsByTag.Keys);
    }

    // `prepared` is the core the caller has already built from the configuration.
    method UpdateCoreLocal(id: int, config: string, prepared: Option<Core>)
      requires Valid() && (prepared.Some? ==> validate(config) == prepared)
      modifies this
      ensures Valid() && cores == Apply(validate, old(cores), Update(id, config))
    {
      ApplyKeepsValid(validate, cores, Update(id, config));
      var core := prepared;
      if core.None? {
        core := validate(config);
        if core.None? {
          return;
        }
      }
      cores := Put(cores, id, core.value);
      UpdateInbounds();
    }

    method RemoveCoreLocal(id: int)
      requires Valid()
      modifies this
      ensures Valid() && cores == Apply(validate, old(cores), Remove(id))
    {
      ApplyKeepsValid(validate, cores, Remove(id));
      if id !in cores.byId {
        return;
      }
      cores := Del(cores, id);
      UpdateInbounds();
    }

    method HandleCoreMessage(m: Message)
      requires Valid()
      modifies this
      ensures Valid() && cores == Apply(validate, old(cores), m)
    {
      match m
      case Remove(id) => RemoveCoreLocal(id);
      case Update(id, config) => UpdateCoreLocal(id, config, None);
    }
  }

  // ---- Workers, their unpublished messages, and the broadcast log ----

  datatype Worker = Worker(cores: Cores, outbox: seq<Message>, cursor: nat)

  datatype System = System(workers: seq<Worker>, log: seq<Message>)

  datatype Step =
    | Write(worker: nat, message: Message)    // apply locally, then publish
    | Publish(worker: nat, index: nat)        // any unpublished message of the worker
    | Deliver(worker: nat)                    // handle the next message of the log

  predicate Enabled(s: System, step: Step) {
    && step.worker < |s.workers|
    && (step.Publish? ==> step.index < |s.workers[step.worker].outbox|)
    && (step.Deliver? ==> s.workers[step.worker].cursor < |s.log|)
  }

  function Do(validate: Validator, s: System, step: Step): System
    requires Enabled(s, step)
  {
    var w := s.workers[step.worker];
    match step
    case Write(i, m) =>
      s.(workers := s.workers[i := w.(cores := Apply(validate, w.cores, m), outbox := w.outbox + [m])])
    case Publish(i, k) =>
      System(s.workers[i := w.(outbox := w.outbox[..k] + w.outbox[k+1..])], s.log + [w.outbox[k]])
    case Deliver(i) =>
      s.(workers := s.workers[i := w.(cores := Apply(validate, w.cores, s.log[w.cursor]), cursor := w.cursor + 1)])
  }

  ghost predicate RunOf(validate: Validator, s: System, steps: seq<Step>, end: System)
    decreases |steps|
  {
    if steps == [] then s == end
    else Enabled(s, steps[0]) && RunOf(validate, Do(validate, s, steps[0]), steps[1..], end)
  }

  function Initial(base: Cores, workers: nat): System {
    System(seq(workers, _ => Worker(base, [], 0)), [])
  }

  // Everything published and everything handled.
  predicate Quiet(s: System) {
    forall i :: 0 <= i < |s.workers| ==> s.workers[i].outbox == [] && s.workers[i].cursor == |s.log|
  }

  // A message that changes what a core id maps to.
  predicate Touches(validate: Validator, m: Message, id: int) {
    m.id == id && (m.Update? ==> validate(m.config).Some?)
  }

  // The last message in the log that touches an id decides it.
  function Decided(validate: Validator, base: Cores, log: seq<Message>, id: int): Option<Core> {
    if log == [] then Get(base.byId, id)
    else
      var last := log[|log|-1];
      if !Touches(validate, last, id) then Decided(validate, base, log[..|log|-1], id)
      else if last.Update? then validate(last.config)
      else None
  }

  // Some change to the id has not reached the worker through the log yet.
  ghost predicate Unsettled(validate: Validator, s: System, w: Worker, id: int)
    requires w.cursor <= |s.log|
  {
    || (exists m :: m in w.outbox && Touches(validate, m, id))
    || (exists k :: w.cursor <= k < |s.log| && Touches(validate, s.log[k], id))
  }

  ghost predicate Inv(validate: Validator, base: Cores, s: System) {
    forall i :: 0 <= i < |s.workers| ==>
      && s.workers[i].cores.Valid()
      && s.workers[i].cursor <= |s.log|
      && forall id :: !Unsettled(validate, s, s.workers[i], id) ==>
           Get(s.workers[i].cores.byId, id) == Decided(validate, base, s.log[..s.workers[i].cursor], id)
  }

  lemma ApplyAt(validate: Validator, d: Cores, m: Message, id: int)
    ensures Get(Apply(validate, d, m).byId, id)
         == if !Touches(validate, m, id) then Get(d.byId, id) else if m.Update? then validate(m.config) else None
  {
  }

  lemma StepKeepsInv(validate: Validator, base: Cores, s: System, step: Step)
    requires Enabled(s, step) && Inv(validate, base, s)
    ensures Inv(validate, base, Do(validate, s, step))
  {
    var s' := Do(validate, s, step);
    forall i | 0 <= i < |s'.workers|
      ensures s'.workers[i].cores.Valid() && s'.workers[i].cursor <= |s'.log|
      ensures forall id :: !Unsettled(validate, s', s'.workers[i], id) ==>
        Get(s'.workers[i].cores.byId, id) == Decided(validate, base, s'.log[..s'.workers[i].cursor], id)
    {
      var w, w' := s.workers[i], s'.workers[i];
      if step.worker == i && !step.Publish? {
        ApplyKeepsValid(validate, w.cores, if step.Write? then step.message else s.log[w.cursor]);
      }
      assert s'.log[..w.cursor] == s.log[..w.cursor];
      forall id | !Unsettled(validate, s', w', id)
        ensures Get(w'.cores.byId, id) == Decided(validate, base, s'.log[..w'.cursor], id)
      {
        StepKeepsWorker(validate, base, s, step, i, id);
      }
    }
  }

  // Publishing only moves a change from the outbox to the log.
  lemma PublishSettlesNothing(validate: Validator, s: System, i: nat, k: nat, id: int)
    requires Enabled(s, Publish(i, k)) && s.workers[i].cursor <= |s.log|
    ensures var s' := Do(validate, s, Publish(i, k));
            Unsettled(validate, s, s.workers[i], id) ==> Unsettled(validate, s', s'.workers[i], id)
  {
    var s' := Do(validate, s, Publish(i, k));
    var w, w' := s.workers[i], s'.workers[i];
    if m :| m in w.outbox && Touches(validate, m, id) {
      var x :| 0 <= x < |w.outbox| && w.outbox[x] == m;
      if x == k {
        assert s'.log[|s.log|] == m;
      } else {
        assert w'.outbox[if x < k then x else x - 1] == m;
      }
    } else if x :| w.cursor <= x < |s.log| && Touches(validate, s.log[x], id) {
      assert s'.log[x] == s.log[x];
    }
  }

  lemma StepKeepsWorker(validate: Validator, base: Cores, s: System, step: Step, i: nat, id: int)
    requires Enabled(s, step) && Inv(validate, base, s) && i < |s.workers|
    requires !Unsettled(validate, Do(validate, s, step), Do(validate, s, step).workers[i], id)
    ensures var s' := Do(validate, s, step);
            Get(s'.workers[i].cores.byId, id) == Decided(validate, base, s'.log[..s'.workers[i].cursor], id)
  {
    var s' := Do(validate, s, step);
    var w, w' := s.workers[i], s'.workers[i];
    if step.worker == i && step.Write? {
      assert step.message in w'.outbox;
      assert forall m :: m in w.outbox ==> m in w'.outbox;
      ApplyAt(validate, w.cores, step.message, id);
    } else if step.worker == i && step.Publish? {
      PublishSettlesNothing(validate, s, i, step.index, id);
      assert s'.log[..w.cursor] == s.log[..w.cursor];
    } else if step.worker == i {
      var m := s.log[w.cursor];
      assert s.log[..w.cursor+1][..w.cursor] == s.log[..w.cursor];
      ApplyAt(validate, w.cores, m, id);
      if !Touches(validate, m, id) {
        assert !Unsettled(validate, s, w, id);
      }
    } else {
      assert forall k :: w.cursor <= k < |s.log| ==> s'.log[k] == s.log[k];
      assert s'.log[..w.cursor] == s.log[..w.cursor];
      assert !Unsettled(validate, s, w, id);
    }
  }

  lemma {:induction false} RunKeepsInv(validate: Validator, base: Cores, s: System, steps: seq<Step>, end: System)
    requires RunOf(validate, s, steps, end) && Inv(validate, base, s)
    ensures Inv(validate, base, end)
    decreases |steps|
  {
    if steps != [] {
      StepKeepsInv(validate, base, s, steps[0]);
      RunKeepsInv(validate, base, Do(validate, s, steps[0]), steps[1..], end);
    }
  }

  // Any number of writers, any interleaving: once every message is published
  // and handled, every worker maps each id to what the last effective message
  // on it says.
  lemma CoresConverge(validate: Validator, base: Cores, workers: nat, steps: seq<Step>, end: System, i: nat, id: int)
    requires base.Valid() && RunOf(validate, Initial(base, workers), steps, end)
    requires Quiet(end) && i < |end.workers|
    ensures Get(end.workers[i].cores.byId, id) == Decided(validate, base, end.log, id)
  {
    RunKeepsInv(validate, base, Initial(base, workers), steps, end);
    assert end.log[..|end.log|] == end.log;
    assert !Unsettled(validate, end, end.workers[i], id);
  }

  lemma ReplicasEqual(validate: Validator, base: Cores, workers: nat, steps: seq<Step>, end: System, i: nat, j: nat)
    requires base.Valid() && RunOf(validate, Initial(base, workers), steps, end)
    requires Quiet(end) && i < |end.workers| && j < |end.workers|
    ensures end.workers[i].cores.byId == end.workers[j].cores.byId
    ensures Agree(end.workers[i].cores.byId) ==>
      Table(end.workers[i].cores) == Table(end.workers[j].cores)
  {
    var a, b := end.workers[i].cores, end.workers[j].cores;
    forall id ensures Get(a.byId, id) == Get(b.byId, id) {
      CoresConverge(validate, base, workers, steps, end, i, id);
      CoresConverge(validate, base, workers, steps, end, j, id);
    }
    SameAtSameMap(a, b);
    RunKeepsInv(validate, base, Initial(base, workers), steps, end);
    if Agree(a.byId) {
      MergedOfAgreeing(a.order, a.byId);
      MergedOfAgreeing(b.order, b.byId);
      UnionUnique(a.byId, Merged(a.order, a.byId), Merged(b.order, b.byId));
    }
  }

  lemma SameAtSameMap(a: Cores, b: Cores)
    requires forall id :: Get(a.byId, id) == Get(b.byId, id)
    ensures a.byId == b.byId
  {
    forall id ensures (id in a.byId <==> id in b.byId) && (id in a.byId ==> a.byId[id] == b.byId[id]) {
      assert Get(a.byId, id) == Get(b.byId, id);
    }
  }

  lemma UnionUnique(byId: map<int, Core>, t: map<string, string>, u: map<string, string>)
    requires IsUnion(byId, t) && IsUnion(byId, u)
    ensures t == u
  {
    assert forall tag :: tag in t <==> tag in u;
    forall tag | tag in t ensures t[tag] == u[tag] {
      var id :| id in byId && tag in byId[id].inboundsByTag;
    }
  }

  // ---- When the inbound tables agree too ----

  ghost predicate SameOnShared(a: Core, b: Core) {
    forall tag :: tag in a.inboundsByTag && tag in b.inboundsByTag ==> a.inboundsByTag[tag] == b.inboundsByTag[tag]
  }

  ghost predicate Agree(byId: map<int, Core>) {
    forall i, j :: i in byId && j in byId ==> SameOnShared(byId[i], byId[j])
  }

  ghost predicate Provides(byId: map<int, Core>, ids: seq<int>, tag: string, inbound: string) {
    exists id :: id in ids && id in byId && tag in byId[id].inboundsByTag && byId[id].inboundsByTag[tag] == inbound
  }

  // A merged tag comes from some core; when cores agree it does not matter which.
  lemma {:induction false} MergedComesFrom(order: seq<int>, byId: map<int, Core>, tag: string)
    ensures tag in Merged(order, byId) ==> Provides(byId, order, tag, Merged(order, byId)[tag])
    ensures forall id :: id in order && id in byId && tag in byId[id].inboundsByTag ==> tag in Merged(order, byId)
  {
    if order != [] {
      var front, last := order[..|order|-1], order[|order|-1];
      MergedComesFrom(front, byId, tag);
      assert order == front + [last];
      if tag in Merged(order, byId) && !(last in byId && tag in byId[last].inboundsByTag) {
        var id :| id in front && id in byId && tag in byId[id].inboundsByTag &&
          byId[id].inboundsByTag[tag] == Merged(front, byId)[tag];
        assert id in order;
      }
    }
  }

  // The union of all cores' inbounds, for cores that agree.
  ghost predicate IsUnion(byId: map<int, Core>, table: map<string, string>) {
    forall tag :: (tag in table <==> exists id :: id in byId && tag in byId[id].inboundsByTag)
      && forall id ::
        id in byId && tag in byId[id].inboundsByTag && tag in table ==> table[tag] == byId[id].inboundsByTag[tag]
  }

  lemma MergedOfAgreeing(order: seq<int>, byId: map<int, Core>)
    requires Cores(order, byId).Valid() && Agree(byId)
    ensures IsUnion(byId, Merged(order, byId))
  {
    var table := Merged(order, byId);
    forall tag
      ensures tag in table <==> exists id :: id in byId && tag in byId[id].inboundsByTag
      ensures forall id :: id in byId && tag in byId[id].inboundsByTag && tag in table ==>
                table[tag] == byId[id].inboundsByTag[tag]
    {
      MergedComesFrom(order, byId, tag);
      if tag in Merged(order, byId) {
        var from :| from in order && from in byId && tag in byId[from].inboundsByTag &&
          byId[from].inboundsByTag[tag] == Merged(order, byId)[tag];
        assert forall id :: id in byId ==> SameOnShared(byId[from], byId[id]);
      }
    }
  }

  // Two workers each create a core before hearing of the other's.
  function Race(i: int, c: string, j: int, d: string): seq<Step> {
    [Write(0, Update(i, c)), Write(1, Update(j, d))] + [Publish(0, 0), Publish(1, 0)]
    + ([Deliver(0), Deliver(0)] + [Deliver(1), Deliver(1)])
  }

  lemma {:induction false} RunConcat(validate: Validator, s: System, a: seq<Step>, mid: System, b: seq<Step>,
                                     end: System)
    requires RunOf(validate, s, a, mid) && RunOf(validate, mid, b, end)
    ensures RunOf(validate, s, a + b, end)
    decreases |a|
  {
    if a == [] {
      assert a + b == b;
    } else {
      assert (a + b)[1..] == a[1..] + b;
      RunConcat(validate, Do(validate, s, a[0]), a[1..], mid, b, end);
    }
  }

  lemma RunTwo(validate: Validator, s: System, first: Step, second: Step)
    requires Enabled(s, first) && Enabled(Do(validate, s, first), second)
    ensures RunOf(validate, s, [first, second], Do(validate, Do(validate, s, first), second))
  {
    var steps := [first, second];
    assert steps[1..] == [second] && [second][1..] == [];
    assert RunOf(validate, Do(validate, s, first), [second], Do(validate, Do(validate, s, first), second));
  }

  lemma PublishOnly(validate: Validator, s: System, i: nat)
    requires i < |s.workers| && |s.workers[i].outbox| == 1
    ensures Do(validate, s, Publish(i, 0))
         == System(s.workers[i := s.workers[i].(outbox := [])], s.log + [s.workers[i].outbox[0]])
  {
    var box := s.workers[i].outbox;
    assert box[..0] + box[1..] == [];
  }

  // Both apply their own core, then publish.
  lemma RaceWrites(validate: Validator, base: Cores, i: int, c: string, j: int, d: string, x: Core, y: Core)
    returns (mid: System)
    requires validate(c) == Some(x) && validate(d) == Some(y)
    ensures RunOf(validate, Initial(base, 2), [Write(0, Update(i, c)), Write(1, Update(j, d))] +
              [Publish(0, 0), Publish(1, 0)], mid)
    ensures mid ==
              System([Worker(Put(base, i, x), [], 0), Worker(Put(base, j, y), [], 0)], [Update(i, c), Update(j, d)])
  {
    var m, n := Update(i, c), Update(j, d);
    var only0, only1 := Put(base, i, x), Put(base, j, y);
    var w, s0 := Worker(base, [], 0), Initial(base, 2);
    assert s0.workers == [w, w];
    assert Apply(validate, base, m) == only0 && Apply(validate, base, n) == only1;
    assert [] + [m] == [m] && [] + [n] == [n];
    var t0 := Do(validate, s0, Write(0, m));
    assert t0.workers == [Worker(only0, [m], 0), w];
    RunTwo(validate, s0, Write(0, m), Write(1, n));
    var s1 := Do(validate, t0, Write(1, n));
    assert s1.workers == [Worker(only0, [m], 0), Worker(only1, [n], 0)];
    mid := System([Worker(only0, [], 0), Worker(only1, [], 0)], [m, n]);
    RacePublishes(validate, s1, only0, m, only1, n);
    RunConcat(validate, s0, [Write(0, m), Write(1, n)], s1, [Publish(0, 0), Publish(1, 0)], mid);
  }

  lemma RacePublishes(validate: Validator, s: System, only0: Cores, m: Message, only1: Cores, n: Message)
    requires s == System([Worker(only0, [m], 0), Worker(only1, [n], 0)], [])
    ensures RunOf(validate, s, [Publish(0, 0), Publish(1, 0)],
              System([Worker(only0, [], 0), Worker(only1, [], 0)], [m, n]))
  {
    PublishOnly(validate, s, 0);
    var t := Do(validate, s, Publish(0, 0));
    assert t.workers == [Worker(only0, [], 0), Worker(only1, [n], 0)] && t.log == [m];
    RunTwo(validate, s, Publish(0, 0), Publish(1, 0));
    PublishOnly(validate, t, 1);
    var end := Do(validate, t, Publish(1, 0));
    assert end.workers == [Worker(only0, [], 0), Worker(only1, [], 0)] && end.log == [m, n];
  }

  // Each then handles both messages, its own echo included.
  lemma RaceDeliveries(validate: Validator, base: Cores, i: int, c: string, j: int, d: string, x: Core, y: Core,
                       mid: System)
    returns (end: System)
    requires i != j && validate(c) == Some(x) && validate(d) == Some(y)
    requires mid ==
              System([Worker(Put(base, i, x), [], 0), Worker(Put(base, j, y), [], 0)], [Update(i, c), Update(j, d)])
    ensures RunOf(validate, mid, [Deliver(0), Deliver(0)] + [Deliver(1), Deliver(1)], end)
    ensures end ==
              System([Worker(Put(Put(base, i, x), j, y), [], 2), Worker(Put(Put(base, j, y), i, x), [], 2)], mid.log)
  {
    var only0, only1 := Put(base, i, x), Put(base, j, y);
    var both0, both1 := Put(only0, j, y), Put(only1, i, x);
    assert Put(only0, i, x) == only0 && Put(both1, j, y) == both1 by {
      assert only0.byId[i := x] == only0.byId && both1.byId[j := y] == both1.byId;
    }
    var t2 := Do(validate, mid, Deliver(0));
    assert t2.workers == [Worker(only0, [], 1), Worker(only1, [], 0)];
    RunTwo(validate, mid, Deliver(0), Deliver(0));
    var s3 := Do(validate, t2, Deliver(0));
    assert s3.workers == [Worker(both0, [], 2), Worker(only1, [], 0)];
    var t3 := Do(validate, s3, Deliver(1));
    assert t3.workers == [Worker(both0, [], 2), Worker(both1, [], 1)];
    RunTwo(validate, s3, Deliver(1), Deliver(1));
    end := Do(validate, t3, Deliver(1));
    assert end.workers == [Worker(both0, [], 2), Worker(both1, [], 2)];
    RunConcat(validate, mid, [Deliver(0), Deliver(0)], s3, [Deliver(1), Deliver(1)], end);
  }

  // After such a race the maps agree, but the dictionaries were filled in
  // opposite orders, so the inbound tables agree exactly when the two cores do
  // not give one tag different inbounds. A caller can check that before creating.
  lemma RaceAgreesIff(validate: Validator, base: Cores, i: int, c: string, j: int, d: string) returns (end: System)
    requires base.Valid() && i != j && i !in base.byId && j !in base.byId && validate(c).Some? && validate(d).Some?
    ensures RunOf(validate, Initial(base, 2), Race(i, c, j, d), end) && Quiet(end) && |end.workers| == 2
    ensures var a, b := end.workers[0].cores, end.workers[1].cores;
            && a.byId == b.byId == base.byId[i := validate(c).value][j := validate(d).value]
            && (Table(a) == Table(b) <==> SameOnShared(validate(c).value, validate(d).value))
  {
    var x, y := validate(c).value, validate(d).value;
    var mid := RaceWrites(validate, base, i, c, j, d, x, y);
    end := RaceDeliveries(validate, base, i, c, j, d, x, y, mid);
    RunConcat(validate, Initial(base, 2), [Write(0, Update(i, c)), Write(1, Update(j, d))] +
      [Publish(0, 0), Publish(1, 0)], mid,
              [Deliver(0), Deliver(0)] + [Deliver(1), Deliver(1)], end);
    BothOrders(base, i, x, j, y);
  }

  lemma BothOrders(base: Cores, i: int, x: Core, j: int, y: Core)
    requires base.Valid() && i != j && i !in base.byId && j !in base.byId
    ensures Put(Put(base, i, x), j, y).byId == Put(Put(base, j, y), i, x).byId
    ensures Table(Put(Put(base, i, x), j, y)) == Table(Put(Put(base, j, y), i, x)) <==> SameOnShared(x, y)
  {
    TableOfTwo(base, i, x, j, y);
    TableOfTwo(base, j, y, i, x);
    EitherOrder(Table(base), x, y);
  }

  lemma TableOfTwo(base: Cores, i: int, x: Core, j: int, y: Core)
    requires base.Valid() && i != j && i !in base.byId && j !in base.byId
    ensures Table(Put(Put(base, i, x), j, y)) == Table(base) + x.inboundsByTag + y.inboundsByTag
  {
    NewCoreGoesLast(base, i, x);
    NewCoreGoesLast(Put(base, i, x), j, y);
  }

  lemma NewCoreGoesLast(d: Cores, id: int, core: Core)
    requires d.Valid() && id !in d.byId
    ensures Put(d, id, core).Valid() && Table(Put(d, id, core)) == Table(d) + core.inboundsByTag
  {
    var after := Put(d, id, core);
    assert after.order[..|d.order|] == d.order;
    MergedDependsOn(d.order, d.byId, after.byId);
  }

  lemma {:induction false} MergedDependsOn(order: seq<int>, byId: map<int, Core>, other: map<int, Core>)
    requires forall id :: id in order ==> Get(byId, id) == Get(other, id)
    ensures Merged(order, byId) == Merged(order, other)
  {
    if order != [] {
      assert order[|order|-1] in order && forall id :: id in order[..|order|-1] ==> id in order;
      MergedDependsOn(order[..|order|-1], byId, other);
    }
  }

  lemma EitherOrder(table: map<string, string>, x: Core, y: Core)
    ensures table + x.inboundsByTag + y.inboundsByTag == table + y.inboundsByTag + x.inboundsByTag <==>
              SameOnShared(x, y)
  {
    var a, b := x.inboundsByTag, y.inboundsByTag;
    if table + a + b == table + b + a {
      forall tag | tag in a && tag in b ensures a[tag] == b[tag] {
        assert (table + a + b)[tag] == b[tag] && (table + b + a)[tag] == a[tag];
      }
    }
  }

  // ---- For which cores workers agree whatever happened ----

  ghost predicate Settles(validate: Validator, base: Cores, workers: nat, steps: seq<Step>, end: System) {
    base.Valid() && RunOf(validate, Initial(base, workers), steps, end) && Quiet(end)
  }

  // All workers hold these cores.
  ghost predicate AllHold(s: System, byId: map<int, Core>) {
    forall i :: 0 <= i < |s.workers| ==> s.workers[i].cores.byId == byId
  }

  ghost predicate TablesAgree(s: System) {
    forall i, j ::
      0 <= i < |s.workers| && 0 <= j < |s.workers| ==> Table(s.workers[i].cores) == Table(s.workers[j].cores)
  }

  ghost predicate Buildable(validate: Validator, byId: map<int, Core>) {
    forall id :: id in byId ==> exists config :: validate(config) == Some(byId[id])
  }

  // Workers that hold the same cores are sure to have the same inbounds exactly
  // when no two of the cores disagree on a tag.
  lemma TablesAgreeIff(validate: Validator, byId: map<int, Core>)
    requires Buildable(validate, byId)
    ensures (forall base, workers, steps, end ::
              Settles(validate, base, workers, steps, end) && AllHold(end, byId) ==> TablesAgree(end))
            <==> Agree(byId)
  {
    if Agree(byId) {
      forall base, workers, steps, end | Settles(validate, base, workers, steps, end) && AllHold(end, byId)
        ensures TablesAgree(end) {
        forall i, j | 0 <= i < |end.workers| && 0 <= j < |end.workers|
          ensures Table(end.workers[i].cores) == Table(end.workers[j].cores) {
          ReplicasEqual(validate, base, workers, steps, end, i, j);
        }
      }
    } else {
      var base, steps, end := ClashDiverges(validate, byId);
      assert Settles(validate, base, 2, steps, end);
    }
  }

  // Two cores that disagree are the ones to be created at the same time.
  lemma ClashDiverges(validate: Validator, byId: map<int, Core>) returns (base: Cores, steps: seq<Step>, end: System)
    requires Buildable(validate, byId) && !Agree(byId)
    ensures Settles(validate, base, 2, steps, end) && AllHold(end, byId) && !TablesAgree(end)
  {
    var i, j :| i in byId && j in byId && !SameOnShared(byId[i], byId[j]);
    var c :| validate(c) == Some(byId[i]);
    var d :| validate(d) == Some(byId[j]);
    base := SomeOrder(byId - {i, j});
    steps := Race(i, c, j, d);
    end := RaceAgreesIff(validate, base, i, c, j, d);
    assert (byId - {i, j})[i := byId[i]][j := byId[j]] == byId;
  }

  lemma {:induction false} SomeOrder(byId: map<int, Core>) returns (d: Cores)
    ensures d.Valid() && d.byId == byId
    decreases |byId|
  {
    d := NO_CORES;
    if byId != map[] {
      assert (forall id :: id !in byId) ==> byId == map[];
      var id :| id in byId;
      d := SomeOrder(byId - {id});
      d := Put(d, id, byId[id]);
      assert (byId - {id})[id := byId[id]] == byId;
    }
  }
}
