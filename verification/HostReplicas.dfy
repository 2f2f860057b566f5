// The hosts every worker keeps in memory. Unlike cores, a host change is
// broadcast first and applied locally afterwards, so a writer may handle its own
// echo before or after its local write, and may handle older echoes in between.
module HostReplicas {
  import opened Options

  // A host after preparation: what a subscription needs of it.
  type HostData = string

  datatype Message = Add(id: int, data: HostData) | Remove(id: int)

  type Hosts = map<int, HostData>

  function Apply(h: Hosts, m: Message): Hosts {
    match m
    case Add(id, data) => h[id := data]
    case Remove(id) => h - {id}
  }

  function ApplyAll(h: Hosts, ms: seq<Message>): Hosts {
    if ms == [] then h else Apply(ApplyAll(h, ms[..|ms|-1]), ms[|ms|-1])
  }

  lemma {:induction false} ApplyAllConcat(h: Hosts, xs: seq<Message>, ys: seq<Message>)
    ensures ApplyAll(h, xs + ys) == ApplyAll(ApplyAll(h, xs), ys)
  {
    if ys == [] {
      assert xs + ys == xs;
    } else {
      assert (xs + ys)[..|xs + ys|-1] == xs + ys[..|ys|-1];
      ApplyAllConcat(h, xs, ys[..|ys|-1]);
    }
  }

  // A host to store; it has no data when it is disabled or its inbound is gone.
  datatype Candidate = Candidate(id: int, prepared: Option<HostData>)

  function Adds(batch: seq<Candidate>): seq<Message> {
    if batch == [] then [] else
    var last := batch[|batch|-1];
    Adds(batch[..|batch|-1]) + (if last.prepared.Some? then [Add(last.id, last.prepared.value)] else [])
  }

  function Removes(batch: seq<Candidate>): seq<Message> {
    if batch == [] then [] else
    var last := batch[|batch|-1];
    Removes(batch[..|batch|-1]) + (if last.prepared.None? then [Remove(last.id)] else [])
  }

  // What storing a batch broadcasts, in order: the additions, then the removals.
  function Broadcast(batch: seq<Candidate>): seq<Message> {
    Adds(batch) + Removes(batch)
  }

  ghost predicate DistinctHosts(batch: seq<Candidate>) {
    forall i, j :: 0 <= i < j < |batch| ==> batch[i].id != batch[j].id
  }

  // Each host is told of once: added with its data, or else removed.
  lemma {:induction false} BroadcastTellsEach(batch: seq<Candidate>)
    ensures |Adds(batch)| + |Removes(batch)| == |batch|
    ensures forall m :: m in Adds(batch) <==>
              exists c :: c in batch && c.prepared.Some? && m == Add(c.id, c.prepared.value)
    ensures forall m :: m in Removes(batch) <==> exists c :: c in batch && c.prepared.None? && m == Remove(c.id)
  {
    if batch != [] {
      var front, last := batch[..|batch|-1], batch[|batch|-1];
      BroadcastTellsEach(front);
      assert forall c :: c in batch <==> c in front || c == last by {
        assert batch == front + [last];
      }
      forall m
        ensures m in Adds(batch) <==>
                  m in Adds(front) || (last.prepared.Some? && m == Add(last.id, last.prepared.value)) {
      }
      forall m ensures m in Removes(batch) <==> m in Removes(front) || (last.prepared.None? && m == Remove(last.id)) {
      }
    }
  }

  // Messages on other ids leave a host alone; the last one on its id decides.
  lemma {:induction false} ApplyAllAt(h: Hosts, ms: seq<Message>, id: int)
    ensures (forall m :: m in ms ==> m.id != id) ==> Get(ApplyAll(h, ms), id) == Get(h, id)
    ensures forall data :: Add(id, data) in ms && (forall m :: m in ms && m.id == id ==> m == Add(id, data)) ==>
              Get(ApplyAll(h, ms), id) == Some(data)
    ensures Remove(id) in ms && (forall m :: m in ms && m.id == id ==> m == Remove(id)) ==> id !in ApplyAll(h, ms)
  {
    if ms != [] {
      var front, last := ms[..|ms|-1], ms[|ms|-1];
      ApplyAllAt(h, front, id);
      assert forall m :: m in ms <==> m in front || m == last by {
        assert ms == front + [last];
      }
    }
  }

  // One message for each candidate, additions first.
  ghost predicate Tells(sent: seq<Message>, batch: seq<Candidate>) {
    && |sent| == |batch|
    && (forall c :: c in batch && c.prepared.Some? ==> Add(c.id, c.prepared.value) in sent)
    && (forall c :: c in batch && c.prepared.None? ==> Remove(c.id) in sent)
    && (forall m :: m in sent ==> exists c :: c in batch && c.id == m.id && Result(m) == c.prepared)
    && forall i, j :: 0 <= i < j < |sent| && sent[j].Add? ==> sent[i].Add?
  }

  lemma BroadcastTells(batch: seq<Candidate>)
    ensures Tells(Broadcast(batch), batch)
  {
    BroadcastTellsEach(batch);
    assert forall m :: m in Adds(batch) ==> m.Add?;
    assert forall i :: |Adds(batch)| <= i < |batch| ==> Broadcast(batch)[i] in Removes(batch);
  }

  // A candidate with data is stored, one without is gone, all other hosts stay.
  ghost predicate Stored(before: Hosts, after: Hosts, batch: seq<Candidate>) {
    && (forall c :: c in batch && c.prepared.Some? ==> c.id in after && after[c.id] == c.prepared.value)
    && (forall c :: c in batch && c.prepared.None? ==> c.id !in after)
    && forall id :: (forall c :: c in batch ==> c.id != id) ==>
         (id in after <==> id in before) && (id in after ==> after[id] == before[id])
  }

  lemma BroadcastStoresAll(h: Hosts, batch: seq<Candidate>)
    ensures DistinctHosts(batch) ==> Stored(h, ApplyAll(h, Broadcast(batch)), batch)
  {
    if DistinctHosts(batch) {
      var after := ApplyAll(h, Broadcast(batch));
      forall c | c in batch
        ensures c.prepared.Some? ==> c.id in after && after[c.id] == c.prepared.value
        ensures c.prepared.None? ==> c.id !in after
      {
        BroadcastStores(h, batch, c.id);
        assert Get(after, c.id) == c.prepared;
      }
      forall id | forall c :: c in batch ==> c.id != id
        ensures (id in after <==> id in h) && (id in after ==> after[id] == h[id])
      {
        BroadcastStores(h, batch, id);
        assert Get(after, id) == Get(h, id);
      }
    }
  }

  // What storing a batch of different hosts leaves of each.
  lemma BroadcastStores(h: Hosts, batch: seq<Candidate>, id: int)
    requires DistinctHosts(batch)
    ensures forall c :: c in batch && c.id == id ==> Get(ApplyAll(h, Broadcast(batch)), id) == c.prepared
    ensures (forall c :: c in batch ==> c.id != id) ==> Get(ApplyAll(h, Broadcast(batch)), id) == Get(h, id)
  {
    BroadcastTellsEach(batch);
    ApplyAllAt(h, Broadcast(batch), id);
    if c :| c in batch && c.id == id {
      assert forall other :: other in batch && other.id == id ==> other == c;
    }
  }

  class HostManager {
    var hosts: Hosts
    var published: seq<Message>

    constructor ()
      ensures hosts == map[] && published == []
    {
      hosts, published := map[], [];
    }

    method Publish(m: Message)
      modifies this`published
      ensures published == old(published) + [m]
    {
      published := published + [m];
    }

    method AddPreparedHostsLocal(adds: seq<Message>)
      requires forall m :: m in adds ==> m.Add?
      modifies this`hosts
      ensures hosts == ApplyAll(old(hosts), adds)
    {
      for i := 0 to |adds|
        invariant hosts == ApplyAll(old(hosts), adds[..i])
      {
        assert adds[..i+1][..i] == adds[..i];
        assert adds[i] in adds;
        hosts := hosts - {adds[i].id};
        hosts := hosts[adds[i].id := adds[i].data];
      }
      assert adds[..|adds|] == adds;
    }

    method RemoveHostLocal(id: int)
      modifies this`hosts
      ensures hosts == Apply(old(hosts), Remove(id))
    {
      hosts := hosts - {id};
    }

    method HandleHostMessage(m: Message)
      modifies this`hosts
      ensures hosts == Apply(old(hosts), m)
    {
      match m
      case Remove(id) => RemoveHostLocal(id);
      case Add(id, data) =>
        AddPreparedHostsLocal([m]);
        assert [m][..0] == [];
    }

    method Sort(batch: seq<Candidate>) returns (adds: seq<Message>, removes: seq<Message>)
      ensures adds == Adds(batch) && removes == Removes(batch)
      ensures forall m :: m in adds ==> m.Add?
      ensures forall m :: m in removes ==> m.Remove?
    {
      adds, removes := [], [];
      for i := 0 to |batch|
        invariant adds == Adds(batch[..i]) && removes == Removes(batch[..i])
        invariant forall m :: m in adds ==> m.Add?
        invariant forall m :: m in removes ==> m.Remove?
      {
        assert batch[..i+1][..i] == batch[..i];
        match batch[i].prepared
        case Some(data) => adds := adds + [Add(batch[i].id, data)];
        case None => removes := removes + [Remove(batch[i].id)];
      }
      assert batch[..|batch|] == batch;
    }

    method AddHostsNats(batch: seq<Candidate>)
      modifies this
      ensures published == old(published) + Broadcast(batch)
      ensures hosts == ApplyAll(old(hosts), Broadcast(batch))
      ensures Tells(published[|old(published)|..], batch)
      ensures DistinctHosts(batch) ==> Stored(old(hosts), hosts, batch)
    {
      var adds, removes := Sort(batch);
      PublishAll(adds + removes);
      AddPreparedHostsLocal(adds);
      RemoveHostsLocal(removes);
      ApplyAllConcat(old(hosts), adds, removes);
      BroadcastTells(batch);
      BroadcastStoresAll(old(hosts), batch);
      assert published[|old(published)|..] == Broadcast(batch);
    }

    method PublishAll(messages: seq<Message>)
      modifies this`published
      ensures published == old(published) + messages
    {
      for i := 0 to |messages|
        invariant published == old(published) + messages[..i]
      {
        Publish(messages[i]);
      }
      assert messages[..|messages|] == messages;
    }

    method RemoveHostsLocal(removes: seq<Message>)
      requires forall m :: m in removes ==> m.Remove?
      modifies this`hosts
      ensures hosts == ApplyAll(old(hosts), removes)
    {
      for i := 0 to |removes|
        invariant hosts == ApplyAll(old(hosts), removes[..i])
      {
        assert removes[..i+1][..i] == removes[..i];
        assert removes[i] in removes;
        hosts := hosts - {removes[i].id};
      }
      assert removes[..|removes|] == removes;
    }

    method RemoveHostNats(id: int)
      modifies this
      ensures published == old(published) + [Remove(id)] && hosts == Apply(old(hosts), Remove(id))
    {
      Publish(Remove(id));
      RemoveHostLocal(id);
    }
  }

  // ---- Workers, writes in progress, and the broadcast log ----

  // A write in progress: how far it is with publishing its messages, and then
  // with applying the same messages locally.
  datatype Op = Op(batch: seq<Message>, published: nat, applied: nat)

  datatype Worker = Worker(hosts: Hosts, cursor: nat, op: Option<Op>)

  datatype System = System(workers: seq<Worker>, log: seq<Message>)

  datatype Step =
    | Begin(worker: nat, batch: seq<Message>)
    | PublishNext(worker: nat)
    | ApplyNext(worker: nat)
    | End(worker: nat)
    | Deliver(worker: nat)

  predicate Enabled(s: System, step: Step) {
    && step.worker < |s.workers|
    && var w := s.workers[step.worker];
       match step
       case Begin(_, _) => w.op.None?
       case PublishNext(_) => w.op.Some? && w.op.value.published < |w.op.value.batch|
       case ApplyNext(_) =>
         w.op.Some? && w.op.value.published == |w.op.value.batch| && w.op.value.applied < |w.op.value.batch|
       case End(_) =>
         w.op.Some? && w.op.value.published == |w.op.value.batch| && w.op.value.applied == |w.op.value.batch|
       case Deliver(_) => w.cursor < |s.log|
  }

  function Do(s: System, step: Step): System
    requires Enabled(s, step)
  {
    var w := s.workers[step.worker];
    match step
    case Begin(i, batch) => s.(workers := s.workers[i := w.(op := Some(Op(batch, 0, 0)))])
    case PublishNext(i) =>
      var op := w.op.value;
      System(s.workers[i := w.(op := Some(op.(published := op.published + 1)))], s.log + [op.batch[op.published]])
    case ApplyNext(i) =>
      var op := w.op.value;
      s.(workers := s.workers[i := w.(hosts := Apply(w.hosts, op.batch[op.applied]),
                                      op := Some(op.(applied := op.applied + 1)))])
    case End(i) => s.(workers := s.workers[i := w.(op := None)])
    case Deliver(i) =>
      s.(workers := s.workers[i := w.(hosts := Apply(w.hosts, s.log[w.cursor]), cursor := w.cursor + 1)])
  }

  // Writes are serialized when none starts while another is in progress anywhere.
  predicate NoneWriting(s: System) {
    forall i :: 0 <= i < |s.workers| ==> s.workers[i].op.None?
  }

  ghost predicate RunOf(s: System, steps: seq<Step>, end: System)
    decreases |steps|
  {
    if steps == [] then s == end
    else Enabled(s, steps[0]) && RunOf(Do(s, steps[0]), steps[1..], end)
  }

  ghost predicate Serialized(s: System, steps: seq<Step>)
    decreases |steps|
  {
    steps == [] ||
    (Enabled(s, steps[0]) && (steps[0].Begin? ==> NoneWriting(s)) && Serialized(Do(s, steps[0]), steps[1..]))
  }

  function Initial(base: Hosts, workers: nat): System {
    System(seq(workers, _ => Worker(base, 0, None)), [])
  }

  predicate Quiet(s: System) {
    NoneWriting(s) && forall i :: 0 <= i < |s.workers| ==> s.workers[i].cursor == |s.log|
  }

  function Result(m: Message): Option<HostData> {
    if m.Add? then Some(m.data) else None
  }

  // The last message on an id decides it.
  function Decided(base: Hosts, log: seq<Message>, id: int): Option<HostData> {
    if log == [] then Get(base, id)
    else if log[|log|-1].id == id then Result(log[|log|-1])
    else Decided(base, log[..|log|-1], id)
  }

  lemma {:induction false} DecidedByLast(base: Hosts, log: seq<Message>, p: nat, id: int)
    requires p < |log| && log[p].id == id
    requires forall q :: p < q < |log| ==> log[q].id != id
    ensures Decided(base, log, id) == Result(log[p])
  {
    if p < |log| - 1 {
      DecidedByLast(base, log[..|log|-1], p, id);
    }
  }

  ghost predicate Unsettled(s: System, w: Worker, id: int)
    requires w.cursor <= |s.log|
  {
    || (exists k :: w.cursor <= k < |s.log| && s.log[k].id == id)
    || (w.op.Some? && exists k :: w.op.value.applied <= k < |w.op.value.batch| && w.op.value.batch[k].id == id)
  }

  ghost predicate OpFits(s: System, op: Op) {
    && op.applied <= op.published <= |op.batch| && op.published <= |s.log|
    && (op.applied > 0 ==> op.published == |op.batch|)
    && s.log[|s.log| - op.published..] == op.batch[..op.published]
  }

  ghost predicate Shape(s: System) {
    && (forall i, j :: 0 <= i < j < |s.workers| ==> s.workers[i].op.None? || s.workers[j].op.None?)
    && (forall i :: 0 <= i < |s.workers| ==>
          s.workers[i].cursor <= |s.log| && (s.workers[i].op.Some? ==> OpFits(s, s.workers[i].op.value)))
  }

  ghost predicate Inv(base: Hosts, s: System) {
    && Shape(s)
    && forall i, id :: 0 <= i < |s.workers| && !Unsettled(s, s.workers[i], id) ==>
         Get(s.workers[i].hosts, id) == Decided(base, s.log, id)
  }

  lemma PublishFits(s: System, j: nat)
    requires Enabled(s, PublishNext(j)) && Shape(s)
    ensures OpFits(Do(s, PublishNext(j)), Do(s, PublishNext(j)).workers[j].op.value)
  {
    var s' := Do(s, PublishNext(j));
    var op, op' := s.workers[j].op.value, s'.workers[j].op.value;
    assert op.batch[..op'.published] == op.batch[..op.published] + [op.batch[op.published]];
    assert s'.log[|s'.log| - op'.published..] == s.log[|s.log| - op.published..] + [op.batch[op.published]];
  }

  lemma StepKeepsShape(s: System, step: Step)
    requires Enabled(s, step) && Shape(s) && (step.Begin? ==> NoneWriting(s))
    ensures Shape(Do(s, step))
  {
    var s' := Do(s, step);
    forall i | 0 <= i < |s'.workers| && s'.workers[i].op.Some? ensures OpFits(s', s'.workers[i].op.value) {
      if step.PublishNext? && i == step.worker {
        PublishFits(s, i);
      }
    }
  }

  lemma PublishKeepsWorker(base: Hosts, s: System, j: nat, i: nat, id: int)
    requires Enabled(s, PublishNext(j)) && Inv(base, s) && i < |s.workers|
    requires Shape(Do(s, PublishNext(j))) && !Unsettled(Do(s, PublishNext(j)), Do(s, PublishNext(j)).workers[i], id)
    ensures Get(Do(s, PublishNext(j)).workers[i].hosts, id) == Decided(base, Do(s, PublishNext(j)).log, id)
  {
    var s', w := Do(s, PublishNext(j)), s.workers[i];
    assert forall k :: 0 <= k < |s.log| ==> s'.log[k] == s.log[k];
    assert s'.log[|s.log|].id != id;
    assert s'.log[..|s.log|] == s.log;
    assert !Unsettled(s, w, id);
  }

  // The batch being applied is the end of the log, so the message applied last
  // on an id is also the last on it in the log.
  lemma LocalApplyKeepsWorker(base: Hosts, s: System, i: nat, id: int)
    requires Enabled(s, ApplyNext(i)) && Inv(base, s)
    requires Shape(Do(s, ApplyNext(i))) && !Unsettled(Do(s, ApplyNext(i)), Do(s, ApplyNext(i)).workers[i], id)
    ensures Get(Do(s, ApplyNext(i)).workers[i].hosts, id) == Decided(base, s.log, id)
  {
    var w := s.workers[i];
    var op := w.op.value;
    var start := |s.log| - |op.batch|;
    assert op.batch[..op.published] == op.batch;
    assert forall k :: 0 <= k < |op.batch| ==> s.log[start + k] == s.log[start..][k];
    var w' := Do(s, ApplyNext(i)).workers[i];
    assert w'.op.value.applied == op.applied + 1;
    if op.batch[op.applied].id == id {
      forall q | start + op.applied < q < |s.log| ensures s.log[q].id != id {
        assert s.log[q] == op.batch[q - start];
      }
      DecidedByLast(base, s.log, start + op.applied, id);
    } else {
      assert !Unsettled(s, w, id);
    }
  }

  lemma DeliverKeepsWorker(base: Hosts, s: System, i: nat, id: int)
    requires Enabled(s, Deliver(i)) && Inv(base, s)
    requires Shape(Do(s, Deliver(i))) && !Unsettled(Do(s, Deliver(i)), Do(s, Deliver(i)).workers[i], id)
    ensures Get(Do(s, Deliver(i)).workers[i].hosts, id) == Decided(base, s.log, id)
  {
    var w := s.workers[i];
    assert Do(s, Deliver(i)).workers[i].cursor == w.cursor + 1;
    if s.log[w.cursor].id == id {
      DecidedByLast(base, s.log, w.cursor, id);
    } else {
      assert !Unsettled(s, w, id);
    }
  }

  lemma StepKeepsWorker(base: Hosts, s: System, step: Step, i: nat, id: int)
    requires Enabled(s, step) && Inv(base, s) && i < |s.workers|
    requires Shape(Do(s, step)) && !Unsettled(Do(s, step), Do(s, step).workers[i], id)
    ensures Get(Do(s, step).workers[i].hosts, id) == Decided(base, Do(s, step).log, id)
  {
    if step.PublishNext? {
      PublishKeepsWorker(base, s, step.worker, i, id);
    } else if step.ApplyNext? && i == step.worker {
      LocalApplyKeepsWorker(base, s, i, id);
    } else if step.Deliver? && i == step.worker {
      DeliverKeepsWorker(base, s, i, id);
    } else {
      assert !Unsettled(s, s.workers[i], id);
    }
  }

  lemma {:induction false} RunKeepsInv(base: Hosts, s: System, steps: seq<Step>, end: System)
    requires RunOf(s, steps, end) && Serialized(s, steps) && Inv(base, s)
    ensures Inv(base, end)
    decreases |steps|
  {
    if steps != [] {
      var s' := Do(s, steps[0]);
      StepKeepsShape(s, steps[0]);
      forall i, id | 0 <= i < |s'.workers| && !Unsettled(s', s'.workers[i], id)
        ensures Get(s'.workers[i].hosts, id) == Decided(base, s'.log, id)
      {
        StepKeepsWorker(base, s, steps[0], i, id);
      }
      RunKeepsInv(base, s', steps[1..], end);
    }
  }

  // With serialized writes, by however many workers in turn, every interleaving
  // of publishing, local application and echoes ends with equal maps.
  lemma HostsConverge(base: Hosts, workers: nat, steps: seq<Step>, end: System, i: nat, j: nat)
    requires RunOf(Initial(base, workers), steps, end) && Serialized(Initial(base, workers), steps)
    requires Quiet(end) && i < |end.workers| && j < |end.workers|
    ensures end.workers[i].hosts == end.workers[j].hosts
    ensures forall id :: Get(end.workers[i].hosts, id) == Decided(base, end.log, id)
  {
    RunKeepsInv(base, Initial(base, workers), steps, end);
    var a, b := end.workers[i].hosts, end.workers[j].hosts;
    forall id ensures Get(a, id) == Decided(base, end.log, id) && Get(b, id) == Decided(base, end.log, id) {
      assert !Unsettled(end, end.workers[i], id);
      assert !Unsettled(end, end.workers[j], id);
    }
    SameEverywhere(a, b);
  }

  // ---- Two writes at once ----

  lemma RunCons(s: System, step: Step, rest: seq<Step>, end: System)
    requires Enabled(s, step) && RunOf(Do(s, step), rest, end)
    ensures RunOf(s, [step] + rest, end)
  {
    assert ([step] + rest)[1..] == rest;
  }

  // A worker finishes a one-message write after it has handled the whole log.
  lemma FinishLate(s: System, i: nat, m: Message) returns (end: System)
    requires i < |s.workers| && |s.log| == 2 && s.workers[i].cursor == 0 && s.workers[i].op == Some(Op([m], 1, 0))
    ensures RunOf(s, [Deliver(i)] + ([Deliver(i)] + ([ApplyNext(i)] + ([End(i)] + []))), end)
    ensures end == s.(workers := s.workers[i := Worker(
              Apply(Apply(Apply(s.workers[i].hosts, s.log[0]), s.log[1]), m), 2, None)])
  {
    var s1 := Do(s, Deliver(i));
    var s2 := Do(s1, Deliver(i));
    var s3 := Do(s2, ApplyNext(i));
    end := Do(s3, End(i));
    RunCons(s3, End(i), [], end);
    RunCons(s2, ApplyNext(i), [End(i)] + [], end);
    RunCons(s1, Deliver(i), [ApplyNext(i)] + ([End(i)] + []), end);
    RunCons(s, Deliver(i), [Deliver(i)] + ([ApplyNext(i)] + ([End(i)] + [])), end);
  }

  lemma BothPublish(base: Hosts, m: Message, n: Message) returns (mid: System)
    ensures RunOf(Initial(base, 2), [Begin(0, [m])] +
              ([Begin(1, [n])] + ([PublishNext(0)] + ([PublishNext(1)] + []))), mid)
    ensures mid == System([Worker(base, 0, Some(Op([m], 1, 0))), Worker(base, 0, Some(Op([n], 1, 0)))], [m, n])
  {
    var s := Initial(base, 2);
    assert s.workers == [Worker(base, 0, None), Worker(base, 0, None)];
    var s1 := Do(s, Begin(0, [m]));
    assert s1.workers == [Worker(base, 0, Some(Op([m], 0, 0))), Worker(base, 0, None)];
    var s2 := Do(s1, Begin(1, [n]));
    assert s2.workers == [Worker(base, 0, Some(Op([m], 0, 0))), Worker(base, 0, Some(Op([n], 0, 0)))];
    var s3 := Do(s2, PublishNext(0));
    assert s3.workers == [Worker(base, 0, Some(Op([m], 1, 0))), Worker(base, 0, Some(Op([n], 0, 0)))];
    mid := Do(s3, PublishNext(1));
    assert mid.workers == [Worker(base, 0, Some(Op([m], 1, 0))), Worker(base, 0, Some(Op([n], 1, 0)))];
    assert mid.log == [m, n];
    RunCons(s3, PublishNext(1), [], mid);
    RunCons(s2, PublishNext(0), [PublishNext(1)] + [], mid);
    RunCons(s1, Begin(1, [n]), [PublishNext(0)] + ([PublishNext(1)] + []), mid);
    RunCons(s, Begin(0, [m]), [Begin(1, [n])] + ([PublishNext(0)] + ([PublishNext(1)] + [])), mid);
  }

  lemma {:induction false} RunConcat(s: System, a: seq<Step>, mid: System, b: seq<Step>, end: System)
    requires RunOf(s, a, mid) && RunOf(mid, b, end)
    ensures RunOf(s, a + b, end)
    decreases |a|
  {
    if a == [] {
      assert a + b == b;
    } else {
      assert (a + b)[1..] == a[1..] + b;
      RunConcat(Do(s, a[0]), a[1..], mid, b, end);
    }
  }

  // ---- What any number of unserialized writes can do ----

  // Every write begun in the run is made of these messages.
  ghost predicate WritesOnly(steps: seq<Step>, messages: set<Message>) {
    forall step, m :: step in steps && step.Begin? && m in step.batch ==> m in messages
  }

  ghost predicate Agree(messages: set<Message>) {
    forall m, n :: m in messages && n in messages && m.id == n.id ==> Result(m) == Result(n)
  }

  // The worker has the agreed result of every message it has handled, and what it
  // started with where the log has none.
  ghost predicate Caught(base: Hosts, s: System, w: Worker) {
    && w.cursor <= |s.log|
    && (w.op.Some? ==> OpPublished(s, w.op.value))
    && (forall k :: 0 <= k < w.cursor ==> Get(w.hosts, s.log[k].id) == Result(s.log[k]))
    && forall id :: (forall m :: m in s.log ==> m.id != id) ==> Get(w.hosts, id) == Get(base, id)
  }

  ghost predicate OpPublished(s: System, op: Op) {
    && op.published <= |op.batch| && op.applied <= |op.batch| && (op.applied > 0 ==> op.published == |op.batch|)
    && forall k :: 0 <= k < op.published ==> op.batch[k] in s.log
  }

  ghost predicate AgreedInv(base: Hosts, messages: set<Message>, s: System) {
    && Agree(messages)
    && (forall m :: m in s.log ==> m in messages)
    && (forall i, m :: 0 <= i < |s.workers| && s.workers[i].op.Some? && m in s.workers[i].op.value.batch ==>
          m in messages)
    && forall i :: 0 <= i < |s.workers| ==> Caught(base, s, s.workers[i])
  }

  // Applying a message of the log gives its id the agreed result, whoever sent it.
  lemma ApplyKeepsCaught(base: Hosts, messages: set<Message>, s: System, w: Worker, m: Message)
    requires AgreedInv(base, messages, s) && Caught(base, s, w) && m in s.log
    ensures Caught(base, s, w.(hosts := Apply(w.hosts, m)))
  {
    var after := Apply(w.hosts, m);
    forall k | 0 <= k < w.cursor ensures Get(after, s.log[k].id) == Result(s.log[k]) {
      assert s.log[k] in s.log;
    }
  }

  lemma PublishKeepsCaught(base: Hosts, s: System, j: nat, i: nat)
    requires Enabled(s, PublishNext(j)) && i < |s.workers| && Caught(base, s, s.workers[i])
    ensures Caught(base, Do(s, PublishNext(j)), Do(s, PublishNext(j)).workers[i])
  {
    var s' := Do(s, PublishNext(j));
    assert s'.log == s.log + [s.workers[j].op.value.batch[s.workers[j].op.value.published]];
    assert forall m :: m in s.log ==> m in s'.log;
    assert forall k :: 0 <= k < |s.log| ==> s'.log[k] == s.log[k];
    assert s'.log[|s.log|] in s'.log;
  }

  lemma StepKeepsCaught(base: Hosts, messages: set<Message>, s: System, step: Step, i: nat)
    requires Enabled(s, step) && AgreedInv(base, messages, s) && i < |s.workers|
    ensures Caught(base, Do(s, step), Do(s, step).workers[i])
  {
    assert Caught(base, s, s.workers[i]);
    var w := s.workers[step.worker];
    if step.PublishNext? {
      PublishKeepsCaught(base, s, step.worker, i);
    } else if step.ApplyNext? && i == step.worker {
      assert w.op.value.batch[w.op.value.applied] in s.log;
      ApplyKeepsCaught(base, messages, s, w, w.op.value.batch[w.op.value.applied]);
    } else if step.Deliver? && i == step.worker {
      ApplyKeepsCaught(base, messages, s, w, s.log[w.cursor]);
    }
  }

  lemma StepKeepsAgreed(base: Hosts, messages: set<Message>, s: System, step: Step)
    requires Enabled(s, step) && AgreedInv(base, messages, s)
    requires step.Begin? ==> forall m :: m in step.batch ==> m in messages
    ensures AgreedInv(base, messages, Do(s, step))
  {
    var s' := Do(s, step);
    forall i | 0 <= i < |s'.workers| ensures Caught(base, s', s'.workers[i]) {
      StepKeepsCaught(base, messages, s, step, i);
    }
  }

  lemma {:induction false} RunKeepsAgreed(base: Hosts, messages: set<Message>, s: System, steps: seq<Step>, end: System)
    requires RunOf(s, steps, end) && WritesOnly(steps, messages) && AgreedInv(base, messages, s)
    ensures AgreedInv(base, messages, end)
    decreases |steps|
  {
    if steps != [] {
      assert steps[0] in steps && forall step :: step in steps[1..] ==> step in steps;
      StepKeepsAgreed(base, messages, s, steps[0]);
      RunKeepsAgreed(base, messages, Do(s, steps[0]), steps[1..], end);
    }
  }

  ghost predicate HostsAgree(s: System) {
    forall i, j :: 0 <= i < |s.workers| && 0 <= j < |s.workers| ==> s.workers[i].hosts == s.workers[j].hosts
  }

  lemma AgreeingWritesConverge(base: Hosts, workers: nat, messages: set<Message>, steps: seq<Step>, end: System)
    requires Agree(messages) && WritesOnly(steps, messages)
    requires RunOf(Initial(base, workers), steps, end) && Quiet(end)
    ensures HostsAgree(end)
  {
    RunKeepsAgreed(base, messages, Initial(base, workers), steps, end);
    forall i, j | 0 <= i < |end.workers| && 0 <= j < |end.workers|
      ensures end.workers[i].hosts == end.workers[j].hosts {
      var a, b := end.workers[i].hosts, end.workers[j].hosts;
      forall id ensures Get(a, id) == Get(b, id) {
        if k :| 0 <= k < |end.log| && end.log[k].id == id {
          assert Get(a, end.log[k].id) == Result(end.log[k]) == Get(b, end.log[k].id);
        }
      }
      SameEverywhere(a, b);
    }
  }

  lemma SameEverywhere(a: Hosts, b: Hosts)
    requires forall id :: Get(a, id) == Get(b, id)
    ensures a == b
  {
    forall id ensures (id in a <==> id in b) && (id in a ==> a[id] == b[id]) {
      assert Get(a, id) == Get(b, id);
    }
  }

  // Writes of these messages are sure to leave all workers with the same hosts,
  // however they overlap, exactly when no two of them disagree about one host.
  lemma OverlapIsHarmlessIff(messages: set<Message>)
    ensures (forall base, workers, steps, end ::
              Ends(base, workers, messages, steps, end) ==> HostsAgree(end)) <==> Agree(messages)
  {
    if Agree(messages) {
      forall base, workers, steps, end | Ends(base, workers, messages, steps, end) ensures HostsAgree(end) {
        AgreeingWritesConverge(base, workers, messages, steps, end);
      }
    } else {
      var m, n :| m in messages && n in messages && m.id == n.id && Result(m) != Result(n);
      var steps, end := OverlappingWritesDiverge(map[], m, n);
      assert WritesOnly(steps, messages) by {
        assert {m, n} <= messages;
      }
      assert Ends(map[], 2, messages, steps, end);
      assert end.workers[0].hosts != end.workers[1].hosts;
    }
  }

  ghost predicate Ends(base: Hosts, workers: nat, messages: set<Message>, steps: seq<Step>, end: System) {
    RunOf(Initial(base, workers), steps, end) && WritesOnly(steps, messages) && Quiet(end)
  }

  lemma WritesOnlyConcat(a: seq<Step>, b: seq<Step>, messages: set<Message>)
    requires WritesOnly(a, messages) && WritesOnly(b, messages)
    ensures WritesOnly(a + b, messages)
  {
  }

  // Two workers begin and broadcast, then one after the other handles both
  // messages before it applies its own write.
  function RaceStart(m: Message, n: Message): seq<Step> {
    [Begin(0, [m])] + ([Begin(1, [n])] + ([PublishNext(0)] + ([PublishNext(1)] + [])))
  }

  function Late(i: nat): seq<Step> {
    [Deliver(i)] + ([Deliver(i)] + ([ApplyNext(i)] + ([End(i)] + [])))
  }

  function Race(m: Message, n: Message): seq<Step> {
    RaceStart(m, n) + (Late(0) + Late(1))
  }

  lemma RaceWritesOnly(m: Message, n: Message)
    ensures WritesOnly(Race(m, n), {m, n})
  {
    WritesOnlyConcat([PublishNext(0)], [PublishNext(1)] + [], {m, n});
    WritesOnlyConcat([Begin(1, [n])], [PublishNext(0)] + ([PublishNext(1)] + []), {m, n});
    WritesOnlyConcat([Begin(0, [m])], [Begin(1, [n])] + ([PublishNext(0)] + ([PublishNext(1)] + [])), {m, n});
    assert forall i, step :: step in Late(i) ==> !step.Begin?;
    WritesOnlyConcat(Late(0), Late(1), {m, n});
    WritesOnlyConcat(RaceStart(m, n), Late(0) + Late(1), {m, n});
  }

  lemma RaceRuns(base: Hosts, m: Message, n: Message) returns (end: System)
    ensures RunOf(Initial(base, 2), Race(m, n), end) && Quiet(end) && |end.workers| == 2
    ensures end.workers[0].hosts == Apply(Apply(Apply(base, m), n), m)
    ensures end.workers[1].hosts == Apply(Apply(Apply(base, m), n), n)
  {
    var mid := BothPublish(base, m, n);
    var late := FinishLate(mid, 0, m);
    end := FinishLate(late, 1, n);
    RunConcat(mid, Late(0), late, Late(1), end);
    RunConcat(Initial(base, 2), RaceStart(m, n), mid, Late(0) + Late(1), end);
  }

  // Serialization is what is needed: two workers that broadcast before either
  // has applied its own write locally can end quiet with different maps, and do
  // exactly when the two writes disagree about one host.
  lemma OverlappingWritesDiverge(base: Hosts, m: Message, n: Message) returns (steps: seq<Step>, end: System)
    ensures RunOf(Initial(base, 2), steps, end) && WritesOnly(steps, {m, n}) && Quiet(end) && |end.workers| == 2
    ensures end.workers[0].hosts == end.workers[1].hosts <==> (m.id != n.id || Result(m) == Result(n))
  {
    steps := Race(m, n);
    end := RaceRuns(base, m, n);
    RaceWritesOnly(m, n);
    LastWriteDecides(base, m, n);
  }

  lemma LastWriteDecides(base: Hosts, m: Message, n: Message)
    ensures var both := Apply(Apply(base, m), n);
      Apply(both, m) == Apply(both, n) <==> (m.id != n.id || Result(m) == Result(n))
  {
    var both := Apply(Apply(base, m), n);
    assert Apply(both, n) == both;
    assert Get(Apply(both, m), m.id) == Result(m) && Get(both, n.id) == Result(n);
    if m.id != n.id || Result(m) == Result(n) {
      assert Apply(both, m) == both;
    }
  }
}
