// Delivering webhook notifications: one scheduled run drains the queue, posts
// what is due in batches of fifty, and requeues what is early or failed.
module Webhooks {
  import opened Options

  type Ticket = nat

  // A queued notification; the ticket stands for its payload.
  datatype Item = Item(ticket: Ticket, sendAt: real, tries: nat)

  datatype Settings = Settings(enable: bool, recurrent: int, timeout: real)

  // When a batch was posted, how it fared, and the clock when its failures were
  // handled.
  datatype BatchResult = BatchResult(postedAt: real, success: bool, retryAt: real)

  datatype Outcome = Delivered | Failed | Interrupted

  // One notification handed to the webhooks.
  datatype Post = Post(ticket: Ticket, due: real, time: real, outcome: Outcome)

  const BATCH_SIZE := 50

  // What the world does during a run: what is queued while the queue is drained
  // and what is queued after, and how the batches fare. A run may be cancelled
  // while it drains, with `drainStop` items taken; and one that has more batches
  // than results is cancelled while it posts the next one, at `interruptedAt`.
  datatype Surroundings = Surroundings(
    now: real,
    arriving: seq<Item>,
    later: seq<Item>,
    drainStop: Option<nat>,
    results: seq<BatchResult>,
    interruptedAt: real)

  // ---- A run, by its effect ----

  predicate Exhausted(s: Settings, item: Item) {
    item.tries >= s.recurrent
  }

  predicate Early(now: real, item: Item) {
    item.sendAt > now
  }

  function Postponed(s: Settings, now: real, items: seq<Item>): seq<Item> {
    if items == [] then [] else
    var last := items[|items|-1];
    var before := Postponed(s, now, items[..|items|-1]);
    if !Exhausted(s, last) && Early(now, last) then before + [last] else before
  }

  function Due(s: Settings, now: real, items: seq<Item>): (due: seq<Item>)
    ensures forall x :: x in due ==> !Exhausted(s, x) && !Early(now, x)
  {
    if items == [] then [] else
    var last := items[|items|-1];
    var before := Due(s, now, items[..|items|-1]);
    if !Exhausted(s, last) && !Early(now, last) then before + [last] else before
  }

  lemma {:induction false} SortsByTime(s: Settings, now: real, items: seq<Item>)
    ensures forall x :: x in Due(s, now, items) <==> x in items && x.tries < s.recurrent && x.sendAt <= now
    ensures forall x :: x in Postponed(s, now, items) <==> x in items && x.tries < s.recurrent && x.sendAt > now
  {
    if items != [] {
      var front, last := items[..|items|-1], items[|items|-1];
      SortsByTime(s, now, front);
      assert forall x :: x in items <==> x in front || x == last by {
        assert items == front + [last];
      }
    }
  }

  function OutcomeAt(results: seq<BatchResult>, j: nat): Outcome {
    if j / BATCH_SIZE >= |results| then Interrupted
    else if results[j / BATCH_SIZE].success then Delivered
    else Failed
  }

  // What is put back after the j-th due notification was posted.
  function RetryOf(s: Settings, item: Item, results: seq<BatchResult>, j: nat): Option<Item> {
    if OutcomeAt(results, j) == Failed && item.tries + 1 < s.recurrent
    then Some(Item(item.ticket, results[j / BATCH_SIZE].retryAt + s.timeout, item.tries + 1))
    else None
  }

  function Retries(s: Settings, due: seq<Item>, results: seq<BatchResult>, n: nat): seq<Item>
    requires n <= |due|
  {
    if n == 0 then [] else
    var retry := RetryOf(s, due[n-1], results, n - 1);
    var before := Retries(s, due, results, n - 1);
    if retry.Some? then before + [retry.value] else before
  }

  function PostOf(item: Item, w: Surroundings, j: nat): Post {
    var time := if j / BATCH_SIZE < |w.results| then w.results[j / BATCH_SIZE].postedAt else w.interruptedAt;
    Post(item.ticket, item.sendAt, time, OutcomeAt(w.results, j))
  }

  function Posts(due: seq<Item>, w: Surroundings, n: nat): (posts: seq<Post>)
    requires n <= |due|
  {
    if n == 0 then [] else Posts(due, w, n - 1) + [PostOf(due[n-1], w, n - 1)]
  }

  // Batch by batch of fifty: each notification is posted with its batch, at the
  // time and with the outcome of the batch, or interrupted if that has no result.
  ghost predicate PostedInBatches(posts: seq<Post>, due: seq<Item>, w: Surroundings) {
    forall j :: 0 <= j < |posts| && j < |due| ==>
      posts[j] == if j / 50 < |w.results|
        then Post(due[j].ticket, due[j].sendAt, w.results[j / 50].postedAt,
                  if w.results[j / 50].success then Delivered else Failed)
        else Post(due[j].ticket, due[j].sendAt, w.interruptedAt, Interrupted)
  }

  lemma {:induction false} PostsAreInBatches(due: seq<Item>, w: Surroundings, n: nat)
    requires n <= |due|
    ensures |Posts(due, w, n)| == n && PostedInBatches(Posts(due, w, n), due, w)
  {
    if n > 0 {
      PostsAreInBatches(due, w, n - 1);
    }
  }

  // The j-th notification has another try once its batch has failed: a timeout later.
  ghost predicate ComesBack(s: Settings, x: Item, due: seq<Item>, w: Surroundings, j: nat) {
    && j < |due| && j / 50 < |w.results| && !w.results[j / 50].success && due[j].tries + 1 < s.recurrent
    && x == Item(due[j].ticket, w.results[j / 50].retryAt + s.timeout, due[j].tries + 1)
  }

  lemma {:induction false} RetriesComeBack(s: Settings, due: seq<Item>, w: Surroundings, n: nat)
    requires n <= |due|
    ensures forall x :: x in Retries(s, due, w.results, n) <==> exists j: nat :: j < n && ComesBack(s, x, due, w, j)
  {
    if n > 0 {
      RetriesComeBack(s, due, w, n - 1);
      var retry := RetryOf(s, due[n-1], w.results, n - 1);
      assert retry.Some? ==> ComesBack(s, retry.value, due, w, n - 1);
    }
  }

  // How many due notifications are posted before the run ends or is cancelled.
  function Posted(due: seq<Item>, results: seq<BatchResult>): (n: nat)
    ensures n <= |due|
  {
    if |due| <= BATCH_SIZE * (|results| + 1) then |due| else BATCH_SIZE * (|results| + 1)
  }

  // Whether a run is cancelled while it drains these items, and how many it takes.
  predicate DrainStopped(w: Surroundings, items: seq<Item>) {
    w.drainStop.Some? && w.drainStop.value <= |items|
  }

  function TakenCount(w: Surroundings, items: seq<Item>): (n: nat)
    ensures n <= |items|
  {
    if DrainStopped(w, items) then w.drainStop.value else |items|
  }

  datatype Mailbox = Mailbox(queue: seq<Item>, posts: seq<Post>)

  function Taken(m: Mailbox, w: Surroundings): seq<Item> {
    var all := m.queue + w.arriving;
    all[..TakenCount(w, all)]
  }

  // Still in the queue when the run ends, besides what the run puts back.
  function NotTaken(m: Mailbox, w: Surroundings): seq<Item> {
    var all := m.queue + w.arriving;
    all[TakenCount(w, all)..] + w.later
  }

  // How many of the due notifications the run posts.
  function PostedCount(m: Mailbox, s: Settings, w: Surroundings): (n: nat)
    ensures n <= |Due(s, w.now, Taken(m, w))|
  {
    if DrainStopped(w, m.queue + w.arriving) then 0 else Posted(Due(s, w.now, Taken(m, w)), w.results)
  }

  function AfterRun(m: Mailbox, s: Settings, w: Surroundings): Mailbox {
    if !s.enable then Mailbox(m.queue + w.arriving + w.later, m.posts) else
    var due := Due(s, w.now, Taken(m, w));
    var n := PostedCount(m, s, w);
    Mailbox(NotTaken(m, w) + Postponed(s, w.now, Taken(m, w)) + Retries(s, due, w.results, n), m.posts +
      Posts(due, w, n))
  }

  // ---- The scheduled job ----

  class WebhookSender {
    var queue: seq<Item>
    var posts: seq<Post>

    constructor ()
      ensures State() == Mailbox([], [])
    {
      queue, posts := [], [];
    }

    function State(): Mailbox reads this {
      Mailbox(queue, posts)
    }

    method Enqueue(item: Item)
      modifies this`queue
      ensures queue == old(queue) + [item]
    {
      queue := queue + [item];
    }

    method Dequeue() returns (item: Option<Item>)
      modifies this`queue
      ensures old(queue) == [] ==> item.None? && queue == []
      ensures old(queue) != [] ==> item == Some(old(queue)[0]) && queue == old(queue)[1..]
    {
      if queue == [] {
        return None;
      }
      item := Some(queue[0]);
      queue := queue[1..];
    }

    // Takes everything off the queue, unless cancelled on the way.
    method Drain(s: Settings, w: Surroundings) returns (ready: seq<Item>, postponed: seq<Item>, cancelled: bool)
      modifies this`queue
      ensures cancelled == DrainStopped(w, old(queue))
      ensures var taken := TakenCount(w, old(queue));
        && queue == old(queue)[taken..]
        && ready == Due(s, w.now, old(queue)[..taken]) && postponed == Postponed(s, w.now, old(queue)[..taken])
        && (forall x :: x in ready <==> x in old(queue)[..taken] && x.tries < s.recurrent && x.sendAt <= w.now)
        && (forall x :: x in postponed <==> x in old(queue)[..taken] && x.tries < s.recurrent && x.sendAt > w.now)
    {
      SortsByTime(s, w.now, queue[..TakenCount(w, queue)]);
      ready, postponed, cancelled := [], [], false;
      var taken := 0;
      while true
        invariant taken <= |old(queue)| && queue == old(queue)[taken..]
        invariant w.drainStop.Some? ==> taken <= w.drainStop.value
        invariant ready == Due(s, w.now, old(queue)[..taken])
        invariant postponed == Postponed(s, w.now, old(queue)[..taken])
        decreases |old(queue)| - taken
      {
        if w.drainStop == Some(taken) {
          cancelled := true;
          return;
        }
        var item := Dequeue();
        if item.None? {
          break;
        }
        assert old(queue)[..taken+1][..taken] == old(queue)[..taken];
        taken := taken + 1;
        var notification := item.value;
        if notification.tries >= s.recurrent {
          continue;
        }
        if notification.sendAt > w.now {
          postponed := postponed + [notification];
          continue;
        }
        ready := ready + [notification];
      }
    }

    // Hands one batch to the webhooks; no result means the run was cancelled.
    method SendToAllWebhooks(ready: seq<Item>, start: nat, stop: nat, w: Surroundings)
      returns (result: Option<BatchResult>)
      requires start <= stop <= |ready|
      modifies this`posts
      ensures result == if start / BATCH_SIZE < |w.results| then Some(w.results[start / BATCH_SIZE]) else None
      ensures forall was :: old(posts) == was + Posts(ready, w, start) ==>
                posts == was + Posts(ready, w, stop)
    {
      for i := start to stop
        invariant forall was :: old(posts) == was + Posts(ready, w, start) ==>
                    posts == was + Posts(ready, w, i)
      {
        posts := posts + [PostOf(ready[i], w, i)];
      }
      result := if start / BATCH_SIZE < |w.results| then Some(w.results[start / BATCH_SIZE]) else None;
    }

    // Posts the ready notifications batch by batch; returns what to retry.
    method SendBatches(s: Settings, ready: seq<Item>, w: Surroundings) returns (retries: seq<Item>)
      modifies this`posts
      ensures retries == Retries(s, ready, w.results, Posted(ready, w.results))
      ensures posts == old(posts) + Posts(ready, w, Posted(ready, w.results))
      ensures |posts| - |old(posts)| ==
                if |ready| <= 50 * (|w.results| + 1) then |ready| else 50 * (|w.results| + 1)
      ensures PostedInBatches(posts[|old(posts)|..], ready, w)
      ensures forall x :: x in retries <==>
                exists j: nat :: j < |posts| - |old(posts)| && ComesBack(s, x, ready, w, j)
    {
      PostsAreInBatches(ready, w, Posted(ready, w.results));
      RetriesComeBack(s, ready, w, Posted(ready, w.results));
      retries := [];
      var start := 0;
      ghost var batch := 0;
      while start < |ready|
        invariant start <= |ready| && start <= BATCH_SIZE * batch && batch <= |w.results|
        invariant start < |ready| ==> start == BATCH_SIZE * batch
        invariant posts == old(posts) + Posts(ready, w, start)
        invariant retries == Retries(s, ready, w.results, start)
      {
        var stop := if start + BATCH_SIZE < |ready| then start + BATCH_SIZE else |ready|;
        BatchOutcomes(w.results, batch, stop);
        var result := SendToAllWebhooks(ready, start, stop, w);
        if result.None? || result.value.success {
          NothingToRetry(s, ready, w.results, start, stop);
        }
        if result.None? {
          assert stop == Posted(ready, w.results);
          return;
        }
        if !result.value.success {
          retries := AddRetries(s, ready, start, stop, w, retries, result.value.retryAt);
        }
        start, batch := stop, batch + 1;
      }
      assert start == Posted(ready, w.results);
    }

    static method AddRetries(s: Settings, ready: seq<Item>, start: nat, stop: nat, w: Surroundings, before: seq<Item>,
                             retryAt: real)
      returns (retries: seq<Item>)
      requires start <= stop <= |ready| && before == Retries(s, ready, w.results, start)
      requires forall j: nat ::
                start <= j < stop ==> OutcomeAt(w.results, j) == Failed && w.results[j / BATCH_SIZE].retryAt == retryAt
      ensures retries == Retries(s, ready, w.results, stop)
    {
      retries := before;
      for i := start to stop
        invariant retries == Retries(s, ready, w.results, i)
      {
        var tries := ready[i].tries + 1;
        if tries < s.recurrent {
          retries := retries + [Item(ready[i].ticket, retryAt + s.timeout, tries)];
        }
      }
    }

    method SendNotifications(s: Settings, w: Surroundings)
      modifies this
      ensures State() == AfterRun(old(State()), s, w)
    {
      if !s.enable {
        queue := queue + w.arriving + w.later;
        return;
      }
      queue := queue + w.arriving;
      var ready, failedToRequeue, cancelled := Drain(s, w);
      if !cancelled {
        var retries := SendBatches(s, ready, w);
        failedToRequeue := failedToRequeue + retries;
      }
      queue := queue + w.later;
      ghost var left := queue;
      Requeue(failedToRequeue);
      assert queue == left + failedToRequeue;
    }

    method Requeue(items: seq<Item>)
      modifies this`queue
      ensures queue == old(queue) + items
    {
      for i := 0 to |items|
        invariant queue == old(queue) + items[..i]
      {
        Enqueue(items[i]);
      }
    }
  }

  // The notifications of one batch share its outcome.
  lemma BatchOutcomes(results: seq<BatchResult>, batch: nat, stop: nat)
    requires stop <= BATCH_SIZE * batch + BATCH_SIZE
    ensures forall j: nat :: BATCH_SIZE * batch <= j < stop ==> j / BATCH_SIZE == batch
    ensures forall j: nat :: BATCH_SIZE * batch <= j < stop ==>
              OutcomeAt(results, j) == if batch >= |results| then Interrupted
                else if results[batch].success then Delivered else Failed
  {
  }

  lemma {:induction false} NothingToRetry(s: Settings, due: seq<Item>, results: seq<BatchResult>, start: nat, stop: nat)
    requires start <= stop <= |due|
    requires forall j: nat :: start <= j < stop ==> OutcomeAt(results, j) != Failed
    ensures Retries(s, due, results, stop) == Retries(s, due, results, start)
    decreases stop
  {
    if start < stop {
      NothingToRetry(s, due, results, start, stop - 1);
    }
  }
}
