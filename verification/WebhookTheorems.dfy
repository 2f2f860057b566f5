// What holds of a webhook notification over whole runs with fixed settings.
module WebhookTheorems {
  import opened Options
  import opened Webhooks

  // ---- One ticket's view ----

  function PostsOf(posts: seq<Post>, t: Ticket): seq<Post> {
    if posts == [] then [] else
    var last := posts[|posts|-1];
    var before := PostsOf(posts[..|posts|-1], t);
    if last.ticket == t then before + [last] else before
  }

  function ItemsOf(items: seq<Item>, t: Ticket): seq<Item> {
    if items == [] then [] else
    var last := items[|items|-1];
    var before := ItemsOf(items[..|items|-1], t);
    if last.ticket == t then before + [last] else before
  }

  lemma {:induction false} PostsOfConcat(xs: seq<Post>, ys: seq<Post>, t: Ticket)
    ensures PostsOf(xs + ys, t) == PostsOf(xs, t) + PostsOf(ys, t)
  {
    if ys == [] {
      assert xs + ys == xs;
    } else {
      assert (xs + ys)[..|xs + ys|-1] == xs + ys[..|ys|-1];
      PostsOfConcat(xs, ys[..|ys|-1], t);
    }
  }

  lemma {:induction false} ItemsOfConcat(xs: seq<Item>, ys: seq<Item>, t: Ticket)
    ensures ItemsOf(xs + ys, t) == ItemsOf(xs, t) + ItemsOf(ys, t)
  {
    if ys == [] {
      assert xs + ys == xs;
    } else {
      assert (xs + ys)[..|xs + ys|-1] == xs + ys[..|ys|-1];
      ItemsOfConcat(xs, ys[..|ys|-1], t);
    }
  }

  ghost predicate AllFailed(posts: seq<Post>) {
    forall p :: p in posts ==> p.outcome == Failed
  }

  // The posts of one ticket, in order: each was due, each but the last failed,
  // each came at least a timeout after those before it, and there are at most
  // `recurrent`.
  ghost predicate GoodRecord(s: Settings, record: seq<Post>) {
    record == [] ||
    (var before, last := record[..|record|-1], record[|record|-1];
     && |record| <= s.recurrent
     && last.due <= last.time
     && AllFailed(before)
     && (forall p :: p in before ==> p.time + s.timeout <= last.time)
     && GoodRecord(s, before))
  }

  // A queued notification's tries count its posts, all failed and all at least a
  // timeout ago when it will be due.
  ghost predicate FitsRecord(s: Settings, item: Item, record: seq<Post>) {
    && |record| == item.tries
    && AllFailed(record)
    && (forall p :: p in record ==> p.time + s.timeout <= item.sendAt)
  }

  // A ticket is queued at most once, and then fits its record.
  ghost predicate Tracked(s: Settings, items: seq<Item>, record: seq<Post>) {
    && GoodRecord(s, record)
    && |items| <= 1
    && (items != [] ==> FitsRecord(s, items[0], record))
  }

  ghost predicate TrackedIn(s: Settings, m: Mailbox, t: Ticket) {
    Tracked(s, ItemsOf(m.queue, t), PostsOf(m.posts, t))
  }

  // ---- One run, seen by one ticket ----

  function AsSeq(retry: Option<Item>): seq<Item> {
    match retry
    case None => []
    case Some(item) => [item]
  }

  lemma ItemsOfSnoc(items: seq<Item>, x: Item, t: Ticket)
    ensures ItemsOf(items + [x], t) == if x.ticket == t then ItemsOf(items, t) + [x] else ItemsOf(items, t)
  {
    assert (items + [x])[..|items|] == items;
  }

  lemma PostsOfSnoc(posts: seq<Post>, p: Post, t: Ticket)
    ensures PostsOf(posts + [p], t) == if p.ticket == t then PostsOf(posts, t) + [p] else PostsOf(posts, t)
  {
    assert (posts + [p])[..|posts|] == posts;
  }

  lemma SortSnoc(s: Settings, now: real, items: seq<Item>, x: Item)
    ensures Due(s, now, items + [x]) == if !Exhausted(s, x) && !Early(now, x) then Due(s, now, items) + [x]
              else Due(s, now, items)
    ensures Postponed(s, now, items + [x]) == if !Exhausted(s, x) && Early(now, x) then Postponed(s, now, items) + [x]
              else Postponed(s, now, items)
  {
    assert (items + [x])[..|items|] == items;
  }

  lemma {:induction false} DueOf(s: Settings, now: real, items: seq<Item>, t: Ticket)
    ensures ItemsOf(Due(s, now, items), t) == Due(s, now, ItemsOf(items, t))
  {
    if items != [] {
      var front, last := items[..|items|-1], items[|items|-1];
      DueOf(s, now, front, t);
      ItemsOfSnoc(Due(s, now, front), last, t);
      SortSnoc(s, now, ItemsOf(front, t), last);
    }
  }

  lemma {:induction false} PostponedOf(s: Settings, now: real, items: seq<Item>, t: Ticket)
    ensures ItemsOf(Postponed(s, now, items), t) == Postponed(s, now, ItemsOf(items, t))
  {
    if items != [] {
      var front, last := items[..|items|-1], items[|items|-1];
      PostponedOf(s, now, front, t);
      ItemsOfSnoc(Postponed(s, now, front), last, t);
      SortSnoc(s, now, ItemsOf(front, t), last);
    }
  }

  // A ticket held at most once is held at one index.
  lemma {:induction false} IndexOf(items: seq<Item>, t: Ticket) returns (at: Option<nat>)
    requires |ItemsOf(items, t)| <= 1
    ensures at.None? ==> ItemsOf(items, t) == [] && forall k :: 0 <= k < |items| ==> items[k].ticket != t
    ensures at.Some? ==> at.value < |items| && ItemsOf(items, t) == [items[at.value]] && items[at.value].ticket == t
    ensures at.Some? ==> forall k :: 0 <= k < |items| && k != at.value ==> items[k].ticket != t
  {
    at := None;
    if items != [] {
      at := IndexOf(items[..|items|-1], t);
      if items[|items|-1].ticket == t {
        at := Some(|items| - 1);
      }
    }
  }

  lemma {:induction false} NotPosted(s: Settings, w: Surroundings, due: seq<Item>, n: nat, t: Ticket)
    requires n <= |due| && forall k :: 0 <= k < n ==> due[k].ticket != t
    ensures PostsOf(Posts(due, w, n), t) == [] && ItemsOf(Retries(s, due, w.results, n), t) == []
  {
    if n > 0 {
      var p, retry := PostOf(due[n-1], w, n - 1), RetryOf(s, due[n-1], w.results, n - 1);
      NotPosted(s, w, due, n - 1, t);
      PostsOfSnoc(Posts(due, w, n - 1), p, t);
      if retry.Some? {
        ItemsOfSnoc(Retries(s, due, w.results, n - 1), retry.value, t);
      }
    }
  }

  // A due ticket is posted once, and put back by that post alone.
  lemma {:induction false} PostedOnce(s: Settings, w: Surroundings, due: seq<Item>, n: nat, t: Ticket, j: nat)
    requires j < n <= |due| && due[j].ticket == t
    requires forall k :: 0 <= k < n && k != j ==> due[k].ticket != t
    ensures PostsOf(Posts(due, w, n), t) == [PostOf(due[j], w, j)]
    ensures ItemsOf(Retries(s, due, w.results, n), t) == AsSeq(RetryOf(s, due[j], w.results, j))
  {
    var p, retry := PostOf(due[n-1], w, n - 1), RetryOf(s, due[n-1], w.results, n - 1);
    if j == n - 1 {
      NotPosted(s, w, due, n - 1, t);
    } else {
      PostedOnce(s, w, due, n - 1, t, j);
    }
    PostsOfSnoc(Posts(due, w, n - 1), p, t);
    if retry.Some? {
      ItemsOfSnoc(Retries(s, due, w.results, n - 1), retry.value, t);
    }
  }

  // What a run does to the one item x of a ticket: the index at which it was
  // posted, if it was.
  ghost predicate Fate(s: Settings, m: Mailbox, w: Surroundings, t: Ticket, x: Item, at: Option<nat>) {
    var after := AfterRun(m, s, w);
    match at
    case None =>
      && PostsOf(after.posts, t) == PostsOf(m.posts, t)
      && (ItemsOf(after.queue, t) == [x] ||
        (ItemsOf(after.queue, t) == [] && s.enable && (Exhausted(s, x) || CutShort(m, s, w))))
    case Some(j) =>
      && s.enable && !Exhausted(s, x) && !Early(w.now, x)
      && (j < BATCH_SIZE * |w.results| || CutShort(m, s, w))
      && PostsOf(after.posts, t) == PostsOf(m.posts, t) + [PostOf(x, w, j)]
      && ItemsOf(after.queue, t) == AsSeq(RetryOf(s, x, w.results, j))
  }

  // A run is cut short when it settles fewer due notifications than it took.
  predicate CutShort(m: Mailbox, s: Settings, w: Surroundings) {
    s.enable && |Due(s, w.now, Taken(m, w))| > SettledCount(m, w)
  }

  function SettledCount(m: Mailbox, w: Surroundings): nat {
    if DrainStopped(w, m.queue + w.arriving) then 0 else BATCH_SIZE * |w.results|
  }

  // The ticket's item when the queue is drained, or queued after.
  function Pending(m: Mailbox, w: Surroundings, t: Ticket): seq<Item> {
    ItemsOf(m.queue, t) + ItemsOf(w.arriving, t) + ItemsOf(w.later, t)
  }

  // Every pending item is either taken or not.
  lemma PendingSplit(m: Mailbox, w: Surroundings, t: Ticket)
    ensures Pending(m, w, t) == ItemsOf(Taken(m, w), t) + ItemsOf(NotTaken(m, w), t)
  {
    var all := m.queue + w.arriving;
    var n := TakenCount(w, all);
    ItemsOfConcat(m.queue, w.arriving, t);
    assert all == all[..n] + all[n..];
    ItemsOfConcat(all[..n], all[n..], t);
    ItemsOfConcat(all[n..], w.later, t);
  }

  lemma AfterRunOf(s: Settings, m: Mailbox, w: Surroundings, t: Ticket)
    requires s.enable
    ensures var due := Due(s, w.now, Taken(m, w)); var n := PostedCount(m, s, w);
      && PostsOf(AfterRun(m, s, w).posts, t) == PostsOf(m.posts, t) + PostsOf(Posts(due, w, n), t)
      && ItemsOf(AfterRun(m, s, w).queue, t) ==
         ItemsOf(NotTaken(m, w), t) + Postponed(s, w.now, ItemsOf(Taken(m, w), t)) +
           ItemsOf(Retries(s, due, w.results, n), t)
      && ItemsOf(due, t) == Due(s, w.now, ItemsOf(Taken(m, w), t))
  {
    var taken, left := Taken(m, w), NotTaken(m, w);
    var due, early := Due(s, w.now, taken), Postponed(s, w.now, taken);
    var n := PostedCount(m, s, w);
    PostsOfConcat(m.posts, Posts(due, w, n), t);
    DueOf(s, w.now, taken, t);
    PostponedOf(s, w.now, taken, t);
    ItemsOfConcat(left, early, t);
    ItemsOfConcat(left + early, Retries(s, due, w.results, n), t);
  }

  lemma AfterIdleRun(s: Settings, m: Mailbox, w: Surroundings, t: Ticket)
    requires !s.enable
    ensures AfterRun(m, s, w).posts == m.posts && ItemsOf(AfterRun(m, s, w).queue, t) == Pending(m, w, t)
  {
    ItemsOfConcat(m.queue, w.arriving, t);
    ItemsOfConcat(m.queue + w.arriving, w.later, t);
  }

  lemma SortSingle(s: Settings, now: real, items: seq<Item>)
    requires |items| <= 1
    ensures Due(s, now, items) == if items != [] && !Exhausted(s, items[0]) && !Early(now, items[0]) then items else []
    ensures Postponed(s, now, items) == if items != [] && !Exhausted(s, items[0]) && Early(now, items[0]) then items
              else []
  {
    assert items != [] ==> items[..0] == [];
  }

  // The one item of a ticket is due, or kept, or exhausted.
  lemma DueKeptOrExhausted(s: Settings, now: real, mine: seq<Item>, later: seq<Item>)
    requires |mine| + |later| == 1
    ensures var x := (mine + later)[0];
      if Due(s, now, mine) != []
      then later == [] && Postponed(s, now, mine) == [] && Due(s, now, mine) == [x] && !Exhausted(s, x) &&
        !Early(now, x)
      else later + Postponed(s, now, mine) == [x] || (later + Postponed(s, now, mine) == [] && Exhausted(s, x))
  {
    SortSingle(s, now, mine);
  }

  // A ticket that is nowhere stays untouched.
  lemma AbsentStaysAbsent(s: Settings, m: Mailbox, w: Surroundings, t: Ticket)
    requires Pending(m, w, t) == []
    ensures PostsOf(AfterRun(m, s, w).posts, t) == PostsOf(m.posts, t) && ItemsOf(AfterRun(m, s, w).queue, t) == []
  {
    if s.enable {
      AfterRunOf(s, m, w, t);
      PendingSplit(m, w, t);
      var due := Due(s, w.now, Taken(m, w));
      var _ := IndexOf(due, t);
      NotPosted(s, w, due, PostedCount(m, s, w), t);
    } else {
      AfterIdleRun(s, m, w, t);
    }
  }

  lemma PostedFate(s: Settings, m: Mailbox, w: Surroundings, t: Ticket, j: nat)
    requires s.enable && |Pending(m, w, t)| == 1
    requires var due := Due(s, w.now, Taken(m, w));
      && j < PostedCount(m, s, w) && ItemsOf(due, t) == [due[j]] && due[j].ticket == t
      && forall k :: 0 <= k < |due| && k != j ==> due[k].ticket != t
    ensures Fate(s, m, w, t, Pending(m, w, t)[0], Some(j))
  {
    var due := Due(s, w.now, Taken(m, w));
    AfterRunOf(s, m, w, t);
    PendingSplit(m, w, t);
    DueKeptOrExhausted(s, w.now, ItemsOf(Taken(m, w), t), ItemsOf(NotTaken(m, w), t));
    assert Pending(m, w, t) == [due[j]];
    PostedOnce(s, w, due, PostedCount(m, s, w), t, j);
  }

  lemma DueAtMostOnce(s: Settings, m: Mailbox, w: Surroundings, t: Ticket)
    requires |Pending(m, w, t)| <= 1
    ensures |ItemsOf(Due(s, w.now, Taken(m, w)), t)| <= 1
  {
    PendingSplit(m, w, t);
    DueOf(s, w.now, Taken(m, w), t);
    SortSingle(s, w.now, ItemsOf(Taken(m, w), t));
  }

  lemma UnpostedFate(s: Settings, m: Mailbox, w: Surroundings, t: Ticket)
    requires s.enable && |Pending(m, w, t)| == 1
    requires var due := Due(s, w.now, Taken(m, w));
      && (forall k :: 0 <= k < PostedCount(m, s, w) ==> due[k].ticket != t)
      && (ItemsOf(due, t) != [] ==> PostedCount(m, s, w) < |due|)
    ensures Fate(s, m, w, t, Pending(m, w, t)[0], None)
  {
    var due := Due(s, w.now, Taken(m, w));
    AfterRunOf(s, m, w, t);
    PendingSplit(m, w, t);
    DueKeptOrExhausted(s, w.now, ItemsOf(Taken(m, w), t), ItemsOf(NotTaken(m, w), t));
    NotPosted(s, w, due, PostedCount(m, s, w), t);
  }

  // The one pending item of a ticket: posted at its index among the due ones, or not.
  lemma FateOf(s: Settings, m: Mailbox, w: Surroundings, t: Ticket) returns (at: Option<nat>)
    requires |Pending(m, w, t)| == 1
    ensures Fate(s, m, w, t, Pending(m, w, t)[0], at)
  {
    at := None;
    if !s.enable {
      AfterIdleRun(s, m, w, t);
    } else {
      var due := Due(s, w.now, Taken(m, w));
      DueAtMostOnce(s, m, w, t);
      at := IndexOf(due, t);
      if at.Some? && at.value < PostedCount(m, s, w) {
        PostedFate(s, m, w, t, at.value);
      } else {
        at := None;
        UnpostedFate(s, m, w, t);
      }
    }
  }

  // ---- Good records ----

  // Posting a due notification keeps its record good; what is put back fits it.
  lemma PostKeepsTracked(s: Settings, w: Surroundings, record: seq<Post>, x: Item, j: nat)
    requires Tracked(s, [x], record) && s.timeout >= 0.0 && ClockRuns(w)
    requires !Exhausted(s, x) && !Early(w.now, x)
    ensures Tracked(s, AsSeq(RetryOf(s, x, w.results, j)), record + [PostOf(x, w, j)])
  {
    var p := PostOf(x, w, j);
    assert (record + [p])[..|record|] == record;
    assert GoodRecord(s, record + [p]);
  }

  lemma {:induction false} ItemsOfTicket(items: seq<Item>, t: Ticket)
    ensures forall x :: x in ItemsOf(items, t) ==> x.ticket == t
  {
    if items != [] {
      ItemsOfTicket(items[..|items|-1], t);
    }
  }

  lemma PendingTicket(m: Mailbox, w: Surroundings, t: Ticket)
    ensures forall x :: x in Pending(m, w, t) ==> x.ticket == t
  {
    ItemsOfTicket(m.queue, t);
    ItemsOfTicket(w.arriving, t);
    ItemsOfTicket(w.later, t);
  }

  // New notifications have not been tried, and carry a ticket of their own.
  ghost predicate NewTicket(m: Mailbox, w: Surroundings, t: Ticket) {
    var more := ItemsOf(w.arriving, t) + ItemsOf(w.later, t);
    more != [] ==>
      && |more| == 1 && more[0].tries == 0
      && ItemsOf(m.queue, t) == [] && PostsOf(m.posts, t) == []
  }

  // Batches are posted once the run has started, and their failures handled after.
  ghost predicate ClockRuns(w: Surroundings) {
    w.now <= w.interruptedAt && forall r :: r in w.results ==> w.now <= r.postedAt <= r.retryAt
  }

  // A run keeps the record good, whatever the webhooks answer and wherever it is
  // cancelled.
  lemma RunKeepsTracked(s: Settings, m: Mailbox, w: Surroundings, t: Ticket)
    requires s.timeout >= 0.0 && ClockRuns(w) && NewTicket(m, w, t) && TrackedIn(s, m, t)
    ensures TrackedIn(s, AfterRun(m, s, w), t)
  {
    if Pending(m, w, t) == [] {
      AbsentStaysAbsent(s, m, w, t);
    } else {
      var x, record := Pending(m, w, t)[0], PostsOf(m.posts, t);
      assert Pending(m, w, t) == [x] && Tracked(s, [x], record) && x.ticket == t by {
        PendingTicket(m, w, t);
      }
      var at := FateOf(s, m, w, t);
      if at.Some? {
        PostKeepsTracked(s, w, record, x, at.value);
      }
    }
  }

  function AfterRuns(m: Mailbox, s: Settings, ws: seq<Surroundings>): Mailbox {
    if ws == [] then m else AfterRun(AfterRuns(m, s, ws[..|ws|-1]), s, ws[|ws|-1])
  }

  // Whenever the ticket is queued anew, it is new.
  ghost predicate Regular(s: Settings, ws: seq<Surroundings>, t: Ticket) {
    ws == [] ||
    (&& Regular(s, ws[..|ws|-1], t)
     && ClockRuns(ws[|ws|-1])
     && NewTicket(AfterRuns(Mailbox([], []), s, ws[..|ws|-1]), ws[|ws|-1], t))
  }

  lemma {:induction false} TrackedAlways(s: Settings, ws: seq<Surroundings>, t: Ticket)
    requires s.timeout >= 0.0 && Regular(s, ws, t)
    ensures TrackedIn(s, AfterRuns(Mailbox([], []), s, ws), t)
  {
    if ws != [] {
      TrackedAlways(s, ws[..|ws|-1], t);
      RunKeepsTracked(s, AfterRuns(Mailbox([], []), s, ws[..|ws|-1]), ws[|ws|-1], t);
    }
  }

  // What a good record means, read directly.
  lemma {:induction false} GoodRecordMeans(s: Settings, record: seq<Post>)
    requires GoodRecord(s, record)
    ensures record != [] ==> |record| <= s.recurrent
    ensures forall i :: 0 <= i < |record| ==> record[i].due <= record[i].time
    ensures forall i :: 0 <= i < |record| - 1 ==> record[i].outcome == Failed
  {
    if record != [] {
      var before := record[..|record|-1];
      GoodRecordMeans(s, before);
      forall i | 0 <= i < |before| ensures record[i].due <= record[i].time && record[i].outcome == Failed {
        assert record[i] == before[i] && before[i] in before;
      }
    }
  }

  lemma {:induction false} GoodRecordSpacing(s: Settings, record: seq<Post>, i: nat, j: nat)
    requires GoodRecord(s, record) && i < j < |record|
    ensures record[i].time + s.timeout <= record[j].time
  {
    var before := record[..|record|-1];
    if j == |before| {
      assert record[i] == before[i] && before[i] in before;
    } else {
      GoodRecordSpacing(s, before, i, j);
    }
  }

  // Over all runs a notification is posted at most `recurrent` times, never
  // before it is due or within a timeout of an earlier post, and never again
  // after it was delivered.
  lemma PostedWithinLimits(s: Settings, ws: seq<Surroundings>, t: Ticket)
    requires s.timeout >= 0.0 && Regular(s, ws, t)
    ensures var record := PostsOf(AfterRuns(Mailbox([], []), s, ws).posts, t);
      && (record != [] ==> |record| <= s.recurrent)
      && (forall i :: 0 <= i < |record| ==> record[i].due <= record[i].time)
      && (forall i, j :: 0 <= i < j < |record| ==> record[i].time + s.timeout <= record[j].time)
      && (forall i :: 0 <= i < |record| - 1 ==> record[i].outcome == Failed)
  {
    TrackedAlways(s, ws, t);
    var record := PostsOf(AfterRuns(Mailbox([], []), s, ws).posts, t);
    GoodRecordMeans(s, record);
    forall i, j | 0 <= i < j < |record| ensures record[i].time + s.timeout <= record[j].time {
      GoodRecordSpacing(s, record, i, j);
    }
  }

  // A full run posts whatever has a try left and is due.
  lemma DueIsPosted(s: Settings, m: Mailbox, w: Surroundings, x: Item) returns (p: Post)
    requires s.enable && w.drainStop.None? && |Due(s, w.now, m.queue + w.arriving)| <= 50 * |w.results|
    requires x in m.queue + w.arriving && x.tries < s.recurrent && x.sendAt <= w.now
    ensures p in AfterRun(m, s, w).posts[|m.posts|..]
    ensures p.ticket == x.ticket && p.due == x.sendAt && p.outcome != Interrupted
  {
    var all := m.queue + w.arriving;
    assert all[..|all|] == all;
    var due := Due(s, w.now, Taken(m, w));
    SortsByTime(s, w.now, all);
    var j :| 0 <= j < |due| && due[j] == x;
    PostsAreInBatches(due, w, |due|);
    assert AfterRun(m, s, w).posts[|m.posts|..] == Posts(due, w, |due|);
    p := Posts(due, w, |due|)[j];
  }

  // ---- Nothing is dropped without a reason ----

  ghost predicate Succeeded(record: seq<Post>) {
    exists p :: p in record && p.outcome == Delivered
  }

  function Failures(record: seq<Post>): nat {
    if record == [] then 0 else Failures(record[..|record|-1]) + (if record[|record|-1].outcome == Failed then 1 else 0)
  }

  lemma {:induction false} AllFailedCount(record: seq<Post>)
    requires AllFailed(record)
    ensures Failures(record) == |record| && !Succeeded(record)
  {
    if record != [] {
      assert forall p :: p in record[..|record|-1] ==> p in record;
      AllFailedCount(record[..|record|-1]);
      assert record[|record|-1] in record;
    }
  }

  // Still queued, delivered, or failed as often as the settings allow.
  ghost predicate Accounted(s: Settings, m: Mailbox, t: Ticket) {
    || ItemsOf(m.queue, t) != []
    || Succeeded(PostsOf(m.posts, t))
    || Failures(PostsOf(m.posts, t)) >= s.recurrent
  }

  lemma GrownRecordAccounts(record: seq<Post>, p: Post)
    requires AllFailed(record)
    ensures Succeeded(record + [p]) <==> p.outcome == Delivered
    ensures Failures(record + [p]) == |record| + if p.outcome == Failed then 1 else 0
  {
    AllFailedCount(record);
    assert (record + [p])[..|record|] == record;
    assert (record + [p])[|record|] == p;
  }

  // A run that is not cut short keeps every notification accounted for.
  lemma FullRunKeepsAccounts(s: Settings, m: Mailbox, w: Surroundings, t: Ticket)
    requires NewTicket(m, w, t) && TrackedIn(s, m, t) && !CutShort(m, s, w)
    requires Accounted(s, m, t) || Pending(m, w, t) != []
    ensures Accounted(s, AfterRun(m, s, w), t)
  {
    if Pending(m, w, t) == [] {
      AbsentStaysAbsent(s, m, w, t);
    } else {
      var x, record := Pending(m, w, t)[0], PostsOf(m.posts, t);
      assert Pending(m, w, t) == [x] && FitsRecord(s, x, record);
      var at := FateOf(s, m, w, t);
      AllFailedCount(record);
      if at.Some? {
        GrownRecordAccounts(record, PostOf(x, w, at.value));
      }
    }
  }

  ghost predicate NoneCutShort(s: Settings, ws: seq<Surroundings>) {
    ws == [] ||
    (NoneCutShort(s, ws[..|ws|-1]) && !CutShort(AfterRuns(Mailbox([], []), s, ws[..|ws|-1]), s, ws[|ws|-1]))
  }

  // The ticket was queued at some time.
  predicate EverQueued(ws: seq<Surroundings>, t: Ticket) {
    ws != [] &&
    (var w := ws[|ws|-1];
     EverQueued(ws[..|ws|-1], t) || ItemsOf(w.arriving, t) != [] || ItemsOf(w.later, t) != [])
  }

  // Over all runs of which none is cut short, every notification that was ever
  // queued is still queued, was delivered, or failed as often as allowed.
  lemma {:induction false} NothingIsLost(s: Settings, ws: seq<Surroundings>, t: Ticket)
    requires s.timeout >= 0.0 && Regular(s, ws, t) && NoneCutShort(s, ws) && EverQueued(ws, t)
    ensures Accounted(s, AfterRuns(Mailbox([], []), s, ws), t)
  {
    var front, w := ws[..|ws|-1], ws[|ws|-1];
    TrackedAlways(s, front, t);
    if EverQueued(front, t) {
      NothingIsLost(s, front, t);
    }
    FullRunKeepsAccounts(s, AfterRuns(Mailbox([], []), s, front), w, t);
  }

  // The first notification that is not settled is gone, posted or not.
  lemma FirstUnsettled(s: Settings, m: Mailbox, w: Surroundings, t: Ticket)
    requires CutShort(m, s, w) && t == Due(s, w.now, Taken(m, w))[SettledCount(m, w)].ticket
    requires |Pending(m, w, t)| <= 1
    ensures Pending(m, w, t) != [] && !Exhausted(s, Pending(m, w, t)[0])
    ensures ItemsOf(AfterRun(m, s, w).queue, t) == []
    ensures PostsOf(AfterRun(m, s, w).posts, t) == PostsOf(m.posts, t) +
              if DrainStopped(w, m.queue + w.arriving) then [] else [PostOf(Pending(m, w, t)[0], w, SettledCount(m, w))]
  {
    var due := Due(s, w.now, Taken(m, w));
    DueAtMostOnce(s, m, w, t);
    var at := IndexOf(due, t);
    PendingIfDue(s, m, w, t);
    AfterRunOf(s, m, w, t);
    PendingSplit(m, w, t);
    DueKeptOrExhausted(s, w.now, ItemsOf(Taken(m, w), t), ItemsOf(NotTaken(m, w), t));
    if !DrainStopped(w, m.queue + w.arriving) {
      PostedFate(s, m, w, t, SettledCount(m, w));
    }
  }

  lemma PendingIfDue(s: Settings, m: Mailbox, w: Surroundings, t: Ticket)
    requires ItemsOf(Due(s, w.now, Taken(m, w)), t) != [] && |Pending(m, w, t)| <= 1
    ensures |Pending(m, w, t)| == 1
  {
    PendingSplit(m, w, t);
    DueOf(s, w.now, Taken(m, w), t);
    SortSingle(s, w.now, ItemsOf(Taken(m, w), t));
  }

  // A run that is cut short always loses someone, who is then neither queued,
  // nor delivered, nor out of tries.
  lemma CutShortLoses(s: Settings, m: Mailbox, w: Surroundings) returns (t: Ticket)
    requires CutShort(m, s, w) && (forall t :: NewTicket(m, w, t) && TrackedIn(s, m, t))
    ensures Pending(m, w, t) != [] && !Accounted(s, AfterRun(m, s, w), t)
  {
    t := Due(s, w.now, Taken(m, w))[SettledCount(m, w)].ticket;
    assert NewTicket(m, w, t) && TrackedIn(s, m, t);
    FirstUnsettled(s, m, w, t);
    var x, record := Pending(m, w, t)[0], PostsOf(m.posts, t);
    assert FitsRecord(s, x, record);
    AllFailedCount(record);
    assert record + [] == record;
    if !DrainStopped(w, m.queue + w.arriving) {
      assert (BATCH_SIZE * |w.results|) / BATCH_SIZE == |w.results|;
      GrownRecordAccounts(record, PostOf(x, w, SettledCount(m, w)));
    }
  }
}
