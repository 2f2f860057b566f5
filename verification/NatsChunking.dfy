// Packing serialized user updates into node commands that fit the NATS payload
// limit: the greedy loop, and why no other packing needs fewer commands.
module NatsChunking {
  import opened CommaText
  import opened Pieces

  // A user already serialized to JSON text (ASCII, so characters are bytes).
  type UserJson = string

  const COMMAND_HEAD := "{\"action\":\"update_users\",\"payload\":{\"users\":["
  const COMMAND_TAIL := "]}}"
  const LEAST_PAYLOAD := 1024

  // The command as it goes on the wire.
  function EncodeNodeCommand(users: seq<UserJson>): string {
    COMMAND_HEAD + Join(users) + COMMAND_TAIL
  }

  datatype Limits = Limits(payloadSetting: int, batchSetting: int) {
    function MaxPayload(): int { if payloadSetting < LEAST_PAYLOAD then LEAST_PAYLOAD else payloadSetting }

    function MaxBatch(): int { if batchSetting < 1 then 1 else batchSetting }
  }

  predicate Oversized(limits: Limits, users: seq<UserJson>) {
    |EncodeNodeCommand(users)| > limits.MaxPayload()
  }

  // A chunk that may be sent: a single user is sent whatever its size.
  predicate Allowed(limits: Limits, chunk: seq<UserJson>) {
    && 0 < |chunk| <= limits.MaxBatch()
    && (|chunk| > 1 ==> !Oversized(limits, chunk))
  }

  // What goes on the wire, spelled out.
  function Command(users: seq<UserJson>): string {
    "{\"action\":\"update_users\",\"payload\":{\"users\":[" + Join(users) + "]}}"
  }

  // One user, or a batch within both settings; a payload of 1024 bytes is always
  // allowed.
  predicate Sendable(limits: Limits, chunk: seq<UserJson>) {
    |chunk| == 1 ||
    (1 < |chunk| <= limits.batchSetting && (|Command(chunk)| <= limits.payloadSetting || |Command(chunk)| <= 1024))
  }

  lemma AllowedIffSendable(limits: Limits)
    ensures forall chunk :: Allowed(limits, chunk) <==> Sendable(limits, chunk)
  {
    assert forall users :: EncodeNodeCommand(users) == Command(users);
  }

  lemma {:induction false} WarnedAreTooBig(limits: Limits, users: seq<UserJson>)
    ensures forall user :: user in OversizedUsers(limits, users) <==>
              user in users && limits.payloadSetting < |Command([user])| && 1024 < |Command([user])|
  {
    if users != [] {
      var front, last := users[..|users|-1], users[|users|-1];
      WarnedAreTooBig(limits, front);
      assert forall user :: user in users <==> user in front || user == last by {
        assert users == front + [last];
      }
      assert EncodeNodeCommand([last]) == Command([last]);
    }
  }

  // A way to send these users, in order, in chunks that fit.
  ghost predicate Packing(fits: seq<UserJson> -> bool, chunks: seq<seq<UserJson>>, users: seq<UserJson>) {
    Flatten(chunks) == users && forall k :: 0 <= k < |chunks| ==> chunks[k] != [] && fits(chunks[k])
  }

  // Chunk k could not have taken the next chunk's first user as well.
  ghost predicate Full(fits: seq<UserJson> -> bool, chunks: seq<seq<UserJson>>, k: nat)
    requires k + 1 < |chunks|
  {
    chunks[k+1] != [] && !fits(chunks[k] + [chunks[k+1][0]])
  }

  ghost predicate Packed(fits: seq<UserJson> -> bool, chunks: seq<seq<UserJson>>) {
    forall k :: 0 <= k < |chunks| - 1 ==> Full(fits, chunks, k)
  }

  // Part of what fits fits.
  ghost predicate Hereditary(fits: seq<UserJson> -> bool) {
    forall pre, part, post :: part != [] && fits(pre + part + post) ==> fits(part)
  }

  function OversizedUsers(limits: Limits, users: seq<UserJson>): seq<UserJson> {
    if users == [] then [] else
    var last := users[|users|-1];
    OversizedUsers(limits, users[..|users|-1]) + (if Oversized(limits, [last]) then [last] else [])
  }

  // ---- Encoded sizes ----

  // Part of a command is no longer than the whole.
  lemma PartIsSmaller(pre: seq<UserJson>, part: seq<UserJson>, post: seq<UserJson>)
    ensures |EncodeNodeCommand(part)| <= |EncodeNodeCommand(pre + part + post)|
  {
    JoinLength(part);
    JoinLength(pre + part + post);
    SumOfLengthsConcat(pre + part, post);
    SumOfLengthsConcat(pre, part);
  }

  lemma AllowedIsHereditary(limits: Limits)
    ensures Hereditary(chunk => Allowed(limits, chunk))
  {
    forall pre, part, post | part != [] && Allowed(limits, pre + part + post) ensures Allowed(limits, part) {
      PartIsSmaller(pre, part, post);
    }
  }

  // ---- Optimality ----

  // A chunk that starts no later than `mine` and ends later holds all of `mine`
  // and the user after it.
  lemma LongerChunkHoldsNext(fits: seq<UserJson> -> bool, behind: seq<UserJson>, mine: seq<UserJson>,
                             rest: seq<UserJson>, first: seq<UserJson>)
    requires Hereditary(fits) && fits(first)
    requires first <= behind + mine + rest && |first| > |behind| + |mine|
    ensures rest != [] && fits(mine + [rest[0]])
  {
    var part := mine + [rest[0]];
    var post := first[|behind| + |part|..];
    assert first == behind + part + post;
  }

  lemma PackedTail(fits: seq<UserJson> -> bool, packed: seq<seq<UserJson>>)
    requires Packed(fits, packed) && packed != []
    ensures Packed(fits, packed[1..])
    ensures |packed| > 1 ==> Full(fits, packed, 0)
  {
    forall k | 0 <= k < |packed[1..]| - 1 ensures Full(fits, packed[1..], k) {
      assert Full(fits, packed, k + 1);
    }
  }

  // Greedy stays ahead: whatever is left for a packed list to send, any other
  // list that still has at least as much to send needs as many chunks.
  lemma {:induction false} StaysAhead(fits: seq<UserJson> -> bool, packed: seq<seq<UserJson>>,
                                      other: seq<seq<UserJson>>, behind: seq<UserJson>)
    requires Hereditary(fits) && Packed(fits, packed)
    requires forall k :: 0 <= k < |packed| ==> packed[k] != []
    requires forall k :: 0 <= k < |other| ==> fits(other[k])
    requires Flatten(other) == behind + Flatten(packed)
    ensures |packed| <= |other|
    decreases |packed|
  {
    if packed != [] {
      var first, mine, rest := other[0], packed[0], Flatten(packed[1..]);
      assert behind + Flatten(packed) == behind + mine + rest;
      PackedTail(fits, packed);
      if |first| > |behind| + |mine| {
        LongerChunkHoldsNext(fits, behind, mine, rest, first);
      }
      var still := (behind + mine)[|first|..];
      assert Flatten(other[1..]) == Flatten(other)[|first|..] == still + rest;
      StaysAhead(fits, packed[1..], other[1..], still);
    }
  }

  lemma PackedIsOptimal(fits: seq<UserJson> -> bool, chunks: seq<seq<UserJson>>, users: seq<UserJson>)
    requires Hereditary(fits) && Packing(fits, chunks, users) && Packed(fits, chunks)
    ensures forall other :: Packing(fits, other, users) ==> |chunks| <= |other|
  {
    forall other | Packing(fits, other, users) ensures |chunks| <= |other| {
      assert Flatten(other) == [] + Flatten(chunks);
      StaysAhead(fits, chunks, other, []);
    }
  }

  // ---- The loop ----

  // The open chunk may grow without disturbing the chunks closed before it.
  lemma OpenChunkGrows(fits: seq<UserJson> -> bool, chunks: seq<seq<UserJson>>, current: seq<UserJson>, user: UserJson)
    requires current != [] && Packed(fits, chunks + [current])
    ensures Packed(fits, chunks + [current + [user]])
  {
    var was, grown := chunks + [current], chunks + [current + [user]];
    forall k | 0 <= k < |grown| - 1 ensures Full(fits, grown, k) {
      assert Full(fits, was, k);
      assert grown[k] == was[k] && grown[k+1][0] == was[k+1][0];
    }
  }

  lemma OpenChunkCloses(fits: seq<UserJson> -> bool, chunks: seq<seq<UserJson>>, current: seq<UserJson>, user: UserJson)
    requires current != [] && Packed(fits, chunks + [current]) && !fits(current + [user])
    ensures Packed(fits, (chunks + [current]) + [[user]])
  {
    var was, closed := chunks + [current], (chunks + [current]) + [[user]];
    forall k | 0 <= k < |closed| - 1 ensures Full(fits, closed, k) {
      if k < |chunks| {
        assert Full(fits, was, k);
      }
    }
  }

  // The users handled so far are packed, the last chunk still being open.
  ghost predicate Handled(limits: Limits, chunks: seq<seq<UserJson>>, current: seq<UserJson>, done: seq<UserJson>) {
    && (current == [] <==> done == [])
    && (current == [] ==> chunks == [])
    && (current != [] ==> Packing(chunk => Allowed(limits, chunk), chunks + [current], done))
    && (current != [] ==> Packed(chunk => Allowed(limits, chunk), chunks + [current]))
  }

  predicate MustClose(limits: Limits, current: seq<UserJson>, candidate: seq<UserJson>) {
    current != [] && (|candidate| > limits.MaxBatch() || Oversized(limits, candidate))
  }

  lemma HandledByClosing(limits: Limits, chunks: seq<seq<UserJson>>, current: seq<UserJson>, user: UserJson,
                         done: seq<UserJson>)
    requires Handled(limits, chunks, current, done) && MustClose(limits, current, current + [user])
    ensures Handled(limits, chunks + [current], [user], done + [user])
  {
    OpenChunkCloses(chunk => Allowed(limits, chunk), chunks, current, user);
    FlattenSnoc(chunks + [current], [user]);
  }

  lemma HandledByGrowing(limits: Limits, chunks: seq<seq<UserJson>>, current: seq<UserJson>, user: UserJson,
                         done: seq<UserJson>)
    requires Handled(limits, chunks, current, done) && !MustClose(limits, current, current + [user])
    ensures Handled(limits, chunks, current + [user], done + [user])
  {
    var was, grown := chunks + [current], chunks + [current + [user]];
    FlattenSnoc(chunks, current);
    FlattenSnoc(chunks, current + [user]);
    if current != [] {
      OpenChunkGrows(chunk => Allowed(limits, chunk), chunks, current, user);
    }
    forall k | 0 <= k < |grown| ensures grown[k] != [] && Allowed(limits, grown[k]) {
      assert k < |chunks| ==> grown[k] == was[k];
    }
  }

  lemma OversizedNext(limits: Limits, users: seq<UserJson>, i: nat)
    requires i < |users|
    ensures users[..i+1] == users[..i] + [users[i]]
    ensures OversizedUsers(limits, users[..i+1]) ==
            OversizedUsers(limits, users[..i]) + if Oversized(limits, [users[i]]) then [users[i]] else []
  {
    assert users[..i+1][..i] == users[..i];
  }

  // A user too big on its own never joins others: the warning misses none.
  lemma OversizedStandsAlone(limits: Limits, current: seq<UserJson>, user: UserJson)
    requires current != [] && Oversized(limits, [user])
    ensures MustClose(limits, current, current + [user])
  {
    PartIsSmaller(current, [user], []);
    assert current + [user] + [] == current + [user];
  }

  // Splits the users into commands; `warned` are the users reported as too big
  // on their own.
  method ChunkSerializedUsersForNats(users: seq<UserJson>, limits: Limits)
    returns (chunks: seq<seq<UserJson>>, warned: seq<UserJson>)
    ensures Packing(chunk => Allowed(limits, chunk), chunks, users)
    ensures forall other :: Packing(chunk => Allowed(limits, chunk), other, users) ==> |chunks| <= |other|
    ensures warned == OversizedUsers(limits, users)
    ensures forall chunk :: chunk in chunks ==> Sendable(limits, chunk)
    ensures forall other :: Flatten(other) == users && (forall chunk :: chunk in other ==> Sendable(limits, chunk)) ==>
              |chunks| <= |other|
    ensures forall user :: user in warned <==>
              user in users && limits.payloadSetting < |Command([user])| && 1024 < |Command([user])|
  {
    chunks, warned := [], [];
    AllowedIsHereditary(limits);
    AllowedIffSendable(limits);
    WarnedAreTooBig(limits, users);
    forall other | Flatten(other) == users && forall chunk :: chunk in other ==> Sendable(limits, chunk)
      ensures Packing(chunk => Allowed(limits, chunk), other, users)
    {
      assert forall k :: 0 <= k < |other| ==> other[k] in other && Sendable(limits, other[k]);
    }
    if users == [] {
      PackedIsOptimal(chunk => Allowed(limits, chunk), chunks, users);
      return;
    }
    var current: seq<UserJson> := [];
    for i := 0 to |users|
      invariant Handled(limits, chunks, current, users[..i])
      invariant warned == OversizedUsers(limits, users[..i])
    {
      var user := users[i];
      OversizedNext(limits, users, i);
      if current != [] && Oversized(limits, [user]) {
        OversizedStandsAlone(limits, current, user);
      }
      var candidate := current + [user];
      if MustClose(limits, current, candidate) {
        HandledByClosing(limits, chunks, current, user, users[..i]);
        chunks := chunks + [current];
        current := [user];
      } else {
        HandledByGrowing(limits, chunks, current, user, users[..i]);
        current := candidate;
      }
      if |current| == 1 && Oversized(limits, current) {
        warned := warned + [user];
      }
    }
    assert users[..|users|] == users;
    chunks := chunks + [current];
    PackedIsOptimal(chunk => Allowed(limits, chunk), chunks, users);
  }
}
