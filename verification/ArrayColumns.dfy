// The array columns of the database, kept as comma-separated text, and the
// length check that guards what is written to them.
module ArrayColumns {
  import opened Options
  import opened Iteration
  import opened CommaText

  // An order in which Python may iterate a set.
  ghost predicate Iterates(order: seq<string>, items: set<string>) {
    && (forall s :: s in order <==> s in items)
    && (forall i, j :: 0 <= i < j < |order| ==> order[i] != order[j])
  }

  // ---- StringArray ----

  function BindStrings(value: Option<seq<string>>): string {
    match value
    case None => ""
    case Some(items) => Join(items)
  }

  function ResultStrings(stored: Option<string>): set<string> {
    match stored
    case None => {}
    case Some(text) => set part | part in ReadParts(text)
  }

  // A set survives the column exactly when none of its members is empty or
  // holds a comma, whatever order it was written in.
  lemma StringArrayRoundTripIff(items: set<string>, order: seq<string>)
    requires Iterates(order, items)
    ensures ResultStrings(Some(BindStrings(Some(order)))) == items <==> forall s :: s in items ==> Clean(s)
  {
    var read := ResultStrings(Some(BindStrings(Some(order))));
    ReadBackIff(order);
    if read == items {
      forall s | s in items ensures Clean(s) {
        assert s in read;
      }
    }
  }

  // A missing set is stored as the empty set and cannot be told from it again.
  lemma MissingSetReadsAsEmpty()
    ensures BindStrings(None) == BindStrings(Some([]))
    ensures ResultStrings(Some(BindStrings(None))) == {}
  {
    ReadBackIff([]);
  }

  // ---- EnumArray ----

  // Members are named by their values; `members` are the values of the enum.
  function BindEnum(value: Option<seq<string>>): Option<string> {
    match value
    case None => None
    case Some(list) => Some(Join(list))
  }

  function ResultEnum(members: set<string>, stored: Option<string>): Result<Option<seq<string>>, string> {
    match stored
    case None => Ok(None)
    case Some(text) =>
      var parts := ReadParts(text);
      var known := FirstUnknown(members, parts);
      if known.Some? then Err(known.value) else Ok(Some(parts))
  }

  function FirstUnknown(members: set<string>, parts: seq<string>): (r: Option<string>)
    ensures r.None? <==> forall p :: p in parts ==> p in members
    ensures r.Some? ==> r.value in parts && r.value !in members
  {
    if parts == [] then None
    else if parts[0] !in members then Some(parts[0])
    else FirstUnknown(members, parts[1..])
  }

  // A stored value that names no member is refused.
  lemma UnknownValueIsRefused(members: set<string>, text: string)
    ensures ResultEnum(members, Some(text)).Err? <==> exists part ::
              part in Split(text) && part != "" && part !in members
  {
  }

  // An ordered list of members, repetitions included, survives the column
  // exactly when the members it uses are neither empty nor hold a comma.
  lemma EnumArrayRoundTripIff(members: set<string>, list: seq<string>)
    requires forall v :: v in list ==> v in members
    ensures ResultEnum(members, BindEnum(Some(list))) == Ok(Some(list)) <==> forall v :: v in list ==> Clean(v)
    ensures ResultEnum(members, BindEnum(None)) == Ok(None)
  {
    ReadBackIff(list);
  }

  // ---- The length check ----

  lemma NothingToIterate(order: seq<string>)
    ensures Iterates(order, {}) ==> order == []
  {
    if order != [] {
      assert order[0] in order;
    }
  }

  // The stored length, the same for every order the set may be written in.
  lemma {:induction false} SumOfLengthsOrderFree(xs: seq<string>, ys: seq<string>, items: set<string>)
    requires Iterates(xs, items) && Iterates(ys, items)
    ensures |xs| == |ys| && SumOfLengths(xs) == SumOfLengths(ys)
  {
    if xs == [] {
      assert items == {};
      NothingToIterate(ys);
    } else {
      var last := xs[|xs|-1];
      assert last in ys;
      var i :| 0 <= i < |ys| && ys[i] == last;
      var front, back := ys[..i], ys[i+1..];
      assert ys == front + [last] + back;
      IteratesWithout(xs, items, |xs|-1);
      IteratesWithout(ys, items, i);
      assert xs[|xs|-1+1..] == [] && xs[..|xs|-1] + [] == xs[..|xs|-1];
      SumOfLengthsOrderFree(xs[..|xs|-1], front + back, items - {last});
      SumOfLengthsConcat(front + [last], back);
      SumOfLengthsConcat(front, [last]);
      SumOfLengthsConcat(front, back);
      assert [last][..0] == [];
    }
  }

  lemma IteratesWithout(order: seq<string>, items: set<string>, i: nat)
    requires Iterates(order, items) && i < |order|
    ensures Iterates(order[..i] + order[i+1..], items - {order[i]})
  {
    var rest := order[..i] + order[i+1..];
    forall s ensures s in rest <==> s in items - {order[i]} {
      if s in items - {order[i]} {
        assert s in order;
        var j :| 0 <= j < |order| && order[j] == s;
        assert rest[if j < i then j else j - 1] == s;
      }
      if s in rest {
        var j :| 0 <= j < |rest| && rest[j] == s;
        assert s == order[if j < i then j else j + 1];
      }
    }
  }

  lemma StoredLengthOrderFree(xs: seq<string>, ys: seq<string>, items: set<string>)
    requires Iterates(xs, items) && Iterates(ys, items)
    ensures |BindStrings(Some(xs))| == |BindStrings(Some(ys))|
  {
    SumOfLengthsOrderFree(xs, ys, items);
    JoinLength(xs);
    JoinLength(ys);
  }

  datatype TooLong = TooLong(max: int)

  // `items` are the members of the set or list, or the keys of the dict, as text.
  method LenCheck(values: Option<seq<string>>, max: int) returns (r: Result<Option<set<string>>, TooLong>)
    ensures values.None? ==> r == Ok(None)
    ensures values.Some? ==>
              var items := set s | s in values.value;
              && (r.Ok? ==> r.value == Some(items))
              && (r.Ok? ==> forall order :: Iterates(order, items) ==> |BindStrings(Some(order))| <= max)
              && (r.Err? ==> r.error == TooLong(max) && forall order ::
                Iterates(order, items) ==> |BindStrings(Some(order))| > max)
  {
    if values.None? {
      return Ok(None);
    }
    var items := set s | s in values.value;
    var order := IterationOrder(items);
    forall other | Iterates(other, items) ensures |Join(other)| == |Join(order)| {
      StoredLengthOrderFree(order, other, items);
    }
    var joined := Join(order);
    if |joined| > max {
      return Err(TooLong(max));
    }
    return Ok(Some(items));
  }
}
