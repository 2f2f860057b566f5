// Comma-separated text, as Python's ",".join(parts) prints it and
// text.split(",") reads it.
module CommaText {

  function Join(parts: seq<string>): string {
    if parts == [] then ""
    else if |parts| == 1 then parts[0]
    else Join(parts[..|parts|-1]) + "," + parts[|parts|-1]
  }

  // One more character either opens a new part or extends the last one.
  function Extend(parts: seq<string>, c: char): (extended: seq<string>)
    requires parts != [] && forall p :: p in parts ==> ',' !in p
    ensures extended != []
    ensures forall p :: p in extended ==> ',' !in p
  {
    if c == ',' then parts + [""] else
    var last := parts[|parts|-1];
    parts[..|parts|-1] + [last + [c]]
  }

  // Never empty: the empty text has one, empty, part.
  function Split(text: string): (parts: seq<string>)
    ensures parts != []
    ensures forall p :: p in parts ==> ',' !in p
  {
    if text == "" then [""] else Extend(Split(text[..|text|-1]), text[|text|-1])
  }

  function SumOfLengths(parts: seq<string>): nat {
    if parts == [] then 0 else SumOfLengths(parts[..|parts|-1]) + |parts[|parts|-1]|
  }

  lemma {:induction false} JoinLength(parts: seq<string>)
    ensures |Join(parts)| == if parts == [] then 0 else SumOfLengths(parts) + |parts| - 1
  {
    if |parts| == 1 {
      assert parts[..0] == [];
    } else if parts != [] {
      JoinLength(parts[..|parts|-1]);
    }
  }

  lemma {:induction false} SumOfLengthsConcat(xs: seq<string>, ys: seq<string>)
    ensures SumOfLengths(xs + ys) == SumOfLengths(xs) + SumOfLengths(ys)
  {
    if ys == [] {
      assert xs + ys == xs;
    } else {
      assert (xs + ys)[..|xs + ys|-1] == xs + ys[..|ys|-1];
      SumOfLengthsConcat(xs, ys[..|ys|-1]);
    }
  }

  lemma SplitSnoc(text: string, c: char)
    ensures Split(text + [c]) == Extend(Split(text), c)
  {
    assert (text + [c])[..|text|] == text;
  }

  lemma ExtendConcat(before: seq<string>, parts: seq<string>, c: char)
    requires parts != [] && forall p :: p in before + parts ==> ',' !in p
    ensures forall p :: p in parts ==> ',' !in p
    ensures Extend(before + parts, c) == before + Extend(parts, c)
  {
    assert forall p :: p in parts ==> p in before + parts;
    assert (before + parts)[..|before + parts|-1] == before + parts[..|parts|-1];
  }

  // A comma always separates, whatever stands around it.
  lemma {:induction false} SplitAtComma(left: string, right: string)
    ensures Split(left + "," + right) == Split(left) + Split(right)
  {
    if right == "" {
      assert left + "," + right == left + [','];
      SplitSnoc(left, ',');
    } else {
      var start, c := right[..|right|-1], right[|right|-1];
      assert left + "," + right == (left + "," + start) + [c];
      SplitSnoc(left + "," + start, c);
      SplitAtComma(left, start);
      ExtendConcat(Split(left), Split(start), c);
    }
  }

  lemma {:induction false} SplitCommaFree(text: string)
    requires ',' !in text
    ensures Split(text) == [text]
  {
    if text != "" {
      assert forall c :: c in text[..|text|-1] ==> c in text;
      SplitCommaFree(text[..|text|-1]);
      assert text[..|text|-1] + [text[|text|-1]] == text;
    }
  }

  function PartsOf(parts: seq<string>): seq<string> {
    if parts == [] then [] else PartsOf(parts[..|parts|-1]) + Split(parts[|parts|-1])
  }

  // What splitting makes of joined text: every part, split on its own.
  lemma {:induction false} SplitJoin(parts: seq<string>)
    ensures Split(Join(parts)) == if parts == [] then [""] else PartsOf(parts)
  {
    if |parts| == 1 {
      assert parts[..0] == [];
    } else if parts != [] {
      SplitJoin(parts[..|parts|-1]);
      SplitAtComma(Join(parts[..|parts|-1]), parts[|parts|-1]);
    }
  }

  lemma {:induction false} PartsOfCommaFree(parts: seq<string>)
    requires forall p :: p in parts ==> ',' !in p
    ensures PartsOf(parts) == parts
  {
    if parts != [] {
      var last := parts[|parts|-1];
      PartsOfCommaFree(parts[..|parts|-1]);
      SplitCommaFree(last);
      assert parts[..|parts|-1] + [last] == parts;
    }
  }

  // [part for part in text.split(",") if part]
  function NonEmptyParts(parts: seq<string>): (kept: seq<string>)
    ensures forall p :: p in kept <==> p in parts && p != ""
  {
    if parts == [] then [] else
    var last := parts[|parts|-1];
    assert parts == parts[..|parts|-1] + [last];
    NonEmptyParts(parts[..|parts|-1]) + (if last == "" then [] else [last])
  }

  lemma {:induction false} AllNonEmptyParts(parts: seq<string>)
    requires "" !in parts
    ensures NonEmptyParts(parts) == parts
  {
    if parts != [] {
      AllNonEmptyParts(parts[..|parts|-1]);
      assert parts == parts[..|parts|-1] + [parts[|parts|-1]];
    }
  }

  function ReadParts(text: string): (parts: seq<string>)
    ensures forall p :: p in parts ==> p != "" && ',' !in p
  {
    NonEmptyParts(Split(text))
  }

  predicate Clean(part: string) {
    part != "" && ',' !in part
  }

  // The exact condition for joined text to read back as it was written.
  lemma ReadBackIff(parts: seq<string>)
    ensures ReadParts(Join(parts)) == parts <==> forall p :: p in parts ==> Clean(p)
  {
    SplitJoin(parts);
    if parts == [] {
      assert [""][..0] == [];
      assert NonEmptyParts([""]) == [];
    } else if forall p :: p in parts ==> Clean(p) {
      PartsOfCommaFree(parts);
      AllNonEmptyParts(parts);
    }
  }

  // ---- A set in a text column, read without dropping empty parts ----

  // text.split(",") if text else []
  function ReadColumn(text: string): seq<string> {
    if text == "" then [] else Split(text)
  }

  // The members a reader of the column finds, in whatever order it was written.
  function Columned(tags: set<string>): set<string> {
    if tags <= {""} then {} else set t, part | t in tags && part in Split(t) :: part
  }

  lemma {:induction false} PartsOfMembers(parts: seq<string>, part: string)
    ensures part in PartsOf(parts) <==> exists t :: t in parts && part in Split(t)
  {
    if parts != [] {
      var front, last := parts[..|parts|-1], parts[|parts|-1];
      PartsOfMembers(front, part);
      assert forall t :: t in parts <==> t in front || t == last by {
        assert parts == front + [last];
      }
      assert part in PartsOf(parts) <==> part in PartsOf(front) || part in Split(last);
    }
  }

  lemma EmptyJoinIff(order: seq<string>, tags: set<string>)
    requires forall t :: t in order <==> t in tags
    requires forall i, j :: 0 <= i < j < |order| ==> order[i] != order[j]
    ensures Join(order) == "" <==> tags <= {""}
  {
    JoinLength(order);
    if |order| == 1 {
      assert order[..0] == [];
      assert order[0] in order;
    } else if |order| > 1 {
      assert order[0] in order && order[1] in order;
    } else {
      assert tags == {};
    }
  }

  lemma ColumnedOf(order: seq<string>, tags: set<string>)
    requires forall t :: t in order <==> t in tags
    requires forall i, j :: 0 <= i < j < |order| ==> order[i] != order[j]
    ensures (set part | part in ReadColumn(Join(order))) == Columned(tags)
  {
    EmptyJoinIff(order, tags);
    SplitJoin(order);
    if !(tags <= {""}) {
      forall part ensures part in PartsOf(order) <==> part in Columned(tags) {
        PartsOfMembers(order, part);
      }
    }
  }

  // No member holds a comma, and it is not the empty text alone.
  predicate FitsColumn(tags: set<string>) {
    tags != {""} && forall t :: t in tags ==> ',' !in t
  }

  lemma FittingIsKept(tags: set<string>)
    requires FitsColumn(tags)
    ensures Columned(tags) == tags
  {
    forall part ensures part in Columned(tags) <==> part in tags {
      if part in tags {
        SplitCommaFree(part);
        assert part in Split(part);
      }
      if part in Columned(tags) {
        var t :| t in tags && part in Split(t);
        SplitCommaFree(t);
      }
    }
  }

  // Read back, and cut down to the known texts, it is the set written exactly
  // when the set fits the column.
  lemma ColumnKeepsIff(tags: set<string>, known: set<string>)
    requires tags <= known
    ensures Columned(tags) * known == tags <==> FitsColumn(tags)
  {
    if FitsColumn(tags) {
      FittingIsKept(tags);
    } else {
      assert forall t :: t in Columned(tags) ==> ',' !in t;
      assert exists t :: t in tags && t !in Columned(tags);
    }
  }

  lemma ColumnedOne(text: string)
    requires text != ""
    ensures forall part :: part in Columned({text}) <==> part in Split(text)
  {
    assert text in {text};
  }

  lemma CommaBreaksUp(left: string, right: string)
    requires ',' !in left && ',' !in right
    ensures Columned({left + "," + right}) == {left, right}
  {
    var text := left + "," + right;
    assert text[|left|] == ',';
    ColumnedOne(text);
    assert Split(text) == [left] + [right] by {
      SplitAtComma(left, right);
      SplitCommaFree(left);
      SplitCommaFree(right);
    }
    var parts := [left] + [right];
    assert parts[0] == left && parts[1] == right;
    assert forall part :: part in parts <==> part == left || part == right;
  }
}
