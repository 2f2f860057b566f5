// Cutting a list into pieces and laying the pieces end to end again.
module Pieces {

  // Consecutive pieces of at most `size` items.
  function Chunked<T>(items: seq<T>, size: nat): seq<seq<T>>
    requires size > 0
  {
    if |items| == 0 then []
    else if |items| <= size then [items]
    else [items[..size]] + Chunked(items[size..], size)
  }

  function Flatten<T>(pieces: seq<seq<T>>): seq<T> {
    if pieces == [] then [] else pieces[0] + Flatten(pieces[1..])
  }

  lemma {:induction false} ChunkedKeepsEverything<T>(items: seq<T>, size: nat)
    requires size > 0
    ensures Flatten(Chunked(items, size)) == items
    ensures forall piece :: piece in Chunked(items, size) ==> 0 < |piece| <= size
  {
    var pieces := Chunked(items, size);
    if |items| > size {
      ChunkedKeepsEverything(items[size..], size);
      assert pieces[1..] == Chunked(items[size..], size);
      assert items == items[..size] + items[size..];
    } else if |items| > 0 {
      assert pieces[1..] == [];
      assert items + [] == items;
    }
  }

  lemma {:induction false} FlattenSnoc<T>(pieces: seq<seq<T>>, last: seq<T>)
    ensures Flatten(pieces + [last]) == Flatten(pieces) + last
  {
    if pieces == [] {
      assert [last][1..] == [];
    } else {
      assert (pieces + [last])[1..] == pieces[1..] + [last];
      FlattenSnoc(pieces[1..], last);
    }
  }

  lemma {:induction false} FlattenPrefix<T>(pieces: seq<seq<T>>, k: nat)
    requires k <= |pieces|
    ensures Flatten(pieces[..k]) <= Flatten(pieces)
  {
    if k > 0 {
      FlattenPrefix(pieces[1..], k - 1);
      assert pieces[..k][1..] == pieces[1..][..k-1];
    }
  }
}
