// Traffic ledgers: finite maps from an account to a number of bytes, and the
// one meaning every usage list in the panel is given -- "add up the entries of
// each account". The other usage modules are stated in these terms.
module Ledgers {

  datatype Entry<K> = Entry(key: K, value: nat)

  type Ledger<K> = map<K, nat>

  // The amount held for an account; an absent account holds nothing.
  function At<K(==)>(m: Ledger<K>, k: K): nat {
    if k in m then m[k] else 0
  }

  // The sum of all entries of one account.
  function TotalFor<K(==)>(items: seq<Entry<K>>, k: K): nat {
    if items == [] then 0
    else (if items[0].key == k then items[0].value else 0) + TotalFor(items[1..], k)
  }

  function KeysOf<K(==)>(items: seq<Entry<K>>): set<K> {
    set e | e in items :: e.key
  }

  // The ledger a list of entries stands for.
  function Totals<K(==)>(items: seq<Entry<K>>): Ledger<K> {
    map k | k in KeysOf(items) :: TotalFor(items, k)
  }

  function Plus<K(==)>(a: Ledger<K>, b: Ledger<K>): Ledger<K> {
    map k | k in a.Keys + b.Keys :: At(a, k) + At(b, k)
  }

  function Credit<K(==)>(m: Ledger<K>, e: Entry<K>): Ledger<K> {
    m[e.key := At(m, e.key) + e.value]
  }

  // A list with one entry per account of m, in some order: what reading a
  // dictionary out into a list of records gives.
  ghost predicate Lists<K(!new)>(items: seq<Entry<K>>, m: Ledger<K>) {
    && (forall i, j :: 0 <= i < j < |items| ==> items[i].key != items[j].key)
    && (forall e :: e in items ==> e.key in m && m[e.key] == e.value)
    && (forall k :: k in m ==> Entry(k, m[k]) in items)
  }

  lemma {:induction false} TotalForAppend<K>(xs: seq<Entry<K>>, ys: seq<Entry<K>>, k: K)
    ensures TotalFor(xs + ys, k) == TotalFor(xs, k) + TotalFor(ys, k)
  {
    if xs == [] {
      assert xs + ys == ys;
    } else {
      assert (xs + ys)[1..] == xs[1..] + ys;
      TotalForAppend(xs[1..], ys, k);
    }
  }

  lemma {:induction false} TotalForAbsent<K>(items: seq<Entry<K>>, k: K)
    requires k !in KeysOf(items)
    ensures TotalFor(items, k) == 0
  {
    if items != [] {
      assert items[0] in items;
      assert forall e :: e in items[1..] ==> e in items;
      TotalForAbsent(items[1..], k);
    }
  }

  lemma AtTotals<K>(items: seq<Entry<K>>, k: K)
    ensures At(Totals(items), k) == TotalFor(items, k)
  {
    if k !in KeysOf(items) {
      TotalForAbsent(items, k);
    }
  }

  // Adding up a concatenation is adding up the parts: the fact behind every
  // split of the work into chunks, threads or batches.
  lemma TotalsConcat<K>(xs: seq<Entry<K>>, ys: seq<Entry<K>>)
    ensures Totals(xs + ys) == Plus(Totals(xs), Totals(ys))
  {
    var l, r := Totals(xs + ys), Plus(Totals(xs), Totals(ys));
    assert l.Keys == r.Keys;
    forall k | k in l
      ensures l[k] == r[k]
    {
      TotalForAppend(xs, ys, k);
      AtTotals(xs, k);
      AtTotals(ys, k);
    }
  }

  lemma TotalsSnoc<K>(items: seq<Entry<K>>, e: Entry<K>)
    ensures Totals(items + [e]) == Credit(Totals(items), e)
  {
    TotalsConcat(items, [e]);
    var one := [e];
    assert one[1..] == [];
    assert TotalFor(one, e.key) == e.value;
    assert KeysOf(one) == {e.key};
    assert Totals(one) == map[e.key := e.value];
  }

  // Order does not matter: two lists with the same entries, in any order,
  // stand for the same ledger.
  lemma TotalsOrderFree<K>(xs: seq<Entry<K>>, ys: seq<Entry<K>>)
    requires multiset(xs) == multiset(ys)
    ensures Totals(xs) == Totals(ys)
  {
    forall e ensures e in xs <==> e in ys {
      assert e in multiset(xs) <==> e in multiset(ys);
    }
    forall k | k in Totals(xs)
      ensures Totals(xs)[k] == Totals(ys)[k]
    {
      TotalForOrderFree(xs, ys, k);
    }
    assert Totals(xs).Keys == Totals(ys).Keys;
  }

  // Taking one entry out of a list.
  function Without<T>(items: seq<T>, i: nat): seq<T>
    requires i < |items|
  {
    items[..i] + items[i+1..]
  }

  lemma WithoutMultiset<T>(items: seq<T>, i: nat)
    requires i < |items|
    ensures multiset(Without(items, i)) == multiset(items) - multiset{items[i]}
  {
    assert items == items[..i] + [items[i]] + items[i+1..];
  }

  lemma {:induction false} TotalForWithout<K>(items: seq<Entry<K>>, i: nat, k: K)
    requires i < |items|
    ensures TotalFor(items, k)
         == TotalFor(Without(items, i), k) + (if items[i].key == k then items[i].value else 0)
  {
    var tail := [items[i]] + items[i+1..];
    assert items == items[..i] + tail;
    assert tail[1..] == items[i+1..];
    TotalForAppend(items[..i], tail, k);
    TotalForAppend(items[..i], items[i+1..], k);
  }

  lemma {:induction false} TotalForOrderFree<K>(xs: seq<Entry<K>>, ys: seq<Entry<K>>, k: K)
    requires multiset(xs) == multiset(ys)
    ensures TotalFor(xs, k) == TotalFor(ys, k)
    decreases |xs|
  {
    if xs == [] {
      assert |ys| == |multiset(ys)| == |multiset(xs)| == 0;
    } else {
      assert xs[0] in multiset(ys);
      var i :| 0 <= i < |ys| && ys[i] == xs[0];
      WithoutMultiset(xs, 0);
      WithoutMultiset(ys, i);
      TotalForOrderFree(Without(xs, 0), Without(ys, i), k);
      TotalForWithout(xs, 0, k);
      TotalForWithout(ys, i, k);
    }
  }

  // A list read out of a ledger adds back up to it.
  lemma ListingTotals<K(!new)>(items: seq<Entry<K>>, m: Ledger<K>)
    requires Lists(items, m)
    ensures Totals(items) == m
  {
    forall k | k in m ensures TotalFor(items, k) == m[k] {
      var i :| 0 <= i < |items| && items[i] == Entry(k, m[k]);
      TotalForUnique(items, i);
    }
    assert KeysOf(items) == m.Keys;
  }

  lemma {:induction false} TotalForUnique<K>(items: seq<Entry<K>>, i: nat)
    requires i < |items|
    requires forall a, b :: 0 <= a < b < |items| ==> items[a].key != items[b].key
    ensures TotalFor(items, items[i].key) == items[i].value
  {
    TotalForWithout(items, i, items[i].key);
    TotalForAbsent(Without(items, i), items[i].key);
  }

  // ---- Sums over a ledger, and regrouping ----

  // The sum of all amounts in a ledger.
  ghost function Sum<K>(m: Ledger<K>): nat
    decreases |m|
  {
    if m == map[] then 0
    else
      var k :| k in m;
      m[k] + Sum(m - {k})
  }

  lemma {:induction false} SumRemove<K>(m: Ledger<K>, k: K)
    requires k in m
    ensures Sum(m) == m[k] + Sum(m - {k})
    decreases |m|
  {
    var c :| c in m && Sum(m) == m[c] + Sum(m - {c});
    if c != k {
      SumRemove(m - {c}, k);
      SumRemove(m - {k}, c);
      assert m - {c} - {k} == m - {k} - {c};
    }
  }

  lemma SumCredit<K>(m: Ledger<K>, e: Entry<K>)
    ensures Sum(Credit(m, e)) == Sum(m) + e.value
  {
    var m' := Credit(m, e);
    SumRemove(m', e.key);
    if e.key in m {
      SumRemove(m, e.key);
      assert m' - {e.key} == m - {e.key};
    } else {
      assert m' - {e.key} == m;
    }
  }

  function NonZero<K>(m: Ledger<K>): Ledger<K> {
    map k | k in m && m[k] > 0 :: m[k]
  }

  // Accounts holding nothing do not count.
  lemma {:induction false} SumNonZero<K>(m: Ledger<K>)
    ensures Sum(m) == Sum(NonZero(m))
    decreases |m|
  {
    if k :| k in m && m[k] == 0 {
      SumRemove(m, k);
      SumNonZero(m - {k});
      assert NonZero(m - {k}) == NonZero(m);
    } else {
      assert NonZero(m) == m;
    }
  }

  lemma SumByAmounts<K(!new)>(m: Ledger<K>, n: Ledger<K>)
    requires forall k :: At(m, k) == At(n, k)
    ensures Sum(m) == Sum(n)
  {
    SumNonZero(m);
    SumNonZero(n);
    forall k ensures k in NonZero(m) <==> k in NonZero(n) {
      assert At(m, k) == At(n, k);
    }
    assert forall k :: k in NonZero(m) ==> NonZero(m)[k] == At(m, k) == At(n, k) == NonZero(n)[k];
    assert NonZero(m) == NonZero(n);
  }

  // The part of a ledger whose accounts belong to group j.
  function Slice<K(==), J(==)>(m: Ledger<K>, group: K -> J, j: J): Ledger<K> {
    map k | k in m && group(k) == j :: m[k]
  }

  function Rekey<K(==), J(==)>(items: seq<Entry<K>>, group: K -> J): seq<Entry<J>> {
    seq(|items|, i requires 0 <= i < |items| => Entry(group(items[i].key), items[i].value))
  }

  lemma SliceCredit<K, J>(m: Ledger<K>, e: Entry<K>, group: K -> J, j: J)
    ensures Sum(Slice(Credit(m, e), group, j))
         == Sum(Slice(m, group, j)) + (if group(e.key) == j then e.value else 0)
  {
    if group(e.key) == j {
      assert Slice(Credit(m, e), group, j) == Credit(Slice(m, group, j), e);
      SumCredit(Slice(m, group, j), e);
    } else {
      assert Slice(Credit(m, e), group, j) == Slice(m, group, j);
    }
  }

  // Adding up per account and then per group is adding up per group at once.
  lemma {:induction false} Regroup<K, J>(items: seq<Entry<K>>, group: K -> J, j: J)
    ensures Sum(Slice(Totals(items), group, j)) == TotalFor(Rekey(items, group), j)
  {
    if items == [] {
      assert Totals(items) == map[];
    } else {
      var front, e := items[..|items| - 1], items[|items| - 1];
      assert items == front + [e];
      Regroup(front, group, j);
      TotalsSnoc(front, e);
      SliceCredit(Totals(front), e, group, j);
      var rekeyed := Entry(group(e.key), e.value);
      assert Rekey(items, group) == Rekey(front, group) + [rekeyed];
      TotalForAppend(Rekey(front, group), [rekeyed], j);
      assert [rekeyed][1..] == [];
    }
  }
}
