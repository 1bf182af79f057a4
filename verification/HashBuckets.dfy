/**
 The buckets of the hash table of `src/lib/hash.c`: masks, chains of entries with stored
 hash codes, and the traversal that moves every entry into a new block of buckets.
*/
module HashBuckets {
  import opened Options
  import opened Lists

  // ----- hash codes and masks -----

  function Pow2(k: nat): (r: nat)
    ensures r > 0
  {
    if k == 0 then 1 else 2 * Pow2(k - 1)
  }

  /** Bitwise AND of a two's complement integer and a non-negative mask. */
  function And(a: int, b: nat): (r: nat)
    ensures r <= b
    decreases b
  {
    if b == 0 then 0 else (if b % 2 == 1 then a % 2 else 0) + 2 * And(a / 2, b / 2)
  }

  lemma {:induction false} AndHalf(h: int, p: nat)
    requires p > 0
    ensures And(h, 2 * p - 1) == h % 2 + 2 * And(h / 2, p - 1)
  {
    assert (2 * p - 1) / 2 == p - 1 && (2 * p - 1) % 2 == 1;
  }

  lemma {:induction false} DoubleQuotient(h: int, p: nat, q: int, low: nat)
    requires h / 2 == p * q + low
    ensures h == (2 * p) * q + (h % 2 + 2 * low)
  {
    assert 2 * (p * q) == (2 * p) * q;
  }

  lemma {:induction false} MaskSplits(h: int, k: nat) returns (q: int)
    ensures h == Pow2(k) * q + And(h, Pow2(k) - 1)
    decreases k
  {
    if k == 0 {
      q := h;
    } else {
      q := MaskSplits(h / 2, k - 1);
      AndHalf(h, Pow2(k - 1));
      hide And;
      DoubleQuotient(h, Pow2(k - 1), q, And(h / 2, Pow2(k - 1) - 1));
    }
  }

  /** For a table of power-of-two size, `hcode & mask` is the hash code modulo the size. */
  lemma {:induction false} MaskIsModulo(h: int, k: nat)
    ensures And(h, Pow2(k) - 1) == h % Pow2(k)
  {
    hide Pow2, And;
    var q := MaskSplits(h, k);
    UniqueRemainder(h, Pow2(k), q, And(h, Pow2(k) - 1));
  }

  lemma {:induction false} UniqueRemainder(a: int, m: nat, q: int, r: nat)
    requires r < m && a == m * q + r
    ensures a % m == r
  {
    var d := q - a / m;
    assert m * d == m * q - m * (a / m) && m * -d == -(m * d);
    if d > 0 { AtLeast(m, d); }
    if d < 0 { AtLeast(m, -d); }
  }

  lemma {:induction false} AtLeast(m: nat, d: nat)
    requires d > 0
    ensures m * d >= m
  {
    if d > 1 {
      AtLeast(m, d - 1);
      assert m * d == m * (d - 1) + m;
    }
  }

  // ----- entries and chains -----

  class Triple<K, V> {
    const first: K
    const second: int  // the stored hash code
    var third: V

    constructor (x: K, y: int, z: V)
      ensures first == x && second == y && third == z
    {
      first, second, third := x, y, z;
    }
  }

  ghost function Nodes<T>(bs: seq<List<T>>): set<Node<T>>
    reads bs
  {
    set i, n | 0 <= i < |bs| && n in bs[i].spine :: n
  }

  /** The bucket headers are distinct and hold exactly the given chains. */
  ghost predicate Buckets<T>(bs: seq<List<T>>, chains: seq<seq<T>>)
    reads bs, Nodes(bs)
  {
    assert forall i, n :: 0 <= i < |bs| && n in bs[i].spine ==> n in Nodes(bs);
    && |bs| == |chains|
    && (forall i, j :: 0 <= i < j < |bs| ==> bs[i] != bs[j])
    && forall i :: 0 <= i < |bs| ==> bs[i].Valid() && bs[i].items == chains[i]
  }

  ghost predicate AllExact<T>(bs: seq<List<T>>)
    reads bs
  {
    forall i :: 0 <= i < |bs| ==> bs[i].Exact()
  }

  /** The entries of chains[0], chains[1], ..., chains[n-1] in traversal order. */
  ghost function Flatten<T>(chains: seq<seq<T>>, n: nat): seq<T>
    requires n <= |chains|
  {
    if n == 0 then [] else Flatten(chains, n - 1) + chains[n - 1]
  }

  lemma {:induction false} FlattenSteps<T>(chains: seq<seq<T>>)
    ensures Flatten(chains, 0) == []
    ensures forall i :: 0 <= i < |chains| ==> Flatten(chains, i + 1) == Flatten(chains, i) + chains[i]
  {
  }

  /** The entries of s that belong in bucket `slot`, in their order in s. */
  ghost function Select<K, V>(s: seq<Triple<K, V>>, slot: int, mask: nat): seq<Triple<K, V>> {
    if s == [] then []
    else
      var e := s[|s| - 1];
      Select(s[..|s| - 1], slot, mask) + if And(e.second, mask) == slot then [e] else []
  }

  lemma {:induction false} SelectMembers<K, V>(s: seq<Triple<K, V>>, slot: int, mask: nat)
    ensures forall e :: e in Select(s, slot, mask) <==> e in s && And(e.second, mask) == slot
  {
    if s != [] {
      SelectMembers(s[..|s| - 1], slot, mask);
      assert s == s[..|s| - 1] + [s[|s| - 1]];
    }
  }

  ghost predicate NoDuplicates<T>(s: seq<T>) {
    forall a, b :: 0 <= a < b < |s| ==> s[a] != s[b]
  }

  lemma {:induction false} ConcatNoDuplicates<T>(s: seq<T>, t: seq<T>)
    requires NoDuplicates(s) && NoDuplicates(t) && forall e :: e in t ==> e !in s
    ensures NoDuplicates(s + t)
  {
    forall a, b | 0 <= a < b < |s + t|
      ensures (s + t)[a] != (s + t)[b]
    {
      if a < |s| <= b { assert t[b - |s|] in t; }
    }
  }

  lemma {:induction false} SelectNoDuplicates<K, V>(s: seq<Triple<K, V>>, slot: int, mask: nat)
    requires NoDuplicates(s)
    ensures NoDuplicates(Select(s, slot, mask))
  {
    if s != [] {
      var t := s[..|s| - 1];
      SelectNoDuplicates(t, slot, mask);
      SelectMembers(t, slot, mask);
    }
  }

  lemma {:induction false} FlattenMembers<T>(chains: seq<seq<T>>, n: nat, e: T)
    requires n <= |chains|
    ensures e in Flatten(chains, n) <==> exists i :: 0 <= i < n && e in chains[i]
  {
    if n > 0 {
      FlattenMembers(chains, n - 1, e);
    }
  }

  /** Every entry sits exactly once, in the bucket of its stored hash code. */
  ghost predicate Placed<K, V>(chains: seq<seq<Triple<K, V>>>, all: set<Triple<K, V>>, mask: nat) {
    && |chains| == mask + 1
    && (forall i, e :: 0 <= i < |chains| && e in chains[i] ==> e in all && And(e.second, mask) == i)
    && (forall e :: e in all ==> e in chains[And(e.second, mask)])
    && (forall i :: 0 <= i < |chains| ==> NoDuplicates(chains[i]))
  }

  lemma {:induction false} FlattenPlaced<K, V>(chains: seq<seq<Triple<K, V>>>, all: set<Triple<K, V>>, mask: nat,
                                               n: nat)
    requires Placed(chains, all, mask) && n <= |chains|
    ensures NoDuplicates(Flatten(chains, n))
    ensures forall e :: e in Flatten(chains, n) <==> e in all && And(e.second, mask) < n
    ensures forall e :: e in Flatten(chains, n) ==> e in all
  {
    if n > 0 {
      FlattenPlaced(chains, all, mask, n - 1);
      ConcatNoDuplicates(Flatten(chains, n - 1), chains[n - 1]);
    }
  }

  lemma {:induction false} NoDuplicatesCount<T>(s: seq<T>, all: set<T>)
    requires NoDuplicates(s) && forall e :: e in s <==> e in all
    ensures |s| == |all|
  {
    if s == [] {
      assert all == {};
    } else {
      var e := s[|s| - 1];
      assert e in s;
      assert forall x :: x in s[..|s| - 1] <==> x in all - {e} by {
        assert s == s[..|s| - 1] + [e];
      }
      NoDuplicatesCount(s[..|s| - 1], all - {e});
    }
  }

  /** The sum of the chain lengths. */
  ghost function Sum<T>(chains: seq<seq<T>>, n: nat): nat
    requires n <= |chains|
  {
    if n == 0 then 0 else Sum(chains, n - 1) + |chains[n - 1]|
  }

  lemma {:induction false} SumIsFlatten<T>(chains: seq<seq<T>>, n: nat)
    requires n <= |chains|
    ensures Sum(chains, n) == |Flatten(chains, n)|
  {
    if n > 0 {
      SumIsFlatten(chains, n - 1);
    }
  }

  /** In a placed table the number of entries is the sum of the chain lengths. */
  lemma {:induction false} EntriesAreChainLengths<K, V>(chains: seq<seq<Triple<K, V>>>, all: set<Triple<K, V>>,
                                                        mask: nat)
    requires Placed(chains, all, mask)
    ensures |all| == Sum(chains, |chains|) == |Flatten(chains, |chains|)|
  {
    FlattenPlaced(chains, all, mask, |chains|);
    SumIsFlatten(chains, |chains|);
    NoDuplicatesCount(Flatten(chains, |chains|), all);
  }

  ghost function EmptyChains<T>(n: nat): (r: seq<seq<T>>)
    ensures |r| == n
  {
    seq(n, _ => [])
  }

  lemma {:induction false} PlacedAt<K, V>(chains: seq<seq<Triple<K, V>>>, all: set<Triple<K, V>>, mask: nat,
                                          e: Triple<K, V>)
    requires Placed(chains, all, mask)
    ensures And(e.second, mask) < |chains|
    ensures e in all <==> e in chains[And(e.second, mask)]
  {
  }

  lemma {:induction false} PlacedEmpty<K, V>(n: nat)
    requires n > 0
    ensures Placed<K, V>(EmptyChains(n), {}, n - 1)
  {
  }

  lemma {:induction false} PlacedInsert<K, V>(chains: seq<seq<Triple<K, V>>>, all: set<Triple<K, V>>, mask: nat,
                                        e: Triple<K, V>)
    requires Placed(chains, all, mask) && e !in all
    ensures var i := And(e.second, mask); Placed(chains[i := [e] + chains[i]], all + {e}, mask)
  {
    var i := And(e.second, mask);
    ConcatNoDuplicates([e], chains[i]);
  }

  lemma {:induction false} PlacedRemove<K, V>(chains: seq<seq<Triple<K, V>>>, all: set<Triple<K, V>>, mask: nat,
                                        i: nat, k: nat)
    requires Placed(chains, all, mask) && i < |chains| && k < |chains[i]|
    ensures Placed(chains[i := Without(chains[i], k)], all - {chains[i][k]}, mask)
  {
    WithoutMembers(chains[i], k);
    var x, after := chains[i][k], chains[i := Without(chains[i], k)];
    forall e | e in all - {x}
      ensures e in after[And(e.second, mask)]
    {
      assert e in chains[And(e.second, mask)];
    }
    forall j, e | 0 <= j < |after| && e in after[j]
      ensures e in all - {x} && And(e.second, mask) == j
    {
      assert e in chains[j] && x in chains[i];
    }
  }

  lemma {:induction false} WithoutMembers<T>(s: seq<T>, k: nat)
    requires k < |s| && NoDuplicates(s)
    ensures NoDuplicates(Without(s, k))
    ensures forall e :: e in Without(s, k) <==> e in s && e != s[k]
  {
    var t := Without(s, k);
    forall e | e in s && e != s[k]
      ensures e in t
    {
      var a :| 0 <= a < |s| && s[a] == e;
      assert t[if a < k then a else a - 1] == e;
    }
  }

  /** What a rehash must produce: bucket j lists the entries with new index j in the order
      in which the old table is traversed. */
  ghost predicate Redistributed<K, V>(before: seq<seq<Triple<K, V>>>, after: seq<seq<Triple<K, V>>>, mask: nat) {
    && |after| == mask + 1
    && forall j :: 0 <= j < |after| ==> after[j] == Select(Flatten(before, |before|), j, mask)
  }

  /** Rehashing keeps every entry exactly once and files it under its new index. */
  lemma {:induction false} RedistributedIsPlaced<K, V>(before: seq<seq<Triple<K, V>>>, after: seq<seq<Triple<K, V>>>,
                                                       all: set<Triple<K, V>>, mask: nat, mask': nat)
    requires Placed(before, all, mask) && Redistributed(before, after, mask')
    ensures Placed(after, all, mask')
  {
    var s := Flatten(before, |before|);
    FlattenPlaced(before, all, mask, |before|);
    forall j | 0 <= j < |after|
      ensures NoDuplicates(after[j]) && forall e :: e in after[j] <==> e in all && And(e.second, mask') == j
    {
      SelectMembers(s, j, mask');
      SelectNoDuplicates(s, j, mask');
    }
  }

  // ----- changing one bucket -----

  method AddToBucket<T>(bs: seq<List<T>>, i: nat, x: T, ghost chains: seq<seq<T>>)
    requires Buckets(bs, chains) && i < |bs|
    modifies bs[i]
    ensures Buckets(bs, chains[i := [x] + chains[i]])
    ensures forall n :: n in Nodes(bs) ==> n in old(Nodes(bs)) || fresh(n)
  {
    bs[i].AddFirst(x);
  }

  /** `List_remove` with pointer equality on one bucket. */
  method RemoveFromBucket<T(==)>(bs: seq<List<T>>, i: nat, x: T, ghost chains: seq<seq<T>>)
    returns (r: Option<T>, ghost k: nat)
    requires Buckets(bs, chains) && i < |bs| && x in chains[i]
    modifies bs[i], Nodes(bs)
    ensures r == Some(x) && k < |chains[i]| && chains[i][k] == x
    ensures Buckets(bs, chains[i := Without(chains[i], k)])
    ensures Nodes(bs) <= old(Nodes(bs))
  {
    assert forall n :: n in bs[i].spine ==> n in Nodes(bs);
    r, k := bs[i].Remove(x, (a, b) => a == b);
  }

  // ----- moving the entries -----

  /** The new buckets after the entries s have been moved into them, tails exact. */
  ghost predicate Filled<K, V>(bs: seq<List<Triple<K, V>>>, s: seq<Triple<K, V>>, mask: nat)
    reads bs, Nodes(bs)
  {
    && |bs| == mask + 1
    && Buckets(bs, seq(|bs|, j => Select(s, j, mask)))
    && AllExact(bs)
  }

  lemma {:induction false} FilledChains<K, V>(bs: seq<List<Triple<K, V>>>, s: seq<Triple<K, V>>, mask: nat)
    returns (chains: seq<seq<Triple<K, V>>>)
    requires Filled(bs, s, mask)
    ensures Buckets(bs, chains) && |chains| == mask + 1
    ensures forall j :: 0 <= j < |chains| ==> chains[j] == Select(s, j, mask)
  {
    chains := seq(|bs|, j => Select(s, j, mask));
  }

  /** The inner step of `rehash`: file one entry under its stored hash code. */
  method MoveEntry<K, V>(bs: seq<List<Triple<K, V>>>, e: Triple<K, V>, mask: nat, ghost s: seq<Triple<K, V>>)
    requires Filled(bs, s, mask)
    modifies bs, Nodes(bs)
    ensures Filled(bs, s + [e], mask)
    ensures forall n :: n in Nodes(bs) ==> n in old(Nodes(bs)) || fresh(n)
  {
    var idx := And(e.second, mask);
    var l := bs[idx];
    assert l.tail != null ==> l.tail in l.spine;
    l.AddLast(e);
    assert (s + [e])[..|s|] == s;
    forall j | 0 <= j < |bs|
      ensures bs[j].Valid() && bs[j].Exact() && bs[j].items == Select(s + [e], j, mask)
    {
    }
  }

  /** The inner loop of `rehash`: walk one old chain and append each entry to its new bucket. */
  method MoveChain<K, V>(from: List<Triple<K, V>>, bs: seq<List<Triple<K, V>>>, mask: nat,
                         ghost s: seq<Triple<K, V>>, ghost items: seq<Triple<K, V>>)
    requires from.Valid() && from.items == items && from !in bs && forall n :: n in from.spine ==> n !in Nodes(bs)
    requires Filled(bs, s, mask)
    modifies bs, Nodes(bs)
    ensures Filled(bs, s + items, mask)
    ensures forall n :: n in Nodes(bs) ==> n in old(Nodes(bs)) || fresh(n)
  {
    hide Filled;
    var list := from.next;
    ghost var c := 0;
    assert s + items[..0] == s;
    while list != null
      invariant from.Valid() && unchanged(from)
      invariant c <= |items| && list == NodeAt(from.spine, c)
      invariant Filled(bs, s + items[..c], mask)
      invariant forall n :: n in Nodes(bs) ==> n in old(Nodes(bs)) || fresh(n)
      decreases |items| - c
    {
      assert s + items[..c + 1] == s + items[..c] + [list.data];
      MoveEntry(bs, list.data, mask, s + items[..c]);
      list, c := list.next, c + 1;
    }
    assert items[..c] == items;
  }

  /** `Mem_newSize` and the loop of `List_new`: a block of empty buckets. */
  method NewBuckets<K, V>(n: nat) returns (bs: seq<List<Triple<K, V>>>)
    requires n > 0
    ensures |bs| == n && fresh(bs) && Nodes(bs) == {} && Filled(bs, [], n - 1)
    ensures Buckets(bs, EmptyChains(n))
  {
    bs := [];
    for i := 0 to n
      invariant |bs| == i && fresh(bs) && AllExact(bs) && Nodes(bs) == {}
      invariant forall j :: 0 <= j < i ==> bs[j].spine == []
      invariant Buckets(bs, EmptyChains(i))
    {
      var l := new List<Triple<K, V>>();
      bs := bs + [l];
    }
  }

  /** The body of `rehash`: fresh buckets, then every old chain is walked in order. */
  method Redistribute<K, V>(oldBuckets: seq<List<Triple<K, V>>>, newSize: nat, ghost chains: seq<seq<Triple<K, V>>>)
    returns (newBuckets: seq<List<Triple<K, V>>>)
    requires Buckets(oldBuckets, chains) && newSize > 0
    ensures fresh(newBuckets) && fresh(Nodes(newBuckets))
    ensures Filled(newBuckets, Flatten(chains, |chains|), newSize - 1)
  {
    hide Filled, Select, And, Flatten;
    FlattenSteps(chains);
    newBuckets := NewBuckets<K, V>(newSize);
    for i := 0 to |oldBuckets|
      invariant unchanged(oldBuckets) && unchanged(old(Nodes(oldBuckets)))
      invariant Filled(newBuckets, Flatten(chains, i), newSize - 1)
      invariant fresh(newBuckets) && fresh(Nodes(newBuckets))
    {
      MoveChain(oldBuckets[i], newBuckets, newSize - 1, Flatten(chains, i), chains[i]);
    }
  }
}
