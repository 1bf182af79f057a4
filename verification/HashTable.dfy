/**
 The chained hash table of `src/lib/hash.c` as a finite map: stored hash codes, in-place
 update of an entry, doubling at load 3/4 and halving at load 1/4.
*/
module HashTable {
  import opened Options
  import opened Lists
  import opened HashBuckets

  const INIT_SIZE: nat := 4096

  /** `equals` is an equivalence and equal keys have equal hash codes. */
  ghost predicate Lawful<K(!new)>(hashCode: K -> int, equals: (K, K) -> bool) {
    && (forall k :: equals(k, k))
    && (forall j, k :: equals(j, k) ==> equals(k, j) && hashCode(j) == hashCode(k))
    && (forall i, j, k :: equals(i, j) && equals(j, k) ==> equals(i, k))
  }

  /** Entries carry the hash code of their key, and no two entries have equal keys. */
  ghost predicate Keyed<K, V>(all: set<Triple<K, V>>, hashCode: K -> int, equals: (K, K) -> bool) {
    && (forall e :: e in all ==> e.second == hashCode(e.first))
    && (forall e, f :: e in all && f in all && e != f ==> !equals(e.first, f.first))
  }

  ghost predicate Represents<K, V>(all: set<Triple<K, V>>, m: map<K, V>)
    reads all
  {
    && (forall e :: e in all ==> e.first in m && m[e.first] == e.third)
    && (forall k :: k in m ==> exists e :: e in all && e.first == k)
  }

  lemma {:induction false} KeyedInsert<K(!new), V>(all: set<Triple<K, V>>, t: Triple<K, V>, hashCode: K -> int,
                                        equals: (K, K) -> bool)
    requires Lawful(hashCode, equals) && Keyed(all, hashCode, equals)
    requires t.second == hashCode(t.first) && forall e :: e in all ==> !equals(t.first, e.first)
    ensures t !in all && Keyed(all + {t}, hashCode, equals)
  {
  }

  lemma {:induction false} KeyedRemove<K(!new), V>(all: set<Triple<K, V>>, e: Triple<K, V>, hashCode: K -> int,
                                        equals: (K, K) -> bool)
    requires Keyed(all, hashCode, equals)
    ensures Keyed(all - {e}, hashCode, equals)
  {
  }

  lemma {:induction false} RepresentsInsert<K(!new), V>(all: set<Triple<K, V>>, m: map<K, V>, t: Triple<K, V>,
                                        equals: (K, K) -> bool, hashCode: K -> int)
    requires Represents(all, m) && Lawful(hashCode, equals) && forall e :: e in all ==> !equals(t.first, e.first)
    ensures Represents(all + {t}, m[t.first := t.third])
  {
  }

  lemma {:induction false} RepresentsRemove<K(!new), V>(all: set<Triple<K, V>>, m: map<K, V>, e: Triple<K, V>,
                                        equals: (K, K) -> bool, hashCode: K -> int)
    requires Represents(all, m) && e in all && Lawful(hashCode, equals) && Keyed(all, hashCode, equals)
    ensures Represents(all - {e}, m - {e.first}) && e.first in m && m[e.first] == e.third
  {
  }

  // ----- load factor and amortised cost -----

  function Pos(x: int): nat {
    if x < 0 then 0 else x
  }

  /** The credit saved up for the next rehash. */
  function Potential(n: nat, size: nat): nat {
    3 * Pos(n - size / 2) + if size > INIT_SIZE then 2 * Pos(3 * size / 8 - n) else 0
  }

  /** Load below 3/4, and above 1/4 unless the table has its initial size. */
  ghost predicate Balanced(n: nat, size: nat) {
    && size >= INIT_SIZE && size % INIT_SIZE == 0
    && 4 * n < 3 * size
    && (size > INIT_SIZE ==> 4 * n > size)
  }

  /** One insertion pays 3: for its own credit, or for the doubling it triggers. A single
      doubling rebalances the table. */
  lemma {:induction false} InsertPays(n: nat, size: nat)
    requires Balanced(n, size)
    ensures 4 * (n + 1) < 3 * size ==> Balanced(n + 1, size) && Potential(n + 1, size) <= Potential(n, size) + 3
    ensures 4 * (n + 1) >= 3 * size ==>
              Balanced(n + 1, 2 * size) && n + 1 + Potential(n + 1, 2 * size) <= Potential(n, size) + 3
  {
    var q := size / INIT_SIZE;
    assert size == INIT_SIZE * q;
  }

  /** One removal pays 3: for its own credit, or for the halving it triggers. A single
      halving rebalances the table. */
  lemma {:induction false} RemovePays(n: nat, size: nat, k: nat)
    requires n > 0 && Balanced(n, size) && size == Pow2(k) && k >= 12
    ensures 4 * (n - 1) <= size && size > INIT_SIZE ==>
              k > 12 && Balanced(n - 1, size / 2) && n - 1 + Potential(n - 1, size / 2) <= Potential(n, size) + 3
    ensures !(4 * (n - 1) <= size && size > INIT_SIZE) ==>
              Balanced(n - 1, size) && Potential(n - 1, size) <= Potential(n, size) + 3
  {
    PowersOfTwo(k);
    if k > 12 {
      PowersOfTwo(k - 1);
    }
    var q := size / INIT_SIZE;
    assert size == INIT_SIZE * q;
  }

  lemma {:induction false} PowersOfTwo(k: nat)
    requires k >= 12
    ensures Pow2(k) % INIT_SIZE == 0 && Pow2(k) >= INIT_SIZE
    ensures k == 12 <==> Pow2(k) == INIT_SIZE
  {
    if k > 12 {
      PowersOfTwo(k - 1);
    } else {
      assert Pow2(4) == 16 && Pow2(8) == 256;
    }
  }

  lemma {:induction false} EmptyIsBalanced()
    ensures Pow2(12) == INIT_SIZE && Balanced(0, INIT_SIZE) && Potential(0, INIT_SIZE) == 0
  {
    PowersOfTwo(12);
  }

  datatype Mode = Expansion | Contraction

  class Hash<K(==,!new), V> {
    const hashCode: K -> int
    const equals: (K, K) -> bool
    const dup: bool                        // a dup callback was supplied

    var buckets: seq<List<Triple<K, V>>>   // the block is filled once; only its lists change
    var numItems: nat
    var size: nat
    var mask: nat

    ghost var exponent: nat
    ghost var chains: seq<seq<Triple<K, V>>>
    ghost var all: set<Triple<K, V>>
    ghost var m: map<K, V>                 // the finite map the table stands for
    ghost var moved: nat                   // entries moved by all rehashes so far
    ghost var updates: nat                 // inserting puts plus successful removes so far
    ghost var Repr: set<object>

    /** The heap structure: one well-formed list per bucket, holding `chains`. */
    ghost predicate Shape()
      reads this, Repr
    {
      && this in Repr
      && (forall b :: b in buckets ==> b in Repr)
      && Nodes(buckets) <= Repr && all <= Repr
      && |buckets| == size == mask + 1 == Pow2(exponent)
      && Buckets(buckets, chains)
      && Placed(chains, all, mask)
    }

    ghost predicate Valid()
      reads this, Repr
    {
      && Shape()
      && Lawful(hashCode, equals)
      && Keyed(all, hashCode, equals)
      && Represents(all, m)
      && numItems == |all| && exponent >= 12 && Balanced(numItems, size)
      && moved + Potential(numItems, size) <= 3 * updates
    }

    /** `numItems` is the sum of the chain lengths, the load is below 3/4 and above 1/4 but for a
        table of the initial size, and the cost so far is paid for. */
    lemma {:induction false} Accounts()
      requires Valid()
      ensures numItems == Sum(chains, |chains|)
      ensures 4 * numItems < 3 * size && size >= 4096 && (size > 4096 ==> 4 * numItems > size)
      ensures moved <= 3 * updates
    {
      EntriesAreChainLengths(chains, all, mask);
    }

    constructor (hashCode: K -> int, equals: (K, K) -> bool, dup: bool)
      requires Lawful(hashCode, equals)
      ensures Valid() && fresh(Repr)
      ensures m == map[] && moved == updates == 0
      ensures this.hashCode == hashCode && this.equals == equals && this.dup == dup
    {
      hide Filled, AllExact, Placed, Buckets, Nodes, EmptyChains, Potential, Balanced, Pow2;
      this.hashCode, this.equals, this.dup := hashCode, equals, dup;
      var bs := NewBuckets<K, V>(INIT_SIZE);
      buckets, numItems, size, mask := bs, 0, INIT_SIZE, INIT_SIZE - 1;
      exponent, chains, all, m, moved, updates := 12, EmptyChains(INIT_SIZE), {}, map[], 0, 0;
      Repr := {this} + set b: object | b in bs;
      new;
      EmptyIsBalanced();
      PlacedEmpty<K, V>(INIT_SIZE);
    }

    /** `Hash_containsCand`: the entry whose key equals k. */
    method ContainsCand(k: K) returns (e: Triple?<K, V>)
      requires Valid()
      ensures e != null ==> e in all && equals(k, e.first)
      ensures e == null ==> forall f :: f in all ==> !equals(k, f.first)
    {
      var idx := And(hashCode(k), mask);
      var list := buckets[idx].next;
      ghost var c, items, spine := 0, buckets[idx].items, buckets[idx].spine;
      while list != null
        invariant c <= |items| && list == NodeAt(spine, c)
        invariant forall i :: 0 <= i < c ==> !equals(k, items[i].first)
        decreases |items| - c
      {
        if equals(k, list.data.first) {
          assert items[c] in chains[idx];
          return list.data;
        }
        list, c := list.next, c + 1;
      }
      return null;
    }

    method ContainsKey(k: K) returns (r: bool)
      requires Valid()
      ensures r <==> exists k' :: k' in m && equals(k, k')
    {
      var e := ContainsCand(k);
      return e != null;
    }

    /** The value of the one key equal to k, if there is one. */
    method Get(k: K) returns (r: Option<V>)
      requires Valid()
      ensures forall k' :: k' in m && equals(k, k') ==> r == Some(m[k'])
      ensures r == None <==> forall k' :: k' in m ==> !equals(k, k')
    {
      var e := ContainsCand(k);
      if e == null {
        return None;
      }
      return Some(e.third);
    }

    /** The assignments of `rehash` that switch to the new block of buckets. */
    method Install(bs: seq<List<Triple<K, V>>>, mode: Mode, ghost after: seq<seq<Triple<K, V>>>)
      requires this in Repr && all <= Repr && Buckets(bs, after)
      requires |bs| > 0 && Placed(after, all, |bs| - 1)
      requires mode == Contraction ==> exponent > 0
      requires |bs| == Pow2(if mode == Expansion then exponent + 1 else exponent - 1)
      modifies this
      ensures Shape() && Repr == old(Repr) + (set b: object | b in bs) + Nodes(bs)
      ensures buckets == bs && size == |bs| && mask == |bs| - 1 && chains == after
      ensures exponent == if mode == Expansion then old(exponent) + 1 else old(exponent) - 1
      ensures moved == old(moved) + |all|
      ensures unchanged(`all) && unchanged(`m) && unchanged(`numItems) && unchanged(`updates)
    {
      hide Placed, Buckets, Nodes;
      buckets, size, mask := bs, |bs|, |bs| - 1;
      exponent := if mode == Expansion then exponent + 1 else exponent - 1;
      chains, moved := after, moved + |all|;
      Repr := Repr + (set b: object | b in bs) + Nodes(bs);
    }

    /** `rehash`: the table is rebuilt at double or half its size. Every entry is moved once,
        and entries that meet in a new bucket keep the order of the traversal. */
    method Rehash(mode: Mode)
      requires Shape() && (mode == Contraction ==> exponent > 0)
      modifies this
      ensures Shape() && fresh(Repr - old(Repr)) && old(Repr) <= Repr
      ensures Redistributed(old(chains), chains, mask)
      ensures exponent == if mode == Expansion then old(exponent) + 1 else old(exponent) - 1
      ensures size == if mode == Expansion then 2 * old(size) else old(size) / 2
      ensures moved == old(moved) + |all|
      ensures unchanged(`all) && unchanged(`m) && unchanged(`numItems) && unchanged(`updates)
    {
      hide Filled, Select, And, Placed, Flatten, Buckets, Nodes;
      var n := if mode == Expansion then size * 2 else size / 2;
      var bs := Redistribute(buckets, n, chains);
      ghost var after := FilledChains(bs, Flatten(chains, |chains|), n - 1);
      RedistributedIsPlaced(chains, after, all, mask, n - 1);
      Install(bs, mode, after);
    }

    /** The insertion of `Hash_put`, before any rehash. */
    method AddEntry(t: Triple<K, V>)
      requires Shape() && t !in all
      modifies this, buckets
      ensures Shape() && fresh(Repr - old(Repr) - {t}) && old(Repr) <= Repr
      ensures all == old(all) + {t} && numItems == old(numItems) + 1 && size == old(size) && exponent == old(exponent)
      ensures m == old(m)[t.first := t.third] && updates == old(updates) + 1 && moved == old(moved)
    {
      hide Nodes, Placed, Buckets, And;
      ghost var i := And(t.second, mask);
      PlacedInsert(chains, all, mask, t);
      PlacedAt(chains, all, mask, t);
      AddToBucket(buckets, And(t.second, mask), t, chains);
      numItems := numItems + 1;
      chains, all := chains[i := [t] + chains[i]], all + {t};
      m, updates := m[t.first := t.third], updates + 1;
      Repr := Repr + {t} + Nodes(buckets);
    }

    /** The removal of `Hash_remove`, before any rehash. */
    method DropEntry(e: Triple<K, V>) returns (r: V)
      requires Shape() && e in all && numItems > 0
      modifies this, buckets, Nodes(buckets)
      ensures Shape() && Repr == old(Repr)
      ensures all == old(all) - {e} && numItems == old(numItems) - 1 && size == old(size) && exponent == old(exponent)
      ensures m == old(m) - {e.first} && updates == old(updates) + 1 && moved == old(moved) && r == e.third
    {
      hide Nodes, Placed, Buckets, And;
      var i := And(e.second, mask);
      PlacedAt(chains, all, mask, e);
      var ee, k := RemoveFromBucket(buckets, i, e, chains);
      PlacedRemove(chains, all, mask, i, k);
      numItems := numItems - 1;
      chains, all := chains[i := Without(chains[i], k)], all - {e};
      m, updates := m - {e.first}, updates + 1;
      return ee.value.third;
    }

    /** The part of `Hash_put` that runs when no key equals k. */
    method Insert(k: K, v: V)
      requires Valid() && forall e :: e in all ==> !equals(k, e.first)
      modifies Repr
      ensures Valid() && fresh(Repr - old(Repr))
      ensures m == old(m)[k := v] && updates == old(updates) + 1
    {
      hide Placed, Buckets, Nodes, Potential, Balanced, Pow2, Keyed, Represents, Lawful;
      var t := new Triple(k, hashCode(k), v);
      InsertPays(numItems, size);
      KeyedInsert(all, t, hashCode, equals);
      RepresentsInsert(all, m, t, equals, hashCode);
      AddEntry(t);
      if 4 * numItems >= 3 * size {
        Rehash(Expansion);
      }
    }

    /** The part of `Hash_remove` that runs when e is the entry found. */
    method Delete(e: Triple<K, V>) returns (r: V)
      requires Valid() && e in all
      modifies Repr
      ensures Valid() && fresh(Repr - old(Repr))
      ensures e.first in old(m) && m == old(m) - {e.first} && r == old(m)[e.first] && updates == old(updates) + 1
    {
      hide Placed, Buckets, Nodes, Potential, Balanced, Pow2, Keyed, Represents;
      RemovePays(numItems, size, exponent);
      KeyedRemove(all, e, hashCode, equals);
      RepresentsRemove(all, m, e, equals, hashCode);
      r := DropEntry(e);
      if 4 * numItems <= size && size > INIT_SIZE {
        Rehash(Contraction);
      }
    }

    /** `Hash_put`. The ghost result is the key already present that equals k. */
    method Put(k: K, v: V) returns (r: Option<V>, ghost key: Option<K>)
      requires Valid()
      modifies Repr
      ensures Valid() && fresh(Repr - old(Repr))
      ensures key == None ==>
                && (forall k' :: k' in old(m) ==> !equals(k, k'))
                && m == old(m)[k := v] && r == None && updates == old(updates) + 1
      ensures key.Some? ==>
                && key.value in old(m) && equals(k, key.value) && updates == old(updates)
                && if dup then m == old(m) && r == None
                   else m == old(m)[key.value := v] && r == Some(old(m)[key.value])
    {
      hide Placed, Buckets, Nodes, Potential, Balanced, Pow2;
      var e := ContainsCand(k);
      if e == null {
        Insert(k, v);
        return None, None;
      }
      key := Some(e.first);
      if dup {
        return None, key;  // the callback is handed both keys; the table is unchanged
      }
      r := Some(e.third);
      e.third := v;
      m := m[e.first := v];
    }

    /** `Hash_remove`. The ghost result is the key that equals k. */
    method Remove(k: K) returns (r: Option<V>, ghost key: Option<K>)
      requires Valid()
      modifies Repr
      ensures Valid() && fresh(Repr - old(Repr))
      ensures key == None ==>
                && (forall k' :: k' in old(m) ==> !equals(k, k'))
                && m == old(m) && r == None && updates == old(updates)
      ensures key.Some? ==>
                && key.value in old(m) && equals(k, key.value) && updates == old(updates) + 1
                && m == old(m) - {key.value} && r == Some(old(m)[key.value])
    {
      hide Placed, Buckets, Nodes, Potential, Balanced, Pow2;
      var e := ContainsCand(k);
      if e == null {
        return None, None;
      }
      key := Some(e.first);
      var v := Delete(e);
      r := Some(v);
    }
  }

  // ----- histories -----

  datatype Op<K, V> = PutOp(k: K, v: V) | GetOp(k: K) | RemoveOp(k: K) | ContainsOp(k: K)

  /** `Hash_containsKey` answers with a flag, the other operations with a value or null. */
  datatype Reply<V> = Value(v: Option<V>) | Present(b: bool)

  ghost predicate Distinct<K(!new), V>(m: map<K, V>, equals: (K, K) -> bool) {
    forall i, j :: i in m && j in m && equals(i, j) ==> i == j
  }

  /** The key of the map that equals k. */
  ghost function KeyOf<K(!new), V>(m: map<K, V>, k: K, equals: (K, K) -> bool): (r: Option<K>)
    ensures r.Some? ==> r.value in m && equals(k, r.value)
    ensures r == None ==> forall j :: j in m ==> !equals(k, j)
  {
    if j :| j in m && equals(k, j) then Some(j) else None
  }

  ghost function Lookup<K(!new), V>(m: map<K, V>, k: K, equals: (K, K) -> bool): Option<V> {
    var key := KeyOf(m, k, equals);
    if key.Some? then Some(m[key.value]) else None
  }

  /** A put keeps the key that is there; under a dup callback it keeps the value as well. */
  ghost function Apply<K(!new), V>(m: map<K, V>, op: Op<K, V>, equals: (K, K) -> bool, dup: bool): map<K, V> {
    var key := KeyOf(m, op.k, equals);
    match op
    case PutOp(k, v) => if key == None then m[k := v] else if dup then m else m[key.value := v]
    case RemoveOp(_) => if key == None then m else m - {key.value}
    case _ => m
  }

  ghost function ReplyTo<K(!new), V>(m: map<K, V>, op: Op<K, V>, equals: (K, K) -> bool, dup: bool): Reply<V> {
    match op
    case PutOp(k, _) => Value(if dup then None else Lookup(m, k, equals))
    case ContainsOp(k) => Present(KeyOf(m, k, equals).Some?)
    case _ => Value(Lookup(m, op.k, equals))
  }

  /** What a finite map answers to a sequence of operations. */
  ghost function Answers<K(!new), V>(m: map<K, V>, ops: seq<Op<K, V>>, equals: (K, K) -> bool, dup: bool): seq<Reply<V>>
    decreases |ops|
  {
    if ops == [] then []
    else [ReplyTo(m, ops[0], equals, dup)] + Answers(Apply(m, ops[0], equals, dup), ops[1..], equals, dup)
  }

  /** Inserting puts plus successful removes. */
  ghost function Updates<K(!new), V>(m: map<K, V>, ops: seq<Op<K, V>>, equals: (K, K) -> bool, dup: bool): nat
    decreases |ops|
  {
    if ops == [] then 0
    else
      var found := KeyOf(m, ops[0].k, equals).Some?;
      (if (ops[0].PutOp? && !found) || (ops[0].RemoveOp? && found) then 1 else 0)
      + Updates(Apply(m, ops[0], equals, dup), ops[1..], equals, dup)
  }

  lemma {:induction false} KeysDistinct<K(!new), V>(h: Hash<K, V>)
    requires h.Valid()
    ensures Distinct(h.m, h.equals) && Lawful(h.hashCode, h.equals)
  {
    hide Placed, Buckets, Nodes, Potential, Balanced, Pow2;
  }

  /** Any key of the map that equals k is the one `KeyOf` names. */
  lemma {:induction false} KeyIsUnique<K(!new), V>(m: map<K, V>, k: K, key: Option<K>, hashCode: K -> int,
                                                   equals: (K, K) -> bool)
    requires Lawful(hashCode, equals) && Distinct(m, equals)
    requires key.Some? ==> key.value in m && equals(k, key.value)
    requires key == None ==> forall j :: j in m ==> !equals(k, j)
    ensures key == KeyOf(m, k, equals)
  {
    var r := KeyOf(m, k, equals);
    if key.Some? && r.Some? {
      assert equals(key.value, k) && equals(k, r.value);
    }
  }

  /** What a lookup finds after an update: the value put under an equal key, or nothing after its
      removal; under every other key what it found before. Under a dup callback a put changes only
      what was not there. */
  lemma {:induction false} LookupAfter<K(!new), V>(m: map<K, V>, k: K, v: V, j: K, hashCode: K -> int,
                                                   equals: (K, K) -> bool, dup: bool)
    requires Lawful(hashCode, equals) && Distinct(m, equals)
    ensures Lookup(Apply(m, PutOp(k, v), equals, dup), j, equals) ==
              if equals(j, k) && (!dup || Lookup(m, k, equals) == None) then Some(v) else Lookup(m, j, equals)
    ensures Lookup(Apply(m, RemoveOp(k), equals, dup), j, equals) ==
              if equals(j, k) then None else Lookup(m, j, equals)
    ensures Apply(m, GetOp(k), equals, dup) == Apply(m, ContainsOp(k), equals, dup) == m
    ensures equals(j, k) ==> Lookup(m, j, equals) == Lookup(m, k, equals)
    ensures Distinct(Apply(m, PutOp(k, v), equals, dup), equals) && Distinct(Apply(m, RemoveOp(k), equals, dup), equals)
  {
    hide KeyOf;
    var key, own := KeyOf(m, k, equals), KeyOf(m, j, equals);
    if equals(j, k) {
      KeyIsUnique(m, j, key, hashCode, equals);
    }
    var put, removed := Apply(m, PutOp(k, v), equals, dup), Apply(m, RemoveOp(k), equals, dup);
    if equals(j, k) {
      KeyIsUnique(put, j, Some(if key == None then k else key.value), hashCode, equals);
      KeyIsUnique(removed, j, None, hashCode, equals);
    } else {
      KeyIsUnique(put, j, own, hashCode, equals);
      KeyIsUnique(removed, j, own, hashCode, equals);
    }
  }

  /** One operation on the table, answered as the map answers it, for any equality under which
      equal keys have equal hash codes. */
  method Perform<K(==,!new), V>(h: Hash<K, V>, op: Op<K, V>) returns (r: Reply<V>)
    requires h.Valid()
    modifies h.Repr
    ensures h.Valid() && fresh(h.Repr - old(h.Repr))
    ensures r == ReplyTo(old(h.m), op, h.equals, h.dup) && h.m == Apply(old(h.m), op, h.equals, h.dup)
    ensures h.updates == old(h.updates) + Updates(old(h.m), [op], h.equals, h.dup)
  {
    hide Hash.Valid, Lawful, Distinct, KeyOf;
    KeysDistinct(h);
    ghost var m, key := h.m, KeyOf(h.m, op.k, h.equals);
    match op
    case PutOp(k, v) =>
      var previous;
      previous, key := h.Put(k, v);
      KeyIsUnique(m, k, key, h.hashCode, h.equals);
      r := Value(previous);
    case GetOp(k) =>
      var found := h.Get(k);
      r := Value(found);
    case RemoveOp(k) =>
      var removed;
      removed, key := h.Remove(k);
      KeyIsUnique(m, k, key, h.hashCode, h.equals);
      r := Value(removed);
    case ContainsOp(k) =>
      var b := h.ContainsKey(k);
      r := Present(b);
  }

  /** Every history from the empty table, for every hash function and equality that fit together
      and with or without a dup callback: the answers are those of a finite map, and all rehashes
      together move at most three entries per update. */
  method Replay<K(==,!new), V>(hashCode: K -> int, equals: (K, K) -> bool, dup: bool, ops: seq<Op<K, V>>)
    returns (results: seq<Reply<V>>, ghost moved: nat)
    requires Lawful(hashCode, equals)
    ensures results == Answers(map[], ops, equals, dup)
    ensures moved <= 3 * Updates(map[], ops, equals, dup)
  {
    hide Hash.Valid, Lawful, ReplyTo, Apply;
    var h := new Hash(hashCode, equals, dup);
    results := [];
    for i := 0 to |ops|
      invariant h.Valid() && fresh(h.Repr) && h.dup == dup && h.equals == equals
      invariant results + Answers(h.m, ops[i..], equals, dup) == Answers(map[], ops, equals, dup)
      invariant h.updates + Updates(h.m, ops[i..], equals, dup) == Updates(map[], ops, equals, dup)
    {
      assert ops[i..][1..] == ops[i + 1..];
      var r := Perform(h, ops[i]);
      results := results + [r];
    }
    h.Accounts();
    moved := h.moved;
  }
}
