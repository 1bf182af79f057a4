/**
 The singly linked list of `src/lib/list.c`. The header node's `data` field doubles as a
 tail pointer; deletion never repairs it. The model keeps the header, the nodes and the
 tail pointer on the heap, so a stale tail really points at an unlinked node.
*/
module Lists {

  import opened Options

  class Node<T> {
    const data: T
    var next: Node?<T>
    ghost const owner: object  // the header this node was allocated for

    constructor (x: T, n: Node?<T>, ghost o: object)
      ensures data == x && next == n && owner == o
    {
      data, next, owner := x, n, o;
    }
  }

  /** The k-th node of a chain, null past its end. */
  ghost function NodeAt<T>(spine: seq<Node<T>>, k: nat): Node?<T> {
    if k < |spine| then spine[k] else null
  }

  ghost function Without<A>(s: seq<A>, k: nat): (r: seq<A>)
    requires k < |s|
    ensures |r| == |s| - 1
    ensures forall i :: 0 <= i < |r| ==> r[i] == s[if i < k then i else i + 1]
    ensures forall a :: a in r ==> a in s
  {
    s[..k] + s[k + 1..]
  }

  class List<T> {
    var next: Node?<T>           // first element
    var tail: Node?<T>           // the header's `data`: where AddLast links the next node
    ghost var spine: seq<Node<T>>
    ghost var items: seq<T>

    ghost predicate Valid()
      reads this, spine
    {
      && |items| == |spine|
      && next == NodeAt(spine, 0)
      && (forall i :: 0 <= i < |spine| ==> spine[i].data == items[i] && spine[i].owner == this)
      && (forall i, j :: 0 <= i < j < |spine| && j == i + 1 ==> spine[i].next == spine[j])
      && (spine != [] ==> spine[|spine| - 1].next == null)
      && (forall i, j :: 0 <= i < j < |spine| ==> spine[i] != spine[j])
      && (tail == null ==> spine == [])
      && (tail != null ==> tail.owner == this)
      && (forall i :: 0 <= i < |spine| - 1 ==> spine[i] != tail)
    }

    /** The header's tail pointer is the last node (null for a list that never held a node). */
    ghost predicate Exact()
      reads this
    {
      if spine == [] then tail == null else tail == spine[|spine| - 1]
    }

    ghost function TailNode(): set<Node<T>>
      reads this
    {
      if tail == null then {} else {tail}
    }

    constructor ()
      ensures Valid() && Exact() && items == [] && spine == []
    {
      next, tail, spine, items := null, null, [], [];
    }

    method AddFirst(x: T)
      requires Valid()
      modifies this
      ensures Valid() && items == [x] + old(items)
      ensures |spine| > 0 && spine[1..] == old(spine) && fresh(spine[0])
      ensures forall n :: n in spine ==> n in old(spine) || fresh(n)
      ensures Exact() <==> old(Exact())
    {
      var t := new Node(x, next, this);
      next := t;
      if tail == null {
        tail := t;
      }
      spine, items := [t] + spine, [x] + items;
    }

    /** Appends when the list is empty or its tail is exact. On a non-empty list with a stale
        tail the new node is linked behind an unlinked node and the element is lost. */
    method AddLast(x: T)
      requires Valid()
      modifies this, TailNode()
      ensures Valid()
      ensures items == if old(spine) == [] || old(Exact()) then old(items) + [x] else old(items)
      ensures Exact() <==> old(Exact())
      ensures forall n :: n in spine ==> n in old(spine) || fresh(n)
    {
      if next == null {
        AddFirst(x);
        return;
      }
      ghost var exact := Exact();
      var p := new Node(x, null, this);
      tail.next := p;
      tail := p;
      if exact {
        spine, items := spine + [p], items + [x];
      }
    }

    method RemoveFirst() returns (r: Option<T>)
      requires Valid()
      modifies this
      ensures Valid()
      ensures old(items) == [] ==> r == None && items == [] && unchanged(this)
      ensures old(items) != [] ==> r == Some(old(items)[0]) && items == old(items)[1..] && spine == old(spine)[1..]
      ensures Exact() <==> old(Exact()) && |old(items)| != 1
    {
      if next == null {
        return None;  // the source exits with "List size is 0"
      }
      r := Some(next.data);
      next := next.next;
      spine, items := spine[1..], items[1..];
    }

    /** The search loop of Remove: the first node whose element equals x, and the node before it. */
    method Locate(x: T, equals: (T, T) -> bool) returns (prev: Node?<T>, current: Node?<T>, ghost k: nat)
      requires Valid()
      ensures k <= |spine| && current == NodeAt(spine, k)
      ensures prev == if k == 0 then null else spine[k - 1]  // null stands for the header
      ensures current != null ==> equals(x, current.data)
      ensures forall i :: 0 <= i < k ==> !equals(x, items[i])
    {
      prev, current, k := null, next, 0;
      while current != null
        invariant k <= |spine| && current == NodeAt(spine, k)
        invariant prev == if k == 0 then null else spine[k - 1]
        invariant forall i :: 0 <= i < k ==> !equals(x, items[i])
        decreases |spine| - k
      {
        if equals(x, current.data) {
          return;
        }
        prev, current, k := current, current.next, k + 1;
      }
    }

    /** Unlinks the first element equal to x. The tail is left alone, so it stays exact
        unless the element removed was the last one. */
    method Remove(x: T, equals: (T, T) -> bool) returns (r: Option<T>, ghost k: nat)
      requires Valid()
      modifies this, spine
      ensures Valid()
      ensures r.None? ==>
                && items == old(items) && spine == old(spine)
                && forall i :: 0 <= i < |items| ==> !equals(x, items[i])
      ensures r.Some? ==>
                && k < |old(items)| && equals(x, old(items)[k]) && r.value == old(items)[k]
                && (forall i :: 0 <= i < k ==> !equals(x, old(items)[i]))
                && items == Without(old(items), k) && spine == Without(old(spine), k)
      ensures Exact() <==> old(Exact()) && (r.Some? ==> k + 1 != |old(items)|)
    {
      var prev, current;
      prev, current, k := Locate(x, equals);
      if current == null {
        return None, k;
      }
      r := Some(current.data);
      if prev == null {
        next := current.next;
      } else {
        prev.next := current.next;
      }
      spine, items := Without(spine, k), Without(items, k);
    }

    method Size() returns (n: nat)
      requires Valid()
      ensures n == |items|
    {
      var p := next;
      n := 0;
      while p != null
        invariant n <= |spine|
        invariant p == NodeAt(spine, n)
        decreases |spine| - n
      {
        n := n + 1;
        p := p.next;
      }
    }
  }

  /** The shortest history that loses an element: remove the only element, add one in
      front, then append. */
  method StaleTailLosesAnElement<T(==)>(a: T, b: T, c: T) returns (l: List<T>)
    ensures fresh(l) && l.Valid() && l.items == [b]
  {
    l := new List();
    l.AddLast(a);
    assert l.items == [a];
    var r, k := l.Remove(a, (x, y) => x == y);
    assert r.Some? && l.items == [];
    l.AddFirst(b);
    l.AddLast(c);
  }
}
