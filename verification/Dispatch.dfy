/**
 Dispatch through `methods_table` is lookup by `findMethod` (section 5.4.5 of the Java Virtual
 Machine Specification), exactly for the chains in which every signature is always virtual or
 never virtual.
*/
module Dispatch {
  import opened Options
  import opened Classes
  import opened Linking

  ghost predicate UniqueSignatures(cb: ClassBlock) {
    forall i, j :: 0 <= i < j < |cb.methods| ==> !Signed(cb.methods[i], cb.methods[j].name, cb.methods[j].typ)
  }

  /** c and its superclasses have been prepared and linked, parents first, and their table
      sizes fit the 16-bit counters. */
  ghost predicate Ready(cs: seq<ClassBlock>, c: nat)
    requires Ordered(cs) && c < |cs|
    decreases c
  {
    && Prepared(cs, c) && Linked(cs, c) && UniqueSignatures(cs[c])
    && cs[c].tableSize < 0x1_0000 && |cs[c].methods| < 0x1_0000
    && (cs[c].super.Some? ==> Ready(cs, cs[c].super.value))
  }

  /** No method of c has the signature of an inherited method of the other kind. */
  ghost predicate UniformAt(cs: seq<ClassBlock>, c: nat)
    requires Ordered(cs) && c < |cs|
  {
    forall i :: 0 <= i < |cs[c].methods| && Overridden(cs, c, cs[c].methods[i]).Some? ==>
      (Virtual(cs[c].methods[i]) <==> Virtual(MethodAt(cs, Overridden(cs, c, cs[c].methods[i]).value)))
  }

  ghost predicate Uniform(cs: seq<ClassBlock>, c: nat)
    requires Ordered(cs) && c < |cs|
    decreases c
  {
    UniformAt(cs, c) && (cs[c].super.Some? ==> Uniform(cs, cs[c].super.value))
  }

  /** A virtual method p visible in c: its slot in c's table holds what lookup by name finds. */
  ghost predicate Dispatches(cs: seq<ClassBlock>, c: nat, p: MethodPtr)
    requires Ordered(cs) && c < |cs| && IsMethod(cs, p)
  {
    var m := MethodAt(cs, p);
    m.tableIdx < |cs[c].table| && cs[c].table[m.tableIdx] == FindMethod(cs, c, m.name, m.typ)
  }

  /** `methods_table[m.methods_table_idx]` of c is `findMethod(c, m.name, m.type)` for every
      virtual method m that c declares or inherits. */
  ghost predicate Correct(cs: seq<ClassBlock>, c: nat)
    requires Ordered(cs) && c < |cs|
  {
    forall p :: IsMethod(cs, p) && Ancestor(cs, c, p.cls) && Virtual(MethodAt(cs, p)) ==> Dispatches(cs, c, p)
  }

  ghost predicate CorrectChain(cs: seq<ClassBlock>, c: nat)
    requires Ordered(cs) && c < |cs|
    decreases c
  {
    Correct(cs, c) && (cs[c].super.Some? ==> CorrectChain(cs, cs[c].super.value))
  }

  // ----- indices -----

  lemma {:induction false} NewBeforeGrows(cs: seq<ClassBlock>, c: nat, i: nat, n: nat)
    requires Ordered(cs) && c < |cs| && i <= n <= |cs[c].methods|
    ensures NewBefore(cs, c, i) <= NewBefore(cs, c, n) <= NewBefore(cs, c, i) + (n - i)
    ensures i < n && IsNew(cs, c, cs[c].methods[i]) ==> NewBefore(cs, c, i) < NewBefore(cs, c, n)
    decreases n - i
  {
    if i < n {
      NewBeforeGrows(cs, c, i + 1, n);
    }
  }

  lemma {:induction false} ReadySuper(cs: seq<ClassBlock>, c: nat)
    requires Ordered(cs) && c < |cs| && Ready(cs, c)
    ensures Prepared(cs, c) && Linked(cs, c) && UniqueSignatures(cs[c])
    ensures cs[c].super.Some? ==> Ready(cs, cs[c].super.value) && Linked(cs, cs[c].super.value)
  {
    hide Prepared, Linked, UniqueSignatures;
  }

  lemma {:induction false} PreparedAt(cs: seq<ClassBlock>, c: nat, i: nat)
    requires Ordered(cs) && c < |cs| && Prepared(cs, c) && i < |cs[c].methods|
    ensures cs[c].methods[i].tableIdx == PreparedIdx(cs, c, i)
  {
  }

  lemma {:induction false} NoWrap(x: nat)
    requires x < 0x1_0000
    ensures U2(x) == x
  {
  }

  lemma {:induction false} TableSizes(cs: seq<ClassBlock>, c: nat)
    requires Ordered(cs) && c < |cs| && Ready(cs, c)
    ensures cs[c].tableSize == SuperSize(cs, c) + NewBefore(cs, c, |cs[c].methods|)
    ensures |cs[c].table| == cs[c].tableSize && SuperSize(cs, c) <= cs[c].tableSize < 0x1_0000
    ensures cs[c].super.Some? ==> |cs[cs[c].super.value].table| == SuperSize(cs, c)
  {
    hide U2, PreparedIdx, TableAfter;
    NewBeforeGrows(cs, c, 0, |cs[c].methods|);
    NoWrap(NewBefore(cs, c, |cs[c].methods|));
    NoWrap(SuperSize(cs, c));
  }

  /** With sizes below 2^16 the counters of prepareMethod do not wrap. */
  lemma {:induction false} IndexOf(cs: seq<ClassBlock>, c: nat, i: nat)
    requires Ordered(cs) && c < |cs| && Ready(cs, c) && i < |cs[c].methods| && Virtual(cs[c].methods[i])
    ensures var m := cs[c].methods[i]; var p := Overridden(cs, c, m);
            m.tableIdx == if p.Some? then MethodAt(cs, p.value).tableIdx else SuperSize(cs, c) + NewBefore(cs, c, i)
    ensures Overridden(cs, c, cs[c].methods[i]) == None ==>
              SuperSize(cs, c) <= cs[c].methods[i].tableIdx < cs[c].tableSize
  {
    hide Ready, Prepared, Linked, UniqueSignatures, NewBefore, U2, FindMethod;
    ReadySuper(cs, c);
    PreparedAt(cs, c, i);
    TableSizes(cs, c);
    NewBeforeGrows(cs, c, i, |cs[c].methods|);
    var n := NewBefore(cs, c, i);
    NoWrap(SuperSize(cs, c));
    NoWrap(n);
    NoWrap(SuperSize(cs, c) + n);
  }

  /** Same signature, same kind, and for virtual methods the same index. */
  lemma {:induction false} FoundIsAlike(cs: seq<ClassBlock>, c: nat, p: MethodPtr)
    requires Ordered(cs) && c < |cs| && Ready(cs, c) && Uniform(cs, c) && IsMethod(cs, p) && Ancestor(cs, c, p.cls)
    ensures var m := MethodAt(cs, p); var q := FindMethod(cs, c, m.name, m.typ);
            && q.Some? && (Virtual(MethodAt(cs, q.value)) <==> Virtual(m))
            && (Virtual(m) ==> MethodAt(cs, q.value).tableIdx == m.tableIdx)
    decreases c
  {
    var m := MethodAt(cs, p);
    var here := FindInCurrent(cs[c].methods, m.name, m.typ);
    if p.cls == c {
      assert here == Some(p.slot);
    } else {
      FoundIsAlike(cs, cs[c].super.value, p);
      if here.Some? && Virtual(m) {
        IndexOf(cs, c, here.value);
      }
    }
  }

  // ----- table contents -----

  lemma {:induction false} Untouched(cs: seq<ClassBlock>, c: nat, n: nat, k: nat)
    requires Ordered(cs) && c < |cs| && n <= |cs[c].methods| && k < cs[c].tableSize
    requires forall i :: 0 <= i < n && Virtual(cs[c].methods[i]) ==> cs[c].methods[i].tableIdx != k
    ensures TableAfter(cs, c, n)[k] == Inherited(cs, c, k)
  {
    if n > 0 {
      Untouched(cs, c, n - 1, k);
    }
  }

  /** A slot that only method i claims holds method i. */
  lemma {:induction false} Entered(cs: seq<ClassBlock>, c: nat, n: nat, i: nat)
    requires Ordered(cs) && c < |cs| && i < n <= |cs[c].methods|
    requires Virtual(cs[c].methods[i]) && cs[c].methods[i].tableIdx < cs[c].tableSize
    requires forall j :: i < j < n && Virtual(cs[c].methods[j]) ==>
              cs[c].methods[j].tableIdx != cs[c].methods[i].tableIdx
    ensures TableAfter(cs, c, n)[cs[c].methods[i].tableIdx] == Some(MethodPtr(c, i))
  {
    if i < n - 1 {
      Entered(cs, c, n - 1, i);
    }
  }

  /** Tables only ever hold virtual methods. */
  lemma {:induction false} OnlyVirtual(cs: seq<ClassBlock>, c: nat, n: nat, k: nat)
    requires Ordered(cs) && c < |cs| && Ready(cs, c) && n <= |cs[c].methods| && k < cs[c].tableSize
    ensures var e := TableAfter(cs, c, n)[k]; e.Some? ==> IsMethod(cs, e.value) && Virtual(MethodAt(cs, e.value))
    decreases c, n
  {
    hide Ready;
    if n > 0 {
      OnlyVirtual(cs, c, n - 1, k);
    } else if cs[c].super.Some? {
      ReadySuper(cs, c);
      var s := cs[c].super.value;
      if k < cs[s].tableSize {
        OnlyVirtual(cs, s, |cs[s].methods|, k);
      }
    }
  }

  // ----- distinct methods of a class claim distinct slots -----

  lemma {:induction false} OverriddenIsVirtual(cs: seq<ClassBlock>, c: nat, i: nat)
    requires Ordered(cs) && c < |cs| && Ready(cs, c) && UniformAt(cs, c)
    requires cs[c].super.Some? ==> Correct(cs, cs[c].super.value)
    requires i < |cs[c].methods| && Virtual(cs[c].methods[i])
    ensures var p := Overridden(cs, c, cs[c].methods[i]);
            p.Some? ==>
              && Virtual(MethodAt(cs, p.value)) && cs[c].methods[i].tableIdx < SuperSize(cs, c)
              && Inherited(cs, c, cs[c].methods[i].tableIdx) == p
  {
    var m := cs[c].methods[i];
    var p := Overridden(cs, c, m);
    if p.Some? {
      IndexOf(cs, c, i);
      TableSizes(cs, c);
      FoundInAncestor(cs, cs[c].super.value, m.name, m.typ);
      assert Dispatches(cs, cs[c].super.value, p.value);
    }
  }

  lemma {:induction false} DistinctSlots(cs: seq<ClassBlock>, c: nat, i: nat, j: nat)
    requires Ordered(cs) && c < |cs| && Ready(cs, c) && UniformAt(cs, c)
    requires cs[c].super.Some? ==> Correct(cs, cs[c].super.value)
    requires i < j < |cs[c].methods| && Virtual(cs[c].methods[i]) && Virtual(cs[c].methods[j])
    ensures cs[c].methods[i].tableIdx != cs[c].methods[j].tableIdx
  {
    ReadySuper(cs, c);
    OverriddenIsVirtual(cs, c, i);
    OverriddenIsVirtual(cs, c, j);
    IndexOf(cs, c, i);
    IndexOf(cs, c, j);
    hide Ready, Linked, UniformAt, Correct;
    NewBeforeGrows(cs, c, i, j);
  }

  /** The step to a subclass: a uniform class on top of a correct chain dispatches correctly. */
  lemma {:induction false} SubclassDispatches(cs: seq<ClassBlock>, c: nat, p: MethodPtr)
    requires Ordered(cs) && c < |cs| && Ready(cs, c) && Uniform(cs, c)
    requires cs[c].super.Some? ==> Correct(cs, cs[c].super.value)
    requires IsMethod(cs, p) && Ancestor(cs, c, p.cls) && Virtual(MethodAt(cs, p))
    ensures Dispatches(cs, c, p)
  {
    var m := MethodAt(cs, p);
    var n := |cs[c].methods|;
    var here := FindInCurrent(cs[c].methods, m.name, m.typ);
    FoundIsAlike(cs, c, p);
    TableSizes(cs, c);
    if here.Some? {
      var i := here.value;
      OverriddenIsVirtual(cs, c, i);
      IndexOf(cs, c, i);
      forall j | i < j < n && Virtual(cs[c].methods[j])
        ensures cs[c].methods[j].tableIdx != cs[c].methods[i].tableIdx
      {
        DistinctSlots(cs, c, i, j);
      }
      Entered(cs, c, n, i);
    } else {
      assert Dispatches(cs, cs[c].super.value, p);
      forall j | 0 <= j < n && Virtual(cs[c].methods[j])
        ensures cs[c].methods[j].tableIdx != m.tableIdx
      {
        OverriddenIsVirtual(cs, c, j);
        IndexOf(cs, c, j);
      }
      Untouched(cs, c, n, m.tableIdx);
    }
  }

  lemma {:induction false} UniformImpliesCorrect(cs: seq<ClassBlock>, c: nat)
    requires Ordered(cs) && c < |cs| && Ready(cs, c) && Uniform(cs, c)
    ensures CorrectChain(cs, c)
    decreases c
  {
    if cs[c].super.Some? {
      UniformImpliesCorrect(cs, cs[c].super.value);
      CorrectHere(cs, cs[c].super.value);
    }
    forall p | IsMethod(cs, p) && Ancestor(cs, c, p.cls) && Virtual(MethodAt(cs, p))
      ensures Dispatches(cs, c, p)
    {
      SubclassDispatches(cs, c, p);
    }
  }

  lemma {:induction false} CorrectHere(cs: seq<ClassBlock>, c: nat)
    requires Ordered(cs) && c < |cs| && CorrectChain(cs, c)
    ensures Correct(cs, c)
  {
  }

  // ----- the converse -----

  lemma {:induction false} NthNew(cs: seq<ClassBlock>, c: nat, n: nat, k: nat) returns (i: nat)
    requires Ordered(cs) && c < |cs| && n <= |cs[c].methods| && k < NewBefore(cs, c, n)
    ensures i < n && IsNew(cs, c, cs[c].methods[i]) && NewBefore(cs, c, i) == k
  {
    if k == NewBefore(cs, c, n - 1) {
      i := n - 1;
    } else {
      i := NthNew(cs, c, n - 1, k);
    }
  }

  /** Every index below the table size belongs to some virtual method of the chain. */
  lemma {:induction false} SlotOwner(cs: seq<ClassBlock>, c: nat, k: nat) returns (p: MethodPtr)
    requires Ordered(cs) && c < |cs| && Ready(cs, c) && k < cs[c].tableSize
    ensures IsMethod(cs, p) && Ancestor(cs, c, p.cls) && Virtual(MethodAt(cs, p)) && MethodAt(cs, p).tableIdx == k
    ensures k >= SuperSize(cs, c) ==> p.cls == c && Overridden(cs, c, MethodAt(cs, p)) == None
    ensures k < SuperSize(cs, c) ==> cs[c].super.Some? && Ancestor(cs, cs[c].super.value, p.cls)
    decreases c
  {
    TableSizes(cs, c);
    if k < SuperSize(cs, c) {
      p := SlotOwner(cs, cs[c].super.value, k);
    } else {
      var i := NthNew(cs, c, |cs[c].methods|, k - SuperSize(cs, c));
      IndexOf(cs, c, i);
      p := MethodPtr(c, i);
    }
  }

  /** A non-virtual method never gets an index of its own. */
  lemma {:induction false} NonVirtualHasIndexZero(cs: seq<ClassBlock>, c: nat, p: MethodPtr)
    requires Ordered(cs) && c < |cs| && Ready(cs, c) && IsMethod(cs, p) && Ancestor(cs, c, p.cls)
    requires !Virtual(MethodAt(cs, p))
    ensures MethodAt(cs, p).tableIdx == 0
    decreases c
  {
    if p.cls == c {
      assert MethodAt(cs, p).tableIdx == PreparedIdx(cs, c, p.slot);
    } else {
      NonVirtualHasIndexZero(cs, cs[c].super.value, p);
    }
  }

  /** An index visible in c lies inside c's table, or is the index 0 that non-virtual methods keep. */
  lemma {:induction false} IndexInside(cs: seq<ClassBlock>, c: nat, p: MethodPtr)
    requires Ordered(cs) && c < |cs| && Ready(cs, c) && IsMethod(cs, p) && Ancestor(cs, c, p.cls)
    ensures MethodAt(cs, p).tableIdx < cs[c].tableSize || MethodAt(cs, p).tableIdx == 0
    decreases c
  {
    hide Prepared, Linked, UniqueSignatures, NewBefore, U2, FindMethod;
    TableSizes(cs, c);
    if p.cls != c {
      IndexInside(cs, cs[c].super.value, p);
    } else if !Virtual(MethodAt(cs, p)) {
      NonVirtualHasIndexZero(cs, c, p);
    } else {
      IndexOf(cs, c, p.slot);
      var m := MethodAt(cs, p);
      var q := Overridden(cs, c, m);
      if q.Some? {
        FoundInAncestor(cs, cs[c].super.value, m.name, m.typ);
        IndexInside(cs, cs[c].super.value, q.value);
      }
    }
  }

  /** `linkMethod` writes outside the table exactly when the table is empty and the class has a
      virtual method; never when the superclass has a slot. */
  lemma {:induction false} WritesInsideExactly(cs: seq<ClassBlock>, c: nat)
    requires Ordered(cs) && c < |cs| && Ready(cs, c)
    ensures WritesInside(cs[c]) <==>
              cs[c].tableSize > 0 || forall i :: 0 <= i < |cs[c].methods| ==> !Virtual(cs[c].methods[i])
    ensures cs[c].super.Some? && cs[cs[c].super.value].tableSize > 0 ==> WritesInside(cs[c])
  {
    hide Ready, Prepared, Linked, UniqueSignatures;
    TableSizes(cs, c);
    forall i | 0 <= i < |cs[c].methods|
      ensures cs[c].methods[i].tableIdx < cs[c].tableSize || cs[c].methods[i].tableIdx == 0
    {
      assert IsMethod(cs, MethodPtr(c, i)) && MethodAt(cs, MethodPtr(c, i)) == cs[c].methods[i];
      IndexInside(cs, c, MethodPtr(c, i));
    }
  }

  lemma {:induction false} FoundHere(cs: seq<ClassBlock>, c: nat, i: nat)
    requires Ordered(cs) && c < |cs| && UniqueSignatures(cs[c]) && i < |cs[c].methods|
    ensures FindMethod(cs, c, cs[c].methods[i].name, cs[c].methods[i].typ) == Some(MethodPtr(c, i))
  {
  }

  /** Two different methods found by name cannot share a table index. */
  lemma {:induction false} SharedIndexFails(cs: seq<ClassBlock>, c: nat, p: MethodPtr, q: MethodPtr)
    requires Ordered(cs) && c < |cs| && Correct(cs, c)
    requires IsMethod(cs, p) && Ancestor(cs, c, p.cls) && Virtual(MethodAt(cs, p))
    requires IsMethod(cs, q) && Ancestor(cs, c, q.cls) && Virtual(MethodAt(cs, q))
    requires MethodAt(cs, p).tableIdx == MethodAt(cs, q).tableIdx
    ensures Signed(MethodAt(cs, p), MethodAt(cs, q).name, MethodAt(cs, q).typ)
  {
    DeclaredIsFound(cs, c, p);
    assert Dispatches(cs, c, p) && Dispatches(cs, c, q);
  }

  /** A method that changes kind breaks dispatch in its class: a non-virtual one hides a slot
      that still holds the old method; a virtual one is entered at index 0, which belongs to
      another method or lies outside the table. */
  lemma {:induction false} MixedBreaksDispatch(cs: seq<ClassBlock>, c: nat)
    requires Ordered(cs) && c < |cs| && Ready(cs, c) && !UniformAt(cs, c)
    requires cs[c].super.Some? ==> Uniform(cs, cs[c].super.value)
    ensures !Correct(cs, c)
  {
    if Correct(cs, c) {
      var i :| 0 <= i < |cs[c].methods| && Overridden(cs, c, cs[c].methods[i]).Some? &&
        (Virtual(cs[c].methods[i]) != Virtual(MethodAt(cs, Overridden(cs, c, cs[c].methods[i]).value)));
      var m, s := cs[c].methods[i], cs[c].super.value;
      var p := Overridden(cs, c, m).value;
      ReadySuper(cs, c);
      TableSizes(cs, c);
      FoundInAncestor(cs, s, m.name, m.typ);
      FoundHere(cs, c, i);
      if Virtual(m) {
        VirtualOverNonVirtual(cs, c, i, p);
      } else {
        assert Dispatches(cs, c, p);
        OnlyVirtual(cs, c, |cs[c].methods|, MethodAt(cs, p).tableIdx);
      }
    }
  }

  lemma {:induction false} VirtualOverNonVirtual(cs: seq<ClassBlock>, c: nat, i: nat, p: MethodPtr)
    requires Ordered(cs) && c < |cs| && Ready(cs, c)
    requires cs[c].super.Some? && Uniform(cs, cs[c].super.value)
    requires i < |cs[c].methods| && Virtual(cs[c].methods[i]) && Overridden(cs, c, cs[c].methods[i]) == Some(p)
    requires Ancestor(cs, cs[c].super.value, p.cls) && !Virtual(MethodAt(cs, p))
    ensures !Correct(cs, c)
  {
    var s := cs[c].super.value;
    ReadySuper(cs, c);
    TableSizes(cs, c);
    IndexOf(cs, c, i);
    NonVirtualHasIndexZero(cs, s, p);
    var me := MethodPtr(c, i);
    if Correct(cs, c) {
      assert Dispatches(cs, c, me);
      var q := SlotOwner(cs, c, 0);
      if q.cls != c {
        FoundIsAlike(cs, s, q);
      }
      SharedIndexFails(cs, c, me, q);
    }
  }

  lemma {:induction false} CorrectImpliesUniform(cs: seq<ClassBlock>, c: nat)
    requires Ordered(cs) && c < |cs| && Ready(cs, c) && CorrectChain(cs, c)
    ensures Uniform(cs, c)
    decreases c
  {
    if cs[c].super.Some? {
      ReadySuper(cs, c);
      CorrectImpliesUniform(cs, cs[c].super.value);
    }
    CorrectHere(cs, c);
    if !UniformAt(cs, c) {
      MixedBreaksDispatch(cs, c);
    }
  }

  /** For a class whose chain has been prepared and linked parents first: indexed dispatch is
      lookup by name in every class of the chain, if and only if no method has the signature
      of an inherited method of the other kind. */
  lemma {:induction false} DispatchTheorem(cs: seq<ClassBlock>, c: nat)
    requires Ordered(cs) && c < |cs| && Ready(cs, c)
    ensures CorrectChain(cs, c) <==> Uniform(cs, c)
  {
    if Uniform(cs, c) {
      UniformImpliesCorrect(cs, c);
    }
    if CorrectChain(cs, c) {
      CorrectImpliesUniform(cs, c);
    }
  }

  // ----- searching the table -----

  /** In a correctly linked chain every table entry is the method its own signature finds. */
  lemma {:induction false} EntryIsFound(cs: seq<ClassBlock>, c: nat, k: nat)
    requires Ordered(cs) && c < |cs| && Ready(cs, c) && Uniform(cs, c) && k < cs[c].tableSize
    ensures k < |cs[c].table| && cs[c].table[k].Some?
    ensures var e := cs[c].table[k].value;
            && IsMethod(cs, e) && Virtual(MethodAt(cs, e))
            && FindMethod(cs, c, MethodAt(cs, e).name, MethodAt(cs, e).typ) == Some(e)
  {
    TableSizes(cs, c);
    ReadySuper(cs, c);
    UniformImpliesCorrect(cs, c);
    CorrectHere(cs, c);
    var q := SlotOwner(cs, c, k);
    DeclaredIsFound(cs, c, q);
    assert Dispatches(cs, c, q);
    OnlyVirtual(cs, c, |cs[c].methods|, k);
  }

  lemma {:induction false} EntryOf(cs: seq<ClassBlock>, c: nat, name: string, typ: string) returns (k: nat)
    requires Ordered(cs) && c < |cs| && Ready(cs, c) && Uniform(cs, c)
    ensures var q := FindMethod(cs, c, name, typ);
            q.Some? && Virtual(MethodAt(cs, q.value)) ==> k < |cs[c].table| && cs[c].table[k] == q
  {
    var q := FindMethod(cs, c, name, typ);
    k := 0;
    if q.Some? && Virtual(MethodAt(cs, q.value)) {
      k := MethodAt(cs, q.value).tableIdx;
      FoundInAncestor(cs, c, name, typ);
      UniformImpliesCorrect(cs, c);
      CorrectHere(cs, c);
      assert Dispatches(cs, c, q.value);
    }
  }

  /** `quickSearch`: scanning the table for a signature finds what `findMethod` finds, provided
      that is a virtual method, and nothing otherwise. */
  method QuickSearch(cs: seq<ClassBlock>, c: nat, name: string, typ: string) returns (r: Option<MethodPtr>)
    requires Ordered(cs) && c < |cs| && Ready(cs, c) && Uniform(cs, c)
    ensures var q := FindMethod(cs, c, name, typ);
            r == if q.Some? && Virtual(MethodAt(cs, q.value)) then q else None
  {
    ghost var q := FindMethod(cs, c, name, typ);
    TableSizes(cs, c);
    for i := 0 to cs[c].tableSize
      invariant forall k :: 0 <= k < i ==> cs[c].table[k] != q || q == None
    {
      EntryIsFound(cs, c, i);
      var mb := cs[c].table[i].value;
      if MethodAt(cs, mb).name == name && MethodAt(cs, mb).typ == typ {
        return Some(mb);
      }
    }
    ghost var k := EntryOf(cs, c, name, typ);
    return None;
  }

  /** Static and private methods, constructors and class initialisers get no slot; on a uniform
      chain every other method of a class, and none of these, is in the table of the class, under
      its index. */
  lemma {:induction false} SlotsGoTo(cs: seq<ClassBlock>, c: nat, i: nat)
    requires Ordered(cs) && c < |cs| && Ready(cs, c) && Uniform(cs, c) && i < |cs[c].methods|
    ensures var m := cs[c].methods[i];
            if m.isStatic || m.isPrivate || m.name == "<init>" || m.name == "<clinit>" then
              m.tableIdx == 0 && forall k :: 0 <= k < |cs[c].table| ==> cs[c].table[k] != Some(MethodPtr(c, i))
            else
              m.tableIdx < |cs[c].table| && cs[c].table[m.tableIdx] == Some(MethodPtr(c, i))
  {
    hide FindMethod, Prepared, Linked, Uniform;
    var p := MethodPtr(c, i);
    TableSizes(cs, c);
    if Virtual(cs[c].methods[i]) {
      UniformImpliesCorrect(cs, c);
      CorrectHere(cs, c);
      assert Dispatches(cs, c, p);
      FoundHere(cs, c, i);
    } else {
      NonVirtualHasIndexZero(cs, c, p);
      forall k | 0 <= k < |cs[c].table|
        ensures cs[c].table[k] != Some(p)
      {
        EntryIsFound(cs, c, k);
      }
    }
  }

  // ----- a chain on which dispatch is wrong -----

  /** A superclass with a virtual `h` and a private `f`; a subclass that declares its own `f`. */
  function PrivateThenVirtual(): seq<ClassBlock> {
    var h, f := MethodBlock("h", "()V", false, false, 0), MethodBlock("f", "()V", false, true, 0);
    var g := MethodBlock("f", "()V", false, false, 0);
    [ClassBlock("A", None, [], false, 0, None, 0, [h, f], [], 1, [Some(MethodPtr(0, 0))], 0, LINKED),
     ClassBlock("B", Some(0), [], false, 0, None, 0, [g], [], 1, [Some(MethodPtr(1, 0))], 0, LINKED)]
  }

  lemma {:induction false} MisdispatchFacts()
    ensures var cs := PrivateThenVirtual(); var h, f, g := cs[0].methods[0], cs[0].methods[1], cs[1].methods[0];
            && Ordered(cs) && |cs| == 2 && cs[0].methods == [h, f] && cs[1].methods == [g]
            && h.name == "h" && f.name == g.name == "f" && h.typ == f.typ == g.typ == "()V" && f.name != h.name
            && Virtual(h) && !Virtual(f) && Virtual(g) && h.tableIdx == f.tableIdx == g.tableIdx == 0
            && cs[0].super == None && cs[1].super == Some(0) && cs[0].tableSize == cs[1].tableSize == 1
            && cs[0].table == [Some(MethodPtr(0, 0))] && cs[1].table == [Some(MethodPtr(1, 0))]
  {
    var cs := PrivateThenVirtual();
    assert cs[0].methods[0].name[0] != cs[0].methods[1].name[0];
  }

  lemma {:induction false} MisdispatchLookups()
    ensures var cs := PrivateThenVirtual();
            && Ordered(cs) && |cs| == 2 && |cs[0].methods| == 2 && |cs[1].methods| == 1
            && Overridden(cs, 0, cs[0].methods[0]) == None && Overridden(cs, 0, cs[0].methods[1]) == None
            && Overridden(cs, 1, cs[1].methods[0]) == Some(MethodPtr(0, 1))
            && FindMethod(cs, 1, "h", "()V") == Some(MethodPtr(0, 0))
  {
    hide PrivateThenVirtual, Virtual;
    MisdispatchFacts();
    var cs := PrivateThenVirtual();
    assert FindInCurrent(cs[1].methods, "h", "()V") == None;
    assert FindInCurrent(cs[0].methods, "h", "()V") == Some(0);
    assert cs[0].methods[1..] == [cs[0].methods[1]];
    assert FindInCurrent(cs[0].methods, "f", "()V") == Some(1);
  }

  lemma {:induction false} MisdispatchPrepared()
    ensures var cs := PrivateThenVirtual(); Ordered(cs) && |cs| == 2 && Prepared(cs, 0) && Prepared(cs, 1)
  {
    hide PrivateThenVirtual, Virtual, FindMethod, Overridden, U2;
    MisdispatchFacts();
    MisdispatchLookups();
    var cs := PrivateThenVirtual();
    assert NewBefore(cs, 0, 1) == 1 && NewBefore(cs, 0, 0) == 0;
    assert NewBefore(cs, 0, 2) == 1;
    assert NewBefore(cs, 1, 1) == 0;
    NoWrap(0);
    NoWrap(1);
    assert PreparedIdx(cs, 0, 0) == PreparedIdx(cs, 0, 1) == PreparedIdx(cs, 1, 0) == 0;
  }

  lemma {:induction false} MisdispatchLinked()
    ensures var cs := PrivateThenVirtual(); Ordered(cs) && |cs| == 2 && Linked(cs, 0) && Linked(cs, 1)
  {
    hide PrivateThenVirtual, Virtual, FindMethod, Overridden;
    MisdispatchFacts();
    MisdispatchLookups();
    var cs := PrivateThenVirtual();
    assert TableAfter(cs, 0, 1) == [Some(MethodPtr(0, 0))];
    assert TableAfter(cs, 0, 2) == [Some(MethodPtr(0, 0))];
    assert TableAfter(cs, 1, 1) == [Some(MethodPtr(1, 0))];
  }

  /** Both classes are prepared and linked as the source does it, yet calling `h` on a B runs
      B's `f`: the new `f` took the index 0 of the private method it does not override. */
  lemma {:induction false} PrivateMethodMisdispatched()
    ensures var cs := PrivateThenVirtual();
            && Ordered(cs) && Ready(cs, 1)
            && FindMethod(cs, 1, "h", "()V") == Some(MethodPtr(0, 0))
            && cs[1].table[MethodAt(cs, MethodPtr(0, 0)).tableIdx] == Some(MethodPtr(1, 0))
  {
    hide PrivateThenVirtual, Virtual, FindMethod, Prepared, Linked;
    MisdispatchFacts();
    MisdispatchLookups();
    MisdispatchPrepared();
    MisdispatchLinked();
    assert Ready(PrivateThenVirtual(), 0);
  }

  // ----- a table write outside the table -----

  /** A superclass whose only method `f` is private; a subclass that declares its own `f`. */
  function OnlyPrivateAbove(): seq<ClassBlock> {
    [ClassBlock("A", None, [], false, 0, None, 0, [MethodBlock("f", "()V", false, true, 0)], [], 0, [], 0, LINKED),
     ClassBlock("B", Some(0), [], false, 0, None, 0, [MethodBlock("f", "()V", false, false, 0)], [], 0, [], 0, LINKED)]
  }

  lemma {:induction false} OnlyPrivateFacts()
    ensures var cs := OnlyPrivateAbove();
            && Ordered(cs) && |cs| == 2 && |cs[0].methods| == |cs[1].methods| == 1
            && !Virtual(cs[0].methods[0]) && Virtual(cs[1].methods[0])
            && cs[0].super == None && cs[1].super == Some(0) && cs[0].tableSize == cs[1].tableSize == 0
            && cs[0].table == cs[1].table == [] && UniqueSignatures(cs[0]) && UniqueSignatures(cs[1])
            && cs[0].methods[0].tableIdx == cs[1].methods[0].tableIdx == 0
            && Overridden(cs, 1, cs[1].methods[0]) == Some(MethodPtr(0, 0))
  {
    var cs := OnlyPrivateAbove();
    assert FindInCurrent(cs[0].methods, "f", "()V") == Some(0);
  }

  /** The slot counter gives `f` the index of the private method, and the empty table is
      overrun. */
  lemma {:induction false} EmptyTableOverrun()
    ensures var cs := OnlyPrivateAbove(); Ordered(cs) && Ready(cs, 1) && !WritesInside(cs[1])
  {
    hide OnlyPrivateAbove, Virtual, Overridden, U2, UniqueSignatures;
    OnlyPrivateFacts();
    var cs := OnlyPrivateAbove();
    NoWrap(0);
    assert NewBefore(cs, 0, 1) == NewBefore(cs, 0, 0) == 0 && NewBefore(cs, 1, 1) == NewBefore(cs, 1, 0) == 0;
    assert PreparedIdx(cs, 0, 0) == PreparedIdx(cs, 1, 0) == 0;
    assert Prepared(cs, 0) && Prepared(cs, 1);
    assert |TableAfter(cs, 0, 1)| == |TableAfter(cs, 1, 1)| == 0;
    assert Linked(cs, 0) && Linked(cs, 1);
    assert Ready(cs, 0);
  }
}
