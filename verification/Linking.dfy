/**
 Virtual method tables: `prepareMethod` and `linkMethod` of `src/classloader/class.c` against
 the slow lookup `findMethod`. Dispatch by table index is lookup by name exactly when no
 signature is virtual in one class of the chain and non-virtual in another.
*/
module Linking {
  import opened Options
  import opened Classes

  function U2(x: nat): nat {
    x % 0x1_0000
  }

  /** Methods that get a table slot. */
  predicate Virtual(m: MethodBlock) {
    !m.isStatic && !m.isPrivate && m.name != "<init>" && m.name != "<clinit>"
  }

  /** The method of the superclass chain with m's signature. */
  function Overridden(cs: seq<ClassBlock>, c: nat, m: MethodBlock): (r: Option<MethodPtr>)
    requires Ordered(cs) && c < |cs|
    ensures r.Some? ==> IsMethod(cs, r.value) && r.value.cls < c
  {
    if cs[c].super == None then None else FindMethod(cs, cs[c].super.value, m.name, m.typ)
  }

  predicate IsNew(cs: seq<ClassBlock>, c: nat, m: MethodBlock)
    requires Ordered(cs) && c < |cs|
  {
    Virtual(m) && Overridden(cs, c, m) == None
  }

  /** How many of the first n methods introduce a new slot. */
  function NewBefore(cs: seq<ClassBlock>, c: nat, n: nat): nat
    requires Ordered(cs) && c < |cs| && n <= |cs[c].methods|
  {
    if n == 0 then 0 else NewBefore(cs, c, n - 1) + if IsNew(cs, c, cs[c].methods[n - 1]) then 1 else 0
  }

  function SuperSize(cs: seq<ClassBlock>, c: nat): nat
    requires Ordered(cs) && c < |cs|
  {
    if cs[c].super == None then 0 else cs[cs[c].super.value].tableSize
  }

  /** The index `prepareMethod` must give to the i-th method. */
  function PreparedIdx(cs: seq<ClassBlock>, c: nat, i: nat): nat
    requires Ordered(cs) && c < |cs| && i < |cs[c].methods|
  {
    var m := cs[c].methods[i];
    if !Virtual(m) then 0
    else
      var p := Overridden(cs, c, m);
      if p.Some? then MethodAt(cs, p.value).tableIdx
      else U2(U2(SuperSize(cs, c)) + U2(NewBefore(cs, c, i)))
  }

  ghost predicate Prepared(cs: seq<ClassBlock>, c: nat)
    requires Ordered(cs) && c < |cs|
  {
    && (forall i :: 0 <= i < |cs[c].methods| ==> cs[c].methods[i].tableIdx == PreparedIdx(cs, c, i))
    && cs[c].tableSize == U2(SuperSize(cs, c)) + U2(NewBefore(cs, c, |cs[c].methods|))
  }

  /** Blocks before c are the same and c keeps everything prepareMethod does not assign. */
  ghost predicate SameBut(cs: seq<ClassBlock>, cs': seq<ClassBlock>, c: nat) {
    && |cs| == |cs'| && c < |cs|
    && (forall a :: 0 <= a < |cs| && a != c ==> cs'[a] == cs[a])
    && cs'[c] == cs[c].(methods := cs'[c].methods, tableSize := cs'[c].tableSize)
    && |cs'[c].methods| == |cs[c].methods|
    && forall i :: 0 <= i < |cs[c].methods| ==>
         cs'[c].methods[i] == cs[c].methods[i].(tableIdx := cs'[c].methods[i].tableIdx)
  }

  lemma {:induction false} SameLookup(cs: seq<ClassBlock>, cs': seq<ClassBlock>, s: nat, c: nat, name: string,
                                      typ: string)
    requires Ordered(cs) && Ordered(cs') && c <= |cs| && c <= |cs'| && s < c
    requires forall a :: 0 <= a < c ==> cs[a] == cs'[a]
    ensures FindMethod(cs, s, name, typ) == FindMethod(cs', s, name, typ)
    decreases s
  {
    if cs[s].super.Some? {
      SameLookup(cs, cs', cs[s].super.value, c, name, typ);
    }
  }

  lemma {:induction false} SameNewBefore(cs: seq<ClassBlock>, cs': seq<ClassBlock>, c: nat, n: nat)
    requires SameBut(cs, cs', c) && Ordered(cs) && Ordered(cs') && n <= |cs[c].methods|
    ensures NewBefore(cs, c, n) == NewBefore(cs', c, n)
    ensures forall i :: 0 <= i < n ==> PreparedIdx(cs, c, i) == PreparedIdx(cs', c, i)
  {
    hide U2;
    if n > 0 {
      SameNewBefore(cs, cs', c, n - 1);
      var m := cs[c].methods[n - 1];
      if cs[c].super.Some? {
        SameLookup(cs, cs', cs[c].super.value, c, m.name, m.typ);
      }
    }
  }

  /** The loop body of `prepareMethod`: the index of the i-th method and the new counter. */
  method ChooseIndex(cs: seq<ClassBlock>, c: nat, i: nat, superSize: nat, idx: nat) returns (k: nat, next: nat)
    requires Ordered(cs) && c < |cs| && i < |cs[c].methods| && cs[c].methods[i].tableIdx == 0
    requires superSize == U2(SuperSize(cs, c)) && idx == U2(NewBefore(cs, c, i))
    ensures k == PreparedIdx(cs, c, i) && next == U2(NewBefore(cs, c, i + 1))
  {
    var mb := cs[c].methods[i];
    if mb.isStatic || mb.isPrivate || mb.name == "<init>" || mb.name == "<clinit>" {
      return mb.tableIdx, idx;
    }
    var superMb: Option<MethodPtr> := None;
    if cs[c].super.Some? {
      superMb := FindMethodFrom(cs, cs[c].super.value, mb.name, mb.typ);
    }
    if superMb.Some? {
      return MethodAt(cs, superMb.value).tableIdx, idx;
    }
    return U2(superSize + idx), U2(idx + 1);
  }

  /** `cb->methods[i].methods_table_idx = k` */
  function WithIdx(cs: seq<ClassBlock>, c: nat, i: nat, k: nat): seq<ClassBlock>
    requires c < |cs| && i < |cs[c].methods|
  {
    cs[c := cs[c].(methods := cs[c].methods[i := cs[c].methods[i].(tableIdx := k)])]
  }

  /** `cb->methods_table_size = n` */
  function WithTableSize(cs: seq<ClassBlock>, c: nat, n: nat): seq<ClassBlock>
    requires c < |cs|
  {
    cs[c := cs[c].(tableSize := n)]
  }

  /** The first n methods have been given their index. */
  ghost predicate Preparing(cs: seq<ClassBlock>, now: seq<ClassBlock>, c: nat, n: nat) {
    && Ordered(cs) && Ordered(now) && SameBut(cs, now, c) && n <= |cs[c].methods|
    && (forall i :: 0 <= i < n ==> now[c].methods[i].tableIdx == PreparedIdx(cs, c, i))
    && (forall i :: n <= i < |cs[c].methods| ==> now[c].methods[i].tableIdx == 0)
  }

  lemma {:induction false} PreparingStep(cs: seq<ClassBlock>, now: seq<ClassBlock>, c: nat, n: nat)
    requires Preparing(cs, now, c, n) && n < |cs[c].methods|
    ensures Preparing(cs, WithIdx(now, c, n, PreparedIdx(cs, c, n)), c, n + 1)
  {
    hide PreparedIdx;
  }

  lemma {:induction false} PreparingFacts(cs: seq<ClassBlock>, now: seq<ClassBlock>, c: nat, n: nat)
    requires Preparing(cs, now, c, n)
    ensures Ordered(cs) && Ordered(now) && |now| == |cs| && c < |cs| && |now[c].methods| == |cs[c].methods|
    ensures SuperSize(now, c) == SuperSize(cs, c)
    ensures NewBefore(now, c, n) == NewBefore(cs, c, n)
    ensures n < |cs[c].methods| ==>
              && now[c].methods[n].tableIdx == 0
              && PreparedIdx(now, c, n) == PreparedIdx(cs, c, n)
              && NewBefore(now, c, n + 1) == NewBefore(cs, c, n + 1)
    ensures n == |cs[c].methods| ==>
              var done := WithTableSize(now, c, U2(SuperSize(cs, c)) + U2(NewBefore(cs, c, n)));
              Ordered(done) && SameBut(cs, done, c) && Prepared(done, c)
  {
    SameNewBefore(cs, now, c, if n < |cs[c].methods| then n + 1 else n);
    SameNewBefore(cs, now, c, n);
    if n == |cs[c].methods| {
      SameNewBefore(cs, WithTableSize(now, c, U2(SuperSize(cs, c)) + U2(NewBefore(cs, c, n))), c, n);
    }
  }

  lemma {:induction false} PreparingStarts(cs: seq<ClassBlock>, c: nat)
    requires Ordered(cs) && c < |cs| && forall i :: 0 <= i < |cs[c].methods| ==> cs[c].methods[i].tableIdx == 0
    ensures Preparing(cs, cs, c, 0) && U2(NewBefore(cs, c, 0)) == 0
    ensures cs[c].super == None ==> U2(SuperSize(cs, c)) == 0
    ensures cs[c].super.Some? ==> cs[c].super.value < c && SuperSize(cs, c) == cs[cs[c].super.value].tableSize
  {
  }

  /** The loop of `prepareMethod`; the result is its slot counter. */
  method GiveIndices(area: MethodArea, c: nat, superSize: nat) returns (idx: nat)
    requires Ordered(area.classes) && c < |area.classes| && superSize == U2(SuperSize(area.classes, c))
    requires forall i :: 0 <= i < |area.classes[c].methods| ==> area.classes[c].methods[i].tableIdx == 0
    modifies area`classes
    ensures Preparing(old(area.classes), area.classes, c, |old(area.classes)[c].methods|)
    ensures idx == U2(NewBefore(old(area.classes), c, |old(area.classes)[c].methods|))
  {
    hide Preparing, SameBut, Prepared, Ordered, PreparedIdx, NewBefore, WithIdx, WithTableSize, U2;
    ghost var cs := area.classes;
    PreparingStarts(cs, c);
    idx := 0;
    var i := 0;
    while i < |area.classes[c].methods|
      invariant Preparing(cs, area.classes, c, i)
      invariant c < |area.classes| && i <= |area.classes[c].methods| == |cs[c].methods|
      invariant idx == U2(NewBefore(cs, c, i))
      decreases |cs[c].methods| - i
    {
      PreparingFacts(cs, area.classes, c, i);
      PreparingStep(cs, area.classes, c, i);
      var k;
      k, idx := ChooseIndex(area.classes, c, i, superSize, idx);
      area.classes := WithIdx(area.classes, c, i, k);
      i := i + 1;
      PreparingFacts(cs, area.classes, c, i);
    }
  }

  /** `prepareMethod`: every virtual method gets the index of the method it overrides or the
      next free one; the counters are 16 bits wide. */
  method PrepareMethod(area: MethodArea, c: nat)
    requires Ordered(area.classes) && c < |area.classes|
    requires forall i :: 0 <= i < |area.classes[c].methods| ==> area.classes[c].methods[i].tableIdx == 0
    modifies area`classes
    ensures Ordered(area.classes) && SameBut(old(area.classes), area.classes, c)
    ensures Prepared(area.classes, c)
  {
    hide Preparing, SameBut, Prepared, Ordered, PreparedIdx, NewBefore, WithTableSize, U2;
    ghost var cs := area.classes;
    PreparingStarts(cs, c);
    var superSize := 0;
    if area.classes[c].super.Some? {
      superSize := U2(area.classes[area.classes[c].super.value].tableSize);
    }
    var idx := GiveIndices(area, c, superSize);
    PreparingFacts(cs, area.classes, c, |cs[c].methods|);
    area.classes := WithTableSize(area.classes, c, superSize + idx);
  }

  // ----- linkMethod -----

  /** The superclass's entry k, if its table has one. */
  function Inherited(cs: seq<ClassBlock>, c: nat, k: nat): Option<MethodPtr>
    requires Ordered(cs) && c < |cs|
  {
    if cs[c].super == None then None
    else
      var s := cs[cs[c].super.value];
      if k < s.tableSize && k < |s.table| then s.table[k] else None
  }

  /** The block `linkMethod` allocates: the superclass table copied in, the rest empty. */
  function BaseTable(cs: seq<ClassBlock>, c: nat): (t: seq<Option<MethodPtr>>)
    requires Ordered(cs) && c < |cs|
    ensures |t| == cs[c].tableSize && forall k :: 0 <= k < |t| ==> t[k] == Inherited(cs, c, k)
  {
    seq(cs[c].tableSize, k requires k >= 0 => Inherited(cs, c, k))
  }

  /** The table after the first n methods have been entered at their indices. */
  function TableAfter(cs: seq<ClassBlock>, c: nat, n: nat): (t: seq<Option<MethodPtr>>)
    requires Ordered(cs) && c < |cs| && n <= |cs[c].methods|
    ensures |t| == cs[c].tableSize
  {
    if n == 0 then BaseTable(cs, c)
    else
      var t, m := TableAfter(cs, c, n - 1), cs[c].methods[n - 1];
      if Virtual(m) && m.tableIdx < |t| then t[m.tableIdx := Some(MethodPtr(c, n - 1))] else t
  }

  ghost predicate Linked(cs: seq<ClassBlock>, c: nat)
    requires Ordered(cs) && c < |cs|
  {
    cs[c].table == TableAfter(cs, c, |cs[c].methods|)
  }

  /** Every table write of `linkMethod` lands in the block allocated for the table. */
  ghost predicate WritesInside(b: ClassBlock) {
    forall i :: 0 <= i < |b.methods| && Virtual(b.methods[i]) ==> b.methods[i].tableIdx < b.tableSize
  }

  /** `linkMethod`: copy the superclass table and enter the class's own virtual methods. The
      result is false when an index lies outside the block allocated for the table. */
  method LinkMethod(area: MethodArea, c: nat) returns (inBounds: bool)
    requires Ordered(area.classes) && c < |area.classes|
    modifies area`classes
    ensures var cs := old(area.classes);
            area.classes == cs[c := cs[c].(table := TableAfter(cs, c, |cs[c].methods|))]
    ensures Ordered(area.classes) && Linked(area.classes, c)
    ensures inBounds <==> WritesInside(area.classes[c])
  {
    var cs := area.classes;
    var table := BaseTable(cs, c);
    inBounds := true;
    for i := 0 to |cs[c].methods|
      invariant table == TableAfter(cs, c, i)
      invariant inBounds <==> forall j :: 0 <= j < i && Virtual(cs[c].methods[j]) ==>
                cs[c].methods[j].tableIdx < |table|
    {
      var mb := cs[c].methods[i];
      if mb.name == "<clinit>" || mb.name == "<init>" || mb.isStatic || mb.isPrivate {
        continue;
      }
      var idx := mb.tableIdx;
      if idx < |table| {
        table := table[idx := Some(MethodPtr(c, i))];
      } else {
        inBounds := false;
      }
    }
    area.classes := cs[c := cs[c].(table := table)];
    SameTable(cs, area.classes, c, |cs[c].methods|);
  }

  lemma {:induction false} SameTable(cs: seq<ClassBlock>, cs': seq<ClassBlock>, c: nat, n: nat)
    requires Ordered(cs) && Ordered(cs') && c < |cs| && c < |cs'| && n <= |cs[c].methods|
    requires forall a :: 0 <= a < c ==> cs[a] == cs'[a]
    requires cs'[c].methods == cs[c].methods && cs'[c].tableSize == cs[c].tableSize && cs'[c].super == cs[c].super
    ensures TableAfter(cs, c, n) == TableAfter(cs', c, n)
  {
    if n > 0 {
      SameTable(cs, cs', c, n - 1);
    } else {
      assert forall k :: k >= 0 ==> Inherited(cs, c, k) == Inherited(cs', c, k);
      assert BaseTable(cs, c) == BaseTable(cs', c);
    }
  }

  // ----- what prepared and linked depend on -----

  /** cs and cs' agree on the blocks before c and on what dispatch uses of c. */
  ghost predicate AgreeOnMethods(cs: seq<ClassBlock>, cs': seq<ClassBlock>, c: nat) {
    && c < |cs| && c < |cs'|
    && (forall a :: 0 <= a < c ==> cs[a] == cs'[a])
    && cs'[c].methods == cs[c].methods && cs'[c].tableSize == cs[c].tableSize && cs'[c].super == cs[c].super
  }

  lemma {:induction false} AgreeNewBefore(cs: seq<ClassBlock>, cs': seq<ClassBlock>, c: nat, n: nat)
    requires Ordered(cs) && Ordered(cs') && AgreeOnMethods(cs, cs', c) && n <= |cs[c].methods|
    ensures NewBefore(cs, c, n) == NewBefore(cs', c, n)
    ensures forall i :: 0 <= i < n ==> PreparedIdx(cs, c, i) == PreparedIdx(cs', c, i)
  {
    hide U2;
    if n > 0 {
      AgreeNewBefore(cs, cs', c, n - 1);
      var m := cs[c].methods[n - 1];
      if cs[c].super.Some? {
        SameLookup(cs, cs', cs[c].super.value, c, m.name, m.typ);
      }
    }
  }

  lemma {:induction false} AgreePrepared(cs: seq<ClassBlock>, cs': seq<ClassBlock>, c: nat)
    requires Ordered(cs) && Ordered(cs') && AgreeOnMethods(cs, cs', c) && Prepared(cs, c)
    ensures Prepared(cs', c)
    ensures Linked(cs, c) && cs[c].table == cs'[c].table ==> Linked(cs', c)
  {
    hide PreparedIdx, U2, TableAfter, NewBefore;
    AgreeNewBefore(cs, cs', c, |cs[c].methods|);
    SameTable(cs, cs', c, |cs[c].methods|);
  }
}
