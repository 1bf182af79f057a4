/**
 Class, method and field blocks of `src/main/turkey.h` and the lookups of
 `src/classloader/resolve.c`. The method area is a sequence of class blocks; the address of a
 block is its index, and the address of a method is the pair of its class and its slot.
*/
module Classes {
  import opened Options

  datatype MethodPtr = MethodPtr(cls: nat, slot: nat)
  datatype FieldPtr = FieldPtr(cls: nat, slot: nat)

  datatype MethodBlock = MethodBlock(
    name: string,
    typ: string,
    isStatic: bool,
    isPrivate: bool,
    tableIdx: nat)       // methods_table_idx, a u2; 0 until prepared

  datatype FieldBlock = FieldBlock(
    name: string,
    typ: string,
    isStatic: bool,
    offset: nat)         // 0 until prepared

  datatype ClassBlock = ClassBlock(
    name: string,
    super: Option<nat>,
    interfaces: seq<nat>,
    isInterface: bool,
    typeFlags: nat,
    element: Option<nat>,
    dim: nat,
    methods: seq<MethodBlock>,
    fields: seq<FieldBlock>,
    tableSize: nat,
    table: seq<Option<MethodPtr>>,
    objSize: nat,
    flags: nat)

  const PREPARED: nat := 20
  const LINKED: nat := 21
  const ARRAY: nat := 23
  const PRIM: nat := 24

  /** The heap region the class loader fills: the blocks, and the table from names to them. */
  class MethodArea {
    var classes: seq<ClassBlock>
    var cmap: map<string, nat>
    var prims: map<char, nat>        // PRIM_CLASS

    constructor ()
      ensures classes == [] && cmap == map[] && prims == map[]
    {
      classes, cmap, prims := [], map[], map[];
    }
  }

  /** Blocks refer only to blocks allocated before them. */
  predicate Ordered(cs: seq<ClassBlock>) {
    forall c :: 0 <= c < |cs| ==>
      && (cs[c].super.Some? ==> cs[c].super.value < c)
      && (forall i :: i in cs[c].interfaces ==> i < c)
      && (cs[c].element.Some? ==> cs[c].element.value < c)
  }

  function MethodAt(cs: seq<ClassBlock>, p: MethodPtr): MethodBlock
    requires p.cls < |cs| && p.slot < |cs[p.cls].methods|
  {
    cs[p.cls].methods[p.slot]
  }

  predicate IsMethod(cs: seq<ClassBlock>, p: MethodPtr) {
    p.cls < |cs| && p.slot < |cs[p.cls].methods|
  }

  predicate Signed(m: MethodBlock, name: string, typ: string) {
    m.name == name && m.typ == typ
  }

  /** The first method of a class with the given signature. */
  function FindInCurrent(ms: seq<MethodBlock>, name: string, typ: string): (r: Option<nat>)
    ensures r.Some? ==>
              && r.value < |ms| && Signed(ms[r.value], name, typ)
              && forall i :: 0 <= i < r.value ==> !Signed(ms[i], name, typ)
    ensures r == None ==> forall i :: 0 <= i < |ms| ==> !Signed(ms[i], name, typ)
  {
    if ms == [] then None
    else if Signed(ms[0], name, typ) then Some(0)
    else
      var r := FindInCurrent(ms[1..], name, typ);
      assert forall i :: 1 <= i < |ms| ==> ms[i] == ms[1..][i - 1];
      if r.Some? then Some(r.value + 1) else None
  }

  /** Lookup by name along the superclass chain. */
  function FindMethod(cs: seq<ClassBlock>, c: nat, name: string, typ: string): (r: Option<MethodPtr>)
    requires Ordered(cs) && c < |cs|
    ensures r.Some? ==> IsMethod(cs, r.value) && r.value.cls <= c && Signed(MethodAt(cs, r.value), name, typ)
    decreases c
  {
    var here := FindInCurrent(cs[c].methods, name, typ);
    if here.Some? then Some(MethodPtr(c, here.value))
    else if cs[c].super == None then None
    else FindMethod(cs, cs[c].super.value, name, typ)
  }

  /** `findMethodinCurrent` */
  method FindMethodInCurrent(ms: seq<MethodBlock>, name: string, typ: string) returns (r: Option<nat>)
    ensures r == FindInCurrent(ms, name, typ)
  {
    for i := 0 to |ms|
      invariant forall j :: 0 <= j < i ==> !Signed(ms[j], name, typ)
    {
      if ms[i].name == name && ms[i].typ == typ {
        return Some(i);
      }
    }
    return None;
  }

  /** `findMethod` */
  method FindMethodFrom(cs: seq<ClassBlock>, c: nat, name: string, typ: string) returns (r: Option<MethodPtr>)
    requires Ordered(cs) && c < |cs|
    ensures r == FindMethod(cs, c, name, typ)
    decreases c
  {
    var here := FindMethodInCurrent(cs[c].methods, name, typ);
    if here.Some? {
      return Some(MethodPtr(c, here.value));
    }
    if cs[c].super == None {
      return None;
    }
    r := FindMethodFrom(cs, cs[c].super.value, name, typ);
  }

  /** a is c or one of its superclasses. */
  predicate Ancestor(cs: seq<ClassBlock>, c: nat, a: nat)
    requires Ordered(cs) && c < |cs|
    ensures Ancestor(cs, c, a) ==> a <= c
    decreases c
  {
    a == c || (cs[c].super.Some? && Ancestor(cs, cs[c].super.value, a))
  }

  lemma {:induction false} AncestorTransitive(cs: seq<ClassBlock>, c: nat, a: nat, b: nat)
    requires Ordered(cs) && c < |cs| && Ancestor(cs, c, a) && Ancestor(cs, a, b)
    ensures Ancestor(cs, c, b)
    decreases c
  {
    if a != c {
      AncestorTransitive(cs, cs[c].super.value, a, b);
    }
  }

  lemma {:induction false} FoundInAncestor(cs: seq<ClassBlock>, c: nat, name: string, typ: string)
    requires Ordered(cs) && c < |cs|
    ensures var r := FindMethod(cs, c, name, typ); r.Some? ==> Ancestor(cs, c, r.value.cls)
    decreases c
  {
    if FindInCurrent(cs[c].methods, name, typ) == None && cs[c].super.Some? {
      FoundInAncestor(cs, cs[c].super.value, name, typ);
    }
  }

  /** A method declared anywhere on the chain makes its signature found. */
  lemma {:induction false} DeclaredIsFound(cs: seq<ClassBlock>, c: nat, p: MethodPtr)
    requires Ordered(cs) && c < |cs| && IsMethod(cs, p) && Ancestor(cs, c, p.cls)
    ensures FindMethod(cs, c, MethodAt(cs, p).name, MethodAt(cs, p).typ).Some?
    decreases c
  {
    if p.cls != c {
      DeclaredIsFound(cs, cs[c].super.value, p);
    }
  }

  /** Class a declares a method of this name and type. */
  ghost predicate DeclaresMethod(cs: seq<ClassBlock>, a: nat, name: string, typ: string)
    requires a < |cs|
  {
    exists i :: 0 <= i < |cs[a].methods| && cs[a].methods[i].name == name && cs[a].methods[i].typ == typ
  }

  /** What is found is the first declaration in its class and hides all those further up: no class
      below it on the chain declares one. Nothing is found exactly when no class does. */
  lemma {:induction false} FoundIsNearest(cs: seq<ClassBlock>, c: nat, name: string, typ: string)
    requires Ordered(cs) && c < |cs|
    ensures var r := FindMethod(cs, c, name, typ);
            r.Some? ==>
              && Ancestor(cs, c, r.value.cls)
              && cs[r.value.cls].methods[r.value.slot].name == name && cs[r.value.cls].methods[r.value.slot].typ == typ
              && (forall i :: 0 <= i < r.value.slot ==>
                    cs[r.value.cls].methods[i].name != name || cs[r.value.cls].methods[i].typ != typ)
              && (forall a: nat :: Ancestor(cs, c, a) && r.value.cls < a ==> !DeclaresMethod(cs, a, name, typ))
    ensures FindMethod(cs, c, name, typ) == None <==>
              forall a: nat :: Ancestor(cs, c, a) ==> !DeclaresMethod(cs, a, name, typ)
    decreases c
  {
    var here := FindInCurrent(cs[c].methods, name, typ);
    if here.Some? {
      assert Ancestor(cs, c, c) && DeclaresMethod(cs, c, name, typ);
    } else if cs[c].super.Some? {
      FoundIsNearest(cs, cs[c].super.value, name, typ);
      forall a: nat | Ancestor(cs, cs[c].super.value, a)
        ensures Ancestor(cs, c, a)
      {
      }
    }
  }
}
