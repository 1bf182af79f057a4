/**
 Type tests of `src/native/cast.c` over the class graph: `implements`, `isSubClassOf`,
 `isInstOfArray` and `isInstanceOf` against reachability over super and interface edges.
*/
module Subtyping {
  import opened Options
  import opened Classes

  /** A block made by `loadArrayClass`, with or without the array flag. */
  predicate IsArray(cb: ClassBlock) {
    cb.element.Some?
  }

  predicate IsPrimitive(cb: ClassBlock) {
    cb.typeFlags == PRIM
  }

  /** The macro `IS_ARRAY`, which also holds of primitive types. */
  predicate ArrayFlag(cb: ClassBlock) {
    cb.typeFlags >= ARRAY
  }

  /** The classes every hierarchy contains. */
  datatype Roots = Roots(root: nat, cloneable: nat, serializable: nat)

  ghost predicate PlainClass(cs: seq<ClassBlock>, r: Roots, c: nat)
    requires c < |cs|
  {
    && cs[c].typeFlags < ARRAY && cs[c].element == None && cs[c].dim == 0
    && (c == r.root <==> cs[c].super == None)
    && (cs[c].isInterface ==> cs[c].super == Some(r.root))
  }

  ghost predicate PrimitiveClass(cs: seq<ClassBlock>, c: nat)
    requires c < |cs|
  {
    IsPrimitive(cs[c]) && cs[c].element == None && cs[c].super == None && cs[c].interfaces == [] && !cs[c].isInterface
  }

  /** The array flag may be unset: only `findArrayClass` sets it. No other flag is set. */
  ghost predicate ArrayClass(cs: seq<ClassBlock>, r: Roots, c: nat)
    requires Ordered(cs) && c < |cs|
  {
    && IsArray(cs[c]) && cs[c].typeFlags <= ARRAY && !cs[c].isInterface && cs[c].super == Some(r.root)
    && cs[c].interfaces == [r.cloneable, r.serializable]
    && cs[c].dim == 1 + Dims(cs, cs[c].element.value)
  }

  /** The number of array dimensions, the leading brackets of the class name. */
  ghost function Dims(cs: seq<ClassBlock>, c: nat): nat
    requires Ordered(cs) && c < |cs|
  {
    if IsArray(cs[c]) then cs[c].dim else 0
  }

  /** Interfaces have Object as superclass; superclasses are classes and superinterfaces are
      interfaces; an array class is determined by its element. */
  ghost predicate Hierarchy(cs: seq<ClassBlock>, r: Roots) {
    && Ordered(cs)
    && r.root < |cs| && PlainClass(cs, r, r.root) && !cs[r.root].isInterface && cs[r.root].interfaces == []
    && (forall c :: 0 <= c < |cs| ==> PlainClass(cs, r, c) || PrimitiveClass(cs, c) || ArrayClass(cs, r, c))
    && (forall c :: 0 <= c < |cs| && cs[c].super.Some? ==>
          PlainClass(cs, r, cs[c].super.value) && !cs[cs[c].super.value].isInterface)
    && (forall c, i :: 0 <= c < |cs| && i in cs[c].interfaces ==> PlainClass(cs, r, i) && cs[i].isInterface)
    && (forall c, d :: 0 <= c < |cs| && 0 <= d < |cs| && IsArray(cs[c]) && cs[c].element == cs[d].element ==> c == d)
  }

  /** Every array class on the way from c down to its last element is marked ARRAY. */
  ghost predicate AllFlagged(cs: seq<ClassBlock>, c: nat)
    requires Ordered(cs) && c < |cs|
    decreases c
  {
    IsArray(cs[c]) ==> cs[c].typeFlags == ARRAY && AllFlagged(cs, cs[c].element.value)
  }

  lemma {:induction false} KindOf(cs: seq<ClassBlock>, r: Roots, c: nat)
    requires Hierarchy(cs, r) && c < |cs|
    ensures cs[c].isInterface ==> !ArrayFlag(cs[c]) && !IsArray(cs[c])
    ensures IsArray(cs[c]) ==> ArrayClass(cs, r, c)
    ensures !IsArray(cs[c]) && ArrayFlag(cs[c]) ==> PrimitiveClass(cs, c)
    ensures cs[c].interfaces != [] ==> cs[c].super.Some?
  {
    assert PlainClass(cs, r, c) || PrimitiveClass(cs, c) || ArrayClass(cs, r, c);
  }

  // ----- reachability -----

  predicate Edge(cs: seq<ClassBlock>, a: nat, b: nat)
    requires a < |cs|
  {
    cs[a].super == Some(b) || b in cs[a].interfaces
  }

  /** b is a or lies above a over super and interface edges. */
  ghost predicate Reach(cs: seq<ClassBlock>, a: nat, b: nat)
    requires Ordered(cs) && a < |cs|
    decreases a
  {
    a == b || exists e: nat :: e < a && Edge(cs, a, e) && Reach(cs, e, b)
  }

  lemma {:induction false} EdgeReach(cs: seq<ClassBlock>, a: nat, e: nat, b: nat)
    requires Ordered(cs) && a < |cs| && Edge(cs, a, e) && Reach(cs, e, b)
    ensures Reach(cs, a, b)
  {
  }

  lemma {:induction false} ReachBelow(cs: seq<ClassBlock>, a: nat, b: nat)
    requires Ordered(cs) && a < |cs| && Reach(cs, a, b)
    ensures b <= a
    decreases a
  {
    if a != b {
      var e: nat :| e < a && Edge(cs, a, e) && Reach(cs, e, b);
      ReachBelow(cs, e, b);
    }
  }

  lemma {:induction false} ReachTransitive(cs: seq<ClassBlock>, a: nat, b: nat, c: nat)
    requires Ordered(cs) && a < |cs| && Reach(cs, a, b) && b < |cs| && Reach(cs, b, c)
    ensures Reach(cs, a, c)
    decreases a
  {
    if a != b {
      var e: nat :| e < a && Edge(cs, a, e) && Reach(cs, e, b);
      ReachTransitive(cs, e, b, c);
      EdgeReach(cs, a, e, c);
    }
  }

  /** Every class with a superclass has Object as an ancestor. */
  lemma {:induction false} ObjectAbove(cs: seq<ClassBlock>, r: Roots, c: nat)
    requires Hierarchy(cs, r) && c < |cs| && (cs[c].super.Some? || c == r.root)
    ensures Ancestor(cs, c, r.root)
    decreases c
  {
    if c != r.root {
      ObjectAbove(cs, r, cs[c].super.value);
    }
  }

  lemma {:induction false} AncestorReach(cs: seq<ClassBlock>, a: nat, b: nat)
    requires Ordered(cs) && a < |cs| && Ancestor(cs, a, b)
    ensures Reach(cs, a, b)
    decreases a
  {
    if a != b {
      AncestorReach(cs, cs[a].super.value, b);
      EdgeReach(cs, a, cs[a].super.value, b);
    }
  }

  /** A class that is not an interface is reached only over its subclasses' super edges. */
  lemma {:induction false} ReachAncestor(cs: seq<ClassBlock>, r: Roots, a: nat, b: nat)
    requires Hierarchy(cs, r) && a < |cs| && b < |cs| && !cs[b].isInterface && Reach(cs, a, b)
    ensures Ancestor(cs, a, b)
    decreases a
  {
    if a != b {
      var e: nat :| e < a && Edge(cs, a, e) && Reach(cs, e, b);
      ReachAncestor(cs, r, e, b);
      if cs[a].super != Some(e) {
        assert cs[e].super == Some(r.root) && b == r.root;
        assert e in cs[a].interfaces;
        KindOf(cs, r, a);
        ObjectAbove(cs, r, a);
      }
    }
  }

  // ----- the subtype relation the tests must decide -----

  /** Arrays of equal dimension compare by their elements; everything else by reachability. */
  ghost predicate Subtype(cs: seq<ClassBlock>, x: nat, t: nat)
    requires Ordered(cs) && x < |cs| && t < |cs|
    decreases t
  {
    if IsArray(cs[t]) then
      x == t ||
      (&& IsArray(cs[x]) && cs[x].dim == cs[t].dim
       && Subtype(cs, cs[x].element.value, cs[t].element.value))
    else Reach(cs, x, t)
  }

  // ----- cast.c -----

  /** Some path of at least one edge leads from test up to cls. */
  ghost predicate ReachAbove(cs: seq<ClassBlock>, test: nat, cls: nat)
    requires Ordered(cs) && test < |cs|
  {
    exists e: nat :: e < test && Edge(cs, test, e) && Reach(cs, e, cls)
  }

  /** The superclass of test is not the interface itself. */
  lemma {:induction false} SuperAbove(cs: seq<ClassBlock>, r: Roots, cls: nat, test: nat)
    requires Hierarchy(cs, r) && cls < |cs| && test < |cs| && cs[cls].isInterface
    ensures Ordered(cs)
    ensures forall i :: i in cs[test].interfaces ==>
              i < test && (Reach(cs, i, cls) <==> i == cls || ReachAbove(cs, i, cls))
    ensures cs[test].super.Some? ==>
              && cs[test].super.value < test
              && (Reach(cs, cs[test].super.value, cls) <==> ReachAbove(cs, cs[test].super.value, cls))
    ensures ReachAbove(cs, test, cls) <==>
              || (exists i :: i in cs[test].interfaces && Reach(cs, i, cls))
              || (cs[test].super.Some? && Reach(cs, cs[test].super.value, cls))
  {
    hide Reach;
    forall a: nat | a < |cs|
      ensures Reach(cs, a, cls) <==> a == cls || ReachAbove(cs, a, cls)
    {
      ReachUnfolds(cs, a, cls);
    }
    if cs[test].super.Some? && Reach(cs, cs[test].super.value, cls) {
      assert Edge(cs, test, cs[test].super.value);
    }
    forall i | i in cs[test].interfaces && Reach(cs, i, cls)
      ensures ReachAbove(cs, test, cls)
    {
      assert Edge(cs, test, i);
    }
  }

  lemma {:induction false} ReachUnfolds(cs: seq<ClassBlock>, a: nat, b: nat)
    requires Ordered(cs) && a < |cs|
    ensures Reach(cs, a, b) <==> a == b || ReachAbove(cs, a, b)
  {
  }

  /** `implements`, asked for an interface. */
  method Implements(cs: seq<ClassBlock>, cls: nat, test: nat, ghost r: Roots) returns (b: bool)
    requires Hierarchy(cs, r) && cls < |cs| && test < |cs| && cs[cls].isInterface
    ensures b <==> ReachAbove(cs, test, cls)
    decreases test
  {
    SuperAbove(cs, r, cls, test);
    hide Hierarchy, Ordered, Reach, ReachAbove, Edge;
    var itfs := cs[test].interfaces;
    assert forall j :: 0 <= j < |itfs| ==> itfs[j] in itfs;
    for i := 0 to |itfs|
      invariant forall j :: 0 <= j < i ==> !Reach(cs, itfs[j], cls)
    {
      var itf := itfs[i];
      if cls == itf {
        return true;
      }
      b := Implements(cs, cls, itf, r);
      if b {
        return true;
      }
    }
    if cs[test].super.Some? {
      b := Implements(cs, cls, cs[test].super.value, r);
      return;
    }
    return false;
  }

  /** `isSubClassOf`: a walk up the superclass chain. */
  method IsSubClassOf(cs: seq<ClassBlock>, cls: nat, test: nat) returns (b: bool)
    requires Ordered(cs) && cls < |cs| && test < |cs|
    ensures b <==> Ancestor(cs, test, cls)
  {
    var t: Option<nat> := Some(test);
    while t != None && t != Some(cls)
      invariant t.Some? ==> t.value < |cs|
      invariant Ancestor(cs, test, cls) <==> t.Some? && Ancestor(cs, t.value, cls)
      decreases if t.Some? then t.value + 1 else 0
    {
      t := cs[t.value].super;
    }
    return t != None;
  }

  /** What the type test answers: the subtype relation, except that between different classes an
      array without the flag, at any level of the target, is not recognised. */
  ghost predicate Recognised(cs: seq<ClassBlock>, test: nat, cls: nat)
    requires Ordered(cs) && test < |cs| && cls < |cs|
  {
    Subtype(cs, test, cls) && (test == cls || AllFlagged(cs, cls))
  }

  /** `isInstOfArray` */
  method IsInstOfArray(cs: seq<ClassBlock>, cls: nat, test: nat, ghost r: Roots) returns (b: bool)
    requires Hierarchy(cs, r) && cls < |cs| && test < |cs| && ArrayFlag(cs[cls])
    ensures b <==> Recognised(cs, test, cls)
    decreases cls, 0
  {
    FlaggedCases(cs, r, cls, test);
    hide Recognised, Reach, Hierarchy;
    var sub := IsSubClassOf(cs, cls, test);
    if sub {
      return true;
    }
    if ArrayFlag(cs[cls]) && cs[test].element != None && cs[cls].element != None && cs[cls].dim == cs[test].dim {
      b := IsInstanceOf(cs, cs[cls].element.value, cs[test].element.value, r);
    } else {
      return false;
    }
  }

  /** `isInstanceOf(class, test)`: the subtype relation for a target that is no array, or is marked
      as one at every level; identity for an array that is not marked. */
  method IsInstanceOf(cs: seq<ClassBlock>, cls: nat, test: nat, ghost r: Roots) returns (b: bool)
    requires Hierarchy(cs, r) && cls < |cs| && test < |cs|
    ensures b <==> Recognised(cs, test, cls)
    ensures cs[cls].element == None || AllFlagged(cs, cls) ==> (b <==> Subtype(cs, test, cls))
    ensures cs[cls].element.Some? && cs[cls].typeFlags != ARRAY ==> (b <==> test == cls)
    decreases cls, 1
  {
    InstanceCases(cs, r, cls, test);
    RecognisedWhen(cs, cls, test);
    hide Hierarchy, Reach, ReachAbove, Recognised;
    if cls == test {
      return true;
    }
    if cs[cls].isInterface {
      b := Implements(cs, cls, test, r);
    } else if ArrayFlag(cs[cls]) {
      b := IsInstOfArray(cs, cls, test, r);
    } else {
      b := IsSubClassOf(cs, cls, test);
    }
  }

  lemma {:induction false} RecognisedWhen(cs: seq<ClassBlock>, cls: nat, test: nat)
    requires Ordered(cs) && test < |cs| && cls < |cs|
    ensures cs[cls].element == None || AllFlagged(cs, cls) ==>
              (Recognised(cs, test, cls) <==> Subtype(cs, test, cls))
    ensures cs[cls].element.Some? && cs[cls].typeFlags != ARRAY ==> (Recognised(cs, test, cls) <==> test == cls)
  {
    if test == cls {
      SubtypeReflexive(cs, cls);
    }
  }

  /** What the answer comes to in each branch of `isInstanceOf`. */
  lemma {:induction false} InstanceCases(cs: seq<ClassBlock>, r: Roots, cls: nat, test: nat)
    requires Hierarchy(cs, r) && cls < |cs| && test < |cs|
    ensures cls == test ==> Recognised(cs, test, cls)
    ensures cls != test && cs[cls].isInterface ==>
              (Recognised(cs, test, cls) <==> ReachAbove(cs, test, cls))
    ensures cls != test && !cs[cls].isInterface && !ArrayFlag(cs[cls]) ==>
              (Recognised(cs, test, cls) <==> Ancestor(cs, test, cls))
  {
    KindOf(cs, r, cls);
    if Ancestor(cs, test, cls) {
      AncestorReach(cs, test, cls);
      if IsArray(cs[cls]) { TopOnly(cs, r, cls, test); }
    }
    if !cs[cls].isInterface && Reach(cs, test, cls) { ReachAncestor(cs, r, test, cls); }
  }

  /** What the answer comes to in each branch of `isInstOfArray`. */
  lemma {:induction false} FlaggedCases(cs: seq<ClassBlock>, r: Roots, cls: nat, test: nat)
    requires Hierarchy(cs, r) && cls < |cs| && test < |cs| && ArrayFlag(cs[cls])
    ensures Ancestor(cs, test, cls) <==> test == cls
    ensures Recognised(cs, cls, cls)
    ensures test != cls && IsArray(cs[test]) && IsArray(cs[cls]) && cs[cls].dim == cs[test].dim ==>
              (Recognised(cs, test, cls) <==> Recognised(cs, cs[test].element.value, cs[cls].element.value))
    ensures test != cls && !(IsArray(cs[test]) && IsArray(cs[cls]) && cs[cls].dim == cs[test].dim) ==>
              !Recognised(cs, test, cls)
  {
    KindOf(cs, r, cls);
    if Ancestor(cs, test, cls) { TopOnly(cs, r, cls, test); }
    if !IsArray(cs[cls]) && Reach(cs, test, cls) { ReachAncestor(cs, r, test, cls); }
  }

  /** An array class or a primitive class is nobody's superclass. */
  lemma {:induction false} TopOnly(cs: seq<ClassBlock>, r: Roots, cls: nat, test: nat)
    requires Hierarchy(cs, r) && cls < |cs| && test < |cs| && Ancestor(cs, test, cls)
    requires ArrayFlag(cs[cls]) || IsArray(cs[cls])
    ensures test == cls
    decreases test
  {
    if test != cls {
      TopOnly(cs, r, cls, cs[test].super.value);
    }
  }

  // ----- the relation is a partial order -----

  lemma {:induction false} SubtypeReflexive(cs: seq<ClassBlock>, x: nat)
    requires Ordered(cs) && x < |cs|
    ensures Subtype(cs, x, x)
  {
  }

  /** Arrays have the same supertypes outside the arrays. */
  lemma {:induction false} ArraysReachAlike(cs: seq<ClassBlock>, r: Roots, x: nat, y: nat, t: nat)
    requires Hierarchy(cs, r) && x < |cs| && y < |cs| && t < |cs|
    requires IsArray(cs[x]) && IsArray(cs[y]) && !IsArray(cs[t]) && Reach(cs, y, t)
    ensures Reach(cs, x, t)
  {
    KindOf(cs, r, x);
    KindOf(cs, r, y);
    var e: nat :| e < y && Edge(cs, y, e) && Reach(cs, e, t);
    assert Edge(cs, x, e);
    EdgeReach(cs, x, e, t);
  }

  lemma {:induction false} SubtypeTransitive(cs: seq<ClassBlock>, r: Roots, x: nat, y: nat, z: nat)
    requires Hierarchy(cs, r) && x < |cs| && y < |cs| && z < |cs|
    requires Subtype(cs, x, y) && Subtype(cs, y, z)
    ensures Subtype(cs, x, z)
    decreases z
  {
    if x == y || y == z {
    } else if IsArray(cs[z]) {
      SubtypeTransitive(cs, r, cs[x].element.value, cs[y].element.value, cs[z].element.value);
    } else if IsArray(cs[y]) {
      ArraysReachAlike(cs, r, x, y, z);
    } else {
      ReachTransitive(cs, x, y, z);
    }
  }

  lemma {:induction false} SubtypeAntisymmetric(cs: seq<ClassBlock>, r: Roots, x: nat, y: nat)
    requires Hierarchy(cs, r) && x < |cs| && y < |cs|
    requires Subtype(cs, x, y) && Subtype(cs, y, x)
    ensures x == y
    decreases y
  {
    if x == y {
    } else if IsArray(cs[y]) {
      SubtypeAntisymmetric(cs, r, cs[x].element.value, cs[y].element.value);
    } else {
      ReachBelow(cs, x, y);
      if !IsArray(cs[x]) {
        ReachBelow(cs, y, x);
      }
    }
  }

  // ----- arrays -----

  /** Arrays of the same dimension are subtypes exactly when their elements are, and of different
      dimensions never; every array is an Object, a Cloneable and a Serializable, and nothing else
      outside the arrays but what these extend. */
  lemma {:induction false} ArrayRules(cs: seq<ClassBlock>, r: Roots, x: nat, t: nat)
    requires Hierarchy(cs, r) && x < |cs| && t < |cs| && cs[x].element.Some?
    ensures r.cloneable < |cs| && Subtype(cs, x, r.cloneable) && r.serializable < |cs| && Subtype(cs, x, r.serializable)
    ensures cs[t].element.Some? && cs[x].dim == cs[t].dim ==>
              (Subtype(cs, x, t) <==> Subtype(cs, cs[x].element.value, cs[t].element.value))
    ensures cs[t].element.Some? && cs[x].dim != cs[t].dim ==> !Subtype(cs, x, t)
    ensures cs[t].element == None ==>
              (Subtype(cs, x, t) <==> t == r.root || Reach(cs, r.cloneable, t) || Reach(cs, r.serializable, t))
  {
    KindOf(cs, r, x);
    assert r.cloneable in cs[x].interfaces && r.serializable in cs[x].interfaces;
    if cs[t].element.Some? {
      if x == t { SubtypeReflexive(cs, cs[x].element.value); }
    }
    EdgesOfArray(cs, r, x, t);
    EdgesOfArray(cs, r, x, r.cloneable);
    EdgesOfArray(cs, r, x, r.serializable);
  }

  lemma {:induction false} EdgesOfArray(cs: seq<ClassBlock>, r: Roots, x: nat, t: nat)
    requires Hierarchy(cs, r) && x < |cs| && t < |cs| && cs[x].element.Some?
    requires r.cloneable < |cs| && r.serializable < |cs|
    ensures cs[t].element == None ==>
              (Reach(cs, x, t) <==> t == r.root || Reach(cs, r.cloneable, t) || Reach(cs, r.serializable, t))
  {
    KindOf(cs, r, x);
    ReachUnfolds(cs, x, t);
    assert r.cloneable in cs[x].interfaces && r.serializable in cs[x].interfaces;
    assert Edge(cs, x, r.root) && Edge(cs, x, r.cloneable) && Edge(cs, x, r.serializable);
    if cs[t].element == None && Reach(cs, x, t) {
      var e: nat :| e < x && Edge(cs, x, e) && Reach(cs, e, t);
      if e == r.root {
        RootReaches(cs, r, t);
      }
    }
  }

  lemma {:induction false} RootReaches(cs: seq<ClassBlock>, r: Roots, t: nat)
    requires Hierarchy(cs, r) && Reach(cs, r.root, t)
    ensures t == r.root
  {
  }

  // ----- arrays without the flag -----

  /** Every array of class or interface type is a subtype of Object[]; if Object[] came into the
      table without its flag, the type test denies it of all of them but Object[] itself. */
  lemma {:induction false} UnflaggedIsDenied(cs: seq<ClassBlock>, r: Roots, x: nat, t: nat)
    requires Hierarchy(cs, r) && x < |cs| && t < |cs| && x != t
    requires IsArray(cs[t]) && cs[t].element == Some(r.root) && cs[t].typeFlags != ARRAY
    requires IsArray(cs[x]) && PlainClass(cs, r, cs[x].element.value)
    ensures Subtype(cs, x, t) && !Recognised(cs, x, t)
  {
    var e := cs[x].element.value;
    KindOf(cs, r, t);
    KindOf(cs, r, x);
    ObjectAbove(cs, r, e);
    AncestorReach(cs, e, r.root);
  }
}
