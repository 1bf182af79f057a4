/**
 The type tests on the table that the loader leaves behind: class files that keep to the rules of
 the language make the loaded blocks a hierarchy on which `isInstanceOf` is decided.
*/
module LoadedTypes {
  import opened Options
  import opened Classes
  import opened ClassFiles
  import opened Loader
  import Descriptors
  import S = Subtyping

  /** Object alone has no superclass; interfaces extend Object and interfaces, classes extend
      classes; Cloneable and Serializable are interfaces; no class extends or implements one that
      is named like a primitive type. */
  ghost predicate LanguageRules(files: Files) {
    forall n :: n in files ==>
      && (files[n].super == None <==> n == OBJECT)
      && (n == OBJECT ==> !files[n].isInterface && files[n].interfaces == [])
      && (n == CLONEABLE || n == SERIALIZABLE ==> files[n].isInterface)
      && (files[n].isInterface ==> files[n].super == Some(OBJECT))
      && (forall s :: s in Parents(files[n]) ==> !IsPrimitiveName(s))
      && (forall s :: s in files && files[n].super == Some(s) ==> !files[s].isInterface)
      && (forall s :: s in files && s in files[n].interfaces ==> files[s].isInterface)
  }

  /** An array name as a field descriptor spells it (section 4.3.2 of the Java Virtual Machine
      Specification): brackets, then a tag, or a class between `L` and `;`. */
  predicate Spelled(n: string) {
    if !IsArrayName(n) then true
    else if |n| > 1 && n[1] == '[' then Spelled(n[1..])
    else if LastTag(n).Some? then |n| == 2 && Descriptors.IsPrimitiveTag(n[1])
    else n[1] == 'L' && !IsArrayName(ElementName(n)) && !IsPrimitiveName(ElementName(n))
  }

  ghost predicate AllSpelled(cmap: map<string, nat>) {
    forall n :: n in cmap ==> Spelled(n)
  }

  /** The roots as the table has them. */
  function RootsOf(cmap: map<string, nat>): S.Roots
    requires OBJECT in cmap && CLONEABLE in cmap && SERIALIZABLE in cmap
  {
    S.Roots(cmap[OBJECT], cmap[CLONEABLE], cmap[SERIALIZABLE])
  }

  lemma {:induction false} NamesOfRoots()
    ensures forall d :: d in Loader.Roots() ==> !IsArrayName(d) && !IsPrimitiveName(d)
    ensures OBJECT != CLONEABLE && OBJECT != SERIALIZABLE && OBJECT in Loader.Roots()
    ensures CLONEABLE in Loader.Roots() && SERIALIZABLE in Loader.Roots()
  {
    assert OBJECT[0] == 'j' && CLONEABLE[0] == 'j' && SERIALIZABLE[0] == 'j';
    assert |OBJECT| == 16 && |CLONEABLE| == 19 && |SERIALIZABLE| == 20;
  }

  /** The block of a name that is neither an array's nor a primitive type's. */
  ghost predicate OfFile(files: Files, cs: seq<ClassBlock>, c: nat) {
    && c < |cs| && cs[c].name in files && cs[c].typeFlags == 0 && cs[c].element == None && cs[c].dim == 0
    && cs[c].isInterface == files[cs[c].name].isInterface
    && Named(cs, cs[c].super, files[cs[c].name].super) && AllNamed(cs, cs[c].interfaces, files[cs[c].name].interfaces)
  }

  lemma {:induction false} FileBlock(files: Files, cs: seq<ClassBlock>, c: nat)
    requires Intact(files, cs) && c < |cs| && !IsArrayName(cs[c].name) && !IsPrimitiveName(cs[c].name)
    ensures OfFile(files, cs, c)
  {
    hide Finished, SameMethods, SameFields;
    assert Matches(files, cs, c);
  }

  lemma {:induction false} ParentBlocks(files: Files, cs: seq<ClassBlock>, c: nat)
    requires Intact(files, cs) && WellNamed(files) && LanguageRules(files) && OfFile(files, cs, c)
    ensures cs[c].super.Some? ==>
              OfFile(files, cs, cs[c].super.value) && files[cs[c].name].super == Some(cs[cs[c].super.value].name)
    ensures forall i :: i in cs[c].interfaces ==> OfFile(files, cs, i) && cs[i].name in files[cs[c].name].interfaces
  {
    hide Intact, Named, AllNamed;
    var f := files[cs[c].name];
    if cs[c].super.Some? {
      NamedIs(cs, cs[c].super, f.super);
      assert f.super.value in Parents(f);
      FileBlock(files, cs, cs[c].super.value);
    }
    forall i | i in cs[c].interfaces
      ensures OfFile(files, cs, i) && cs[i].name in f.interfaces
    {
      var k :| 0 <= k < |cs[c].interfaces| && cs[c].interfaces[k] == i;
      AllNamedIs(cs, cs[c].interfaces, f.interfaces, k);
      assert f.interfaces[k] in f.interfaces && f.interfaces[k] in Parents(f);
      FileBlock(files, cs, i);
    }
  }

  lemma {:induction false} NamedIs(cs: seq<ClassBlock>, c: Option<nat>, n: Option<string>)
    requires Named(cs, c, n)
    ensures c.Some? <==> n.Some?
    ensures c.Some? ==> c.value < |cs| && n == Some(cs[c.value].name)
  {
  }

  lemma {:induction false} AllNamedIs(cs: seq<ClassBlock>, ids: seq<nat>, names: seq<string>, k: nat)
    requires AllNamed(cs, ids, names) && k < |ids|
    ensures k < |names| && ids[k] < |cs| && cs[ids[k]].name == names[k]
  {
  }

  /** The three kinds of blocks are the three kinds of classes. */
  lemma {:induction false} KindOfBlock(files: Files, cs: seq<ClassBlock>, cmap: map<string, nat>, c: nat)
    requires Intact(files, cs) && Table(cs, cmap) && WellNamed(files) && LanguageRules(files) && AllSpelled(cmap)
    requires OBJECT in cmap && CLONEABLE in cmap && SERIALIZABLE in cmap && c < |cs|
    ensures var r := RootsOf(cmap); S.PlainClass(cs, r, c) || S.PrimitiveClass(cs, c) || S.ArrayClass(cs, r, c)
    ensures cs[c].element.Some? <==> IsArrayName(cs[c].name)
    ensures OfFile(files, cs, c) ==> S.PlainClass(cs, RootsOf(cmap), c)
  {
    hide Finished, SameMethods, SameFields;
    NamesOfRoots();
    assert Matches(files, cs, c);
    var b := cs[c];
    if IsArrayName(b.name) && b.typeFlags != PRIM {
      ArrayBlockIs(files, cs, cmap, c);
    }
  }

  lemma {:induction false} ArrayBlockIs(files: Files, cs: seq<ClassBlock>, cmap: map<string, nat>, c: nat)
    requires Intact(files, cs) && Table(cs, cmap) && AllSpelled(cmap)
    requires OBJECT in cmap && CLONEABLE in cmap && SERIALIZABLE in cmap
    requires c < |cs| && IsArrayName(cs[c].name) && cs[c].typeFlags != PRIM
    ensures S.ArrayClass(cs, RootsOf(cmap), c)
  {
    hide Finished, SameMethods, SameFields;
    assert Matches(files, cs, c);
    var b := cs[c];
    var e := b.element.value;
    assert Matches(files, cs, e);
    assert Spelled(b.name);
    assert b.interfaces == [cmap[CLONEABLE], cmap[SERIALIZABLE]] by {
      assert [CLONEABLE, SERIALIZABLE][0] == CLONEABLE && [CLONEABLE, SERIALIZABLE][1] == SERIALIZABLE;
    }
  }

  /** Two array names with the same element are the same name. */
  lemma {:induction false} SpelledApart(n: string, m: string)
    requires IsArrayName(n) && IsArrayName(m) && Spelled(n) && Spelled(m) && ElementName(n) == ElementName(m)
    ensures n == m
  {
  }

  lemma {:induction false} RootBlocks(files: Files, cs: seq<ClassBlock>, cmap: map<string, nat>)
    requires Intact(files, cs) && Table(cs, cmap)
    requires OBJECT in cmap && CLONEABLE in cmap && SERIALIZABLE in cmap
    ensures OfFile(files, cs, cmap[OBJECT]) && cs[cmap[OBJECT]].name == OBJECT
    ensures OfFile(files, cs, cmap[CLONEABLE]) && cs[cmap[CLONEABLE]].name == CLONEABLE
    ensures OfFile(files, cs, cmap[SERIALIZABLE]) && cs[cmap[SERIALIZABLE]].name == SERIALIZABLE
  {
    hide Intact, OfFile;
    NamesOfRoots();
    FileBlock(files, cs, cmap[OBJECT]);
    FileBlock(files, cs, cmap[CLONEABLE]);
    FileBlock(files, cs, cmap[SERIALIZABLE]);
  }

  /** A block is a primitive class, an array class or the class of a file. */
  lemma {:induction false} BlockCases(files: Files, cs: seq<ClassBlock>, c: nat)
    requires Intact(files, cs) && c < |cs|
    ensures cs[c].typeFlags == PRIM ==> cs[c].super == None && cs[c].interfaces == []
    ensures cs[c].typeFlags != PRIM && !IsArrayName(cs[c].name) ==> OfFile(files, cs, c)
  {
    hide Finished, SameMethods, SameFields;
    assert Matches(files, cs, c);
  }

  /** The superclass and the interfaces of a block are plain classes of the right kind. */
  lemma {:induction false} ParentsArePlain(files: Files, cs: seq<ClassBlock>, cmap: map<string, nat>, c: nat)
    requires Intact(files, cs) && Table(cs, cmap) && WellNamed(files) && LanguageRules(files) && AllSpelled(cmap)
    requires OBJECT in cmap && CLONEABLE in cmap && SERIALIZABLE in cmap && c < |cs|
    ensures cs[c].super.Some? ==>
              && cs[c].super.value < |cs| && S.PlainClass(cs, RootsOf(cmap), cs[c].super.value)
              && !cs[cs[c].super.value].isInterface
    ensures forall i :: i in cs[c].interfaces ==> i < |cs| && S.PlainClass(cs, RootsOf(cmap), i) && cs[i].isInterface
  {
    hide Intact, Table, AllSpelled, WellNamed, S.PlainClass;
    BlockCases(files, cs, c);
    if cs[c].typeFlags == PRIM {
    } else if IsArrayName(cs[c].name) {
      RootBlocks(files, cs, cmap);
      ArrayBlockIs(files, cs, cmap, c);
      KindOfBlock(files, cs, cmap, cmap[OBJECT]);
      KindOfBlock(files, cs, cmap, cmap[CLONEABLE]);
      KindOfBlock(files, cs, cmap, cmap[SERIALIZABLE]);
    } else {
      ParentBlocks(files, cs, c);
      if cs[c].super.Some? {
        KindOfBlock(files, cs, cmap, cs[c].super.value);
      }
      forall i | i in cs[c].interfaces
        ensures i < |cs| && S.PlainClass(cs, RootsOf(cmap), i) && cs[i].isInterface
      {
        KindOfBlock(files, cs, cmap, i);
      }
    }
  }

  lemma {:induction false} ArraysApart(files: Files, cs: seq<ClassBlock>, cmap: map<string, nat>, c: nat, d: nat)
    requires Intact(files, cs) && Table(cs, cmap) && AllSpelled(cmap)
    requires c < |cs| && d < |cs| && cs[c].element.Some? && cs[c].element == cs[d].element
    ensures c == d
  {
    hide Finished, SameMethods, SameFields;
    assert Matches(files, cs, c) && Matches(files, cs, d);
    SpelledApart(cs[c].name, cs[d].name);
  }

  /** Class files that keep to the language's rules make the loaded classes a hierarchy, with the
      array flag set or not. */
  lemma {:induction false} LoadedIsHierarchy(files: Files, cs: seq<ClassBlock>, cmap: map<string, nat>,
                                             prims: map<char, nat>)
    requires Consistent(files, cs, cmap, prims) && WellNamed(files) && LanguageRules(files) && AllSpelled(cmap)
    requires OBJECT in cmap && CLONEABLE in cmap && SERIALIZABLE in cmap
    ensures S.Hierarchy(cs, RootsOf(cmap))
  {
    var r := RootsOf(cmap);
    hide Table, AllSpelled, S.PlainClass, S.PrimitiveClass, S.ArrayClass, Finished, Matches, PrimTable, WellNamed;
    RootBlocks(files, cs, cmap);
    KindOfBlock(files, cs, cmap, r.root);
    forall c | 0 <= c < |cs|
      ensures S.PlainClass(cs, r, c) || S.PrimitiveClass(cs, c) || S.ArrayClass(cs, r, c)
      ensures cs[c].super.Some? ==> S.PlainClass(cs, r, cs[c].super.value) && !cs[cs[c].super.value].isInterface
      ensures forall i :: i in cs[c].interfaces ==> S.PlainClass(cs, r, i) && cs[i].isInterface
    {
      KindOfBlock(files, cs, cmap, c);
      ParentsArePlain(files, cs, cmap, c);
    }
    forall c, d | 0 <= c < |cs| && 0 <= d < |cs| && S.IsArray(cs[c]) && cs[c].element == cs[d].element
      ensures c == d
    {
      ArraysApart(files, cs, cmap, c, d);
    }
  }

  // ----- a target marked by findArrayClass -----

  const OBJECT_ARRAY: string := "[Ljava/lang/Object;"

  lemma {:induction false} ObjectArrayName()
    ensures IsArrayName(OBJECT_ARRAY) && LastTag(OBJECT_ARRAY) == None && ElementName(OBJECT_ARRAY) == OBJECT
    ensures OBJECT_ARRAY == "[L" + OBJECT + ";" && Spelled(OBJECT_ARRAY) && !IsPrimitiveName(OBJECT_ARRAY)
  {
    ElementNames(OBJECT, OBJECT, 'B');
    NamesOfRoots();
    assert OBJECT_ARRAY == "[L" + OBJECT + ";";
  }

  /** With the roots in the table, Object[] can be loaded and nothing else is entered for it. */
  lemma {:induction false} ObjectArrayAlone(files: Files, known: set<string>, prims: set<char>)
    requires WellNamed(files) && OBJECT_ARRAY !in known
    requires OBJECT in known && CLONEABLE in known && SERIALIZABLE in known
    ensures Available(files, known, OBJECT_ARRAY) && !Clashes(files, known, prims, OBJECT_ARRAY)
    ensures forall m :: Enters(files, known, OBJECT_ARRAY, m) ==> m == OBJECT_ARRAY
  {
    hide Needs, LastTag;
    ObjectArrayName();
    AvailableStep(files, known, OBJECT_ARRAY);
    ElementNeeds(files, known, OBJECT_ARRAY);
    forall d | d in Loader.Roots()
      ensures Available(files, known, d) && forall m :: !Needs(files, known, d, m)
    {
      NeedsStep(files, known, d);
    }
    assert OBJECT in Loader.Roots();
  }

  /** The block of a new Object[], marked by findArrayClass. */
  lemma {:induction false} ObjectArrayBlock(files: Files, cs: seq<ClassBlock>, cmap: map<string, nat>, c: nat)
    requires Intact(files, cs) && Table(cs, cmap) && AllSpelled(cmap)
    requires OBJECT in cmap && CLONEABLE in cmap && SERIALIZABLE in cmap && c < |cs| && cs[c].name == OBJECT_ARRAY
    ensures cs[c].typeFlags != PRIM ==> S.ArrayClass(cs, RootsOf(cmap), c) && cs[c].element == Some(cmap[OBJECT])
  {
    hide Finished, SameMethods, SameFields, Spelled, ElementName, LastTag;
    ObjectArrayName();
    assert Matches(files, cs, c);
    if cs[c].typeFlags != PRIM {
      ArrayBlockIs(files, cs, cmap, c);
    }
  }

  lemma {:induction false} ClassArraysBelow(cs: seq<ClassBlock>, r: S.Roots, x: nat, t: nat)
    requires S.Hierarchy(cs, r) && x < |cs| && t < |cs| && cs[t].typeFlags == ARRAY
    requires cs[t].element == Some(r.root) && S.IsArray(cs[x]) && S.PlainClass(cs, r, cs[x].element.value)
    ensures S.Subtype(cs, x, t) && S.AllFlagged(cs, t)
  {
    var e := cs[x].element.value;
    S.KindOf(cs, r, t);
    S.KindOf(cs, r, x);
    S.ObjectAbove(cs, r, e);
    S.AncestorReach(cs, e, r.root);
  }

  /** After findArrayClass has loaded Object[], the type test recognises every array of class type
      in the table as one. */
  method ObjectArrayThenTest(area: MethodArea, files: Files, ghost rank: string -> nat, x: nat) returns (b: bool)
    requires Consistent(files, area.classes, area.cmap, area.prims) && WellNamed(files) && Acyclic(files, rank)
    requires LanguageRules(files) && AllSpelled(area.cmap) && OBJECT_ARRAY !in area.cmap
    requires OBJECT in area.cmap && CLONEABLE in area.cmap && SERIALIZABLE in area.cmap
    requires x < |area.classes| && IsArrayName(area.classes[x].name) && area.classes[x].element.Some?
    requires OfFile(files, area.classes, area.classes[x].element.value)
    modifies area
    ensures b
  {
    hide WellNamed, Acyclic, Available, Clashes, Needs, NeedsPrimitive, LanguageRules, S.Hierarchy, S.PlainClass;
    hide Spelled, OfFile, Intact, Table, PrimTable, S.Recognised, S.Subtype, S.AllFlagged;
    ghost var cs, known, prims := area.classes, area.cmap.Keys, area.prims.Keys;
    ObjectArrayName();
    ObjectArrayAlone(files, known, prims);
    var r := FindArrayClass(area, files, rank, OBJECT_ARRAY);
    OutcomeExact(files, known, prims, OBJECT_ARRAY, r);
    ghost var e := cs[x].element.value;
    StillOfFile(files, cs, area.classes, e);
    LoadedIsHierarchy(files, area.classes, area.cmap, area.prims);
    KindOfBlock(files, area.classes, area.cmap, e);
    ObjectArrayBlock(files, area.classes, area.cmap, r.c);
    ClassArraysBelow(area.classes, RootsOf(area.cmap), x, r.c);
    b := S.IsInstanceOf(area.classes, r.c, x, RootsOf(area.cmap));
  }

  lemma {:induction false} StillOfFile(files: Files, cs: seq<ClassBlock>, cs': seq<ClassBlock>, c: nat)
    requires OfFile(files, cs, c) && Loader.Extends(cs, cs')
    ensures OfFile(files, cs', c)
  {
  }
}
