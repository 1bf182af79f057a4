/**
 Class loading in `src/classloader/class.c` with initialisation off: the table of loaded
 classes, the recursive load of interfaces, superclasses and array elements, and the
 preparation and linking of each class after the classes it refers to.
*/
module Loader {
  import opened Options
  import opened Classes
  import opened Linking
  import opened Layout
  import opened ClassFiles
  import Dispatch
  import Descriptors

  // ----- what a loaded block says about its file -----

  ghost predicate Named(cs: seq<ClassBlock>, c: Option<nat>, n: Option<string>) {
    match c
    case None => n == None
    case Some(i) => i < |cs| && n == Some(cs[i].name)
  }

  ghost predicate AllNamed(cs: seq<ClassBlock>, ids: seq<nat>, names: seq<string>) {
    |ids| == |names| && forall i :: 0 <= i < |ids| ==> ids[i] < |cs| && cs[ids[i]].name == names[i]
  }

  /** The same methods, up to their table indices. */
  ghost predicate SameMethods(ms: seq<MethodBlock>, ns: seq<MethodBlock>) {
    |ns| == |ms| && forall i :: 0 <= i < |ms| ==> ns[i] == ms[i].(tableIdx := ns[i].tableIdx)
  }

  /** The same fields, up to their offsets. */
  ghost predicate SameFields(fs: seq<FieldBlock>, gs: seq<FieldBlock>) {
    |gs| == |fs| && forall i :: 0 <= i < |fs| ==> gs[i] == fs[i].(offset := gs[i].offset)
  }

  /** Block c refers to the blocks of exactly the classes its name calls for. A primitive class is
      marked as such; the array flag may be set or not. */
  ghost predicate Matches(files: Files, cs: seq<ClassBlock>, c: nat)
    requires c < |cs|
  {
    var b := cs[c];
    if b.typeFlags == PRIM then
      && IsPrimitiveName(b.name) && b.super == None && b.interfaces == [] && b.element == None && b.dim == 0
      && !b.isInterface
    else if IsArrayName(b.name) then
      && (b.typeFlags == 0 || b.typeFlags == ARRAY) && !b.isInterface
      && Named(cs, b.super, Some(OBJECT)) && AllNamed(cs, b.interfaces, [CLONEABLE, SERIALIZABLE])
      && Named(cs, b.element, Some(ElementName(b.name)))
      && (LastTag(b.name).Some? ==> cs[b.element.value].typeFlags == PRIM)
      && b.dim == 1 + if |b.name| > 1 && b.name[1] == '[' then cs[b.element.value].dim else 0
    else
      && b.typeFlags == 0
      && b.name in files && b.isInterface == files[b.name].isInterface && b.element == None && b.dim == 0
      && Named(cs, b.super, files[b.name].super) && AllNamed(cs, b.interfaces, files[b.name].interfaces)
      && SameMethods(files[b.name].methods, b.methods) && SameFields(files[b.name].fields, b.fields)
  }

  /** Prepared, and linked unless it is an interface. */
  ghost predicate Finished(cs: seq<ClassBlock>, c: nat)
    requires Ordered(cs) && c < |cs|
  {
    && Prepared(cs, c) && FieldsPlaced(cs, c)
    && if cs[c].isInterface then cs[c].flags == PREPARED else cs[c].flags == LINKED && Linked(cs, c)
  }

  /** Every block is finished and refers only to finished blocks before it. */
  ghost predicate Intact(files: Files, cs: seq<ClassBlock>) {
    Ordered(cs) && forall c :: 0 <= c < |cs| ==> Finished(cs, c) && Matches(files, cs, c)
  }

  /** The table has one name per block and one block per name. */
  ghost predicate Table(cs: seq<ClassBlock>, cmap: map<string, nat>) {
    && (forall n :: n in cmap ==> cmap[n] < |cs| && cs[cmap[n]].name == n)
    && (forall c :: 0 <= c < |cs| ==> cs[c].name in cmap && cmap[cs[c].name] == c)
  }

  /** The block that the table has for n is a primitive class. */
  ghost predicate IsPrimitiveEntry(cs: seq<ClassBlock>, cmap: map<string, nat>, n: string) {
    n in cmap && cmap[n] < |cs| && cs[cmap[n]].typeFlags == PRIM
  }

  /** `PRIM_CLASS` lists the primitive classes of the table. */
  ghost predicate PrimTable(cs: seq<ClassBlock>, cmap: map<string, nat>, prims: map<char, nat>) {
    && (forall t :: t in prims <==> IsPrimitiveEntry(cs, cmap, [t]))
    && (forall t :: t in prims ==> cmap[[t]] == prims[t])
  }

  ghost predicate Extends(cs: seq<ClassBlock>, cs': seq<ClassBlock>) {
    |cs| <= |cs'| && forall a :: 0 <= a < |cs| ==> cs'[a] == cs[a]
  }

  lemma {:induction false} StillFinished(files: Files, cs: seq<ClassBlock>, cs': seq<ClassBlock>, c: nat)
    requires Ordered(cs) && Ordered(cs') && c < |cs| && c < |cs'| && forall a :: 0 <= a <= c ==> cs'[a] == cs[a]
    requires Finished(cs, c) && Matches(files, cs, c)
    ensures Finished(cs', c) && Matches(files, cs', c)
  {
    assert Finished(cs', c) by {
      hide Prepared, Linked, FieldsPlaced;
      AgreePrepared(cs, cs', c);
      AgreePlaced(cs, cs', c);
    }
    hide Prepared, Linked, FieldsPlaced, Finished;
    assert forall i :: 0 <= i < |cs[c].interfaces| ==> cs[c].interfaces[i] in cs[c].interfaces;
  }

  // ----- prepareClass and linkClass -----

  /** Everything in block c that does not come from prepareClass and linkClass. */
  ghost predicate SameSource(b: ClassBlock, b': ClassBlock) {
    && b'.name == b.name && b'.super == b.super && b'.interfaces == b.interfaces && b'.isInterface == b.isInterface
    && b'.element == b.element && b'.dim == b.dim && b'.typeFlags == b.typeFlags
    && SameMethods(b.methods, b'.methods) && SameFields(b.fields, b'.fields)
  }

  /** Only block c has changed, and only in what preparation and linking assign. */
  ghost predicate OnlyBlock(cs: seq<ClassBlock>, cs': seq<ClassBlock>, c: nat) {
    && c < |cs| == |cs'| && SameSource(cs[c], cs'[c])
    && forall a :: 0 <= a < |cs| && a != c ==> cs'[a] == cs[a]
  }

  method PrepareClass(area: MethodArea, c: nat)
    requires Ordered(area.classes) && c < |area.classes| && area.classes[c].flags < PREPARED
    requires forall i :: 0 <= i < |area.classes[c].methods| ==> area.classes[c].methods[i].tableIdx == 0
    modifies area`classes
    ensures Ordered(area.classes) && OnlyBlock(old(area.classes), area.classes, c)
    ensures Prepared(area.classes, c) && FieldsPlaced(area.classes, c) && area.classes[c].flags == PREPARED
  {
    hide Prepared, FieldsPlaced;
    PrepareMethod(area, c);
    ghost var cs1 := area.classes;
    PrepareField(area, c);
    ghost var cs2 := area.classes;
    AgreePrepared(cs1, cs2, c);
    area.classes := area.classes[c := area.classes[c].(flags := PREPARED)];
    AgreePrepared(cs2, area.classes, c);
    AgreePlaced(cs2, area.classes, c);
  }

  /** The result is false when a table write lands outside the block. */
  method LinkClass(area: MethodArea, c: nat) returns (inBounds: bool)
    requires Ordered(area.classes) && c < |area.classes| && area.classes[c].flags == PREPARED
    requires Prepared(area.classes, c) && FieldsPlaced(area.classes, c)
    modifies area`classes
    ensures Ordered(area.classes) && OnlyBlock(old(area.classes), area.classes, c) && Finished(area.classes, c)
    ensures inBounds <==> area.classes[c].isInterface || WritesInside(area.classes[c])
  {
    if area.classes[c].isInterface {
      return true;
    }
    hide Prepared, FieldsPlaced, Linked;
    ghost var cs0 := area.classes;
    inBounds := LinkMethod(area, c);
    ghost var cs1 := area.classes;
    AgreePrepared(cs0, cs1, c);
    AgreePlaced(cs0, cs1, c);
    area.classes := area.classes[c := area.classes[c].(flags := LINKED)];
    AgreePrepared(cs1, area.classes, c);
    AgreePlaced(cs1, area.classes, c);
  }

  // ----- entering a class -----

  /** Loading failed: the machine exits with the message. */
  datatype LoadResult = Loaded(c: nat) | NoClassDefFound(n: string) | DuplicateKey(n: string) | BadPrimitive(n: string)

  /** A block as `defineClass` returns it, ready to be entered behind cs. */
  ghost predicate Defined(files: Files, cs: seq<ClassBlock>, cb: ClassBlock) {
    && Ordered(cs + [cb]) && Matches(files, cs + [cb], |cs|)
    && cb.flags == 0 && forall i :: 0 <= i < |cb.methods| ==> cb.methods[i].tableIdx == 0
  }

  lemma {:induction false} OnlyBlockMatches(files: Files, cs: seq<ClassBlock>, cs': seq<ClassBlock>, c: nat)
    requires Ordered(cs) && OnlyBlock(cs, cs', c) && Matches(files, cs, c)
    ensures Matches(files, cs', c)
  {
  }

  lemma {:induction false} IntactWith(files: Files, cs: seq<ClassBlock>, cs': seq<ClassBlock>)
    requires Intact(files, cs) && Ordered(cs') && Extends(cs, cs') && |cs'| == |cs| + 1
    requires Finished(cs', |cs|) && Matches(files, cs', |cs|)
    ensures Intact(files, cs')
  {
    hide Finished, Matches;
    forall c | 0 <= c < |cs|
      ensures Finished(cs', c) && Matches(files, cs', c)
    {
      StillFinished(files, cs, cs', c);
    }
  }

  lemma {:induction false} TableWith(cs: seq<ClassBlock>, cs': seq<ClassBlock>, cmap: map<string, nat>)
    requires Table(cs, cmap) && Extends(cs, cs') && |cs'| == |cs| + 1
    requires cs'[|cs|].name !in cmap
    ensures Table(cs', cmap[cs'[|cs|].name := |cs|])
  {
  }

  /** The common end of `loadClass0` and `loadPrimitiveClass`: enter the class in the table, then
      prepare and link it. A name already present calls the duplicate handler, which exits. */
  method Enter(area: MethodArea, ghost files: Files, cb: ClassBlock) returns (r: LoadResult, inBounds: bool)
    requires Intact(files, area.classes) && Table(area.classes, area.cmap) && Defined(files, area.classes, cb)
    modifies area`classes, area`cmap
    ensures r.DuplicateKey? <==> cb.name in old(area.cmap)
    ensures r == DuplicateKey(cb.name) || r == Loaded(|old(area.classes)|)
    ensures r.DuplicateKey? ==> area.classes == old(area.classes)
    ensures Intact(files, area.classes) && Table(area.classes, area.cmap)
    ensures Extends(old(area.classes), area.classes)
    ensures area.cmap == if r.Loaded? then old(area.cmap)[cb.name := r.c] else old(area.cmap)
    ensures r.Loaded? ==> |area.classes| == r.c + 1 && SameSource(cb, area.classes[r.c])
    ensures r.Loaded? ==> (inBounds <==> area.classes[r.c].isInterface || WritesInside(area.classes[r.c]))
  {
    hide Finished, Matches, Table, Intact, Prepared, FieldsPlaced;
    if cb.name in area.cmap {
      return DuplicateKey(cb.name), true;
    }
    ghost var cs := area.classes;
    var c := |area.classes|;
    area.classes := area.classes + [cb];
    ghost var cs1 := area.classes;
    area.cmap := area.cmap[cb.name := c];
    PrepareClass(area, c);
    ghost var cs2 := area.classes;
    OnlyBlockMatches(files, cs1, cs2, c);
    inBounds := LinkClass(area, c);
    OnlyBlockMatches(files, cs2, area.classes, c);
    IntactWith(files, cs, area.classes);
    TableWith(cs, area.classes, old(area.cmap));
    r := Loaded(c);
  }

  // ----- how a load ends -----

  /** The result of loading `name`, with the classes `known` and the primitive classes `prims`
      in the table. */
  ghost predicate Outcome(files: Files, known: set<string>, prims: set<char>, name: string, r: LoadResult) {
    match r
    case Loaded(_) => Available(files, known, name) && !Clashes(files, known, prims, name)
    case DuplicateKey(m) =>
      && Available(files, known, name) && Clashes(files, known, prims, name)
      && |m| == 1 && m[0] !in prims && NeedsPrimitive(files, known, name, m[0])
      && (m in known || Needs(files, known, name, m))
    case NoClassDefFound(m) => m !in files && !IsArrayName(m) && Needs(files, known, name, m)
    case BadPrimitive(m) =>
      |m| == 1 && !Descriptors.IsPrimitiveTag(m[0]) && NeedsPrimitive(files, known, name, m[0])
  }

  /** Only names that loading `name` enters are new, and all of them if it is done. */
  ghost predicate Added(files: Files, known: set<string>, known': set<string>, name: string, done: bool) {
    && (forall m :: m in known' ==> m in known || Enters(files, known, name, m))
    && (done ==> forall m :: m in known || Enters(files, known, name, m) ==> m in known')
  }

  /** Everything for `name` has been entered except `name` itself. */
  ghost predicate AddedBefore(files: Files, known: set<string>, known': set<string>, name: string) {
    forall m :: m in known' <==> m in known || (m != name && Enters(files, known, name, m))
  }

  /** A class among ds needs a class that has no file. */
  ghost predicate FailedFor(files: Files, known: set<string>, known': set<string>, ds: seq<string>, r: LoadResult) {
    && r.NoClassDefFound? && r.n !in files && !IsArrayName(r.n) && NeedsAny(files, known, ds, r.n)
    && forall m :: m in known' ==> m in known || NeedsAny(files, known, ds, m)
  }

  /** Loading succeeds exactly when everything needed can be found and no primitive class meets a
      file of its name. */
  lemma {:induction false} OutcomeExact(files: Files, known: set<string>, prims: set<char>, name: string, r: LoadResult)
    requires Outcome(files, known, prims, name, r)
    ensures r.Loaded? <==> Available(files, known, name) && !Clashes(files, known, prims, name)
    ensures r.DuplicateKey? <==> Available(files, known, name) && Clashes(files, known, prims, name)
  {
    hide Needs, Clashes;
  }

  /** A plain class loaded after the plain classes ds. */
  lemma {:induction false} PlainNext(files: Files, known: set<string>, known1: set<string>, known2: set<string>,
                                     prims: set<char>, ds: seq<string>, e: string, r: LoadResult)
    requires WellNamed(files) && LoadedFor(files, known, known1, ds) && AllAvailable(files, known, ds)
    requires !IsArrayName(e) && Outcome(files, known1, prims, e, r) && Added(files, known1, known2, e, r.Loaded?)
    ensures r.Loaded? ==> AllAvailable(files, known, ds + [e]) && LoadedFor(files, known, known2, ds + [e])
    ensures !r.Loaded? ==> FailedFor(files, known, known2, ds + [e], r)
  {
    hide Needs, Clashes, NeedsPrimitive, Enters, WellNamed, Available;
    PlainNeeds(files, known1, e);
    LaterAvailable(files, known, known1, ds, e);
    LaterNeeds(files, known, known1, ds, e);
    assert e in ds + [e] && forall d :: d in ds ==> d in ds + [e];
    if r.Loaded? {
      OneMoreLoaded(files, known, known1, known2, ds, e);
    }
  }

  lemma {:induction false} FailedForMore(files: Files, known: set<string>, known': set<string>, ds: seq<string>,
                                         ds': seq<string>, r: LoadResult)
    requires FailedFor(files, known, known', ds, r) && forall d :: d in ds ==> d in ds'
    ensures FailedFor(files, known, known', ds', r)
  {
    hide Needs;
  }

  lemma {:induction false} FailedName(files: Files, known: set<string>, known': set<string>, prims: set<char>,
                                      name: string, r: LoadResult)
    requires FailedFor(files, known, known', Deps(files, name), r) && name !in known
    ensures Outcome(files, known, prims, name, r) && Added(files, known, known', name, false)
  {
    hide Needs, Deps;
    NeedsStep(files, known, name);
  }

  /** All parents of a class file have been loaded. */
  lemma {:induction false} ParentsLoaded(files: Files, rank: string -> nat, known: set<string>, known': set<string>,
                                         name: string)
    requires WellNamed(files) && Acyclic(files, rank) && name in files && name !in known
    requires LoadedFor(files, known, known', Deps(files, name)) && AllAvailable(files, known, Deps(files, name))
    ensures Available(files, known, name) && AddedBefore(files, known, known', name)
  {
    hide Needs, Deps, Enters, Clashes, NeedsPrimitive, Acyclic, Available;
    AvailableStep(files, known, name);
    PlainNeeds(files, known, name);
    NeedsStep(files, known, name);
    NotForItself(files, rank, known, name);
  }

  function Roots(): (ds: seq<string>)
    ensures |ds| == 3
    ensures forall d :: d in ds ==> !IsArrayName(d)
  {
    assert OBJECT[0] == 'j' && CLONEABLE[0] == 'j' && SERIALIZABLE[0] == 'j';
    [OBJECT, CLONEABLE, SERIALIZABLE]
  }

  lemma {:induction false} RootsPlain(files: Files, known: set<string>)
    requires WellNamed(files)
    ensures forall m :: NeedsAny(files, known, Roots(), m) ==> !IsArrayName(m)
  {
    hide Needs;
    forall d | d in Roots()
      ensures forall m :: Needs(files, known, d, m) ==> !IsArrayName(m)
    {
      PlainNeeds(files, known, d);
    }
  }

  /** How `findPrimitiveClass` ends for the tag t. */
  ghost predicate PrimitiveEnds(known: set<string>, known': set<string>, prims: set<char>, t: char, r: LoadResult) {
    match r
    case Loaded(_) =>
      Descriptors.IsPrimitiveTag(t) && (t in prims || [t] !in known) && known' == known + {[t]}
    case DuplicateKey(m) =>
      m == [t] && Descriptors.IsPrimitiveTag(t) && t !in prims && [t] in known && known' == known
    case BadPrimitive(m) => m == [t] && !Descriptors.IsPrimitiveTag(t) && known' == known
    case NoClassDefFound(_) => false
  }

  /** An array of a primitive type: after the roots, only the primitive class is missing. */
  lemma {:induction false} TagNeeds(files: Files, known: set<string>, name: string, t: char)
    requires WellNamed(files) && LastTag(name) == Some(t) && name !in known
    ensures Deps(files, name) == Roots()
    ensures forall m :: Needs(files, known, name, m) <==> m == name || NeedsAny(files, known, Roots(), m)
    ensures forall u :: NeedsPrimitive(files, known, name, u) <==> u == t
  {
    hide Needs;
    assert Deps(files, name) == Roots();
    NeedsStep(files, known, name);
    RootsPlain(files, known);
    assert Needs(files, known, name, name);
  }

  lemma {:induction false} TagEnds(files: Files, known: set<string>, known1: set<string>, known2: set<string>,
                                   prims: set<char>, name: string, t: char, r: LoadResult)
    requires WellNamed(files) && LastTag(name) == Some(t) && name !in known
    requires LoadedFor(files, known, known1, Roots()) && AllAvailable(files, known, Roots())
    requires PrimitiveEnds(known1, known2, prims, t, r)
    ensures Outcome(files, known, prims, name, r)
    ensures r.Loaded? ==> AddedBefore(files, known, known2, name)
    ensures !r.Loaded? ==> Added(files, known, known2, name, false)
  {
    hide Needs, Available, WellNamed, NeedsPrimitive;
    RootsPlain(files, known);
    TagNeeds(files, known, name, t);
    AvailableStep(files, known, name);
    assert forall m: string :: |m| == 1 && m[0] == t <==> m == [t];
    if Descriptors.IsPrimitiveTag(t) {
      assert [t][0] != name[0];
      assert [t] in known1 <==> [t] in known || Needs(files, known, name, [t]);
    }
  }

  /** An array of a class or of arrays: after the roots, the element class is loaded. */
  lemma {:induction false} ElementNeeds(files: Files, known: set<string>, name: string)
    requires WellNamed(files) && IsArrayName(name) && LastTag(name) == None && name !in known
    ensures Deps(files, name) == Roots() + [ElementName(name)]
    ensures forall m :: Needs(files, known, name, m) <==>
              m == name || NeedsAny(files, known, Roots(), m) || Needs(files, known, ElementName(name), m)
    ensures forall u :: NeedsPrimitive(files, known, name, u) <==> NeedsPrimitive(files, known, ElementName(name), u)
  {
    hide Needs, ElementName, LastTag;
    var e := ElementName(name);
    assert Deps(files, name) == Roots() + [e];
    NeedsStep(files, known, name);
    RootsPlain(files, known);
    forall m
      ensures NeedsAny(files, known, Roots() + [e], m) <==>
                NeedsAny(files, known, Roots(), m) || Needs(files, known, e, m)
    {
      assert e in Roots() + [e];
    }
    forall a, u | LastTag(a) == Some(u)
      ensures IsArrayName(a)
    {
      TagIsOfArray(a);
    }
  }

  lemma {:induction false} TagIsOfArray(a: string)
    requires LastTag(a).Some?
    ensures IsArrayName(a)
  {
  }

  /** What the element class needs, meets or enters is what is left for the array. */
  lemma {:induction false} ElementLeft(files: Files, rank: string -> nat, known: set<string>, known1: set<string>,
                                       prims: set<char>, name: string)
    requires WellNamed(files) && Acyclic(files, rank)
    requires IsArrayName(name) && LastTag(name) == None && name !in known
    requires LoadedFor(files, known, known1, Roots()) && AllAvailable(files, known, Roots())
    ensures Available(files, known, name) <==> Available(files, known1, ElementName(name))
    ensures Clashes(files, known, prims, name) <==> Clashes(files, known1, prims, ElementName(name))
    ensures forall m :: m in known1 || Enters(files, known1, ElementName(name), m) <==>
              m in known || (m != name && Enters(files, known, name, m))
    ensures forall m :: Needs(files, known1, ElementName(name), m) ==> Needs(files, known, name, m)
    ensures forall m :: m in known1 ==> m in known || Needs(files, known, name, m)
    ensures forall u :: NeedsPrimitive(files, known1, ElementName(name), u) <==> NeedsPrimitive(files, known, name, u)
  {
    hide Needs, Available, WellNamed, NeedsPrimitive, LastTag, ElementName, Acyclic;
    var e := ElementName(name);
    assert |name| > 1 by { LongName(name); }
    ElementNeeds(files, known, name);
    LaterNeeds(files, known, known1, Roots(), e);
    LaterAvailable(files, known, known1, Roots(), e);
    LaterPrimitive(files, known, known1, Roots(), e);
    AvailableStep(files, known, name);
    NotForItself(files, rank, known, name);
    assert CanDefine(files, name);
    assert e in Roots() + [e];
    assert !Needs(files, known, e, name);
    RootsPlain(files, known);
    forall t
      ensures [t] in known || Needs(files, known, name, [t]) <==> [t] in known1 || Needs(files, known1, e, [t])
    {
    }
  }

  lemma {:induction false} LongName(name: string)
    requires IsArrayName(name) && LastTag(name) == None
    ensures |name| > 1
  {
  }

  lemma {:induction false} ElementEnds(files: Files, rank: string -> nat, known: set<string>, known1: set<string>,
                                       known2: set<string>, prims: set<char>, name: string, r: LoadResult)
    requires WellNamed(files) && Acyclic(files, rank)
    requires IsArrayName(name) && LastTag(name) == None && name !in known
    requires LoadedFor(files, known, known1, Roots()) && AllAvailable(files, known, Roots())
    requires Outcome(files, known1, prims, ElementName(name), r)
    requires Added(files, known1, known2, ElementName(name), r.Loaded?)
    ensures Outcome(files, known, prims, name, r)
    ensures r.Loaded? ==> AddedBefore(files, known, known2, name)
    ensures !r.Loaded? ==> Added(files, known, known2, name, false)
  {
    hide Needs, Available, WellNamed, NeedsPrimitive, LastTag, ElementName, Acyclic, Clashes, Enters, LoadedFor;
    ElementLeft(files, rank, known, known1, prims, name);
  }

  // ----- loading -----

  ghost predicate Consistent(files: Files, cs: seq<ClassBlock>, cmap: map<string, nat>, prims: map<char, nat>) {
    Intact(files, cs) && Table(cs, cmap) && PrimTable(cs, cmap, prims)
  }

  /** Nothing is lost. */
  ghost predicate Grown(cs: seq<ClassBlock>, cmap: map<string, nat>, cs': seq<ClassBlock>, cmap': map<string, nat>) {
    Extends(cs, cs') && forall n :: n in cmap ==> n in cmap' && cmap'[n] == cmap[n]
  }

  lemma {:induction false} GrownThen(cs: seq<ClassBlock>, cmap: map<string, nat>, cs1: seq<ClassBlock>,
                                     cmap1: map<string, nat>, cs2: seq<ClassBlock>, cmap2: map<string, nat>)
    requires Grown(cs, cmap, cs1, cmap1) && Grown(cs1, cmap1, cs2, cmap2)
    ensures Grown(cs, cmap, cs2, cmap2) && Extends(cs1, cs2)
  {
  }

  lemma {:induction false} GrownRefl(cs: seq<ClassBlock>, cmap: map<string, nat>)
    ensures Grown(cs, cmap, cs, cmap)
  {
  }

  function PrimitiveBlock(n: string): ClassBlock {
    ClassBlock(n, None, [], false, PRIM, None, 0, [], [], 0, [], 0, 0)
  }

  /** `findPrimitiveClass` with `loadPrimitiveClass`. */
  method FindPrimitiveClass(area: MethodArea, ghost files: Files, tag: char) returns (r: LoadResult)
    requires Consistent(files, area.classes, area.cmap, area.prims)
    modifies area
    ensures Consistent(files, area.classes, area.cmap, area.prims)
    ensures Grown(old(area.classes), old(area.cmap), area.classes, area.cmap)
    ensures PrimitiveEnds(old(area.cmap).Keys, area.cmap.Keys, old(area.prims).Keys, tag, r)
    ensures r.Loaded? ==> tag in area.prims && area.prims[tag] == r.c && r.c < |area.classes|
    ensures r.Loaded? ==> area.classes[r.c].name == [tag] && area.classes[r.c].typeFlags == PRIM
    ensures area.prims.Keys == if r.Loaded? then old(area.prims).Keys + {tag} else old(area.prims).Keys
  {
    hide Finished, Intact, Table, PrimTable, Grown;
    ghost var cs, cmap, prims := area.classes, area.cmap, area.prims;
    PrimitiveKnown(files, cs, cmap, prims, tag);
    GrownRefl(cs, cmap);
    if !Descriptors.IsPrimitiveTag(tag) {
      return BadPrimitive([tag]);
    }
    if tag in area.prims {
      return Loaded(area.prims[tag]);
    }
    var cb := PrimitiveBlock([tag]);
    DefinedPrimitive(files, area.classes, tag);
    var inBounds;
    r, inBounds := Enter(area, files, cb);
    if r.DuplicateKey? {
      return;
    }
    area.prims := area.prims[tag := r.c];
    PrimitiveEntered(cs, cmap, prims, area.classes, area.cmap, tag);
  }

  lemma {:induction false} PrimitiveKnown(files: Files, cs: seq<ClassBlock>, cmap: map<string, nat>,
                                          prims: map<char, nat>, tag: char)
    requires Consistent(files, cs, cmap, prims)
    ensures tag in prims ==>
              && Descriptors.IsPrimitiveTag(tag) && [tag] in cmap
              && prims[tag] < |cs| && cs[prims[tag]].name == [tag] && cs[prims[tag]].typeFlags == PRIM
  {
    hide Finished;
    if tag in prims {
      assert Matches(files, cs, cmap[[tag]]);
    }
  }

  /** Entering a class that is not primitive leaves the primitive classes as they are. */
  lemma {:induction false} PrimStays(cs: seq<ClassBlock>, cmap: map<string, nat>, prims: map<char, nat>,
                                     cs': seq<ClassBlock>, cmap': map<string, nat>)
    requires Table(cs, cmap) && PrimTable(cs, cmap, prims) && Grown(cs, cmap, cs', cmap')
    requires forall n :: n in cmap' && n !in cmap ==> cmap'[n] < |cs'| && cs'[cmap'[n]].typeFlags != PRIM
    ensures PrimTable(cs', cmap', prims)
  {
  }

  lemma {:induction false} PrimitiveEntered(cs: seq<ClassBlock>, cmap: map<string, nat>, prims: map<char, nat>,
                                            cs': seq<ClassBlock>, cmap': map<string, nat>, tag: char)
    requires Table(cs, cmap) && PrimTable(cs, cmap, prims) && Extends(cs, cs') && [tag] !in cmap
    requires cmap' == cmap[[tag] := |cs|] && |cs'| == |cs| + 1 && cs'[|cs|].typeFlags == PRIM
    ensures Grown(cs, cmap, cs', cmap') && PrimTable(cs', cmap', prims[tag := |cs|])
    ensures cmap'.Keys == cmap.Keys + {[tag]} && prims[tag := |cs|].Keys == prims.Keys + {tag}
  {
    assert forall t: char :: [t] == [tag] ==> [t][0] == [tag][0];
  }

  lemma {:induction false} DefinedPrimitive(files: Files, cs: seq<ClassBlock>, tag: char)
    requires Intact(files, cs) && Descriptors.IsPrimitiveTag(tag)
    ensures Defined(files, cs, PrimitiveBlock([tag]))
  {
  }

  lemma {:induction false} StillNamed(cs: seq<ClassBlock>, cs': seq<ClassBlock>, ids: seq<nat>, names: seq<string>)
    requires AllNamed(cs, ids, names) && Extends(cs, cs')
    ensures AllNamed(cs', ids, names)
  {
  }

  lemma {:induction false} OneMoreNamed(cs: seq<ClassBlock>, ids: seq<nat>, names: seq<string>, c: nat)
    requires |ids| < |names| && AllNamed(cs, ids, names[..|ids|]) && c < |cs| && cs[c].name == names[|ids|]
    ensures AllNamed(cs, ids + [c], names[..|ids| + 1])
  {
  }

  datatype DefineResult = NewClass(cb: ClassBlock) | Failed(r: LoadResult)

  function SystemBlock(f: ClassFile, super: Option<nat>, interfaces: seq<nat>): ClassBlock {
    ClassBlock(f.name, super, interfaces, f.isInterface, 0, None, 0, f.methods, f.fields, 0, [], 0, 0)
  }

  lemma {:induction false} DefinedSystem(files: Files, cs: seq<ClassBlock>, cmap: map<string, nat>,
                                         prims: map<char, nat>, name: string, super: Option<nat>, interfaces: seq<nat>)
    requires Consistent(files, cs, cmap, prims) && WellNamed(files) && name in files
    requires Named(cs, super, files[name].super) && AllNamed(cs, interfaces, files[name].interfaces)
    ensures Defined(files, cs, SystemBlock(files[name], super, interfaces)) && files[name].name == name
  {
    hide Finished, Table, PrimTable;
    var cs' := cs + [SystemBlock(files[name], super, interfaces)];
    assert forall i :: i in interfaces ==> i < |cs|;
    assert AllNamed(cs', interfaces, files[name].interfaces);
  }

  /** The loop of `defineClass` over the interfaces. */
  method LoadInterfaces(area: MethodArea, files: Files, ghost rank: string -> nat, name: string)
    returns (interfaces: seq<nat>, r: LoadResult)
    requires Consistent(files, area.classes, area.cmap, area.prims) && WellNamed(files) && Acyclic(files, rank)
    requires name in files && name !in area.cmap
    modifies area
    ensures Consistent(files, area.classes, area.cmap, area.prims)
    ensures Grown(old(area.classes), old(area.cmap), area.classes, area.cmap) && area.prims == old(area.prims)
    ensures r.Loaded? ==>
              && AllNamed(area.classes, interfaces, files[name].interfaces)
              && AllAvailable(files, old(area.cmap).Keys, files[name].interfaces)
              && LoadedFor(files, old(area.cmap).Keys, area.cmap.Keys, files[name].interfaces)
    ensures !r.Loaded? ==> FailedFor(files, old(area.cmap).Keys, area.cmap.Keys, files[name].interfaces, r)
    decreases Weight(name), FileRank(files, rank, name), 0
  {
    hide Consistent, Grown, AllNamed, WellNamed, Acyclic, Extends, LoadedFor, AllAvailable, FailedFor, Outcome, Added;
    GrownRefl(area.classes, area.cmap);
    ghost var cs0, cmap0 := area.classes, area.cmap;
    var names := files[name].interfaces;
    interfaces, r := [], Loaded(0);
    assert AllNamed(area.classes, [], names[..0]) by { NoneNamed(area.classes, names); }
    assert names[..0] == [];
    NoneLoaded(files, cmap0.Keys);
    for i := 0 to |names|
      invariant Consistent(files, area.classes, area.cmap, area.prims) && area.prims == old(area.prims)
      invariant Grown(cs0, cmap0, area.classes, area.cmap)
      invariant |interfaces| == i && AllNamed(area.classes, interfaces, names[..i]) && r.Loaded?
      invariant AllAvailable(files, cmap0.Keys, names[..i])
      invariant LoadedFor(files, cmap0.Keys, area.cmap.Keys, names[..i])
    {
      ghost var cs, cmap := area.classes, area.cmap;
      ParentFacts(files, rank, name, names[i]);
      r := LoadClass(area, files, rank, names[i]);
      GrownThen(cs0, cmap0, cs, cmap, area.classes, area.cmap);
      PlainNext(files, cmap0.Keys, cmap.Keys, area.cmap.Keys, area.prims.Keys, names[..i], names[i], r);
      assert names[..i] + [names[i]] == names[..i + 1];
      if !r.Loaded? {
        FailedForMore(files, cmap0.Keys, area.cmap.Keys, names[..i + 1], names, r);
        return;
      }
      StillNamed(cs, area.classes, interfaces, names[..i]);
      OneMoreNamed(area.classes, interfaces, names, r.c);
      interfaces := interfaces + [r.c];
    }
    assert names[..|names|] == names;
  }

  lemma {:induction false} NoneNamed(cs: seq<ClassBlock>, names: seq<string>)
    ensures AllNamed(cs, [], names[..0])
  {
  }

  lemma {:induction false} ParentFacts(files: Files, rank: string -> nat, name: string, s: string)
    requires WellNamed(files) && Acyclic(files, rank) && name in files
    requires s in files[name].interfaces || files[name].super == Some(s)
    ensures !IsArrayName(s) && Below(files, rank, s, name)
  {
    assert s in Parents(files[name]);
    DepsBelow(files, rank, name, s);
  }

  /** `loadSystemClass` and `defineClass`: find the file, then load its interfaces and its
      superclass. */
  method LoadSystemClass(area: MethodArea, files: Files, ghost rank: string -> nat, name: string)
    returns (d: DefineResult)
    requires Consistent(files, area.classes, area.cmap, area.prims) && WellNamed(files) && Acyclic(files, rank)
    requires name !in area.cmap && !IsArrayName(name)
    modifies area
    ensures Consistent(files, area.classes, area.cmap, area.prims)
    ensures Grown(old(area.classes), old(area.cmap), area.classes, area.cmap) && area.prims == old(area.prims)
    ensures d.NewClass? ==> d.cb.name == name && d.cb.typeFlags == 0 && Defined(files, area.classes, d.cb)
    ensures d.NewClass? ==>
              && Available(files, old(area.cmap).Keys, name)
              && AddedBefore(files, old(area.cmap).Keys, area.cmap.Keys, name)
    ensures d.Failed? ==>
              && !d.r.Loaded? && Outcome(files, old(area.cmap).Keys, old(area.prims).Keys, name, d.r)
              && Added(files, old(area.cmap).Keys, area.cmap.Keys, name, false)
    decreases Weight(name), FileRank(files, rank, name), 1
  {
    hide Grown, AllNamed, Consistent, Acyclic, Extends, Defined, WellNamed;
    hide LoadedFor, AllAvailable, FailedFor, Outcome, Added, AddedBefore, Available;
    GrownRefl(area.classes, area.cmap);
    ghost var cs0, cmap0 := area.classes, area.cmap;
    if name !in files {
      NoFile(files, cmap0.Keys, area.prims.Keys, name);
      return Failed(NoClassDefFound(name));
    }
    var file := files[name];
    FileDeps(files, name);
    var interfaces, r := LoadInterfaces(area, files, rank, name);
    if !r.Loaded? {
      FailedForMore(files, cmap0.Keys, area.cmap.Keys, file.interfaces, Deps(files, name), r);
      FailedName(files, cmap0.Keys, area.cmap.Keys, area.prims.Keys, name, r);
      return Failed(r);
    }
    if file.super == None {
      assert Parents(file) == file.interfaces;
      ParentsLoaded(files, rank, cmap0.Keys, area.cmap.Keys, name);
      DefinedSystem(files, area.classes, area.cmap, area.prims, name, None, interfaces);
      return NewClass(SystemBlock(file, None, interfaces));
    }
    ghost var cs, cmap := area.classes, area.cmap;
    ParentFacts(files, rank, name, file.super.value);
    r := LoadClass(area, files, rank, file.super.value);
    GrownThen(cs0, cmap0, cs, cmap, area.classes, area.cmap);
    PlainNext(files, cmap0.Keys, cmap.Keys, area.cmap.Keys, area.prims.Keys, file.interfaces, file.super.value, r);
    if !r.Loaded? {
      FailedName(files, cmap0.Keys, area.cmap.Keys, area.prims.Keys, name, r);
      return Failed(r);
    }
    ParentsLoaded(files, rank, cmap0.Keys, area.cmap.Keys, name);
    StillNamed(cs, area.classes, interfaces, file.interfaces);
    DefinedSystem(files, area.classes, area.cmap, area.prims, name, Some(r.c), interfaces);
    return NewClass(SystemBlock(file, Some(r.c), interfaces));
  }

  lemma {:induction false} FileDeps(files: Files, name: string)
    requires name in files && !IsArrayName(name)
    ensures Deps(files, name) == Parents(files[name])
    ensures forall s :: s in files[name].interfaces ==> s in Deps(files, name)
  {
  }

  lemma {:induction false} NoFile(files: Files, known: set<string>, prims: set<char>, name: string)
    requires name !in files && name !in known && !IsArrayName(name)
    ensures Outcome(files, known, prims, name, NoClassDefFound(name)) && Added(files, known, known, name, false)
  {
    NeedsStep(files, known, name);
  }

  function ArrayBlock(n: string, super: nat, cloneable: nat, serializable: nat, element: nat, dim: nat): ClassBlock {
    ClassBlock(n, Some(super), [cloneable, serializable], false, 0, Some(element), dim, [], [], 0, [], 0, 0)
  }

  lemma {:induction false} DefinedArray(files: Files, cs: seq<ClassBlock>, cmap: map<string, nat>,
                                        prims: map<char, nat>, n: string, super: nat, cloneable: nat,
                                        serializable: nat, element: nat)
    requires Consistent(files, cs, cmap, prims) && IsArrayName(n)
    requires Named(cs, Some(super), Some(OBJECT)) && Named(cs, Some(element), Some(ElementName(n)))
    requires LastTag(n).Some? ==> cs[element].typeFlags == PRIM
    requires Named(cs, Some(cloneable), Some(CLONEABLE)) && Named(cs, Some(serializable), Some(SERIALIZABLE))
    ensures var dim := 1 + if |n| > 1 && n[1] == '[' then cs[element].dim else 0;
            Defined(files, cs, ArrayBlock(n, super, cloneable, serializable, element, dim))
  {
    hide Finished, Table, PrimTable;
  }

  lemma {:induction false} StillNamedOne(cs: seq<ClassBlock>, cs': seq<ClassBlock>, c: nat, n: string)
    requires Named(cs, Some(c), Some(n)) && Extends(cs, cs')
    ensures Named(cs', Some(c), Some(n))
  {
  }

  lemma {:induction false} RootsBelow(files: Files, rank: string -> nat, name: string)
    requires IsArrayName(name)
    ensures forall d :: d in Roots() ==> Below(files, rank, d, name)
    ensures LastTag(name) == None ==> Below(files, rank, ElementName(name), name)
  {
    assert OBJECT[0] == 'j' && CLONEABLE[0] == 'j' && SERIALIZABLE[0] == 'j';
  }

  /** `loadArrayClass`, its first part: Object, Cloneable and Serializable. */
  method LoadRoots(area: MethodArea, files: Files, ghost rank: string -> nat, name: string)
    returns (super: nat, cloneable: nat, serializable: nat, r: LoadResult)
    requires Consistent(files, area.classes, area.cmap, area.prims) && WellNamed(files) && Acyclic(files, rank)
    requires IsArrayName(name)
    modifies area
    ensures Consistent(files, area.classes, area.cmap, area.prims)
    ensures Grown(old(area.classes), old(area.cmap), area.classes, area.cmap) && area.prims == old(area.prims)
    ensures r.Loaded? ==>
              && Named(area.classes, Some(super), Some(OBJECT)) && Named(area.classes, Some(cloneable), Some(CLONEABLE))
              && Named(area.classes, Some(serializable), Some(SERIALIZABLE))
              && AllAvailable(files, old(area.cmap).Keys, Roots())
              && LoadedFor(files, old(area.cmap).Keys, area.cmap.Keys, Roots())
    ensures !r.Loaded? ==> FailedFor(files, old(area.cmap).Keys, area.cmap.Keys, Roots(), r)
    decreases Weight(name), FileRank(files, rank, name), 0
  {
    hide Consistent, Grown, WellNamed, Acyclic, Extends, LoadedFor, AllAvailable, FailedFor, Outcome, Added, Below;
    RootsBelow(files, rank, name);
    ghost var cs0, cmap0 := area.classes, area.cmap;
    super, cloneable, serializable := 0, 0, 0;
    NoneLoaded(files, cmap0.Keys);
    GrownRefl(cs0, cmap0);
    r := LoadClass(area, files, rank, OBJECT);
    ghost var cs1, cmap1 := area.classes, area.cmap;
    RootNext(files, cs0, cmap0, cs0, cmap0, cs1, cmap1, area.prims.Keys, 0, r);
    if !r.Loaded? {
      return;
    }
    super := r.c;
    r := LoadClass(area, files, rank, CLONEABLE);
    ghost var cs2, cmap2 := area.classes, area.cmap;
    RootNext(files, cs0, cmap0, cs1, cmap1, cs2, cmap2, area.prims.Keys, 1, r);
    if !r.Loaded? {
      return;
    }
    cloneable := r.c;
    r := LoadClass(area, files, rank, SERIALIZABLE);
    RootNext(files, cs0, cmap0, cs2, cmap2, area.classes, area.cmap, area.prims.Keys, 2, r);
    if !r.Loaded? {
      return;
    }
    serializable := r.c;
    StillNamedOne(cs1, cs2, super, OBJECT);
    StillNamedOne(cs2, area.classes, super, OBJECT);
    StillNamedOne(cs2, area.classes, cloneable, CLONEABLE);
    assert Roots()[..3] == Roots();
  }

  /** The i-th root, loaded after those before it. */
  lemma {:induction false} RootNext(files: Files, cs: seq<ClassBlock>, cmap: map<string, nat>, cs1: seq<ClassBlock>,
                                    cmap1: map<string, nat>, cs2: seq<ClassBlock>, cmap2: map<string, nat>,
                                    prims: set<char>, i: nat, r: LoadResult)
    requires WellNamed(files) && i < 3 && Grown(cs, cmap, cs1, cmap1) && Grown(cs1, cmap1, cs2, cmap2)
    requires LoadedFor(files, cmap.Keys, cmap1.Keys, Roots()[..i]) && AllAvailable(files, cmap.Keys, Roots()[..i])
    requires Outcome(files, cmap1.Keys, prims, Roots()[i], r)
             && Added(files, cmap1.Keys, cmap2.Keys, Roots()[i], r.Loaded?)
    ensures Grown(cs, cmap, cs2, cmap2) && Extends(cs1, cs2)
    ensures r.Loaded? ==>
              && AllAvailable(files, cmap.Keys, Roots()[..i + 1])
              && LoadedFor(files, cmap.Keys, cmap2.Keys, Roots()[..i + 1])
    ensures !r.Loaded? ==> FailedFor(files, cmap.Keys, cmap2.Keys, Roots(), r)
  {
    hide LoadedFor, AllAvailable, FailedFor, Outcome, Added, WellNamed, Roots;
    GrownThen(cs, cmap, cs1, cmap1, cs2, cmap2);
    hide Grown, Extends;
    var ds := Roots()[..i];
    assert Roots()[i] in Roots();
    PlainNext(files, cmap.Keys, cmap1.Keys, cmap2.Keys, prims, ds, Roots()[i], r);
    assert ds + [Roots()[i]] == Roots()[..i + 1];
    if !r.Loaded? {
      FailedForMore(files, cmap.Keys, cmap2.Keys, Roots()[..i + 1], Roots(), r);
    }
  }

  /** `loadArrayClass`: Object, Cloneable and Serializable first, then the element class. */
  method LoadArrayClass(area: MethodArea, files: Files, ghost rank: string -> nat, name: string)
    returns (d: DefineResult)
    requires Consistent(files, area.classes, area.cmap, area.prims) && WellNamed(files) && Acyclic(files, rank)
    requires name !in area.cmap && IsArrayName(name)
    modifies area
    ensures Consistent(files, area.classes, area.cmap, area.prims)
    ensures Grown(old(area.classes), old(area.cmap), area.classes, area.cmap)
    ensures d.NewClass? ==> d.cb.name == name && d.cb.typeFlags == 0 && Defined(files, area.classes, d.cb)
    ensures d.NewClass? ==>
              && Available(files, old(area.cmap).Keys, name)
              && !Clashes(files, old(area.cmap).Keys, old(area.prims).Keys, name)
              && AddedBefore(files, old(area.cmap).Keys, area.cmap.Keys, name)
    ensures d.Failed? ==>
              && !d.r.Loaded? && Outcome(files, old(area.cmap).Keys, old(area.prims).Keys, name, d.r)
              && Added(files, old(area.cmap).Keys, area.cmap.Keys, name, false)
    decreases Weight(name), FileRank(files, rank, name), 1
  {
    hide Grown, Consistent, WellNamed, Acyclic, Extends, Defined, Below;
    hide LoadedFor, AllAvailable, FailedFor, Added, AddedBefore, Available, Clashes, LastTag, ElementName, Roots;
    hide NeedsPrimitive, Needs;
    ghost var cs0, cmap0, prims0 := area.classes, area.cmap, area.prims;
    var super, cloneable, serializable, r := LoadRoots(area, files, rank, name);
    if !r.Loaded? {
      RootsAreDeps(files, name);
      FailedForMore(files, cmap0.Keys, area.cmap.Keys, Roots(), Deps(files, name), r);
      FailedName(files, cmap0.Keys, area.cmap.Keys, prims0.Keys, name, r);
      return Failed(r);
    }
    ghost var cs1, cmap1 := area.classes, area.cmap;
    r := LoadElement(area, files, rank, name);
    GrownThen(cs0, cmap0, cs1, cmap1, area.classes, area.cmap);
    ArrayEnds(files, rank, cmap0.Keys, cmap1.Keys, area.cmap.Keys, prims0.Keys, name, r);
    if !r.Loaded? {
      return Failed(r);
    }
    StillNamedOne(cs1, area.classes, super, OBJECT);
    StillNamedOne(cs1, area.classes, cloneable, CLONEABLE);
    StillNamedOne(cs1, area.classes, serializable, SERIALIZABLE);
    DefinedArray(files, area.classes, area.cmap, area.prims, name, super, cloneable, serializable, r.c);
    var dim := 1 + if |name| > 1 && name[1] == '[' then area.classes[r.c].dim else 0;
    return NewClass(ArrayBlock(name, super, cloneable, serializable, r.c, dim));
  }

  lemma {:induction false} RootsAreDeps(files: Files, name: string)
    requires IsArrayName(name)
    ensures forall d :: d in Roots() ==> d in Deps(files, name)
  {
  }

  /** How the part of `loadArrayClass` after the roots ends. */
  ghost predicate ElementOutcome(files: Files, known: set<string>, known': set<string>, prims: set<char>, name: string,
                                 r: LoadResult)
    requires IsArrayName(name)
  {
    match LastTag(name)
    case Some(t) => PrimitiveEnds(known, known', prims, t, r)
    case None =>
      Outcome(files, known, prims, ElementName(name), r) && Added(files, known, known', ElementName(name), r.Loaded?)
  }

  lemma {:induction false} ArrayEnds(files: Files, rank: string -> nat, known: set<string>, known1: set<string>,
                                     known2: set<string>, prims: set<char>, name: string, r: LoadResult)
    requires WellNamed(files) && Acyclic(files, rank) && IsArrayName(name) && name !in known
    requires LoadedFor(files, known, known1, Roots()) && AllAvailable(files, known, Roots())
    requires ElementOutcome(files, known1, known2, prims, name, r)
    ensures Outcome(files, known, prims, name, r)
    ensures r.Loaded? ==> AddedBefore(files, known, known2, name)
    ensures !r.Loaded? ==> Added(files, known, known2, name, false)
  {
    hide WellNamed, Acyclic, LoadedFor, AllAvailable, Outcome, Added, AddedBefore, PrimitiveEnds, LastTag, ElementName;
    match LastTag(name)
    case Some(t) => TagEnds(files, known, known1, known2, prims, name, t, r);
    case None => ElementEnds(files, rank, known, known1, known2, prims, name, r);
  }

  /** The part of `loadArrayClass` that reads the element class off the name. */
  method LoadElement(area: MethodArea, files: Files, ghost rank: string -> nat, name: string) returns (r: LoadResult)
    requires Consistent(files, area.classes, area.cmap, area.prims) && WellNamed(files) && Acyclic(files, rank)
    requires IsArrayName(name)
    modifies area
    ensures Consistent(files, area.classes, area.cmap, area.prims)
    ensures Grown(old(area.classes), old(area.cmap), area.classes, area.cmap)
    ensures ElementOutcome(files, old(area.cmap).Keys, area.cmap.Keys, old(area.prims).Keys, name, r)
    ensures r.Loaded? ==> Named(area.classes, Some(r.c), Some(ElementName(name)))
    ensures r.Loaded? && LastTag(name).Some? ==> area.classes[r.c].typeFlags == PRIM
    decreases Weight(name), FileRank(files, rank, name), 0
  {
    hide Grown, Acyclic, Below, Consistent, WellNamed, Outcome, Added, PrimitiveEnds;
    RootsBelow(files, rank, name);
    var n := |name|;
    if (n > 1 && name[1] == '[') || (name[n - 1] == ';' && n >= 3) {
      var elem := if n > 1 && name[1] == '[' then name[1..] else name[2..n - 1];
      r := LoadClass(area, files, rank, elem);
    } else {
      r := FindPrimitiveClass(area, files, name[n - 1]);
    }
  }

  /** `loadClass`: answers from the table, or loads what is needed and enters the class. */
  method LoadClass(area: MethodArea, files: Files, ghost rank: string -> nat, name: string) returns (r: LoadResult)
    requires Consistent(files, area.classes, area.cmap, area.prims) && WellNamed(files) && Acyclic(files, rank)
    modifies area
    ensures Consistent(files, area.classes, area.cmap, area.prims)
    ensures Grown(old(area.classes), old(area.cmap), area.classes, area.cmap)
    ensures r.Loaded? <==>
              && Available(files, old(area.cmap).Keys, name)
              && !Clashes(files, old(area.cmap).Keys, old(area.prims).Keys, name)
    ensures Outcome(files, old(area.cmap).Keys, old(area.prims).Keys, name, r)
    ensures Added(files, old(area.cmap).Keys, area.cmap.Keys, name, r.Loaded?)
    ensures r.Loaded? ==>
              name in area.cmap && area.cmap[name] == r.c && r.c < |area.classes| && area.classes[r.c].name == name
    ensures r.Loaded? && name !in old(area.cmap) ==> r.c == |area.classes| - 1 && area.classes[r.c].typeFlags == 0
    ensures !IsArrayName(name) ==> area.prims == old(area.prims)
    decreases Weight(name), FileRank(files, rank, name), 3
  {
    hide Consistent, Grown, WellNamed, Acyclic, Defined, Extends, Outcome, Added, AddedBefore, Available, Clashes;
    ghost var cs0, cmap0, prims0 := area.classes, area.cmap, area.prims;
    if name in area.cmap {
      Found(files, area.classes, area.cmap, area.prims, name);
      return Loaded(area.cmap[name]);
    }
    var d;
    if |name| > 0 && name[0] == '[' {
      d := LoadArrayClass(area, files, rank, name);
    } else {
      d := LoadSystemClass(area, files, rank, name);
      PlainNeeds(files, cmap0.Keys, name);
    }
    if d.Failed? {
      OutcomeExact(files, cmap0.Keys, prims0.Keys, name, d.r);
      return d.r;
    }
    ghost var cs, cmap := area.classes, area.cmap;
    NotYetLoaded(files, cmap0.Keys, cmap.Keys, name);
    ConsistentParts(files, cs, cmap, area.prims);
    var inBounds;
    r, inBounds := Enter(area, files, d.cb);
    EnteredOne(files, cs0, cmap0, cs, cmap, area.classes, area.cmap, area.prims, prims0.Keys, name, r);
  }

  lemma {:induction false} ConsistentParts(files: Files, cs: seq<ClassBlock>, cmap: map<string, nat>,
                                           prims: map<char, nat>)
    requires Consistent(files, cs, cmap, prims)
    ensures Intact(files, cs) && Table(cs, cmap) && PrimTable(cs, cmap, prims)
  {
    hide Intact, Table, PrimTable;
  }

  /** The name itself is not yet in the table. */
  lemma {:induction false} NotYetLoaded(files: Files, known: set<string>, known': set<string>, name: string)
    requires AddedBefore(files, known, known', name) && name !in known
    ensures name !in known'
  {
  }

  lemma {:induction false} EnteredOne(files: Files, cs: seq<ClassBlock>, cmap: map<string, nat>, cs1: seq<ClassBlock>,
                                      cmap1: map<string, nat>, cs2: seq<ClassBlock>, cmap2: map<string, nat>,
                                      prims: map<char, nat>, prims0: set<char>, name: string, r: LoadResult)
    requires Grown(cs, cmap, cs1, cmap1) && Extends(cs1, cs2) && name !in cmap && name !in cmap1 && r == Loaded(|cs1|)
    requires Table(cs1, cmap1) && PrimTable(cs1, cmap1, prims) && cmap2 == cmap1[name := |cs1|]
    requires |cs2| == |cs1| + 1 && cs2[|cs1|].typeFlags != PRIM
    requires Intact(files, cs2) && Table(cs2, cmap2)
    requires AddedBefore(files, cmap.Keys, cmap1.Keys, name)
    requires Available(files, cmap.Keys, name) && !Clashes(files, cmap.Keys, prims0, name)
    ensures Grown(cs, cmap, cs2, cmap2) && Consistent(files, cs2, cmap2, prims)
    ensures Outcome(files, cmap.Keys, prims0, name, r) && Added(files, cmap.Keys, cmap2.Keys, name, true)
  {
    hide Intact, Table, Available, Clashes, Needs, NeedsPrimitive, PrimTable;
    assert Grown(cs1, cmap1, cs2, cmap2);
    PrimStays(cs1, cmap1, prims, cs2, cmap2);
    NeedsStep(files, cmap.Keys, name);
    assert Enters(files, cmap.Keys, name, name);
  }

  lemma {:induction false} Found(files: Files, cs: seq<ClassBlock>, cmap: map<string, nat>, prims: map<char, nat>,
                                 name: string)
    requires Consistent(files, cs, cmap, prims) && name in cmap
    ensures cmap[name] < |cs| && cs[cmap[name]].name == name && Grown(cs, cmap, cs, cmap)
    ensures Available(files, cmap.Keys, name) && !Clashes(files, cmap.Keys, prims.Keys, name)
    ensures Outcome(files, cmap.Keys, prims.Keys, name, Loaded(cmap[name]))
            && Added(files, cmap.Keys, cmap.Keys, name, true)
  {
    hide Intact, PrimTable, Needs;
    NeedsStep(files, cmap.Keys, name);
  }

  /** `findArrayClass`: an array class that is loaded here gets the array flag; one that is in the
      table already keeps the flags it has. */
  method FindArrayClass(area: MethodArea, files: Files, ghost rank: string -> nat, name: string) returns (r: LoadResult)
    requires Consistent(files, area.classes, area.cmap, area.prims) && WellNamed(files) && Acyclic(files, rank)
    requires IsArrayName(name)
    modifies area
    ensures Consistent(files, area.classes, area.cmap, area.prims)
    ensures Grown(old(area.classes), old(area.cmap), area.classes, area.cmap)
    ensures Outcome(files, old(area.cmap).Keys, old(area.prims).Keys, name, r)
    ensures Added(files, old(area.cmap).Keys, area.cmap.Keys, name, r.Loaded?)
    ensures r.Loaded? ==>
              name in area.cmap && area.cmap[name] == r.c && r.c < |area.classes| && area.classes[r.c].name == name
    ensures name in old(area.cmap) ==> r.Loaded? && area.classes == old(area.classes)
    ensures name !in old(area.cmap) && r.Loaded? ==> area.classes[r.c].typeFlags == ARRAY
  {
    hide Consistent, WellNamed, Acyclic, Outcome, Added, Available, Clashes;
    if name in area.cmap {
      Found(files, area.classes, area.cmap, area.prims, name);
      return Loaded(area.cmap[name]);
    }
    r := LoadClass(area, files, rank, name);
    if r.Loaded? {
      NewBlock(files, old(area.classes), old(area.cmap), old(area.prims), area.classes, name, r.c);
      FlagKeeps(files, area.classes, area.cmap, area.prims, r.c);
      area.classes := area.classes[r.c := area.classes[r.c].(typeFlags := ARRAY)];
    }
  }

  /** The block of a name that was not in the table is new. */
  lemma {:induction false} NewBlock(files: Files, cs: seq<ClassBlock>, cmap: map<string, nat>, prims: map<char, nat>,
                                    cs': seq<ClassBlock>, name: string, c: nat)
    requires Consistent(files, cs, cmap, prims) && Extends(cs, cs') && name !in cmap
    requires c < |cs'| && cs'[c].name == name
    ensures c >= |cs|
  {
    hide Intact, PrimTable;
  }

  lemma {:induction false} FlagKeeps(files: Files, cs: seq<ClassBlock>, cmap: map<string, nat>, prims: map<char, nat>,
                                     c: nat)
    requires Consistent(files, cs, cmap, prims) && |cs| == c + 1 && IsArrayName(cs[c].name) && cs[c].typeFlags == 0
    ensures Consistent(files, cs[c := cs[c].(typeFlags := ARRAY)], cmap, prims)
  {
    hide Prepared, Linked, FieldsPlaced;
    var cs' := cs[c := cs[c].(typeFlags := ARRAY)];
    assert Finished(cs, c) && Matches(files, cs, c);
    AgreePrepared(cs, cs', c);
    AgreePlaced(cs, cs', c);
    assert Finished(cs', c) && Matches(files, cs', c);
    IntactButLast(files, cs, cs');
  }

  lemma {:induction false} IntactButLast(files: Files, cs: seq<ClassBlock>, cs': seq<ClassBlock>)
    requires Intact(files, cs) && Ordered(cs') && |cs'| == |cs| > 0 && cs'[..|cs| - 1] == cs[..|cs| - 1]
    requires Finished(cs', |cs| - 1) && Matches(files, cs', |cs| - 1)
    ensures Intact(files, cs')
  {
    hide Finished, Matches;
    var front := cs[..|cs| - 1];
    forall a | 0 <= a < |front|
      ensures cs'[a] == cs[a] == front[a]
    {
      assert cs'[..|cs| - 1][a] == cs'[a];
    }
    forall c | 0 <= c < |cs| - 1
      ensures Finished(cs', c) && Matches(files, cs', c)
    {
      StillFinished(files, cs, cs', c);
    }
  }

  // ----- what a loaded table guarantees -----

  /** The table is closed: the superclass, the interfaces and the element of every loaded class
      are themselves loaded, under their own names. */
  lemma {:induction false} TableClosed(files: Files, cs: seq<ClassBlock>, cmap: map<string, nat>,
                                           prims: map<char, nat>, c: nat)
    requires Consistent(files, cs, cmap, prims) && c < |cs|
    ensures forall d: nat :: cs[c].super == Some(d) || cs[c].element == Some(d) || d in cs[c].interfaces ==>
              d < c && cs[d].name in cmap && cmap[cs[d].name] == d && cs[d].flags >= PREPARED
    ensures forall d: nat :: cs[c].super == Some(d) && !cs[d].isInterface && !cs[c].isInterface ==>
              cs[d].flags == LINKED && cs[c].flags == LINKED
  {
    hide Prepared, Linked, FieldsPlaced, Matches;
    forall d: nat | cs[c].super == Some(d) || cs[c].element == Some(d) || d in cs[c].interfaces
      ensures d < c && cs[d].name in cmap && cmap[cs[d].name] == d && cs[d].flags >= PREPARED
    {
      assert Finished(cs, d);
    }
    assert Finished(cs, c);
    if cs[c].super.Some? {
      assert Finished(cs, cs[c].super.value);
    }
  }

  /** The element of a loaded array is the class its descriptor names: the class of that name, the
      array of that descriptor, or the primitive class itself. */
  lemma {:induction false} ElementIsLoaded(files: Files, cs: seq<ClassBlock>, cmap: map<string, nat>,
                                           prims: map<char, nat>, e: Descriptors.FieldType)
    requires Consistent(files, cs, cmap, prims) && Descriptors.WellFormed(e)
    requires Descriptors.Spell(Descriptors.Array(e)) in cmap
    ensures var c := cmap[Descriptors.Spell(Descriptors.Array(e))];
            && c < |cs| && cs[c].element.Some? && cs[c].element.value < c
            && cs[cs[c].element.value].name == NameOf(e)
    ensures e.Prim? ==> cs[cs[cmap[Descriptors.Spell(Descriptors.Array(e))]].element.value].typeFlags == PRIM
  {
    hide Finished, SameMethods, SameFields, ElementName, LastTag;
    var name := Descriptors.Spell(Descriptors.Array(e));
    ElementOfSpelling(e);
    assert |name| > 1 by { assert name == "[" + Descriptors.Spell(e); }
    assert Matches(files, cs, cmap[name]);
    assert !IsPrimitiveName(name);
  }

  /** The dimension of a loaded class is the number of leading brackets of its name. */
  lemma {:induction false} DimIsBrackets(files: Files, cs: seq<ClassBlock>, c: nat)
    requires Intact(files, cs) && WellNamed(files) && c < |cs|
    ensures cs[c].dim == LeadingBrackets(cs[c].name)
    decreases c
  {
    hide Finished;
    assert Matches(files, cs, c);
    var n := cs[c].name;
    if IsArrayName(n) {
      if |n| > 1 && n[1] == '[' {
        DimIsBrackets(files, cs, cs[c].element.value);
      } else {
        assert LeadingBrackets(n[1..]) == 0;
      }
    }
  }

  /** A chain of classes, none of them an interface. */
  ghost predicate ClassChain(cs: seq<ClassBlock>, c: nat)
    requires Ordered(cs) && c < |cs|
    decreases c
  {
    && !cs[c].isInterface && Dispatch.UniqueSignatures(cs[c])
    && cs[c].tableSize < 0x1_0000 && |cs[c].methods| < 0x1_0000
    && (cs[c].super.Some? ==> ClassChain(cs, cs[c].super.value))
  }

  /** Loading leaves every class chain ready for dispatch and laid out for field access. */
  lemma {:induction false} LoadedChainIsReady(files: Files, cs: seq<ClassBlock>, c: nat)
    requires Intact(files, cs) && c < |cs| && ClassChain(cs, c)
    ensures Dispatch.Ready(cs, c) && LaidOut(cs, c)
    decreases c
  {
    hide Prepared, Linked, FieldsPlaced, Matches, Dispatch.UniqueSignatures;
    assert Finished(cs, c);
    if cs[c].super.Some? {
      LoadedChainIsReady(files, cs, cs[c].super.value);
    }
  }

  /** Linking a class of a loaded chain stayed inside its table, unless the table is empty and the
      class has a virtual method. */
  lemma {:induction false} LoadedWritesInside(files: Files, cs: seq<ClassBlock>, c: nat)
    requires Intact(files, cs) && c < |cs| && ClassChain(cs, c)
    ensures WritesInside(cs[c]) <==>
              cs[c].tableSize > 0 || forall i :: 0 <= i < |cs[c].methods| ==> !Virtual(cs[c].methods[i])
  {
    hide Dispatch.Ready, Intact, ClassChain, WritesInside;
    LoadedChainIsReady(files, cs, c);
    IntactOrdered(files, cs);
    Dispatch.WritesInsideExactly(cs, c);
  }

  lemma {:induction false} IntactOrdered(files: Files, cs: seq<ClassBlock>)
    requires Intact(files, cs)
    ensures Ordered(cs)
  {
    hide Ordered;
  }
}
