/**
 Class files with the names of primitive types. `loadPrimitiveClass` enters "B", "I" and the other
 primitive classes in the same table as the class files; this module says when the two collide.
*/
module Boot {
  import opened Options
  import opened Classes
  import opened ClassFiles
  import opened Loader
  import Descriptors

  const PRIM_CLASS_NAME: seq<char> := ['B', 'S', 'I', 'J', 'C', 'F', 'D', 'Z']

  /** All primitive classes have been entered. */
  ghost predicate Booted(prims: set<char>) {
    forall t :: Descriptors.IsPrimitiveTag(t) ==> t in prims
  }

  /** Every parent of a file, and the three classes that arrays need, have files. */
  ghost predicate Closed(files: Files) {
    && (forall d :: d in Roots() ==> d in files)
    && (forall n, s :: n in files && s in Parents(files[n]) ==> s in files)
  }

  lemma {:induction false} ClosedNeedsIn(files: Files, known: set<string>, n: string, m: string, k: nat)
    requires Closed(files) && WellNamed(files) && n in files && NeedsIn(files, known, n, m, k)
    ensures m in files && !IsArrayName(m)
    decreases k
  {
    if m != n {
      var d :| d in Deps(files, n) && NeedsIn(files, known, d, m, k - 1);
      ClosedNeedsIn(files, known, d, m, k - 1);
    }
  }

  lemma {:induction false} ClosedAvailable(files: Files, known: set<string>, n: string)
    requires Closed(files) && WellNamed(files) && n in files
    ensures Available(files, known, n)
  {
    hide NeedsIn, Closed, WellNamed;
    forall m | Needs(files, known, n, m)
      ensures CanDefine(files, m)
    {
      var k := NeedsSteps(files, known, n, m);
      ClosedNeedsIn(files, known, n, m, k);
    }
  }

  // ----- when the duplicate handler can fire -----

  /** The table's entry for a primitive name is the primitive class or comes from a file. */
  lemma {:induction false} EntryForTag(files: Files, cs: seq<ClassBlock>, cmap: map<string, nat>, prims: map<char, nat>,
                                       t: char)
    requires Consistent(files, cs, cmap, prims) && Descriptors.IsPrimitiveTag(t) && [t] in cmap && t !in prims
    ensures [t] in files
  {
    hide Finished;
    assert Matches(files, cs, cmap[[t]]);
  }

  /** A duplicate can only be reported for a primitive name that a file has. */
  lemma {:induction false} DuplicateIsAFile(files: Files, cs: seq<ClassBlock>, cmap: map<string, nat>,
                                            prims: map<char, nat>, name: string, r: LoadResult)
    requires Consistent(files, cs, cmap, prims)
    requires Outcome(files, cmap.Keys, prims.Keys, name, r) && r.DuplicateKey?
    ensures IsPrimitiveName(r.n) && r.n in files
  {
    hide Consistent, Needs, Clashes;
    var a :| Needs(files, cmap.Keys, name, a) && LastTag(a) == Some(r.n[0]);
    assert CanDefine(files, a) && r.n == [r.n[0]];
    if r.n in cmap {
      EntryForTag(files, cs, cmap, prims, r.n[0]);
    } else {
      assert CanDefine(files, r.n);
    }
  }

  lemma {:induction false} ArrayClashes(files: Files, known: set<string>, t: char)
    requires WellNamed(files) && Closed(files) && Descriptors.IsPrimitiveTag(t)
    requires ['[', t] !in known && [t] in known
    ensures Available(files, known, ['[', t]) && Clashes(files, known, {}, ['[', t])
    ensures forall u :: NeedsPrimitive(files, known, ['[', t], u) <==> u == t
  {
    hide Needs, NeedsPrimitive, Available, WellNamed;
    var name := ['[', t];
    TagNeeds(files, known, name, t);
    AvailableStep(files, known, name);
    forall d | d in Roots()
      ensures Available(files, known, d)
    {
      ClosedAvailable(files, known, d);
    }
  }

  /** Loading a plain class into the empty table enters it and no arrays. */
  lemma {:induction false} OnlyPlainAdded(files: Files, known: set<string>, n: string)
    requires WellNamed(files) && !IsArrayName(n) && Added(files, {}, known, n, true)
    ensures n in known && forall m :: m in known ==> !IsArrayName(m)
  {
    hide Needs, NeedsPrimitive, Clashes;
    PlainNeeds(files, {}, n);
    NeedsStep(files, {}, n);
  }

  /** With a file for the primitive name, loading first the file's class and then the array of the
      primitive type ends in the duplicate handler. */
  method LoadFileThenArray(area: MethodArea, files: Files, ghost rank: string -> nat, t: char)
    returns (first: LoadResult, second: LoadResult)
    requires area.classes == [] && area.cmap == map[] && area.prims == map[]
    requires WellNamed(files) && Acyclic(files, rank) && Closed(files)
    requires Descriptors.IsPrimitiveTag(t) && [t] in files
    modifies area
    ensures first.Loaded? && second == DuplicateKey([t])
  {
    hide WellNamed, Acyclic, Closed, Available, Clashes, Needs, NeedsPrimitive, Added, Consistent;
    EmptyConsistent(files);
    ClosedAvailable(files, {}, [t]);
    PlainNeeds(files, {}, [t]);
    assert area.cmap.Keys == {} && area.prims.Keys == {};
    first := LoadClass(area, files, rank, [t]);
    OnlyPlainAdded(files, area.cmap.Keys, [t]);
    ArrayClashes(files, area.cmap.Keys, t);
    assert area.prims.Keys == {};
    ghost var known := area.cmap.Keys;
    second := LoadClass(area, files, rank, ['[', t]);
    OutcomeExact(files, known, {}, ['[', t], second);
    assert second.n == [second.n[0]];
  }

  lemma {:induction false} EmptyConsistent(files: Files)
    ensures Consistent(files, [], map[], map[])
  {
  }

  // ----- after the boot -----

  lemma {:induction false} AllTags()
    ensures forall t :: t in PRIM_CLASS_NAME <==> Descriptors.IsPrimitiveTag(t)
  {
    var names := PRIM_CLASS_NAME;
    assert names[0] == 'B' && names[1] == 'S' && names[2] == 'I' && names[3] == 'J';
    assert names[4] == 'C' && names[5] == 'F' && names[6] == 'D' && names[7] == 'Z';
  }

  /** The first i primitive classes, and nothing else, have been entered. */
  ghost predicate EnteredPrimitives(known: set<string>, prims: set<char>, i: nat) {
    && i <= |PRIM_CLASS_NAME| && (forall t :: t in prims <==> t in PRIM_CLASS_NAME[..i])
    && (forall n :: n in known <==> |n| == 1 && n[0] in PRIM_CLASS_NAME[..i])
  }

  lemma {:induction false} NoPrimitives()
    ensures EnteredPrimitives({}, {}, 0)
  {
  }

  lemma {:induction false} NextPrimitive(known: set<string>, prims: set<char>, known': set<string>, prims': set<char>,
                                         i: nat, r: LoadResult)
    requires EnteredPrimitives(known, prims, i) && i < |PRIM_CLASS_NAME|
    requires PrimitiveEnds(known, known', prims, PRIM_CLASS_NAME[i], r)
    requires prims' == if r.Loaded? then prims + {PRIM_CLASS_NAME[i]} else prims
    ensures EnteredPrimitives(known', prims', i + 1)
  {
    hide Descriptors.IsPrimitiveTag;
    var t := PRIM_CLASS_NAME[i];
    AllTags();
    assert PRIM_CLASS_NAME[..i + 1] == PRIM_CLASS_NAME[..i] + [t];
    assert t !in PRIM_CLASS_NAME[..i];
    assert forall n: string :: |n| == 1 && n[0] == t <==> n == [t];
  }

  /** The loop of `initSystemClass` over the primitive types, from the empty table. */
  method EnterPrimitives(area: MethodArea, ghost files: Files)
    requires area.classes == [] && area.cmap == map[] && area.prims == map[]
    modifies area
    ensures Consistent(files, area.classes, area.cmap, area.prims) && Booted(area.prims.Keys)
    ensures forall n :: n in area.cmap <==> IsPrimitiveName(n)
  {
    hide Consistent, EnteredPrimitives, PrimitiveEnds, Grown;
    EmptyConsistent(files);
    assert area.cmap.Keys == {} && area.prims.Keys == {};
    NoPrimitives();
    for i := 0 to |PRIM_CLASS_NAME|
      invariant Consistent(files, area.classes, area.cmap, area.prims)
      invariant EnteredPrimitives(area.cmap.Keys, area.prims.Keys, i)
    {
      ghost var known, prims := area.cmap.Keys, area.prims.Keys;
      var r := FindPrimitiveClass(area, files, PRIM_CLASS_NAME[i]);
      NextPrimitive(known, prims, area.cmap.Keys, area.prims.Keys, i, r);
    }
    AllEntered(area.cmap.Keys, area.prims.Keys);
  }

  lemma {:induction false} AllEntered(known: set<string>, prims: set<char>)
    requires EnteredPrimitives(known, prims, |PRIM_CLASS_NAME|)
    ensures Booted(prims) && forall n :: n in known <==> IsPrimitiveName(n)
  {
    AllTags();
    assert PRIM_CLASS_NAME[..|PRIM_CLASS_NAME|] == PRIM_CLASS_NAME;
  }

  lemma {:induction false} BootedNeverClashes(files: Files, known: set<string>, prims: set<char>, name: string)
    requires Booted(prims) && Available(files, known, name)
    ensures !Clashes(files, known, prims, name)
  {
    hide Needs;
    forall t | NeedsPrimitive(files, known, name, t)
      ensures t in prims
    {
      var a :| Needs(files, known, name, a) && LastTag(a) == Some(t);
      assert CanDefine(files, a);
    }
  }

  /** Primitive classes stay in the table. */
  lemma {:induction false} PrimsStay(files: Files, cs: seq<ClassBlock>, cmap: map<string, nat>, prims: map<char, nat>,
                                     cs': seq<ClassBlock>, cmap': map<string, nat>, prims': map<char, nat>)
    requires Consistent(files, cs, cmap, prims) && Consistent(files, cs', cmap', prims') && Grown(cs, cmap, cs', cmap')
    ensures prims.Keys <= prims'.Keys
  {
    hide Intact;
  }

  /** The block comes from the class file of its name. */
  ghost predicate FromFile(files: Files, b: ClassBlock) {
    && b.typeFlags != PRIM && b.name in files && b.isInterface == files[b.name].isInterface
    && SameMethods(files[b.name].methods, b.methods) && SameFields(files[b.name].fields, b.fields)
  }

  /** After the boot the table answers a primitive name with the primitive class, and every other
      name of a file with the class of that file. */
  lemma {:induction false} BootedAnswers(files: Files, cs: seq<ClassBlock>, cmap: map<string, nat>,
                                         prims: map<char, nat>, n: string)
    requires Consistent(files, cs, cmap, prims) && Booted(prims.Keys) && n in cmap && WellNamed(files)
    ensures cmap[n] < |cs| && cs[cmap[n]].name == n
    ensures cs[cmap[n]].typeFlags == PRIM <==> IsPrimitiveName(n)
    ensures FromFile(files, cs[cmap[n]]) <==> n in files && !IsPrimitiveName(n)
  {
    hide Finished, SameMethods, SameFields;
    assert Matches(files, cs, cmap[n]);
    if IsPrimitiveName(n) {
      assert n == [n[0]] && n[0] in prims;
    }
  }

  /** Block c answers to n. */
  ghost predicate Answers(files: Files, cs: seq<ClassBlock>, n: string, c: nat) {
    && c < |cs| && cs[c].name == n
    && (FromFile(files, cs[c]) <==> n in files && !IsPrimitiveName(n))
  }

  /** One load after the boot. */
  lemma {:induction false} StillBooted(files: Files, cs: seq<ClassBlock>, cmap: map<string, nat>, prims: map<char, nat>,
                                       cs': seq<ClassBlock>, cmap': map<string, nat>, prims': map<char, nat>,
                                       n: string, r: LoadResult)
    requires WellNamed(files) && Booted(prims.Keys) && Grown(cs, cmap, cs', cmap')
    requires Consistent(files, cs, cmap, prims) && Consistent(files, cs', cmap', prims')
    requires Outcome(files, cmap.Keys, prims.Keys, n, r)
    requires r.Loaded? ==> n in cmap' && cmap'[n] == r.c
    ensures Booted(prims'.Keys) && !r.DuplicateKey?
    ensures r.Loaded? ==> Answers(files, cs', n, r.c)
    ensures forall m, c :: Answers(files, cs, m, c) ==> Answers(files, cs', m, c)
  {
    PrimsStay(files, cs, cmap, prims, cs', cmap', prims');
    hide Consistent, WellNamed, FromFile, Available, Clashes;
    if Available(files, cmap.Keys, n) {
      BootedNeverClashes(files, cmap.Keys, prims.Keys, n);
    }
    if r.Loaded? {
      BootedAnswers(files, cs', cmap', prims', n);
    }
  }

  /** A session: the primitive classes, then any names, up to the first that fails. The duplicate
      handler never fires, whatever the files, and a class that is found is the file's exactly
      when its name is not primitive. */
  method LoadAll(area: MethodArea, files: Files, ghost rank: string -> nat, names: seq<string>)
    returns (rs: seq<LoadResult>)
    requires area.classes == [] && area.cmap == map[] && area.prims == map[]
    requires WellNamed(files) && Acyclic(files, rank)
    modifies area
    ensures |rs| <= |names| && (|rs| < |names| ==> rs != [] && !rs[|rs| - 1].Loaded?)
    ensures forall i :: 0 <= i < |rs| ==> !rs[i].DuplicateKey? && (rs[i].Loaded? || i == |rs| - 1)
    ensures forall i :: 0 <= i < |rs| && rs[i].Loaded? ==> Answers(files, area.classes, names[i], rs[i].c)
  {
    hide Consistent, WellNamed, Acyclic, Available, Clashes, Outcome, Added, FromFile, Booted;
    EnterPrimitives(area, files);
    rs := [];
    for i := 0 to |names|
      invariant Consistent(files, area.classes, area.cmap, area.prims) && Booted(area.prims.Keys)
      invariant |rs| == i && forall j :: 0 <= j < i ==> rs[j].Loaded? && Answers(files, area.classes, names[j], rs[j].c)
    {
      ghost var cs, cmap, prims := area.classes, area.cmap, area.prims;
      var r := LoadClass(area, files, rank, names[i]);
      StillBooted(files, cs, cmap, prims, area.classes, area.cmap, area.prims, names[i], r);
      rs := rs + [r];
      if !r.Loaded? {
        return;
      }
    }
  }
}
