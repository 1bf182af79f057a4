/**
 Class files and class names as `src/classloader/class.c` reads them, and what loading a class
 asks for: the classes it needs, whether they can all be found, and when a primitive class and a
 file compete for one name.
*/
module ClassFiles {
  import opened Options
  import opened Classes
  import Descriptors

  /** A class file, reduced to what the loader reads from it. */
  datatype ClassFile = ClassFile(
    name: string,
    super: Option<string>,
    interfaces: seq<string>,
    isInterface: bool,
    methods: seq<MethodBlock>,
    fields: seq<FieldBlock>)

  type Files = map<string, ClassFile>

  const OBJECT: string := "java/lang/Object"
  const CLONEABLE: string := "java/lang/Cloneable"
  const SERIALIZABLE: string := "java/io/Serializable"

  predicate IsArrayName(n: string) {
    |n| > 0 && n[0] == '['
  }

  predicate IsPrimitiveName(n: string) {
    |n| == 1 && Descriptors.IsPrimitiveTag(n[0])
  }

  /** The interfaces and the superclass, in the order in which `defineClass` loads them. */
  function Parents(f: ClassFile): seq<string> {
    f.interfaces + if f.super.Some? then [f.super.value] else []
  }

  /** Each file declares the class it is looked up for; superclasses and interfaces are not
      array types; the blocks come unprepared. */
  ghost predicate WellNamed(files: Files) {
    forall n :: n in files ==>
      && files[n].name == n && !IsArrayName(n)
      && (forall s :: s in Parents(files[n]) ==> !IsArrayName(s))
      && (forall i :: 0 <= i < |files[n].methods| ==> files[n].methods[i].tableIdx == 0)
  }

  /** The superclass and interface graph has no cycle. */
  ghost predicate Acyclic(files: Files, rank: string -> nat) {
    forall n, s :: n in files && s in files && s in Parents(files[n]) ==> rank(s) < rank(n)
  }

  // ----- array names -----

  /** The character `loadArrayClass` hands to `findPrimitiveClass`, unless the element class is
      another array or a class between `L` and `;`. */
  function LastTag(n: string): Option<char> {
    if !IsArrayName(n) || (|n| > 1 && n[1] == '[') || (n[|n| - 1] == ';' && |n| >= 3) then None
    else Some(n[|n| - 1])
  }

  /** The name of an array's element class, as `loadArrayClass` cuts it out. */
  function ElementName(n: string): string
    requires IsArrayName(n)
  {
    if |n| > 1 && n[1] == '[' then n[1..]
    else if n[|n| - 1] == ';' && |n| >= 3 then n[2..|n| - 1]
    else [n[|n| - 1]]
  }

  /** The class name of a component type: a class or a primitive type by its own name, an array by
      its descriptor. */
  ghost function NameOf(t: Descriptors.FieldType): string {
    match t
    case Prim(c) => [c]
    case Object(n) => n
    case Array(_) => Descriptors.Spell(t)
  }

  /** The element cut out of an array's descriptor is its component type, read as a primitive tag
      exactly when it is one. */
  lemma {:induction false} ElementOfSpelling(e: Descriptors.FieldType)
    requires Descriptors.WellFormed(e)
    ensures var a := Descriptors.Spell(Descriptors.Array(e));
            && IsArrayName(a) && ElementName(a) == NameOf(e)
            && LastTag(a) == match e case Prim(c) => Some(c) case _ => None
  {
    match e
    case Prim(c) => assert Descriptors.Spell(e) == [c];
    case Object(n) => assert Descriptors.Spell(e) == "L" + n + ";";
    case Array(d) => assert Descriptors.Spell(e) == "[" + Descriptors.Spell(d);
  }

  /** The element for every array name, spelled as a descriptor or not. */
  lemma {:induction false} ElementNames(n: string, a: string, t: char)
    ensures ElementName("[L" + n + ";") == n && LastTag("[L" + n + ";") == None
    ensures IsArrayName(a) ==> ElementName("[" + a) == a && LastTag("[" + a) == None
    ensures t != '[' ==> ElementName(['[', t]) == [t] && LastTag(['[', t]) == Some(t)
  {
    assert ("[L" + n + ";")[2..|n| + 2] == n;
    assert ("[" + a)[1..] == a;
  }

  function LeadingBrackets(n: string): nat {
    if IsArrayName(n) then 1 + LeadingBrackets(n[1..]) else 0
  }

  // ----- what a class needs -----

  /** The classes `loadClass` loads on the way to n, in this order. */
  function Deps(files: Files, n: string): seq<string> {
    if IsArrayName(n) then
      [OBJECT, CLONEABLE, SERIALIZABLE] + if LastTag(n) == None then [ElementName(n)] else []
    else if n in files then Parents(files[n])
    else []
  }

  /** Loading n asks for m within k steps, stopping at the classes already known. */
  ghost predicate NeedsIn(files: Files, known: set<string>, n: string, m: string, k: nat)
    decreases k
  {
    n !in known && (m == n || (k > 0 && exists d :: d in Deps(files, n) && NeedsIn(files, known, d, m, k - 1)))
  }

  /** m is not yet known, and loading n asks for it. */
  ghost predicate Needs(files: Files, known: set<string>, n: string, m: string) {
    exists k: nat :: NeedsIn(files, known, n, m, k)
  }

  ghost predicate NeedsAny(files: Files, known: set<string>, ds: seq<string>, m: string) {
    exists d :: d in ds && Needs(files, known, d, m)
  }

  /** Loading n asks for an array of the primitive type t. */
  ghost predicate NeedsPrimitive(files: Files, known: set<string>, n: string, t: char) {
    exists a :: Needs(files, known, n, a) && LastTag(a) == Some(t)
  }

  /** There is a file for n, or n is an array name that does not end in a bad tag. */
  predicate CanDefine(files: Files, n: string) {
    if IsArrayName(n) then LastTag(n).Some? ==> Descriptors.IsPrimitiveTag(LastTag(n).value) else n in files
  }

  /** Everything n needs can be found. */
  ghost predicate Available(files: Files, known: set<string>, n: string) {
    forall m :: Needs(files, known, n, m) ==> CanDefine(files, m)
  }

  ghost predicate AllAvailable(files: Files, known: set<string>, ds: seq<string>) {
    forall d :: d in ds ==> Available(files, known, d)
  }

  /** Loading n has to enter a primitive class under a name that a class file has taken, or takes
      on the way. */
  ghost predicate Clashes(files: Files, known: set<string>, prims: set<char>, n: string) {
    exists t :: NeedsPrimitive(files, known, n, t) && t !in prims && ([t] in known || Needs(files, known, n, [t]))
  }

  /** The names that loading n enters. */
  ghost predicate Enters(files: Files, known: set<string>, n: string, m: string) {
    Needs(files, known, n, m) || (|m| == 1 && NeedsPrimitive(files, known, n, m[0]))
  }

  // ----- one step -----

  lemma {:induction false} NeedsStep(files: Files, known: set<string>, n: string)
    ensures forall m :: Needs(files, known, n, m) <==>
              n !in known && (m == n || NeedsAny(files, known, Deps(files, n), m))
  {
    hide Deps;
    forall m
      ensures Needs(files, known, n, m) <==> n !in known && (m == n || NeedsAny(files, known, Deps(files, n), m))
    {
      if Needs(files, known, n, m) {
        var k: nat :| NeedsIn(files, known, n, m, k);
        if m != n {
          var d :| d in Deps(files, n) && NeedsIn(files, known, d, m, k - 1);
          assert Needs(files, known, d, m);
        }
      }
      if n !in known && m == n {
        assert NeedsIn(files, known, n, m, 0);
      }
      if n !in known && NeedsAny(files, known, Deps(files, n), m) {
        var d :| d in Deps(files, n) && Needs(files, known, d, m);
        var k: nat :| NeedsIn(files, known, d, m, k);
        assert NeedsIn(files, known, n, m, k + 1);
      }
    }
  }

  lemma {:induction false} AvailableStep(files: Files, known: set<string>, n: string)
    ensures Available(files, known, n) <==>
              n in known || (CanDefine(files, n) && AllAvailable(files, known, Deps(files, n)))
  {
    hide Deps, CanDefine, Needs;
    NeedsStep(files, known, n);
    if Available(files, known, n) && n !in known {
      assert Needs(files, known, n, n);
      forall d, m | d in Deps(files, n) && Needs(files, known, d, m)
        ensures CanDefine(files, m)
      {
        assert NeedsAny(files, known, Deps(files, n), m);
      }
    }
  }

  // ----- reachability -----

  lemma {:induction false} NeedsInTransitive(files: Files, known: set<string>, n: string, d: string, m: string, k: nat)
    requires NeedsIn(files, known, n, d, k) && Needs(files, known, d, m)
    ensures Needs(files, known, n, m)
    decreases k
  {
    hide Deps, Needs;
    if d != n {
      var e :| e in Deps(files, n) && NeedsIn(files, known, e, d, k - 1);
      NeedsInTransitive(files, known, e, d, m, k - 1);
      NeedsStep(files, known, n);
    }
  }

  lemma {:induction false} NeedsTransitive(files: Files, known: set<string>, n: string, d: string, m: string)
    requires Needs(files, known, n, d) && Needs(files, known, d, m)
    ensures Needs(files, known, n, m)
  {
    var k: nat :| NeedsIn(files, known, n, d, k);
    NeedsInTransitive(files, known, n, d, m, k);
  }

  /** With fewer classes known, more are needed. */
  lemma {:induction false} NeedsInMore(files: Files, known: set<string>, known': set<string>, n: string, m: string,
                                       k: nat)
    requires known <= known' && NeedsIn(files, known', n, m, k)
    ensures NeedsIn(files, known, n, m, k)
    decreases k
  {
    hide Deps;
    if m != n {
      var d :| d in Deps(files, n) && NeedsIn(files, known', d, m, k - 1);
      NeedsInMore(files, known, known', d, m, k - 1);
    }
  }

  /** What is no longer needed is behind a class that has become known. */
  lemma {:induction false} NeedsInSplit(files: Files, known: set<string>, known': set<string>, n: string, m: string,
                                        k: nat)
    requires NeedsIn(files, known, n, m, k)
    ensures Needs(files, known', n, m) || exists x :: x in known' && x !in known && Needs(files, known, x, m)
    decreases k
  {
    hide Deps, Needs;
    NeedsStep(files, known', n);
    if n in known' {
      assert Needs(files, known, n, m) by {
        NeedsFrom(files, known, n, m, k);
      }
    } else if m != n {
      var d :| d in Deps(files, n) && NeedsIn(files, known, d, m, k - 1);
      NeedsInSplit(files, known, known', d, m, k - 1);
    }
  }

  lemma {:induction false} NeedsFrom(files: Files, known: set<string>, n: string, m: string, k: nat)
    requires NeedsIn(files, known, n, m, k)
    ensures Needs(files, known, n, m)
  {
  }

  // ----- plain classes -----

  ghost predicate Plain(ds: seq<string>) {
    forall d :: d in ds ==> !IsArrayName(d)
  }

  /** A class that is not an array needs no arrays. */
  lemma {:induction false} PlainNeedsIn(files: Files, known: set<string>, n: string, m: string, k: nat)
    requires WellNamed(files) && !IsArrayName(n) && NeedsIn(files, known, n, m, k)
    ensures !IsArrayName(m)
    decreases k
  {
    if m != n {
      var d :| d in Deps(files, n) && NeedsIn(files, known, d, m, k - 1);
      PlainNeedsIn(files, known, d, m, k - 1);
    }
  }

  lemma {:induction false} PlainNeeds(files: Files, known: set<string>, n: string)
    requires WellNamed(files) && !IsArrayName(n)
    ensures forall m :: Needs(files, known, n, m) ==> !IsArrayName(m)
    ensures forall t :: !NeedsPrimitive(files, known, n, t)
    ensures forall prims :: !Clashes(files, known, prims, n)
    ensures forall m :: Enters(files, known, n, m) <==> Needs(files, known, n, m)
  {
    forall m | Needs(files, known, n, m)
      ensures !IsArrayName(m)
    {
      var k: nat :| NeedsIn(files, known, n, m, k);
      PlainNeedsIn(files, known, n, m, k);
    }
  }

  // ----- the order of loading -----

  ghost function Weight(n: string): nat {
    if IsArrayName(n) then |n| else 0
  }

  ghost function FileRank(files: Files, rank: string -> nat, n: string): nat {
    if n in files then rank(n) + 1 else 0
  }

  /** n comes before m in the order in which the recursion of `loadClass` descends. */
  ghost predicate Below(files: Files, rank: string -> nat, n: string, m: string) {
    Weight(n) < Weight(m) || (Weight(n) == Weight(m) && FileRank(files, rank, n) < FileRank(files, rank, m))
  }

  lemma {:induction false} DepsBelow(files: Files, rank: string -> nat, n: string, d: string)
    requires WellNamed(files) && Acyclic(files, rank) && d in Deps(files, n)
    ensures Below(files, rank, d, n)
  {
    assert OBJECT[0] == 'j' && CLONEABLE[0] == 'j' && SERIALIZABLE[0] == 'j';
  }

  lemma {:induction false} NeedsInBelow(files: Files, rank: string -> nat, known: set<string>, n: string, m: string,
                                        k: nat)
    requires WellNamed(files) && Acyclic(files, rank) && NeedsIn(files, known, n, m, k)
    ensures m == n || Below(files, rank, m, n)
    decreases k
  {
    hide Deps, WellNamed, Acyclic;
    if m != n {
      var d :| d in Deps(files, n) && NeedsIn(files, known, d, m, k - 1);
      DepsBelow(files, rank, n, d);
      NeedsInBelow(files, rank, known, d, m, k - 1);
    }
  }

  /** A class is not needed for itself. */
  lemma {:induction false} NotForItself(files: Files, rank: string -> nat, known: set<string>, n: string)
    requires WellNamed(files) && Acyclic(files, rank)
    ensures !NeedsAny(files, known, Deps(files, n), n)
  {
    hide Deps, WellNamed, Acyclic, Needs;
    forall d | d in Deps(files, n)
      ensures !Needs(files, known, d, n)
    {
      DepsBelow(files, rank, n, d);
      if Needs(files, known, d, n) {
        var k := NeedsSteps(files, known, d, n);
        NeedsInBelow(files, rank, known, d, n, k);
      }
    }
  }

  lemma {:induction false} NeedsSteps(files: Files, known: set<string>, n: string, m: string) returns (k: nat)
    requires Needs(files, known, n, m)
    ensures NeedsIn(files, known, n, m, k)
  {
    k :| NeedsIn(files, known, n, m, k);
  }

  // ----- loading one class after another -----

  /** known' holds the known classes and everything that loading ds asks for. */
  ghost predicate LoadedFor(files: Files, known: set<string>, known': set<string>, ds: seq<string>) {
    forall m :: m in known' <==> m in known || NeedsAny(files, known, ds, m)
  }

  /** After some plain classes have been loaded, a further one asks for what is left. */
  lemma {:induction false} LaterNeeds(files: Files, known: set<string>, known': set<string>, ds: seq<string>, e: string)
    requires LoadedFor(files, known, known', ds)
    ensures forall m :: Needs(files, known', e, m) ==> Needs(files, known, e, m)
    ensures forall m :: Needs(files, known, e, m) ==> Needs(files, known', e, m) || NeedsAny(files, known, ds, m)
  {
    hide Deps, NeedsIn;
    forall m | Needs(files, known', e, m)
      ensures Needs(files, known, e, m)
    {
      var k := NeedsSteps(files, known', e, m);
      NeedsInMore(files, known, known', e, m, k);
    }
    forall m | Needs(files, known, e, m) && !Needs(files, known', e, m)
      ensures NeedsAny(files, known, ds, m)
    {
      var k := NeedsSteps(files, known, e, m);
      NeedsInSplit(files, known, known', e, m, k);
      var x :| x in known' && x !in known && Needs(files, known, x, m);
      var d :| d in ds && Needs(files, known, d, x);
      NeedsTransitive(files, known, d, x, m);
    }
  }

  lemma {:induction false} LaterAvailable(files: Files, known: set<string>, known': set<string>, ds: seq<string>,
                                          e: string)
    requires LoadedFor(files, known, known', ds) && AllAvailable(files, known, ds)
    ensures Available(files, known', e) <==> Available(files, known, e)
  {
    hide Deps, Needs, CanDefine;
    LaterNeeds(files, known, known', ds, e);
  }

  lemma {:induction false} LaterPrimitive(files: Files, known: set<string>, known': set<string>, ds: seq<string>,
                                          e: string)
    requires LoadedFor(files, known, known', ds) && WellNamed(files) && Plain(ds)
    ensures forall t :: NeedsPrimitive(files, known', e, t) <==> NeedsPrimitive(files, known, e, t)
  {
    hide Deps, Needs;
    LaterNeeds(files, known, known', ds, e);
    forall d | d in ds
      ensures forall a :: Needs(files, known, d, a) ==> !IsArrayName(a)
    {
      PlainNeeds(files, known, d);
    }
  }

  /** Loading one more plain class. */
  lemma {:induction false} OneMoreLoaded(files: Files, known: set<string>, known1: set<string>, known2: set<string>,
                                         ds: seq<string>, e: string)
    requires LoadedFor(files, known, known1, ds) && WellNamed(files) && !IsArrayName(e)
    requires forall m :: m in known2 <==> m in known1 || Enters(files, known1, e, m)
    ensures LoadedFor(files, known, known2, ds + [e])
  {
    hide Deps, Needs, Enters, NeedsPrimitive, Clashes;
    LaterNeeds(files, known, known1, ds, e);
    PlainNeeds(files, known1, e);
    forall m
      ensures NeedsAny(files, known, ds + [e], m) <==> NeedsAny(files, known, ds, m) || Needs(files, known, e, m)
    {
      assert e in ds + [e];
    }
  }

  lemma {:induction false} NoneLoaded(files: Files, known: set<string>)
    ensures LoadedFor(files, known, known, []) && AllAvailable(files, known, []) && Plain([])
  {
  }

  /** An array of a named class can be loaded exactly when the roots and that class can. */
  lemma {:induction false} ClassArrayAvailable(files: Files, known: set<string>, n: string)
    requires "[L" + n + ";" !in known
    ensures Available(files, known, "[L" + n + ";") <==>
              && Available(files, known, OBJECT) && Available(files, known, CLONEABLE)
              && Available(files, known, SERIALIZABLE) && Available(files, known, n)
  {
    hide Available, Needs;
    ElementNames(n, n, 'B');
    var name := "[L" + n + ";";
    AvailableStep(files, known, name);
    assert Deps(files, name) == [OBJECT, CLONEABLE, SERIALIZABLE, n];
  }
}
