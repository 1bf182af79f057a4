/**
 Resolution of constant-pool entries in `src/classloader/resolve.c`. With caching on (no `-dr`)
 an entry is overwritten by the address it resolves to; the answers are the same either way.
*/
module Resolve {
  import opened Options
  import opened Words
  import opened ConstantPool

  const CLASS: Byte := 7
  const FIELDREF: Byte := 9
  const METHODREF: Byte := 10
  const INTERFACE_METHODREF: Byte := 11
  const NAME_AND_TYPE: Byte := 12
  const RESOLVED: Byte := 19

  type Utf8Text = seq<Byte>

  /** The loader and the two lookups, stable over the run of the machine. */
  datatype Env = Env(
    loadClass: Utf8Text -> nat,
    findField: (nat, Utf8Text, Utf8Text) -> Option<nat>,
    findMethod: (nat, Utf8Text, Utf8Text) -> Option<nat>)

  // ----- what the entries of the file mean -----

  /** The pool as parsed. */
  datatype Original = Original(types: seq<Byte>, info: seq<Info>)

  predicate TextAt(o: Original, k: nat) {
    k < |o.types| == |o.info| && o.types[k] == UTF8_TAG && o.info[k].Text?
  }

  predicate ClassAt(o: Original, k: nat) {
    k < |o.types| == |o.info| && o.types[k] == CLASS && o.info[k].Raw? && TextAt(o, o.info[k].w)
  }

  predicate NameAndTypeAt(o: Original, k: nat) {
    && k < |o.types| == |o.info| && o.types[k] == NAME_AND_TYPE && o.info[k].Raw?
    && TextAt(o, Lower(o.info[k].w)) && TextAt(o, Upper(o.info[k].w))
  }

  predicate RefTag(t: Byte) {
    t == FIELDREF || t == METHODREF || t == INTERFACE_METHODREF
  }

  predicate RefAt(o: Original, k: nat) {
    && k < |o.types| == |o.info| && RefTag(o.types[k]) && o.info[k].Raw?
    && ClassAt(o, Lower(o.info[k].w)) && NameAndTypeAt(o, Upper(o.info[k].w))
  }

  function ClassOf(o: Original, env: Env, k: nat): nat
    requires ClassAt(o, k)
  {
    env.loadClass(o.info[o.info[k].w].bytes)
  }

  function NameOf(o: Original, k: nat): Utf8Text
    requires RefAt(o, k)
  {
    o.info[Lower(o.info[Upper(o.info[k].w)].w)].bytes
  }

  function TypeOf(o: Original, k: nat): Utf8Text
    requires RefAt(o, k)
  {
    o.info[Upper(o.info[Upper(o.info[k].w)].w)].bytes
  }

  function FieldOf(o: Original, env: Env, k: nat): Option<nat>
    requires RefAt(o, k)
  {
    env.findField(ClassOf(o, env, Lower(o.info[k].w)), NameOf(o, k), TypeOf(o, k))
  }

  function MethodOf(o: Original, env: Env, k: nat): Option<nat>
    requires RefAt(o, k)
  {
    env.findMethod(ClassOf(o, env, Lower(o.info[k].w)), NameOf(o, k), TypeOf(o, k))
  }

  /** Every entry is as parsed, or replaced by the address its original resolves to. */
  ghost predicate Cached(o: Original, env: Env, types: seq<Byte>, info: seq<Info>) {
    && |types| == |info| == |o.types| == |o.info|
    && forall k :: 0 <= k < |types| ==>
         || (types[k] == o.types[k] && info[k] == o.info[k])
         || (types[k] == RESOLVED && ClassAt(o, k) && info[k] == ClassRef(ClassOf(o, env, k)))
         || (types[k] == RESOLVED && RefAt(o, k) && o.types[k] == FIELDREF && info[k] == FieldRef(FieldOf(o, env, k)))
         || (types[k] == RESOLVED && RefAt(o, k) && o.types[k] != FIELDREF && MethodOf(o, env, k).Some?
             && info[k] == MethodRef(MethodOf(o, env, k).value))
  }

  /** Utf8 and NameAndType entries are never overwritten, and neither is anything but an entry
      of the four kinds that resolve. */
  lemma {:induction false} OnlyResolvableOverwritten(o: Original, env: Env, types: seq<Byte>, info: seq<Info>, k: nat)
    requires Cached(o, env, types, info) && k < |types|
    ensures types[k] != o.types[k] || info[k] != o.info[k] ==> o.types[k] == CLASS || RefTag(o.types[k])
    ensures TextAt(o, k) || NameAndTypeAt(o, k) ==> types[k] == o.types[k] && info[k] == o.info[k]
  {
  }

  datatype Answer = ClassIs(c: nat) | FieldIs(f: Option<nat>) | MethodIs(m: nat) | AssertionFailed

  // ----- resolve.c -----

  method ResolveClass(pool: Pool, index: nat, caching: bool, env: Env, ghost o: Original) returns (c: nat)
    requires Cached(o, env, pool.types[..], pool.info[..]) && ClassAt(o, index)
    modifies pool.types, pool.info
    ensures Cached(o, env, pool.types[..], pool.info[..])
    ensures c == ClassOf(o, env, index)
    ensures !caching ==> pool.types[..] == old(pool.types[..]) && pool.info[..] == old(pool.info[..])
  {
    if pool.types[index] == CLASS {
      assert pool.types[..][index] == CLASS;
      var at := pool.info[..][index].w;
      assert pool.info[..][at] == o.info[at];
      c := env.loadClass(pool.info[at].bytes);
      if caching {
        pool.info[index] := ClassRef(c);
        pool.types[index] := RESOLVED;
      }
    } else {
      assert pool.types[..][index] == RESOLVED && pool.info[..][index].ClassRef?;
      c := pool.info[index].c;
    }
  }

  /** The shared front half of the three member resolutions: class, name and descriptor of an
      entry that has not been rewritten. */
  method DecodeRef(pool: Pool, index: nat, caching: bool, env: Env, ghost o: Original)
    returns (symClass: nat, name: Utf8Text, typ: Utf8Text)
    requires Cached(o, env, pool.types[..], pool.info[..]) && RefAt(o, index)
    requires pool.types[index] == o.types[index]
    modifies pool.types, pool.info
    ensures Cached(o, env, pool.types[..], pool.info[..])
    ensures symClass == ClassOf(o, env, Lower(o.info[index].w)) && name == NameOf(o, index) && typ == TypeOf(o, index)
    ensures !caching ==> pool.types[..] == old(pool.types[..]) && pool.info[..] == old(pool.info[..])
  {
    assert pool.types[..][index] == o.types[index] && pool.info[..][index] == o.info[index];
    var w := pool.info[index].w;
    symClass := ResolveClass(pool, Lower(w), caching, env, o);
    OnlyResolvableOverwritten(o, env, pool.types[..], pool.info[..], Upper(w));
    var nameType := pool.info[..][Upper(w)].w;
    OnlyResolvableOverwritten(o, env, pool.types[..], pool.info[..], Lower(nameType));
    OnlyResolvableOverwritten(o, env, pool.types[..], pool.info[..], Upper(nameType));
    name := pool.info[..][Lower(nameType)].bytes;
    typ := pool.info[..][Upper(nameType)].bytes;
  }

  method ResolveField(pool: Pool, index: nat, caching: bool, env: Env, ghost o: Original) returns (fb: Option<nat>)
    requires Cached(o, env, pool.types[..], pool.info[..]) && RefAt(o, index) && o.types[index] == FIELDREF
    modifies pool.types, pool.info
    ensures Cached(o, env, pool.types[..], pool.info[..])
    ensures fb == FieldOf(o, env, index)
    ensures !caching ==> pool.types[..] == old(pool.types[..]) && pool.info[..] == old(pool.info[..])
  {
    assert pool.types[index] == pool.types[..][index] && pool.info[index] == pool.info[..][index];
    if pool.types[index] == FIELDREF {
      var symClass, name, typ := DecodeRef(pool, index, caching, env, o);
      fb := env.findField(symClass, name, typ);
      if caching {
        pool.info[index] := FieldRef(fb);
        pool.types[index] := RESOLVED;
      }
    } else {
      fb := pool.info[index].f;
    }
  }

  /** `resolveMethod` and, with the other tag, `resolveInterfaceMethod`. A method that is not
      found fails an assertion before anything is stored for it. */
  method ResolveMethod(pool: Pool, index: nat, tag: Byte, caching: bool, env: Env, ghost o: Original)
    returns (r: Answer)
    requires Cached(o, env, pool.types[..], pool.info[..]) && RefAt(o, index)
    requires o.types[index] == tag && (tag == METHODREF || tag == INTERFACE_METHODREF)
    modifies pool.types, pool.info
    ensures Cached(o, env, pool.types[..], pool.info[..])
    ensures r == if MethodOf(o, env, index).Some? then MethodIs(MethodOf(o, env, index).value) else AssertionFailed
    ensures !caching ==> pool.types[..] == old(pool.types[..]) && pool.info[..] == old(pool.info[..])
  {
    assert pool.types[index] == pool.types[..][index] && pool.info[index] == pool.info[..][index];
    if pool.types[index] == tag {
      var symClass, name, typ := DecodeRef(pool, index, caching, env, o);
      var mb := env.findMethod(symClass, name, typ);
      if mb == None {
        return AssertionFailed;
      }
      if caching {
        pool.info[index] := MethodRef(mb.value);
        pool.types[index] := RESOLVED;
      }
      r := MethodIs(mb.value);
    } else {
      r := MethodIs(pool.info[index].m);
    }
  }

  // ----- runs -----

  datatype Call = CallClass(k: nat) | CallField(k: nat) | CallMethod(k: nat) | CallInterfaceMethod(k: nat)

  /** Each call names an entry of its own kind. */
  ghost predicate WellKinded(o: Original, call: Call) {
    match call
    case CallClass(k) => ClassAt(o, k)
    case CallField(k) => RefAt(o, k) && o.types[k] == FIELDREF
    case CallMethod(k) => RefAt(o, k) && o.types[k] == METHODREF
    case CallInterfaceMethod(k) => RefAt(o, k) && o.types[k] == INTERFACE_METHODREF
  }

  /** The answer of decoding the original entry afresh. */
  ghost function Meaning(o: Original, env: Env, call: Call): Answer
    requires WellKinded(o, call)
  {
    match call
    case CallClass(k) => ClassIs(ClassOf(o, env, k))
    case CallField(k) => FieldIs(FieldOf(o, env, k))
    case CallMethod(k) => (match MethodOf(o, env, k) case Some(m) => MethodIs(m) case None => AssertionFailed)
    case CallInterfaceMethod(k) => (match MethodOf(o, env, k) case Some(m) => MethodIs(m) case None => AssertionFailed)
  }

  method ResolveOne(pool: Pool, call: Call, caching: bool, env: Env, ghost o: Original) returns (r: Answer)
    requires Cached(o, env, pool.types[..], pool.info[..]) && WellKinded(o, call)
    modifies pool.types, pool.info
    ensures Cached(o, env, pool.types[..], pool.info[..])
    ensures r == Meaning(o, env, call)
    ensures !caching ==> pool.types[..] == old(pool.types[..]) && pool.info[..] == old(pool.info[..])
  {
    hide Cached, ClassAt, RefAt, FieldOf, MethodOf, ClassOf;
    match call
    case CallClass(k) => var c := ResolveClass(pool, k, caching, env, o); r := ClassIs(c);
    case CallField(k) => var f := ResolveField(pool, k, caching, env, o); r := FieldIs(f);
    case CallMethod(k) => r := ResolveMethod(pool, k, METHODREF, caching, env, o);
    case CallInterfaceMethod(k) => r := ResolveMethod(pool, k, INTERFACE_METHODREF, caching, env, o);
  }

  /** Any sequence of well-kinded resolutions on a parsed pool answers as if every entry were
      decoded afresh, with caching on or off; with caching off the pool is never written. */
  method ResolveAll(pool: Pool, calls: seq<Call>, caching: bool, env: Env) returns (answers: seq<Answer>)
    requires pool.types.Length == pool.info.Length
    requires forall i :: 0 <= i < |calls| ==> WellKinded(Original(pool.types[..], pool.info[..]), calls[i])
    modifies pool.types, pool.info
    ensures var o := Original(old(pool.types[..]), old(pool.info[..]));
            && Cached(o, env, pool.types[..], pool.info[..])
            && |answers| == |calls|
            && forall i :: 0 <= i < |calls| ==> answers[i] == Meaning(o, env, calls[i])
    ensures !caching ==> pool.types[..] == old(pool.types[..]) && pool.info[..] == old(pool.info[..])
  {
    ghost var o := Original(pool.types[..], pool.info[..]);
    assert Cached(o, env, pool.types[..], pool.info[..]);
    hide Cached, WellKinded, Meaning;
    answers := [];
    for i := 0 to |calls|
      invariant Cached(o, env, pool.types[..], pool.info[..])
      invariant |answers| == i && forall j :: 0 <= j < i ==> answers[j] == Meaning(o, env, calls[j])
      invariant !caching ==> pool.types[..] == o.types && pool.info[..] == o.info
    {
      var r := ResolveOne(pool, calls[i], caching, env, o);
      answers := answers + [r];
    }
  }

  // ----- what the class file says -----

  /** The file has entry e at index k. */
  ghost predicate EntryAt(es: seq<Entry>, k: nat, e: Entry) {
    exists n :: 0 <= n < |es| && es[n] == e && IndexOf(es, n) == k
  }

  /** Entry k of the file is a class of this name. */
  ghost predicate ClassNamed(es: seq<Entry>, k: nat, name: Utf8Text) {
    exists u: U2 :: EntryAt(es, k, Index(7, u)) && EntryAt(es, u, Utf8(name))
  }

  /** Entry k of the file is a reference with this tag to the member `name` of type `typ` of the
      class `cls`: in the file the class comes before the name and type, the name before the type. */
  ghost predicate MemberNamed(es: seq<Entry>, k: nat, tag: Byte, cls: Utf8Text, name: Utf8Text, typ: Utf8Text) {
    exists c: U2, nt: U2, n: U2, t: U2 ::
      && EntryAt(es, k, Pair(tag, c, nt)) && ClassNamed(es, c, cls) && EntryAt(es, nt, Pair(12, n, t))
      && EntryAt(es, n, Utf8(name)) && EntryAt(es, t, Utf8(typ))
  }

  /** The answer a call must get, read off the entries of the file: tag 9 is a field, 10 a method, 11 a
      method of an interface. */
  ghost predicate FileSays(es: seq<Entry>, env: Env, call: Call, r: Answer) {
    match call
    case CallClass(k) => exists cls :: ClassNamed(es, k, cls) && r == ClassIs(env.loadClass(cls))
    case CallField(k) =>
      exists cls, name, typ :: MemberNamed(es, k, 9, cls, name, typ)
                               && r == FieldIs(env.findField(env.loadClass(cls), name, typ))
    case CallMethod(k) =>
      exists cls, name, typ :: MemberNamed(es, k, 10, cls, name, typ)
                               && Finds(env.findMethod(env.loadClass(cls), name, typ), r)
    case CallInterfaceMethod(k) =>
      exists cls, name, typ :: MemberNamed(es, k, 11, cls, name, typ)
                               && Finds(env.findMethod(env.loadClass(cls), name, typ), r)
  }

  ghost predicate Finds(m: Option<nat>, r: Answer) {
    if m.Some? then r == MethodIs(m.value) else r == AssertionFailed
  }

  /** The file has an entry of the call's kind, complete with the texts it refers to. */
  ghost predicate InFile(es: seq<Entry>, call: Call) {
    match call
    case CallClass(k) => exists cls :: ClassNamed(es, k, cls)
    case CallField(k) => exists cls, name, typ :: MemberNamed(es, k, 9, cls, name, typ)
    case CallMethod(k) => exists cls, name, typ :: MemberNamed(es, k, 10, cls, name, typ)
    case CallInterfaceMethod(k) => exists cls, name, typ :: MemberNamed(es, k, 11, cls, name, typ)
  }

  lemma {:induction false} EntryHeld(o: Original, es: seq<Entry>, k: nat, e: Entry)
    requires Laid(o.types, o.info, es) && EntryAt(es, k, e)
    ensures Holds(o.types, o.info, k, e)
  {
    hide Holds, Laid;
    var n :| 0 <= n < |es| && es[n] == e && IndexOf(es, n) == k;
    EveryEntryHeld(o.types, o.info, es, n);
  }

  lemma {:induction false} ClassMeans(o: Original, es: seq<Entry>, k: nat, cls: Utf8Text)
    requires Laid(o.types, o.info, es) && ClassNamed(es, k, cls)
    ensures ClassAt(o, k) && o.info[o.info[k].w].bytes == cls
  {
    hide Laid, EntryAt;
    var u: U2 :| EntryAt(es, k, Index(CLASS, u)) && EntryAt(es, u, Utf8(cls));
    EntryHeld(o, es, k, Index(CLASS, u));
    EntryHeld(o, es, u, Utf8(cls));
  }

  lemma {:induction false} MemberMeans(o: Original, es: seq<Entry>, k: nat, tag: Byte, cls: Utf8Text, name: Utf8Text,
                                       typ: Utf8Text)
    requires Laid(o.types, o.info, es) && MemberNamed(es, k, tag, cls, name, typ) && RefTag(tag)
    ensures RefAt(o, k) && o.types[k] == tag
    ensures o.info[o.info[Lower(o.info[k].w)].w].bytes == cls && NameOf(o, k) == name && TypeOf(o, k) == typ
  {
    hide Laid, EntryAt, ClassNamed;
    var c: U2, nt: U2, n: U2, t: U2 :|
      && EntryAt(es, k, Pair(tag, c, nt)) && ClassNamed(es, c, cls) && EntryAt(es, nt, Pair(NAME_AND_TYPE, n, t))
      && EntryAt(es, n, Utf8(name)) && EntryAt(es, t, Utf8(typ));
    EntryHeld(o, es, k, Pair(tag, c, nt));
    ClassMeans(o, es, c, cls);
    EntryHeld(o, es, nt, Pair(NAME_AND_TYPE, n, t));
    EntryHeld(o, es, n, Utf8(name));
    EntryHeld(o, es, t, Utf8(typ));
    PairUnpacks(o.types, o.info, k, Pair(tag, c, nt));
    PairUnpacks(o.types, o.info, nt, Pair(NAME_AND_TYPE, n, t));
  }

  /** Decoding the parsed pool gives what the entries of the file say. */
  lemma {:induction false} MeaningIsSaid(o: Original, env: Env, es: seq<Entry>, call: Call)
    requires Laid(o.types, o.info, es) && InFile(es, call)
    ensures WellKinded(o, call) && FileSays(es, env, call, Meaning(o, env, call))
  {
    hide Laid, ClassNamed, MemberNamed;
    match call
    case CallClass(k) =>
      var cls :| ClassNamed(es, k, cls);
      ClassMeans(o, es, k, cls);
    case CallField(k) =>
      var cls, name, typ :| MemberNamed(es, k, FIELDREF, cls, name, typ);
      MemberMeans(o, es, k, FIELDREF, cls, name, typ);
    case CallMethod(k) =>
      var cls, name, typ :| MemberNamed(es, k, METHODREF, cls, name, typ);
      MemberMeans(o, es, k, METHODREF, cls, name, typ);
    case CallInterfaceMethod(k) =>
      var cls, name, typ :| MemberNamed(es, k, INTERFACE_METHODREF, cls, name, typ);
      MemberMeans(o, es, k, INTERFACE_METHODREF, cls, name, typ);
  }

  /** On the pool parsed from the entries of a file, any sequence of resolutions of entries of their
      own kind answers what the entries say, with caching on or off. */
  method ResolveFile(pool: Pool, ghost es: seq<Entry>, calls: seq<Call>, caching: bool, env: Env)
    returns (answers: seq<Answer>)
    requires pool.types.Length == pool.info.Length && Laid(pool.types[..], pool.info[..], es)
    requires forall i :: 0 <= i < |calls| ==> InFile(es, calls[i])
    modifies pool.types, pool.info
    ensures |answers| == |calls| && forall i :: 0 <= i < |calls| ==> FileSays(es, env, calls[i], answers[i])
  {
    hide Laid, InFile, FileSays, WellKinded, Meaning, Cached;
    ghost var o := Original(pool.types[..], pool.info[..]);
    forall i | 0 <= i < |calls|
      ensures WellKinded(o, calls[i]) && FileSays(es, env, calls[i], Meaning(o, env, calls[i]))
    {
      MeaningIsSaid(o, env, es, calls[i]);
    }
    answers := ResolveAll(pool, calls, caching, env);
  }
}
