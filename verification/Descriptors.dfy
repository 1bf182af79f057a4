/**
 Method descriptors (section 4.3.3 of the Java Virtual Machine Specification) and the
 scanners of the repository that walk over them: `parseArgs`, `SCAN_SIG`, `getArgsCount`
 and `getArgsName`. Texts are NUL-free strings; the cursor is an index.
*/
module Descriptors {

  // ----- the grammar -----

  datatype FieldType = Prim(tag: char) | Object(name: string) | Array(elem: FieldType)

  predicate IsPrimitiveTag(c: char) {
    c == 'B' || c == 'C' || c == 'D' || c == 'F' || c == 'I' || c == 'J' || c == 'S' || c == 'Z'
  }

  ghost predicate WellFormed(t: FieldType) {
    match t
    case Prim(c) => IsPrimitiveTag(c)
    case Object(n) => n != "" && ';' !in n
    case Array(e) => WellFormed(e)
  }

  ghost predicate AllWellFormed(ts: seq<FieldType>) {
    forall t :: t in ts ==> WellFormed(t)
  }

  ghost function Spell(t: FieldType): (s: string)
    ensures s != ""
  {
    match t
    case Prim(c) => [c]
    case Object(n) => "L" + n + ";"
    case Array(e) => "[" + Spell(e)
  }

  ghost function SpellAll(ts: seq<FieldType>): string {
    if ts == [] then "" else Spell(ts[0]) + SpellAll(ts[1..])
  }

  /** `(ParameterDescriptor*) ReturnDescriptor` */
  ghost function Descriptor(ps: seq<FieldType>, ret: string): string {
    "(" + SpellAll(ps) + ")" + ret
  }

  /** Words a parameter occupies: long and double take two. */
  ghost function Slots(t: FieldType): nat {
    if t == Prim('J') || t == Prim('D') then 2 else 1
  }

  ghost function TotalSlots(ts: seq<FieldType>): nat {
    if ts == [] then 0 else Slots(ts[0]) + TotalSlots(ts[1..])
  }

  lemma {:induction false} OneMoreParameter(t: FieldType, ts: seq<FieldType>)
    ensures SpellAll([t] + ts) == Spell(t) + SpellAll(ts) && TotalSlots([t] + ts) == Slots(t) + TotalSlots(ts)
  {
    assert ([t] + ts)[1..] == ts;
  }

  lemma {:induction false} ReferenceKinds()
    ensures var ps := [Array(Prim('D')), Object("a/B")];
            AllWellFormed(ps) && SpellAll(ps) == "[DLa/B;" && TotalSlots(ps) == 2
  {
    assert SpellAll([]) == "" && TotalSlots([]) == 0;
    hide SpellAll, TotalSlots;
    OneMoreParameter(Object("a/B"), []);
    assert [Object("a/B")] == [Object("a/B")] + [];
    OneMoreParameter(Array(Prim('D')), [Object("a/B")]);
    assert [Array(Prim('D')), Object("a/B")] == [Array(Prim('D'))] + [Object("a/B")];
  }

  /** Parameters of every kind, their text and their words: int, long, an array of double, a class.
      Of the primitive types only long and double take two words. */
  lemma {:induction false} EveryKind()
    ensures forall c :: c in {'B', 'C', 'F', 'I', 'S', 'Z'} ==> IsPrimitiveTag(c) && TotalSlots([Prim(c)]) == 1
    ensures forall c :: c in {'D', 'J'} ==> IsPrimitiveTag(c) && TotalSlots([Prim(c)]) == 2
    ensures var ps := [Prim('I'), Prim('J'), Array(Prim('D')), Object("a/B")];
            AllWellFormed(ps) && SpellAll(ps) == "IJ[DLa/B;" && TotalSlots(ps) == 5
  {
    forall c
      ensures TotalSlots([Prim(c)]) == Slots(Prim(c))
    {
      assert [Prim(c)][1..] == [];
    }
    hide SpellAll, TotalSlots;
    ReferenceKinds();
    var b := [Array(Prim('D')), Object("a/B")];
    var c := [Prim('J'), Array(Prim('D')), Object("a/B")];
    OneMoreParameter(Prim('J'), b);
    assert c == [Prim('J')] + b;
    OneMoreParameter(Prim('I'), c);
    assert [Prim('I'), Prim('J'), Array(Prim('D')), Object("a/B")] == [Prim('I')] + c;
  }

  // ----- reading one type off the text -----

  /** What follows a cursor: the parameters still to be read, the ')' and the rest. */
  ghost predicate Rest(text: string, p: nat, ps: seq<FieldType>, ret: string) {
    p <= |text| && text[p..] == SpellAll(ps) + ")" + ret
  }

  ghost function Brackets(t: FieldType): nat {
    if t.Array? then 1 + Brackets(t.elem) else 0
  }

  ghost function Base(t: FieldType): FieldType {
    if t.Array? then Base(t.elem) else t
  }

  /** The shape of the spelling of one type at cursor p. */
  ghost predicate SpelledAt(text: string, p: nat, t: FieldType) {
    var k := p + Brackets(t);
    && p + |Spell(t)| <= |text| && k < |text|
    && (forall i :: p <= i < k ==> text[i] == '[')
    && match Base(t) {
         case Prim(c) => IsPrimitiveTag(c) && text[k] == c && p + |Spell(t)| == k + 1
         case Object(n) =>
           && n != "" && text[k] == 'L' && p + |Spell(t)| == k + |n| + 2 && text[k + 1 + |n|] == ';'
           && text[k + 1..k + 1 + |n|] == n && (forall i :: k <= i < k + 1 + |n| ==> text[i] != ';')
         case Array(_) => false
       }
  }

  ghost predicate Reads(text: string, p: nat, t: FieldType) {
    p + |Spell(t)| <= |text| && text[p..p + |Spell(t)|] == Spell(t)
  }

  lemma {:induction false} SpelledObject(text: string, p: nat, n: string, tail: string)
    requires WellFormed(Object(n)) && p <= |text| && text[p..] == "L" + n + ";" + tail
    ensures SpelledAt(text, p, Object(n))
  {
    var u := text[p..];
    assert u[0] == 'L' && u[1 + |n|] == ';' && u[1..1 + |n|] == n;
    assert forall i :: 0 <= i < |n| ==> u[1 + i] == n[i];
    assert text[p + 1..p + 1 + |n|] == u[1..1 + |n|];
  }

  lemma {:induction false} Spelled(text: string, p: nat, t: FieldType, tail: string)
    requires WellFormed(t) && p <= |text| && text[p..] == Spell(t) + tail
    ensures SpelledAt(text, p, t)
    decreases t
  {
    match t
    case Prim(c) =>
      assert text[p] == text[p..][0];
    case Object(n) =>
      SpelledObject(text, p, n, tail);
    case Array(e) =>
      assert text[p] == text[p..][0];
      assert text[p + 1..] == text[p..][1..] == Spell(e) + tail;
      Spelled(text, p + 1, e, tail);
  }

  /** At a cursor before the closing parenthesis stands the next parameter, spelled out. */
  lemma {:induction false} NextType(text: string, p: nat, ps: seq<FieldType>, ret: string)
    requires Rest(text, p, ps, ret) && AllWellFormed(ps)
    ensures p < |text|
    ensures text[p] == ')' <==> ps == []
    ensures ps != [] ==>
              && SpelledAt(text, p, ps[0])
              && Reads(text, p, ps[0])
              && Rest(text, p + |Spell(ps[0])|, ps[1..], ret) && AllWellFormed(ps[1..])
  {
    assert text[p] == text[p..][0];
    if ps != [] {
      var s, tail := Spell(ps[0]), SpellAll(ps[1..]) + ")" + ret;
      assert SpellAll(ps) + ")" + ret == s + tail;
      Spelled(text, p, ps[0], tail);
      assert text[p + |s|..] == text[p..][|s|..];
      assert text[p..p + |s|] == text[p..][..|s|];
    }
  }

  // ----- the inner loops the scanners share -----

  /** `while (*ptr != ';') ptr++` */
  method ToSemicolon(text: string, p: nat, ghost stop: nat) returns (q: nat)
    requires p <= stop < |text| && text[stop] == ';' && forall i :: p <= i < stop ==> text[i] != ';'
    ensures q == stop
  {
    q := p;
    while text[q] != ';'
      invariant p <= q <= stop
      decreases stop - q
    {
      q := q + 1;
    }
  }

  /** A class type: the name up to its ';', and the ';'. */
  method SkipObject(text: string, p: nat, ghost t: FieldType) returns (q: nat)
    requires SpelledAt(text, p, t) && t.Object?
    ensures q == p + |Spell(t)|
  {
    q := ToSemicolon(text, p, p + |t.name| + 1);
    q := q + 1;
  }

  /** An array type: the brackets, then a class name up to its ';' or one primitive tag.
      The cursor is left on the last character of the type. */
  method SkipArray(text: string, p: nat, ghost t: FieldType) returns (q: nat)
    requires SpelledAt(text, p, t) && t.Array?
    ensures q + 1 == p + |Spell(t)|
  {
    q := p + 1;
    while text[q] == '['
      invariant p < q <= p + Brackets(t)
      decreases p + Brackets(t) - q
    {
      q := q + 1;
    }
    if text[q] == 'L' {
      q := ToSemicolon(text, q, p + |Spell(t)| - 1);
    }
  }

  // ----- parseArgs -----

  /** The branches of `parseArgs` for one parameter: its words and the cursor behind it. */
  method ParseArg(text: string, p: nat, ghost t: FieldType) returns (words: nat, q: nat)
    requires SpelledAt(text, p, t)
    ensures words == Slots(t) && q == p + |Spell(t)|
  {
    var c := text[p];
    if c == 'I' || c == 'C' || c == 'B' || c == 'F' || c == 'S' || c == 'Z' {
      return 1, p + 1;
    } else if c == 'J' || c == 'D' {
      return 2, p + 1;
    } else if c == 'L' {
      words := 1;
      q := SkipObject(text, p, t);
    } else {
      words := 1;
      q := SkipArray(text, p, t);
      q := q + 1;
    }
  }

  /** The cursor in `parseArgs`: on the '(' before the first turn of the loop. */
  ghost predicate Started(text: string, p: nat, rest: seq<FieldType>, ret: string) {
    && AllWellFormed(rest)
    && if p == 0 then text == Descriptor(rest, ret) else Rest(text, p, rest, ret)
  }

  lemma {:induction false} Begin(text: string, ps: seq<FieldType>, ret: string)
    requires text == Descriptor(ps, ret) && AllWellFormed(ps)
    ensures Started(text, 0, ps, ret) && Named([], ps, ps)
  {
  }

  lemma {:induction false} StartedAt(text: string, p: nat, rest: seq<FieldType>, ret: string)
    requires Started(text, p, rest, ret)
    ensures |SpellAll(rest)| == if rest == [] then 0 else |Spell(rest[0])| + |SpellAll(rest[1..])|
    ensures p < |text| && (text[p] == ')' <==> p > 0 && rest == [])
    ensures p == 0 ==> text[p] == '(' && Started(text, 1, rest, ret)
    ensures p > 0 && rest != [] ==>
              && SpelledAt(text, p, rest[0]) && Reads(text, p, rest[0])
              && Started(text, p + |Spell(rest[0])|, rest[1..], ret)
  {
    hide SpelledAt, Reads, Spell, WellFormed;
    if p == 0 {
      assert text[1..] == SpellAll(rest) + ")" + ret;
    } else {
      NextType(text, p, rest, ret);
    }
  }

  /** `parseArgs`: the words a method's parameters occupy, counted from the '('. The second
      result is the cursor at which the loop stops. */
  method ParseArgs(text: string, ghost ps: seq<FieldType>, ghost ret: string) returns (count: nat, stop: nat)
    requires text == Descriptor(ps, ret) && AllWellFormed(ps)
    ensures count == TotalSlots(ps)
    ensures stop == 1 + |SpellAll(ps)|
  {
    hide SpelledAt, Reads, Started, Spell, SpellAll, Descriptor, AllWellFormed;
    Begin(text, ps, ret);
    var ptr := 0;
    count := 0;
    ghost var rest := ps;
    StartedAt(text, ptr, rest, ret);
    while text[ptr] != ')'
      invariant Started(text, ptr, rest, ret) && ptr < |text|
      invariant count + TotalSlots(rest) == TotalSlots(ps)
      invariant (if ptr == 0 then 1 else ptr) + |SpellAll(rest)| == 1 + |SpellAll(ps)|
      decreases |text| - ptr
    {
      StartedAt(text, ptr, rest, ret);
      if ptr == 0 {
        ptr := ptr + 1;  // the '(' takes the last branch of the source's chain
      } else {
        var words;
        words, ptr := ParseArg(text, ptr, rest[0]);
        count, rest := count + words, rest[1..];
      }
      StartedAt(text, ptr, rest, ret);
    }
    StartedAt(text, ptr, rest, ret);
    return count, ptr;
  }

  // ----- getArgsCount -----

  /** The branches of `getArgsCount` for one parameter. */
  method CountArg(text: string, p: nat, ghost t: FieldType) returns (q: nat)
    requires SpelledAt(text, p, t)
    ensures q == p + |Spell(t)|
  {
    if text[p] == '[' {
      q := SkipArray(text, p, t);
      q := q + 1;
    } else if text[p] == 'L' {
      q := SkipObject(text, p, t);
    } else {
      q := p + 1;
    }
  }

  /** `getArgsCount`: the number of parameters, with the cursor at which the loop stops. */
  method GetArgsCount(text: string, ghost ps: seq<FieldType>, ghost ret: string) returns (count: nat, stop: nat)
    requires text == Descriptor(ps, ret) && AllWellFormed(ps)
    ensures count == |ps|
    ensures stop == 1 + |SpellAll(ps)|
  {
    hide SpelledAt, Reads, Started, Spell, SpellAll, Descriptor, AllWellFormed;
    Begin(text, ps, ret);
    var ptr := 1;
    count := 0;
    ghost var rest := ps;
    StartedAt(text, 0, rest, ret);
    StartedAt(text, ptr, rest, ret);
    while text[ptr] != ')'
      invariant 0 < ptr < |text| && Started(text, ptr, rest, ret)
      invariant count + |rest| == |ps|
      invariant ptr + |SpellAll(rest)| == 1 + |SpellAll(ps)|
      decreases |text| - ptr
    {
      StartedAt(text, ptr, rest, ret);
      ptr := CountArg(text, ptr, rest[0]);
      count, rest := count + 1, rest[1..];
      StartedAt(text, ptr, rest, ret);
    }
    StartedAt(text, ptr, rest, ret);
    return count, ptr;
  }

  // ----- getArgsName -----

  datatype Names = Names(names: seq<string>, stop: nat) | IndexError

  /** The name recorded for a parameter: the wrapper class of a primitive, the class named, or
      for an array its spelling without the last character. */
  ghost function ArgName(t: FieldType): string {
    match t
    case Prim(c) =>
      if c == 'B' then "java/lang/Byte"
      else if c == 'C' then "java/lang/Char"
      else if c == 'D' then "java/lang/Double"
      else if c == 'F' then "java/lang/Float"
      else if c == 'I' then "java/lang/Integer"
      else if c == 'J' then "java/lang/Long"
      else if c == 'S' then "java/lang/Short"
      else "java/lang/Boolean"
    case Object(n) => n
    case Array(_) => Spell(t)[..|Spell(t)| - 1]
  }

  ghost predicate NamesFor(names: seq<string>, ts: seq<FieldType>) {
    |names| == |ts| && forall i :: 0 <= i < |ts| ==> names[i] == ArgName(ts[i])
  }

  /** The parameters before `rest` have been named. */
  ghost predicate Named(names: seq<string>, ps: seq<FieldType>, rest: seq<FieldType>) {
    |names| <= |ps| && rest == ps[|names|..] && NamesFor(names, ps[..|names|])
  }

  lemma {:induction false} NamedStep(names: seq<string>, ps: seq<FieldType>, rest: seq<FieldType>)
    requires Named(names, ps, rest)
    ensures |names| + |rest| == |ps|
    ensures rest == [] ==> NamesFor(names, ps)
    ensures rest != [] ==> Named(names + [ArgName(rest[0])], ps, rest[1..])
  {
  }

  /** The switch of `getArgsName` for one parameter. */
  method NameArg(text: string, p: nat, ghost t: FieldType) returns (name: string, q: nat)
    requires SpelledAt(text, p, t) && Reads(text, p, t)
    ensures name == ArgName(t) && q == p + |Spell(t)|
  {
    match text[p]
    case 'B' => return "java/lang/Byte", p + 1;
    case 'C' => return "java/lang/Char", p + 1;
    case 'D' => return "java/lang/Double", p + 1;
    case 'F' => return "java/lang/Float", p + 1;
    case 'I' => return "java/lang/Integer", p + 1;
    case 'J' => return "java/lang/Long", p + 1;
    case 'S' => return "java/lang/Short", p + 1;
    case 'Z' => return "java/lang/Boolean", p + 1;
    case '[' =>
      q := SkipArray(text, p, t);
      name := text[p..q];
      assert name == text[p..q + 1][..q - p];
      q := q + 1;
    case _ =>
      q := ToSemicolon(text, p + 1, p + |Spell(t)| - 1);
      name := text[p + 1..q];
      q := q + 1;
  }

  /** `getArgsName` called for `argcount` names: it raises "index error" exactly when the
      descriptor has more parameters than that, and otherwise names every parameter. */
  method GetArgsName(text: string, argcount: nat, ghost ps: seq<FieldType>, ghost ret: string) returns (r: Names)
    requires text == Descriptor(ps, ret) && AllWellFormed(ps)
    ensures r.IndexError? <==> argcount < |ps|
    ensures r.Names? ==> NamesFor(r.names, ps) && r.stop == 1 + |SpellAll(ps)|
  {
    hide SpelledAt, Reads, Started, Named, NamesFor, ArgName, Spell, SpellAll, Descriptor, AllWellFormed;
    Begin(text, ps, ret);
    var ptr, names := 1, [];
    ghost var rest := ps;
    StartedAt(text, 0, rest, ret);
    StartedAt(text, ptr, rest, ret);
    while text[ptr] != ')'
      invariant 0 < ptr < |text| && Started(text, ptr, rest, ret)
      invariant Named(names, ps, rest) && |names| <= argcount
      invariant ptr + |SpellAll(rest)| == 1 + |SpellAll(ps)|
      decreases |text| - ptr
    {
      StartedAt(text, ptr, rest, ret);
      NamedStep(names, ps, rest);
      if |names| == argcount {
        return IndexError;
      }
      var name;
      name, ptr := NameArg(text, ptr, rest[0]);
      names, rest := names + [name], rest[1..];
      StartedAt(text, ptr, rest, ret);
    }
    StartedAt(text, ptr, rest, ret);
    NamedStep(names, ps, rest);
    return Names(names, ptr);
  }

  /** The count that `getArgsCount` returns is always enough for `getArgsName`. */
  method NamesOfDescriptor(text: string, ghost ps: seq<FieldType>, ghost ret: string) returns (r: Names)
    requires text == Descriptor(ps, ret) && AllWellFormed(ps)
    ensures r.Names? && NamesFor(r.names, ps)
  {
    var count, _ := GetArgsCount(text, ps, ret);
    r := GetArgsName(text, count, ps, ret);
  }
}
