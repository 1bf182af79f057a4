/**
 The constant pool: the parser loop of `Verbose_defineClass` in `src/classloader/class.c`
 against the encoding of section 4.4 of the Java Virtual Machine Specification.
*/
module ConstantPool {
  import opened Options
  import opened Words

  // ----- the encoding -----

  /** A pool entry, grouped by the layout of its contents. */
  datatype Entry =
    | Index(tag: Byte, i: U2)          // Class, String, MethodType
    | Pair(tag: Byte, i: U2, j: U2)    // Fieldref, Methodref, InterfaceMethodref, NameAndType, InvokeDynamic
    | Word4(tag: Byte, w: Word)        // Integer, Float
    | Word8(tag: Byte, v: Wide)        // Long, Double
    | Utf8(bytes: seq<Byte>)
    | MethodHandle(kind: Byte, i: U2)

  predicate IndexTag(t: Byte) { t == 7 || t == 8 || t == 16 }
  predicate PairTag(t: Byte) { t == 9 || t == 10 || t == 11 || t == 12 || t == 18 }
  predicate Word4Tag(t: Byte) { t == 3 || t == 4 }
  predicate Word8Tag(t: Byte) { t == 5 || t == 6 }
  const UTF8_TAG: Byte := 1
  const HANDLE_TAG: Byte := 15

  predicate KnownTag(t: Byte) {
    IndexTag(t) || PairTag(t) || Word4Tag(t) || Word8Tag(t) || t == UTF8_TAG || t == HANDLE_TAG
  }

  predicate WellFormed(e: Entry) {
    match e
    case Index(t, _) => IndexTag(t)
    case Pair(t, _, _) => PairTag(t)
    case Word4(t, _) => Word4Tag(t)
    case Word8(t, _) => Word8Tag(t)
    case Utf8(bs) => |bs| < 0x1_0000
    case MethodHandle(_, _) => true
  }

  function Big2(u: U2): seq<Byte> {
    [u / 0x100, u % 0x100]
  }

  function Big4(w: Word): seq<Byte> {
    Big2(w / 0x1_0000) + Big2(w % 0x1_0000)
  }

  function Tag(e: Entry): Byte {
    match e
    case Index(t, _) => t
    case Pair(t, _, _) => t
    case Word4(t, _) => t
    case Word8(t, _) => t
    case Utf8(_) => UTF8_TAG
    case MethodHandle(_, _) => HANDLE_TAG
  }

  ghost function Encode(e: Entry): (r: seq<Byte>)
    requires WellFormed(e)
    ensures |r| > 0 && r[0] == Tag(e)
  {
    [Tag(e)] +
    match e
    case Index(_, i) => Big2(i)
    case Pair(_, i, j) => Big2(i) + Big2(j)
    case Word4(_, w) => Big4(w)
    case Word8(_, v) => Big4(High(v)) + Big4(Low(v))
    case Utf8(bs) => Big2(|bs|) + bs
    case MethodHandle(k, i) => [k] + Big2(i)
  }

  lemma {:induction false} BytesOfTwo(u: U2)
    ensures |Big2(u)| == 2 && Number(Big2(u)) == u
  {
    NumberOfTwo(u / 0x100, u % 0x100);
  }

  lemma {:induction false} BytesOfFour(w: Word)
    ensures |Big4(w)| == 4 && Number(Big4(w)) == w
  {
    var a, b := Big2(w / 0x1_0000), Big2(w % 0x1_0000);
    assert Big4(w) == [a[0], a[1], b[0], b[1]];
    NumberOfFour(a[0], a[1], b[0], b[1]);
  }

  lemma {:induction false} OneMoreByte(a: seq<Byte>, b: Byte)
    ensures Number(a + [b]) == Number(a) * 0x100 + b
  {
    assert (a + [b])[..|a|] == a;
  }

  lemma {:induction false} NumberOfBoth(a: seq<Byte>, b: seq<Byte>)
    requires |b| == 4
    ensures Number(a + b) == Number(a) * 0x1_0000_0000 + Number(b)
  {
    hide Number;
    assert b == [b[0], b[1], b[2], b[3]];
    NumberOfFour(b[0], b[1], b[2], b[3]);
    var c := a + [b[0]];
    var d := c + [b[1]];
    var e := d + [b[2]];
    assert a + b == e + [b[3]];
    OneMoreByte(a, b[0]);
    OneMoreByte(c, b[1]);
    OneMoreByte(d, b[2]);
    OneMoreByte(e, b[3]);
  }

  /** Section 4.4: the tag comes first. Behind the tag the operands are big-endian numbers of two, four or eight bytes,
      a text has its length in two bytes before it, and a method handle its kind in one. */
  lemma {:induction false} EntryBytes(e: Entry)
    requires WellFormed(e)
    ensures var bs := Encode(e)[1..];
            match e
            case Index(_, i) => |bs| == 2 && Number(bs) == i
            case Pair(_, i, j) => |bs| == 4 && Number(bs[..2]) == i && Number(bs[2..]) == j
            case Word4(_, w) => |bs| == 4 && Number(bs) == w
            case Word8(_, v) => |bs| == 8 && Number(bs) == v
            case Utf8(text) => |bs| >= 2 && Number(bs[..2]) == |text| && bs[2..] == text
            case MethodHandle(kind, i) => |bs| == 3 && bs[0] == kind && Number(bs[1..]) == i
    ensures var tag := Encode(e)[0];
            match e
            case Index(_, _) => tag == e.tag && tag in {7, 8, 16}
            case Pair(_, _, _) => tag == e.tag && tag in {9, 10, 11, 12, 18}
            case Word4(_, _) => tag == e.tag && tag in {3, 4}
            case Word8(_, _) => tag == e.tag && tag in {5, 6}
            case Utf8(_) => tag == 1
            case MethodHandle(_, _) => tag == 15
  {
    hide Big2, Big4, Number;
    match e
    case Index(_, i) => BytesOfTwo(i);
    case Pair(_, i, j) => BytesOfTwo(i); BytesOfTwo(j);
      assert (Big2(i) + Big2(j))[..2] == Big2(i) && (Big2(i) + Big2(j))[2..] == Big2(j);
    case Word4(_, w) => BytesOfFour(w);
    case Word8(_, v) =>
      BytesOfFour(High(v));
      BytesOfFour(Low(v));
      NumberOfBoth(Big4(High(v)), Big4(Low(v)));
    case Utf8(text) =>
      BytesOfTwo(|text|);
      assert (Big2(|text|) + text)[..2] == Big2(|text|) && (Big2(|text|) + text)[2..] == text;
    case MethodHandle(kind, i) =>
      BytesOfTwo(i);
      assert ([kind] + Big2(i))[1..] == Big2(i);
  }

  ghost predicate AllWellFormed(es: seq<Entry>) {
    forall e :: e in es ==> WellFormed(e)
  }

  ghost function EncodeAll(es: seq<Entry>): seq<Byte>
    requires AllWellFormed(es)
  {
    if es == [] then [] else Encode(es[0]) + EncodeAll(es[1..])
  }

  /** Long and Double take two indices. */
  function Width(e: Entry): nat {
    if e.Word8? then 2 else 1
  }

  ghost function TotalWidth(es: seq<Entry>): nat {
    if es == [] then 0 else TotalWidth(es[..|es| - 1]) + Width(es[|es| - 1])
  }

  // ----- the pool in memory -----

  /** An `info` word: a number, the address of a text, or the address of a resolved entity. */
  datatype Info =
    | Raw(w: Word)
    | Text(bytes: seq<Byte>)
    | ClassRef(c: nat)
    | FieldRef(f: Option<nat>)
    | MethodRef(m: nat)

  class Pool {
    const types: array<Byte>
    const info: array<Info>

    constructor (n: nat)
      ensures fresh(types) && fresh(info) && types.Length == info.Length == n
      ensures forall j :: 0 <= j < n ==> types[j] == 0 && info[j] == Raw(0)
    {
      types := new Byte[n](_ => 0);
      info := new Info[n](_ => Raw(0));
    }
  }

  /** What entry e leaves at index k. */
  ghost predicate Holds(types: seq<Byte>, info: seq<Info>, k: nat, e: Entry) {
    && k + Width(e) <= |types| == |info|
    && types[k] == Tag(e)
    && match e
       case Index(_, i) => info[k] == Raw(i)
       case Pair(_, i, j) => info[k] == Raw(j * 0x1_0000 + i)
       case Word4(_, w) => info[k] == Raw(w)
       case Word8(_, v) => info[k] == Raw(Low(v)) && info[k + 1] == Raw(High(v)) && types[k + 1] == 0
       case Utf8(bs) => info[k] == Text(bs)
       case MethodHandle(kind, i) => info[k] == Raw(if i != 0 || kind != 0 then 1 else 0)
  }

  /** The entries es stand at their indices 1, 1 + Width(es[0]), ... */
  ghost predicate Laid(types: seq<Byte>, info: seq<Info>, es: seq<Entry>) {
    es == [] ||
    (&& Laid(types, info, es[..|es| - 1])
     && Holds(types, info, 1 + TotalWidth(es[..|es| - 1]), es[|es| - 1]))
  }

  lemma {:induction false} LaidFrame(types: seq<Byte>, info: seq<Info>, types': seq<Byte>, info': seq<Info>,
                                     es: seq<Entry>)
    requires Laid(types, info, es) && |types| == |info| == |types'| == |info'|
    requires forall j :: 0 <= j < |types| && j <= TotalWidth(es) ==> types[j] == types'[j] && info[j] == info'[j]
    ensures Laid(types', info', es)
  {
    if es != [] {
      LaidFrame(types, info, types', info', es[..|es| - 1]);
    }
  }

  // ----- the parser -----

  ghost predicate EncodedAt(data: seq<Byte>, p: nat, e: Entry) {
    WellFormed(e) && p + |Encode(e)| <= |data| && data[p..p + |Encode(e)|] == Encode(e)
  }

  lemma {:induction false} EncodedFits(data: seq<Byte>, p: nat, e: Entry)
    requires EncodedAt(data, p, e)
    ensures WellFormed(e) && p + |Encode(e)| <= |data|
  {
  }

  lemma {:induction false} ReadsBack(data: seq<Byte>, p: nat, e: Entry)
    requires EncodedAt(data, p, e)
    ensures data[p] == Tag(e)
    ensures match e
            case Index(_, i) => |Encode(e)| == 3 && ReadU2(data, p + 1) == i
            case Pair(_, i, j) => |Encode(e)| == 5 && ReadU2(data, p + 1) == i && ReadU2(data, p + 3) == j
            case Word4(_, w) => |Encode(e)| == 5 && ReadU4(data, p + 1) == w
            case Word8(_, v) => |Encode(e)| == 9 && ReadU4(data, p + 1) == High(v) && ReadU4(data, p + 5) == Low(v)
            case Utf8(bs) => |Encode(e)| == 3 + |bs| && ReadU2(data, p + 1) == |bs| && data[p + 3..p + 3 + |bs|] == bs
            case MethodHandle(kind, i) => |Encode(e)| == 4 && data[p + 1] == kind && ReadU2(data, p + 2) == i
  {
    var b := Encode(e);
    assert forall i :: p <= i < p + |b| ==> data[i] == b[i - p];
    match e
    case Index(_, i) =>
    case Pair(_, i, j) =>
    case Word4(_, w) =>
    case Word8(_, v) =>
    case Utf8(bs) => assert data[p + 3..p + 3 + |bs|] == b[3..];
    case MethodHandle(kind, i) =>
  }

  datatype Status = Parsed | InvalidConstantPoolIndex | Overrun

  /** The switch on the tag, for the entry at index k and the cursor p. `Overrun` stands for an
      access outside the file or the pool, which the source does not guard. */
  method ParseEntry(pool: Pool, data: seq<Byte>, p: nat, k: nat, ghost e: Entry)
    returns (status: Status, q: nat, next: nat)
    requires pool.types.Length == pool.info.Length && k < pool.types.Length
    modifies pool.types, pool.info
    ensures EncodedAt(data, p, e) && k + Width(e) <= pool.types.Length
            && old(forall j :: k < j < pool.types.Length ==> pool.types[j] == 0) ==>
              status == Parsed && q == p + |Encode(e)| && next == k + Width(e)
              && Holds(pool.types[..], pool.info[..], k, e)
    ensures p < |data| && !KnownTag(data[p]) ==> status == InvalidConstantPoolIndex
    ensures forall j :: 0 <= j < pool.types.Length && j != k ==> pool.types[j] == old(pool.types[j])
    ensures forall j :: 0 <= j < k ==> pool.info[j] == old(pool.info[j])
    ensures next > k
  {
    hide Encode, EncodedAt, ReadU2, ReadU4, Low, High;
    if EncodedAt(data, p, e) {
      ReadsBack(data, p, e);
      EncodedFits(data, p, e);
    }
    status, q, next := Overrun, p, k + 1;
    if p >= |data| {
      return;
    }
    var tag := data[p];
    pool.types[k] := tag;
    if IndexTag(tag) {
      if p + 3 > |data| { return; }
      pool.info[k] := Raw(ReadU2(data, p + 1));
      q := p + 3;
    } else if PairTag(tag) {
      if p + 5 > |data| { return; }
      var idx1: int, idx2: int := ReadU2(data, p + 1), ReadU2(data, p + 3);
      pool.info[k] := Raw(idx2 * 0x1_0000 + idx1);
      q := p + 5;
    } else if Word4Tag(tag) {
      if p + 5 > |data| { return; }
      pool.info[k] := Raw(ReadU4(data, p + 1));
      q := p + 5;
    } else if Word8Tag(tag) {
      if p + 9 > |data| || k + 1 >= pool.info.Length { return; }
      pool.info[k + 1] := Raw(ReadU4(data, p + 1));
      pool.info[k] := Raw(ReadU4(data, p + 5));
      q, next := p + 9, k + 2;
    } else if tag == UTF8_TAG {
      if p + 3 > |data| { return; }
      var length := ReadU2(data, p + 1);
      if p + 3 + length > |data| { return; }
      pool.info[k] := Text(data[p + 3..p + 3 + length]);
      q := p + 3 + length;
    } else if tag == HANDLE_TAG {
      if p + 4 > |data| { return; }
      var refKind, refIdx := data[p + 1], ReadU2(data, p + 2);
      pool.info[k] := Raw(if refIdx != 0 || refKind != 0 then 1 else 0);  // `||` where `|` was meant
      q := p + 4;
    } else {
      status := InvalidConstantPoolIndex;
      return;
    }
    status := Parsed;
  }

  /** Everything the file holds at p: the entries es, then `tail`. */
  ghost predicate Rest(data: seq<Byte>, p: nat, es: seq<Entry>, tail: seq<Byte>) {
    AllWellFormed(es) && p <= |data| && data[p..] == EncodeAll(es) + tail
  }

  lemma {:induction false} RestStep(data: seq<Byte>, p: nat, es: seq<Entry>, tail: seq<Byte>)
    requires Rest(data, p, es, tail)
    ensures es != [] ==> EncodedAt(data, p, es[0]) && Rest(data, p + |Encode(es[0])|, es[1..], tail)
    ensures es == [] ==> data[p..] == tail
  {
    hide Encode, WellFormed;
    if es != [] {
      var b, r := Encode(es[0]), EncodeAll(es[1..]) + tail;
      assert es[0] in es && data[p..] == b + r;
      assert data[p..p + |b|] == data[p..][..|b|];
      assert data[p + |b|..] == data[p..][|b|..];
    }
  }

  lemma {:induction false} WidthOfRest(es: seq<Entry>)
    ensures es != [] ==> TotalWidth(es) == Width(es[0]) + TotalWidth(es[1..])
    decreases |es|
  {
    if |es| > 1 {
      WidthOfRest(es[..|es| - 1]);
      assert es[..|es| - 1][1..] == es[1..][..|es[1..]| - 1];
    }
  }

  lemma {:induction false} LaidExtend(types: seq<Byte>, info: seq<Info>, es: seq<Entry>, n: nat)
    requires n < |es| && Laid(types, info, es[..n]) && Holds(types, info, 1 + TotalWidth(es[..n]), es[n])
    ensures Laid(types, info, es[..n + 1])
    ensures TotalWidth(es[..n + 1]) == TotalWidth(es[..n]) + Width(es[n])
  {
    assert es[..n + 1][..n] == es[..n];
  }

  lemma {:induction false} PrefixWidth(es: seq<Entry>, n: nat)
    requires n <= |es|
    ensures TotalWidth(es[..n]) + TotalWidth(es[n..]) == TotalWidth(es)
    decreases |es| - n
  {
    if n == |es| {
      assert es[..n] == es;
    } else {
      PrefixWidth(es, n + 1);
      WidthOfRest(es[n..]);
      assert es[n..][1..] == es[n + 1..] && es[..n + 1][..n] == es[..n];
    }
  }

  /** After n entries the cursor p and the index k have moved past exactly their bytes and
      indices, and the pool holds them. */
  ghost predicate Progress(types: seq<Byte>, info: seq<Info>, data: seq<Byte>, p: nat, k: nat, es: seq<Entry>,
                           n: nat, tail: seq<Byte>) {
    && n <= |es| && Rest(data, p, es[n..], tail) && k == 1 + TotalWidth(es[..n])
    && |types| == |info| && Laid(types, info, es[..n])
    && forall j :: k <= j < |types| ==> types[j] == 0
  }

  lemma {:induction false} Begin(types: seq<Byte>, info: seq<Info>, data: seq<Byte>, p: nat, es: seq<Entry>,
                                 tail: seq<Byte>)
    requires |types| == |info| && forall j :: 1 <= j < |types| ==> types[j] == 0
    ensures Rest(data, p, es, tail) ==> Progress(types, info, data, p, 1, es, 0, tail)
  {
    assert es[0..] == es;
  }

  lemma {:induction false} Next(types: seq<Byte>, info: seq<Info>, data: seq<Byte>, p: nat, k: nat, es: seq<Entry>,
                                n: nat, tail: seq<Byte>)
    requires Progress(types, info, data, p, k, es, n, tail)
    ensures n <= |es| && k <= 1 + TotalWidth(es)
    ensures n < |es| ==>
              && EncodedAt(data, p, es[n]) && k + Width(es[n]) <= 1 + TotalWidth(es)
              && forall j :: k <= j < |types| ==> types[j] == 0
    ensures n == |es| ==> k == 1 + TotalWidth(es) && p + |tail| == |data| && Laid(types, info, es)
    ensures n == |es| && tail != [] ==> data[p] == tail[0]
  {
    PrefixWidth(es, n);
    RestStep(data, p, es[n..], tail);
    if n < |es| {
      WidthOfRest(es[n..]);
    } else {
      assert es[..n] == es;
      assert data[p..] == tail;
    }
  }

  lemma {:induction false} ProgressStep(types: seq<Byte>, info: seq<Info>, types': seq<Byte>, info': seq<Info>,
                                        data: seq<Byte>, p: nat, k: nat,
                     es: seq<Entry>, n: nat, tail: seq<Byte>)
    requires Progress(types, info, data, p, k, es, n, tail) && n < |es|
    requires |types| == |types'| == |info'| && Holds(types', info', k, es[n])
    requires forall j :: 0 <= j < |types| && j != k ==> types[j] == types'[j]
    requires forall j :: 0 <= j < k ==> info[j] == info'[j]
    ensures EncodedAt(data, p, es[n])
            && Progress(types', info', data, p + |Encode(es[n])|, k + Width(es[n]), es, n + 1, tail)
  {
    hide EncodedAt, Encode, Rest, Holds;
    assert es[n..][1..] == es[n + 1..];
    RestStep(data, p, es[n..], tail);
    LaidFrame(types, info, types', info', es[..n]);
    LaidExtend(types', info', es, n);
    EncodedFits(data, p, es[n]);
  }

  /** The constant-pool part of `Verbose_defineClass`. On the encoding of a pool whose entries
      fill `count - 1` indices it consumes exactly those bytes and leaves every entry at its
      index; an unknown tag after well-formed entries is rejected. */
  method ParsePool(data: seq<Byte>, start: nat, count: U2, ghost es: seq<Entry>, ghost tail: seq<Byte>)
    returns (status: Status, pool: Pool, cursor: nat)
    ensures fresh(pool) && fresh(pool.types) && fresh(pool.info) && pool.types.Length == pool.info.Length == count
    ensures Rest(data, start, es, tail) && 1 + TotalWidth(es) == count ==>
              status == Parsed && Laid(pool.types[..], pool.info[..], es) && cursor + |tail| == |data|
    ensures Rest(data, start, es, tail) && 1 + TotalWidth(es) < count && tail != [] && !KnownTag(tail[0]) ==>
              status == InvalidConstantPoolIndex
  {
    hide Rest, EncodedAt, Encode, Holds, Laid, Progress;
    pool := new Pool(count);
    status, cursor := Parsed, start;
    var i := 1;
    ghost var n: nat := 0;
    ghost var badTag := 1 + TotalWidth(es) < count && tail != [] && !KnownTag(tail[0]);
    ghost var wellFormed := Rest(data, start, es, tail) && (badTag || 1 + TotalWidth(es) == count);
    Begin(pool.types[..], pool.info[..], data, start, es, tail);
    while i < count
      invariant i > 0
      invariant wellFormed ==> Progress(pool.types[..], pool.info[..], data, cursor, i, es, n, tail)
      invariant status == Parsed
    {
      ghost var types, info := pool.types[..], pool.info[..];
      ghost var e := if n < |es| then es[n] else Utf8([]);
      if wellFormed {
        Next(types, info, data, cursor, i, es, n, tail);
      }
      var at, k := cursor, i;
      status, cursor, i := ParseEntry(pool, data, cursor, i, e);
      if status != Parsed {
        return;
      }
      if wellFormed && n < |es| {
        ProgressStep(types, info, pool.types[..], pool.info[..], data, at, k, es, n, tail);
      }
      n := n + 1;
    }
    if wellFormed {
      Next(pool.types[..], pool.info[..], data, cursor, i, es, n, tail);
    }
  }

  // ----- reading the parsed pool -----

  /** `*(long long *) &info[k]`, the operand of `ldc2_w`, on a little-endian machine. */
  function WideAt(info: seq<Info>, k: nat): Wide
    requires k + 1 < |info| && info[k].Raw? && info[k + 1].Raw?
  {
    Join(info[k].w, info[k + 1].w)
  }

  /** The two halves are stored in swapped order, so the little-endian read gives the value of
      the big-endian file. */
  lemma {:induction false} LongReadsBack(types: seq<Byte>, info: seq<Info>, k: nat, e: Entry)
    requires Holds(types, info, k, e) && e.Word8?
    ensures WideAt(info, k) == e.v
  {
    JoinSplit(e.v);
  }

  /** `(u2) info` and `info >> 16` */
  function Lower(w: Word): U2 { w % 0x1_0000 }
  function Upper(w: Word): U2 { w / 0x1_0000 }

  lemma {:induction false} PairUnpacks(types: seq<Byte>, info: seq<Info>, k: nat, e: Entry)
    requires Holds(types, info, k, e) && e.Pair?
    ensures Lower(info[k].w) == e.i && Upper(info[k].w) == e.j
  {
  }

  /** A MethodHandle entry is the one kind that loses its contents: both fields come back only
      for reference index 0 and kind 0 or 1. */
  lemma {:induction false} HandleUnpacks(types: seq<Byte>, info: seq<Info>, k: nat, e: Entry)
    requires Holds(types, info, k, e) && e.MethodHandle?
    ensures Lower(info[k].w) == e.kind && Upper(info[k].w) == e.i <==> e.i == 0 && e.kind <= 1
  {
  }

  /** The index at which the n-th entry starts. */
  ghost function IndexOf(es: seq<Entry>, n: nat): nat
    requires n <= |es|
  {
    1 + TotalWidth(es[..n])
  }

  /** In a laid-out pool every entry is found at its index. */
  lemma {:induction false} EveryEntryHeld(types: seq<Byte>, info: seq<Info>, es: seq<Entry>, n: nat)
    requires Laid(types, info, es) && n < |es|
    ensures Holds(types, info, IndexOf(es, n), es[n])
    decreases |es|
  {
    if n < |es| - 1 {
      EveryEntryHeld(types, info, es[..|es| - 1], n);
      assert es[..|es| - 1][..n] == es[..n];
    }
  }
}
