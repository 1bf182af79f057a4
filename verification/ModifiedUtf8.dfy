/**
 Modified UTF-8 (section 4.4.7 of the Java Virtual Machine Specification) as coded in
 `src/util/testUTF8.c`: NUL-terminated byte strings against 16-bit units. The bit
 operations of the source are written as divisions and remainders.
*/
module ModifiedUtf8 {
  import opened Words

  type Short = s: int | -0x8000 <= s < 0x8000

  function ToShort(v: int): Short
    requires 0 <= v < 0x10000
  {
    if v < 0x8000 then v else v - 0x10000
  }

  /** A 32-bit signed result, wrapped. */
  function Int32(v: int): int {
    (v + 0x8000_0000) % 0x1_0000_0000 - 0x8000_0000
  }

  // ----- well-formed strings -----

  /** One encoded character: one, two or three bytes. */
  datatype Char = One(x: Byte) | Two(x: Byte, y: Byte) | Three(x: Byte, y: Byte, z: Byte)

  ghost predicate Proper(c: Char) {
    match c
    case One(x) => 0 < x < 0x80
    case Two(x, y) => 0xC0 <= x < 0xE0 && 0x80 <= y < 0xC0
    case Three(x, y, z) => 0xE0 <= x < 0xF0 && 0x80 <= y < 0xC0 && 0x80 <= z < 0xC0
  }

  ghost predicate AllProper(cs: seq<Char>) {
    forall c :: c in cs ==> Proper(c)
  }

  function Enc(c: Char): (r: seq<Byte>)
    ensures 1 <= |r| <= 3
  {
    match c
    case One(x) => [x]
    case Two(x, y) => [x, y]
    case Three(x, y, z) => [x, y, z]
  }

  ghost function Bytes(cs: seq<Char>): seq<Byte> {
    if cs == [] then [] else Enc(cs[0]) + Bytes(cs[1..])
  }

  /** The unit a character stands for. */
  function Value(c: Char): Short {
    match c
    case One(x) => x
    case Two(x, y) => (x % 32) * 64 + y % 64
    case Three(x, y, z) => ToShort((x % 16) * 4096 + (y % 64) * 64 + z % 64)
  }

  ghost function Values(cs: seq<Char>): (r: seq<Short>)
    ensures |r| == |cs|
  {
    seq(|cs|, i requires 0 <= i < |cs| => Value(cs[i]))
  }

  /** A cursor in front of the characters `rest` and the terminating NUL. */
  ghost predicate At(text: seq<Byte>, p: nat, rest: seq<Char>) {
    p <= |text| && text[p..] == Bytes(rest) + [0] && AllProper(rest)
  }

  ghost predicate CharAt(text: seq<Byte>, p: nat, c: Char) {
    p + |Enc(c)| < |text| && text[p..p + |Enc(c)|] == Enc(c) && Proper(c)
  }

  lemma {:induction false} Step(text: seq<Byte>, p: nat, rest: seq<Char>)
    requires At(text, p, rest)
    ensures p < |text| && (text[p] == 0 <==> rest == [])
    ensures rest != [] ==> CharAt(text, p, rest[0]) && At(text, p + |Enc(rest[0])|, rest[1..])
  {
    assert text[p] == text[p..][0];
    if rest != [] {
      assert rest[0] in rest;
      var e, tail := Enc(rest[0]), Bytes(rest[1..]) + [0];
      assert text[p..] == e + tail;
      assert text[p..p + |e|] == text[p..][..|e|];
      assert text[p + |e|..] == text[p..][|e|..];
    }
  }

  /** What section 4.4.7 says a character stands for: the bits of its bytes behind their marks, six
      in each byte but the first. */
  lemma {:induction false} ValueIsPayload(c: Char)
    requires Proper(c)
    ensures match c
            case One(x) => Value(c) == x
            case Two(x, y) => Value(c) == (x - 0xC0) * 0x40 + (y - 0x80)
            case Three(x, y, z) =>
              Value(c) == Signed(((x - 0xE0) * 0x40 + (y - 0x80)) * 0x40 + (z - 0x80), 0x1_0000)
  {
    match c
    case One(_) =>
    case Two(x, y) => assert x % 32 == x - 0xC0 && y % 64 == y - 0x80;
    case Three(x, y, z) => assert x % 16 == x - 0xE0 && y % 64 == y - 0x80 && z % 64 == z - 0x80;
  }

  // ----- decoding -----

  /** `GET_UTF8_CHAR` */
  method GetUtf8Char(text: seq<Byte>, p: nat, ghost ch: Char) returns (c: Short, q: nat)
    requires CharAt(text, p, ch)
    ensures c == Value(ch) && q == p + |Enc(ch)|
  {
    ghost var e := text[p..p + |Enc(ch)|];
    assert text[p] == e[0] && (|e| > 1 ==> text[p + 1] == e[1]) && (|e| > 2 ==> text[p + 2] == e[2]);
    var x: int := text[p];
    q := p + 1;
    if x >= 0x80 {            // x & 0x80
      var y: int := text[q];
      q := q + 1;
      if (x / 32) % 2 == 1 {  // x & 0x20
        var z: int := text[q];
        q := q + 1;
        c := ToShort((x % 16) * 4096 + (y % 64) * 64 + z % 64);
      } else {
        c := (x % 32) * 64 + y % 64;
      }
    } else {
      c := x;
    }
  }

  method Utf8Len(text: seq<Byte>, ghost cs: seq<Char>) returns (count: nat)
    requires At(text, 0, cs)
    ensures count == |cs|
  {
    hide At, CharAt;
    count := 0;
    var p: nat := 0;
    ghost var rest := cs;
    Step(text, p, rest);
    while text[p] != 0
      invariant p < |text| && At(text, p, rest)
      invariant count + |rest| == |cs|
      decreases |rest|
    {
      Step(text, p, rest);
      p := CharWidth(text, p, rest[0]);
      rest, count := rest[1..], count + 1;
      Step(text, p, rest);
    }
    Step(text, p, rest);
  }

  /** The cursor step of `utf8Len`, decided by the first byte alone. */
  method CharWidth(text: seq<Byte>, p: nat, ghost ch: Char) returns (q: nat)
    requires CharAt(text, p, ch)
    ensures q == p + |Enc(ch)|
  {
    assert text[p] == text[p..p + |Enc(ch)|][0];
    var x: int := text[p];
    q := p + if x >= 0x80 then (if (x / 32) % 2 == 1 then 3 else 2) else 1;
  }

  lemma {:induction false} AreValues(us: seq<Short>, cs: seq<Char>)
    requires |us| == |cs| && forall j :: 0 <= j < |us| ==> us[j] == Value(cs[j])
    ensures us == Values(cs)
  {
  }

  method ConvertUtf8(text: seq<Byte>, buff: array<Short>, ghost cs: seq<Char>)
    requires At(text, 0, cs) && |cs| <= buff.Length
    modifies buff
    ensures buff[..|cs|] == Values(cs)
    ensures buff[|cs|..] == old(buff[|cs|..])
  {
    hide At, CharAt, Value, Values, Bytes, Enc, AllProper;
    var p: nat, i: nat := 0, 0;
    Step(text, p, cs);
    assert cs[0..] == cs;
    while text[p] != 0
      invariant i <= |cs| && p < |text| && At(text, p, cs[i..])
      invariant forall j :: 0 <= j < i ==> buff[j] == Value(cs[j])
      invariant buff[|cs|..] == old(buff[|cs|..])
      decreases |cs| - i
    {
      Step(text, p, cs[i..]);
      assert cs[i..][1..] == cs[i + 1..];
      var c;
      c, p := GetUtf8Char(text, p, cs[i]);
      buff[i] := c;
      i := i + 1;
      Step(text, p, cs[i..]);
    }
    Step(text, p, cs[i..]);
    AreValues(buff[..|cs|], cs);
  }

  // ----- comparing and hashing -----

  lemma {:induction false} SameValues(cs: seq<Char>, ds: seq<Char>)
    ensures cs == [] || ds == [] ==> (Values(cs) == Values(ds) <==> cs == ds)
    ensures cs != [] && ds != [] ==>
              (Values(cs) == Values(ds) <==> Value(cs[0]) == Value(ds[0]) && Values(cs[1..]) == Values(ds[1..]))
  {
    hide Value;
    if cs != [] && ds != [] {
      assert Values(cs) == [Value(cs[0])] + Values(cs[1..]);
      assert Values(ds) == [Value(ds[0])] + Values(ds[1..]);
      assert Values(cs)[0] == Value(cs[0]) && Values(cs)[1..] == Values(cs[1..]);
      assert Values(ds)[0] == Value(ds[0]) && Values(ds)[1..] == Values(ds[1..]);
    }
  }

  /** `utf8Comp` is true exactly when both strings decode to the same units. */
  method Utf8Comp(ptr: seq<Byte>, ptr2: seq<Byte>, ghost cs: seq<Char>, ghost ds: seq<Char>) returns (r: bool)
    requires At(ptr, 0, cs) && At(ptr2, 0, ds)
    ensures r <==> Values(cs) == Values(ds)
  {
    hide At, CharAt, Value, Values, Enc;
    var p: nat, q: nat := 0, 0;
    ghost var rc, rd := cs, ds;
    Step(ptr, p, rc);
    Step(ptr2, q, rd);
    while ptr[p] != 0 && ptr2[q] != 0
      invariant p < |ptr| && At(ptr, p, rc) && q < |ptr2| && At(ptr2, q, rd)
      invariant Values(cs) == Values(ds) <==> Values(rc) == Values(rd)
      decreases |rc|
    {
      Step(ptr, p, rc);
      Step(ptr2, q, rd);
      SameValues(rc, rd);
      var c, c2;
      c, p := GetUtf8Char(ptr, p, rc[0]);
      c2, q := GetUtf8Char(ptr2, q, rd[0]);
      if c != c2 {
        return false;
      }
      rc, rd := rc[1..], rd[1..];
      Step(ptr, p, rc);
      Step(ptr2, q, rd);
    }
    Step(ptr, p, rc);
    Step(ptr2, q, rd);
    SameValues(rc, rd);
    if ptr[p] != 0 || ptr2[q] != 0 {
      return false;
    }
    return true;
  }

  /** The polynomial hash of a unit sequence, from a running value. */
  ghost function HashFrom(h: int, us: seq<Short>): int
    decreases |us|
  {
    if us == [] then h else HashFrom(Int32(h * 37 + us[0]), us[1..])
  }

  /** `utf8Hash` depends on the decoded units only: strings that compare equal hash equal. */
  method Utf8Hash(text: seq<Byte>, ghost cs: seq<Char>) returns (hash: int)
    requires At(text, 0, cs)
    ensures hash == HashFrom(0, Values(cs))
  {
    hide At, CharAt, Value, Int32;
    hash := 0;
    var p: nat := 0;
    ghost var rest := cs;
    Step(text, p, rest);
    while text[p] != 0
      invariant p < |text| && At(text, p, rest)
      invariant HashFrom(hash, Values(rest)) == HashFrom(0, Values(cs))
      decreases |rest|
    {
      Step(text, p, rest);
      assert Values(rest)[1..] == Values(rest[1..]);
      var c;
      c, p := GetUtf8Char(text, p, rest[0]);
      hash := Int32(hash * 37 + c);
      rest := rest[1..];
      Step(text, p, rest);
    }
    Step(text, p, rest);
  }

  /** The polynomial of the units, without any wrap-around. */
  ghost function Polynomial(us: seq<Short>): int {
    if us == [] then 0 else Polynomial(us[..|us| - 1]) * 37 + us[|us| - 1]
  }

  lemma {:induction false} HashExtends(h: int, us: seq<Short>, u: Short)
    ensures HashFrom(h, us + [u]) == Int32(HashFrom(h, us) * 37 + u)
    decreases |us|
  {
    hide Int32;
    if us == [] {
      assert ([] + [u])[1..] == [];
    } else {
      assert (us + [u])[1..] == us[1..] + [u];
      HashExtends(Int32(h * 37 + us[0]), us[1..], u);
    }
  }

  /** Wrapping at every step is wrapping once: the hash is the polynomial in 37 of the units, read
      as a signed number of 32 bits. */
  lemma {:induction false} HashIsPolynomial(us: seq<Short>)
    ensures -0x8000_0000 <= HashFrom(0, us) < 0x8000_0000
    ensures (HashFrom(0, us) - Polynomial(us)) % 0x1_0000_0000 == 0
    decreases |us|
  {
    if us != [] {
      var front, u := us[..|us| - 1], us[|us| - 1];
      HashIsPolynomial(front);
      assert us == front + [u];
      HashExtends(0, front, u);
      WrapOnce(HashFrom(0, front), Polynomial(front), u);
    }
  }

  lemma {:induction false} WrapOnce(h: int, n: int, u: int)
    requires (h - n) % 0x1_0000_0000 == 0
    ensures (Int32(h * 37 + u) - (n * 37 + u)) % 0x1_0000_0000 == 0
    ensures -0x8000_0000 <= Int32(h * 37 + u) < 0x8000_0000
  {
  }

  // ----- encoding -----

  /** The units on which the source's signed comparisons are right. */
  type Unit = u: int | 0 <= u < 0x8000

  function Encode(c: Unit): Char {
    if c == 0 || c > 0x7F then
      if c > 0x7FF then Three(c / 4096 + 0xE0, (c / 64) % 64 + 0x80, c % 64 + 0x80)
      else Two(c / 64 + 0xC0, c % 64 + 0x80)
    else One(c)
  }

  lemma {:induction false} EncodeRoundTrip(c: Unit)
    ensures Proper(Encode(c)) && Value(Encode(c)) == c
  {
    assert c == (c / 64) * 64 + c % 64 && c / 64 == (c / 4096) * 64 + (c / 64) % 64;
  }

  ghost function EncodeAll(us: seq<Unit>): (r: seq<Char>)
    ensures |r| == |us|
  {
    seq(|us|, i requires 0 <= i < |us| => Encode(us[i]))
  }

  /** The bytes `unicode2Utf8` writes for one unit; a negative unit is cut to its low byte. */
  function Emit(c: Short): (out: seq<Byte>)
    ensures 1 <= |out| <= 3
  {
    if c < 0 then [c % 256] else Enc(Encode(c))
  }

  ghost function Emitted(us: seq<Short>): seq<Byte> {
    if us == [] then [] else Emit(us[0]) + Emitted(us[1..])
  }

  lemma {:induction false} EmittedUnits(us: seq<Unit>)
    ensures Emitted(us) == Bytes(EncodeAll(us))
  {
    if us != [] {
      assert EncodeAll(us)[1..] == EncodeAll(us[1..]);
      EmittedUnits(us[1..]);
    }
  }

  /** Decoding what was encoded gives the units back. */
  lemma {:induction false} RoundTrip(us: seq<Unit>)
    ensures AllProper(EncodeAll(us))
    ensures Values(EncodeAll(us)) == us
  {
    hide Encode, Value;
    forall i | 0 <= i < |us|
      ensures Proper(EncodeAll(us)[i]) && Value(EncodeAll(us)[i]) == us[i]
    {
      EncodeRoundTrip(us[i]);
    }
  }

  /** The bytes `utf8CharLen` reserves for one unit. */
  function Reserved(c: Short): nat {
    if c > 0xF then (if c > 0x7FF then 3 else 2) else 1
  }

  ghost function TotalReserved(us: seq<Short>): nat {
    if us == [] then 1 else Reserved(us[0]) + TotalReserved(us[1..])
  }

  method Utf8CharLen(unicode: seq<Short>) returns (count: nat)
    ensures count == TotalReserved(unicode)
  {
    count := 1;
    for i := 0 to |unicode|
      invariant count + TotalReserved(unicode[i..]) == 1 + TotalReserved(unicode)
    {
      assert unicode[i..][1..] == unicode[i + 1..];
      var c := unicode[i];
      count := count + if c > 0xF then (if c > 0x7FF then 3 else 2) else 1;
    }
  }

  /** Units 0 are short by one byte, units 0x10 to 0x7F are given one byte too many. */
  ghost function Zeros(us: seq<Short>): nat {
    if us == [] then 0 else (if us[0] == 0 then 1 else 0) + Zeros(us[1..])
  }

  ghost function Slack(us: seq<Short>): nat {
    if us == [] then 0 else (if 0xF < us[0] <= 0x7F then 1 else 0) + Slack(us[1..])
  }

  lemma {:induction false} Reservation(us: seq<Short>)
    ensures |Emitted(us)| + 1 + Slack(us) == TotalReserved(us) + Zeros(us)
  {
    if us != [] {
      Reservation(us[1..]);
    }
  }

  /** The encoding and its NUL fit the buffer that `unicode2Utf8` allocates exactly when there
      are no more units 0 than units in 0x10..0x7F; in particular whenever no unit is 0. */
  lemma {:induction false} FitsExactlyWhen(us: seq<Short>)
    ensures |Emitted(us)| + 1 <= TotalReserved(us) <==> Zeros(us) <= Slack(us)
    ensures 0 !in us ==> |Emitted(us)| + 1 <= TotalReserved(us)
  {
    Reservation(us);
    NoZeros(us);
  }

  lemma {:induction false} NoZeros(us: seq<Short>)
    ensures 0 !in us ==> Zeros(us) == 0
  {
    if us != [] {
      NoZeros(us[1..]);
    }
  }

  /** A single unit 0 overruns the buffer. */
  lemma {:induction false} ZeroOverruns()
    ensures |Emitted([0])| + 1 > TotalReserved([0])
  {
    FitsExactlyWhen([0]);
  }

  /** The branches of `unicode2Utf8` for one unit. */
  method EmitUnit(c: Short) returns (out: seq<Byte>)
    ensures out == Emit(c)
  {
    out := [];
    if c == 0 || c > 0x7F {
      if c > 0x7FF {
        out := out + [c / 4096 + 0xE0];
        out := out + [(c / 64) % 64 + 0x80];
      } else {
        out := out + [c / 64 + 0xC0];
      }
      out := out + [c % 64 + 0x80];
    } else {
      out := out + [c % 256];
    }
  }

  /** `unicode2Utf8`, with the bytes it writes from the start of its buffer. */
  method Unicode2Utf8(unicode: seq<Short>) returns (utf8: seq<Byte>)
    ensures utf8 == Emitted(unicode) + [0]
  {
    hide Emit;
    utf8 := [];
    for i := 0 to |unicode|
      invariant utf8 + Emitted(unicode[i..]) == Emitted(unicode)
    {
      assert unicode[i..][1..] == unicode[i + 1..];
      var out := EmitUnit(unicode[i]);
      utf8 := utf8 + out;
    }
    utf8 := utf8 + [0];
  }

  // ----- when the encoding can be read back -----

  /** The first character of a readable encoding covers k whole units: the unit it encodes, or a
      negative unit with the negative units that supply the continuation bytes. */
  ghost predicate Covers(us: seq<Short>, cs: seq<Char>, k: nat) {
    && cs != [] && 1 <= k <= |us| && Emitted(us[k..]) == Bytes(cs[1..])
    && (us[0] < 0 && k == 1 ==> Value(cs[0]) >= 0)
  }

  lemma {:induction false} FirstByte(us: seq<Short>)
    ensures us != [] ==> Emitted(us) != [] && Emitted(us)[0] == Emit(us[0])[0]
    ensures us != [] && us[0] >= 0 ==> !(0x80 <= Emitted(us)[0] < 0xC0)
    ensures us != [] && us[0] < 0 ==> Emitted(us)[1..] == Emitted(us[1..])
  {
  }

  /** A continuation byte was written for a negative unit. */
  lemma {:induction false} Continuation(us: seq<Short>, x: Byte, tail: seq<Byte>)
    requires Emitted(us) == [x] + tail && 0x80 <= x < 0xC0
    ensures us != [] && Emitted(us[1..]) == tail
  {
    hide Emit;
    FirstByte(us);
    assert ([x] + tail)[1..] == tail;
  }

  lemma {:induction false} FirstCovers(us: seq<Short>, cs: seq<Char>) returns (k: nat)
    requires us != [] && Emitted(us) == Bytes(cs) && AllProper(cs)
    ensures Covers(us, cs, k)
  {
    hide Emit, Emitted;
    FirstByte(us);
    assert cs != [] && cs[0] in cs;
    var c, tail := cs[0], Bytes(cs[1..]);
    k := 1;
    if us[0] >= 0 {
      UnitCovers(us, c, tail);
    } else {
      assert Emitted(us[1..]) == Enc(c)[1..] + tail by {
        assert (Enc(c) + tail)[1..] == Enc(c)[1..] + tail;
      }
      match c
      case One(_) =>
      case Two(_, y) =>
        k := 2;
        Continuation(us[1..], y, tail);
      case Three(_, y, z) =>
        k := 3;
        assert Enc(c)[1..] + tail == [y] + ([z] + tail);
        Continuation(us[1..], y, [z] + tail);
        Continuation(us[1..][1..], z, tail);
        assert us[1..][1..][1..] == us[3..];
    }
  }

  lemma {:induction false} UnitCovers(us: seq<Short>, c: Char, tail: seq<Byte>)
    requires us != [] && us[0] >= 0 && Proper(c) && Emitted(us) == Enc(c) + tail
    ensures Emitted(us[1..]) == tail
  {
    var e := Enc(Encode(us[0]));
    EncodeRoundTrip(us[0]);
    assert Emitted(us)[0] == e[0] == Enc(c)[0];
    assert |e| == |Enc(c)|;
    assert Emitted(us)[|e|..] == Emitted(us[1..]);
  }

  lemma {:induction false} UnitsCovered(us: seq<Short>, cs: seq<Char>)
    requires Emitted(us) == Bytes(cs) && AllProper(cs)
    ensures |cs| <= |us|
    ensures Values(cs) == us ==> forall u :: u in us ==> u >= 0
    decreases |us|
  {
    hide Value, Emit, Enc;
    if us != [] {
      var k := FirstCovers(us, cs);
      UnitsCovered(us[k..], cs[1..]);
      if Values(cs) == us {
        assert Values(cs)[1..] == Values(cs[1..]);
        assert k == 1 && Values(cs)[0] == Value(cs[0]);
        assert us == [us[0]] + us[1..];
      }
    } else {
      assert cs == [];
    }
  }

  /** What `unicode2Utf8` writes is a well-formed text for the given units exactly when no unit is
      negative as a short, that is when none is 0x8000 or above. */
  lemma {:induction false} ReadableExactlyWhen(us: seq<Short>)
    ensures (exists cs :: At(Emitted(us) + [0], 0, cs) && Values(cs) == us) <==> forall u :: u in us ==> u >= 0
  {
    hide Value, Emit, Enc;
    var text := Emitted(us) + [0];
    assert text[0..] == text;
    if forall u :: u in us ==> u >= 0 {
      assert forall i :: 0 <= i < |us| ==> us[i] in us;
      RoundTrip(us);
      EmittedUnits(us);
      assert At(text, 0, EncodeAll(us));
    }
    forall cs | At(text, 0, cs) && Values(cs) == us
      ensures forall u :: u in us ==> u >= 0
    {
      assert text[..|text| - 1] == Emitted(us) && (Bytes(cs) + [0])[..|Bytes(cs)|] == Bytes(cs);
      UnitsCovered(us, cs);
    }
  }

  /** U+FFFF, the short -1, becomes the single byte 0xFF, which no character consists of. */
  lemma {:induction false} NegativeUnitIsLost()
    ensures Emitted([-1]) == [0xFF]
    ensures !exists cs :: At(Emitted([-1]) + [0], 0, cs) && Values(cs) == [-1]
  {
    ReadableExactlyWhen([-1]);
  }

  /** `convertUtf8` after `unicode2Utf8`: every unit comes back, in a buffer of `utf8Len` units. */
  method EncodeThenDecode(unicode: seq<Unit>) returns (back: seq<Short>)
    ensures back == unicode
  {
    var utf8 := Unicode2Utf8(unicode);
    EmittedUnits(unicode);
    RoundTrip(unicode);
    assert utf8[0..] == utf8;
    var n := Utf8Len(utf8, EncodeAll(unicode));
    var buff := new Short[n];
    ConvertUtf8(utf8, buff, EncodeAll(unicode));
    back := buff[..];
  }
}
