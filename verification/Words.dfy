/** Bytes, 32-bit words and 64-bit values as the interpreter and the class loader see them. */
module Words {
  type Byte = b: int | 0 <= b < 0x100
  type U2 = u: int | 0 <= u < 0x1_0000
  type Word = w: int | 0 <= w < 0x1_0000_0000
  type Wide = v: int | 0 <= v < 0x1_0000_0000_0000_0000

  /** A signed 32-bit reading of a word. */
  function Int(w: Word): int {
    if w < 0x8000_0000 then w else w - 0x1_0000_0000
  }

  /** A signed 64-bit reading. */
  function Long(v: Wide): int {
    if v < 0x8000_0000_0000_0000 then v else v - 0x1_0000_0000_0000_0000
  }

  /** A signed 16-bit reading. */
  function Short(u: U2): int {
    if u < 0x8000 then u else u - 0x1_0000
  }

  /** The word that holds a value after truncation to 32 bits. */
  function ToWord(x: int): Word {
    x % 0x1_0000_0000
  }

  function ToWide(x: int): Wide {
    x % 0x1_0000_0000_0000_0000
  }

  /** Two adjacent words read as one little-endian 64-bit value. */
  function Join(low: Word, high: Word): Wide {
    high * 0x1_0000_0000 + low
  }

  function Low(v: Wide): Word {
    v % 0x1_0000_0000
  }

  function High(v: Wide): Word {
    v / 0x1_0000_0000
  }

  lemma {:induction false} JoinSplit(v: Wide)
    ensures Join(Low(v), High(v)) == v
  {
  }

  lemma {:induction false} SplitJoin(low: Word, high: Word)
    ensures Low(Join(low, high)) == low && High(Join(low, high)) == high
  {
  }

  /** `READ_U2`: big-endian. */
  function ReadU2(data: seq<Byte>, p: nat): U2
    requires p + 2 <= |data|
  {
    var a: int, b: int := data[p], data[p + 1];
    a * 0x100 + b
  }

  /** `READ_U4`: big-endian. */
  function ReadU4(data: seq<Byte>, p: nat): Word
    requires p + 4 <= |data|
  {
    var high: int, low: int := ReadU2(data, p), ReadU2(data, p + 2);
    high * 0x1_0000 + low
  }

  // ----- the definitions these readings are measured by -----

  /** The number that bytes spell, the most significant first. */
  ghost function Number(bytes: seq<Byte>): nat {
    if bytes == [] then 0 else Number(bytes[..|bytes| - 1]) * 0x100 + bytes[|bytes| - 1]
  }

  /** Two's complement: the signed reading of n in a width of `size` values. */
  ghost function Signed(n: int, size: int): int {
    if 2 * n < size then n else n - size
  }

  lemma {:induction false} NumberOfOne(a: Byte)
    ensures Number([a]) == a
  {
    assert [a][..0] == [];
  }

  lemma {:induction false} NumberOfTwo(a: Byte, b: Byte)
    ensures Number([a, b]) == a * 0x100 + b
  {
    assert [a, b][..1] == [a];
    NumberOfOne(a);
  }

  lemma {:induction false} NumberOfFour(a: Byte, b: Byte, c: Byte, d: Byte)
    ensures Number([a, b, c, d]) == ((a * 0x100 + b) * 0x100 + c) * 0x100 + d
  {
    assert [a, b, c, d][..3] == [a, b, c] && [a, b, c][..2] == [a, b];
    NumberOfTwo(a, b);
  }

  /** The readings used by the interpreter are these. */
  lemma {:induction false} ReadingsAre(code: seq<Byte>, p: nat)
    ensures p + 2 <= |code| ==> ReadU2(code, p) == Number(code[p..p + 2])
                                && Short(ReadU2(code, p)) == Signed(Number(code[p..p + 2]), 0x1_0000)
    ensures p + 4 <= |code| ==> ReadU4(code, p) == Number(code[p..p + 4])
                                && Int(ReadU4(code, p)) == Signed(Number(code[p..p + 4]), 0x1_0000_0000)
  {
    if p + 2 <= |code| {
      assert code[p..p + 2] == [code[p], code[p + 1]];
      NumberOfTwo(code[p], code[p + 1]);
    }
    if p + 4 <= |code| {
      assert code[p..p + 4] == [code[p], code[p + 1], code[p + 2], code[p + 3]];
      NumberOfFour(code[p], code[p + 1], code[p + 2], code[p + 3]);
    }
  }

  /** A typed value: one word, or two words read as a 64-bit value. */
  datatype Value = Single(w: Word) | Double(v: Wide)

  /** The words of a value in memory order. */
  function ValueData(v: Value): (ws: seq<Word>)
    ensures |ws| == if v.Double? then 2 else 1
  {
    match v
    case Single(w) => [w]
    case Double(x) => [Low(x), High(x)]
  }
}
