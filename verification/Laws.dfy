/**
 What the instructions do, said about the bytes of a method and the words of a frame alone: laws
 over steps and runs of the machine that mention neither the decoder nor its arithmetic. Bytes
 are read with `Number` and `Signed`, the definitions of big-endian and two's complement numbers.
*/
module Laws {
  import opened Options
  import opened Words
  import opened Bytecode
  import opened Frames
  import opened Machine
  import Handlers

  const M32: int := 0x1_0000_0000
  const M64: int := 0x1_0000_0000_0000_0000

  /** The number of two words in memory order, the low one first. */
  ghost function Pair(low: Word, high: Word): int {
    high * M32 + low
  }

  /** The signed readings of the interpreter are two's complement. */
  lemma {:induction false} WordsAre(w: Word, low: Word, high: Word, u: Byte)
    ensures Int(w) == Signed(w, M32)
    ensures Join(low, high) == Pair(low, high) && Long(Join(low, high)) == Signed(Pair(low, high), M64)
    ensures SignedByte(u) == Signed(u, 0x100)
  {
  }

  // ----- standing before bytes -----

  /** The frame on top stands before these bytes of its method. */
  ghost predicate Stands(p: Program, s: State, bytes: seq<Byte>) {
    && Sound(p) && Shaped(p, s)
    && var f := s.frames[0]; var code := p.code[f.mb].bytes;
       0 <= f.pc && f.pc + |bytes| <= |code| && code[f.pc..f.pc + |bytes|] == bytes
  }

  /** The frame on top has moved on inside its method; nothing else has changed. */
  ghost function Moved(s: State, locals: seq<Word>, stack: seq<Word>, pc: int): Outcome
    requires s.frames != []
  {
    Next(State([Frame(s.frames[0].mb, locals, stack, pc)] + s.frames[1..], s.heap))
  }

  lemma {:induction false} Known(p: Program, s: State, bytes: seq<Byte>)
    requires Stands(p, s, bytes)
    ensures Sound(p) && Shaped(p, s)
  {
    hide Sound, Shaped;
  }

  lemma {:induction false} BytesHere(p: Program, s: State, bytes: seq<Byte>)
    requires Stands(p, s, bytes)
    ensures var f := s.frames[0]; var code := p.code[f.mb].bytes;
            && 0 <= f.pc && f.pc + |bytes| <= |code| && Shaped(p, s) && Sound(p)
            && (forall i :: 0 <= i < |bytes| ==> code[f.pc + i] == bytes[i])
            && |f.locals| == p.code[f.mb].maxLocals && |f.stack| <= p.code[f.mb].maxStack
  {
    hide Sound;
    var f := s.frames[0];
    var code := p.code[f.mb].bytes;
    forall i | 0 <= i < |bytes|
      ensures code[f.pc + i] == bytes[i]
    {
      assert code[f.pc..f.pc + |bytes|][i] == code[f.pc + i];
    }
  }

  /** A frame that has moved over the first bytes stands before the others. */
  lemma {:induction false} StandsNext(p: Program, s: State, bytes: seq<Byte>, k: nat, locals: seq<Word>,
                                      stack: seq<Word>)
    requires Stands(p, s, bytes) && k <= |bytes|
    requires Shaped(p, Moved(s, locals, stack, s.frames[0].pc + k).state)
    ensures Stands(p, Moved(s, locals, stack, s.frames[0].pc + k).state, bytes[k..])
  {
    hide Sound;
    var f := s.frames[0];
    var code := p.code[f.mb].bytes;
    assert code[f.pc..f.pc + |bytes|][k..] == code[f.pc + k..f.pc + |bytes|];
  }

  /** The step of an instruction that stays in its frame. */
  lemma {:induction false} LocalLaw(p: Program, s: State, ins: Instr, next: nat, rest: seq<Word>, args: seq<Word>)
    requires Sound(p) && Shaped(p, s) && IsLocal(ins)
    requires var f := s.frames[0]; var code := p.code[f.mb].bytes;
             0 <= f.pc < |code| && Decode(code, f.pc) == Some((ins, next)) && f.stack == rest + args
    requires |args| == WordsOf(Pops(ins))
    ensures var f := s.frames[0]; var done := Compute(ins, args, f.locals);
            Step(p, s) ==
              if done.Fail? then Stop(done.fault)
              else if |rest| + |done.value.1| > p.code[f.mb].maxStack then
                Stop(PushFault(if PushesWide(ins) then 2 else 1, |rest|, p.code[f.mb].maxStack))
              else Moved(s, done.value.0, rest + done.value.1, JumpTo(ins, next, args))
  {
    hide Sound, Decode, Compute, JumpTo, LocalStep, Pops, WordsOf, PushesWide;
    Handlers.StepWith(ins, next, s.frames[0], p.code[s.frames[0].mb].maxStack, rest, args);
  }

  /** The step of an operation on the stack. */
  lemma {:induction false} OpLaw(p: Program, s: State, op: Op, rest: seq<Word>, args: seq<Word>)
    requires Sound(p) && Shaped(p, s)
    requires var f := s.frames[0]; var code := p.code[f.mb].bytes;
             0 <= f.pc < |code| && Decode(code, f.pc) == Some((Operate(op), f.pc + 1)) && f.stack == rest + args
    requires |args| == WordsOf(OpPops(op))
    ensures var f := s.frames[0]; var out := Apply(op, args);
            && (out.Fail? ==> Step(p, s) == Stop(out.fault))
            && (out.Ok? && |rest| + |out.value| <= p.code[f.mb].maxStack ==>
                  Step(p, s) == Moved(s, f.locals, rest + out.value, f.pc + 1))
  {
    hide Sound, Decode, Apply;
    LocalLaw(p, s, Operate(op), s.frames[0].pc + 1, rest, args);
  }

  lemma {:induction false} PlainByte(code: seq<Byte>, at: nat)
    requires at < |code| && IsPlain(code[at])
    ensures Decode(code, at) == WithEnd(DecodePlain(code[at]), at + 1)
  {
    hide DecodePlain;
  }

  predicate IsPlain(b: Byte) {
    b != 0 && b != 170 && b != 171 && !HasOperandByte(b) && !HasTwoOperandBytes(b)
  }

  /** The step of a byte that stands for an operation which succeeds and whose result fits. */
  lemma {:induction false} OpStep(p: Program, s: State, b: Byte, op: Op, rest: seq<Word>, args: seq<Word>,
                                  out: seq<Word>)
    requires Stands(p, s, [b]) && IsPlain(b) && DecodePlain(b) == Some(Operate(op))
    requires s.frames[0].stack == rest + args && |args| == WordsOf(OpPops(op))
    requires Apply(op, args) == Ok(out) && |rest| + |out| <= p.code[s.frames[0].mb].maxStack
    ensures Step(p, s) == Moved(s, s.frames[0].locals, rest + out, s.frames[0].pc + 1)
  {
    hide Sound, Stands, IsPlain, DecodePlain, Apply, Decode, Step;
    BytesHere(p, s, [b]);
    assert p.code[s.frames[0].mb].bytes[s.frames[0].pc + 0] == [b][0];
    PlainByte(p.code[s.frames[0].mb].bytes, s.frames[0].pc);
    OpLaw(p, s, op, rest, args);
  }

  /** The step of a byte that stands for an operation which fails. */
  lemma {:induction false} OpStops(p: Program, s: State, b: Byte, op: Op, rest: seq<Word>, args: seq<Word>)
    requires Stands(p, s, [b]) && IsPlain(b) && DecodePlain(b) == Some(Operate(op))
    requires s.frames[0].stack == rest + args && |args| == WordsOf(OpPops(op)) && Apply(op, args).Fail?
    ensures Step(p, s) == Stop(Apply(op, args).fault)
  {
    hide Sound, Stands, IsPlain, DecodePlain, Apply, Decode, Step;
    BytesHere(p, s, [b]);
    assert p.code[s.frames[0].mb].bytes[s.frames[0].pc + 0] == [b][0];
    PlainByte(p.code[s.frames[0].mb].bytes, s.frames[0].pc);
    OpLaw(p, s, op, rest, args);
  }

  lemma {:induction false} StackFits(p: Program, s: State, bytes: seq<Byte>)
    requires Stands(p, s, bytes)
    ensures s.frames != [] && s.frames[0].mb in p.code && 0 <= s.frames[0].pc
    ensures |s.frames[0].stack| <= p.code[s.frames[0].mb].maxStack
  {
    hide Sound;
  }

  // ----- int arithmetic -----

  lemma {:induction false} Wraps(x: int)
    ensures (ToWord(x) - x) % M32 == 0
  {
  }

  /** iadd, isub and imul are sum, difference and product in 32 bits. */
  lemma {:induction false} IntSums(p: Program, s: State, b: Byte, rest: seq<Word>, x: Word, y: Word) returns (w: Word)
    requires Stands(p, s, [b]) && (b == 96 || b == 100 || b == 104) && s.frames[0].stack == rest + [x, y]
    ensures Step(p, s) == Moved(s, s.frames[0].locals, rest + [w], s.frames[0].pc + 1)
    ensures b == 96 ==> (w - (x + y)) % M32 == 0
    ensures b == 100 ==> (w - (x - y)) % M32 == 0
    ensures b == 104 ==> (w - x * y) % M32 == 0
  {
    hide Sound, Stands, Step, Int;
    StackFits(p, s, [b]);
    w := ToWord(if b == 96 then Int(x) + Int(y) else if b == 100 then Int(x) - Int(y) else Int(x) * Int(y));
    var op := IntOp(if b == 96 then Arith.Add else if b == 100 then Sub else Mul);
    OpWords(op);
    OpStep(p, s, b, op, rest, [x, y], [w]);
    SumsWrap(x, y);
  }

  lemma {:induction false} SumsWrap(x: Word, y: Word)
    ensures (ToWord(Int(x) + Int(y)) - (x + y)) % M32 == 0
    ensures (ToWord(Int(x) - Int(y)) - (x - y)) % M32 == 0
    ensures (ToWord(Int(x) * Int(y)) - x * y) % M32 == 0
  {
    var n := Int(x) * Int(y);
    assert (n - x * y) % M32 == 0 by { ProductWraps(x, Int(x), y, Int(y), M32); }
    Wraps(n);
    SameRemainder(ToWord(n), n, x * y, M32);
  }

  lemma {:induction false} SameRemainder(a: int, b: int, c: int, m: int)
    requires m == M32 || m == M64
    requires (a - b) % m == 0 && (b - c) % m == 0
    ensures (a - c) % m == 0
  {
    if m == M32 {
      assert a - c == (a - b) + (b - c);
    } else {
      assert a - c == (a - b) + (b - c);
    }
  }

  lemma {:induction false} SumOfMultiples(a: int, b: int, c: int, m: int)
    requires m == M32 || m == M64
    requires a % m == 0 && b % m == 0 && c % m == 0
    ensures (a + b - c) % m == 0
  {
    if m == M32 {
      assert a == M32 * (a / M32) && b == M32 * (b / M32) && c == M32 * (c / M32);
    } else {
      assert a == M64 * (a / M64) && b == M64 * (b / M64) && c == M64 * (c / M64);
    }
  }

  /** Numbers of one width with the same remainder are the same. */
  lemma {:induction false} SameNumber(a: int, b: int, m: int)
    requires m == M32 || m == M64
    requires 0 <= a < m && 0 <= b < m && (a - b) % m == 0
    ensures a == b
  {
  }

  /** Subtracting is adding the negation, whatever the width. */
  lemma {:induction false} SubtractsNegated(x: int, y: int, w: int, n: int, v: int, m: int)
    requires m == M32 || m == M64
    requires 0 <= w < m && 0 <= v < m
    requires (w - (x - y)) % m == 0 && (n + y) % m == 0 && (v - (x + n)) % m == 0
    ensures v == w
  {
    SumOfMultiples(v - (x + n), n + y, w - (x - y), m);
    SameNumber(v, w, m);
  }

  /** Adding gives back what subtracting took away, whatever the width. */
  lemma {:induction false} AddsBack(x: int, y: int, w: int, v: int, m: int)
    requires m == M32 || m == M64
    requires 0 <= x < m && 0 <= v < m
    requires (w - (x - y)) % m == 0 && (v - (w + y)) % m == 0
    ensures v == x
  {
    SumOfMultiples(v - (w + y), w - (x - y), 0, m);
    SameNumber(v, x, m);
  }

  lemma {:induction false} Multiple(k: int, m: int)
    requires m == M32 || m == M64
    ensures (k * m) % m == 0
  {
    if m == M32 {
      assert (k * 0x1_0000_0000) % 0x1_0000_0000 == 0;
    } else {
      assert (k * 0x1_0000_0000_0000_0000) % 0x1_0000_0000_0000_0000 == 0;
    }
  }

  /** Factors may be replaced by others with the same remainder. */
  lemma {:induction false} ProductWraps(x: int, x': int, y: int, y': int, m: int)
    requires m == M32 || m == M64
    requires (x' == x || x' == x - m) && (y' == y || y' == y - m)
    ensures (x' * y' - x * y) % m == 0
  {
    var k := (if x' == x then 0 else -y) + (if y' == y then 0 else -x) + (if x' == x || y' == y then 0 else m);
    if x' == x && y' == y {
      assert x' * y' - x * y == k * m;
    } else if x' == x {
      assert x * (y - m) == x * y - x * m;
    } else if y' == y {
      assert (x - m) * y == x * y - m * y;
    } else {
      assert (x - m) * (y - m) == x * y - x * m - m * y + m * m;
      assert k * m == (-y - x + m) * m == -(y * m) - x * m + m * m;
    }
    assert x' * y' - x * y == k * m;
    Multiple(k, m);
  }

  /** Division toward zero: r is what q leaves of x, smaller than y and on the side of x. */
  ghost predicate Truncates(x: int, q: int, y: int, r: int) {
    && x == q * y + r
    && var size := if y < 0 then -y else y;
       -size < r < size && (r > 0 ==> x > 0) && (r < 0 ==> x < 0)
  }

  lemma {:induction false} QuotientIs(x: int, y: int)
    requires y != 0
    ensures Truncates(x, Quotient(x, y), y, x - Quotient(x, y) * y)
  {
    hide Quotient;
    QuotientTruncates(x, y);
  }

  lemma {:induction false} AtLeast(b: int, q: int, k: int)
    requires b >= k && q >= 0
    ensures q * b >= q * k
  {
    assert q * (b - k) >= 0;
    assert q * (b - k) == q * b - q * k;
  }

  /** A quotient is no larger than the dividend, and smaller unless the divisor is 1. */
  lemma {:induction false} QuotientBound(a: nat, b: nat)
    requires b > 0
    ensures a / b <= a
    ensures b >= 2 && a > 0 ==> a / b < a
  {
    DividesDown(a, b);
    var q := a / b;
    AtLeast(b, q, 1);
    if b >= 2 {
      AtLeast(b, q, 2);
    }
  }

  lemma {:induction false} QuotientSize(x: int, y: int, size: int)
    requires y != 0 && -size <= x < size && !(x == -size && y == -1)
    ensures -size <= Quotient(x, y) < size
  {
    QuotientBound(Abs(x), Abs(y));
    if y == 1 || y == -1 {
      assert Abs(x) / 1 == Abs(x);
    }
  }

  lemma {:induction false} SignedOfWord(x: int)
    requires -0x8000_0000 <= x < 0x8000_0000
    ensures Signed(ToWord(x), M32) == x
  {
  }

  lemma {:induction false} SignedOfWide(x: int)
    requires -0x8000_0000_0000_0000 <= x < 0x8000_0000_0000_0000
    ensures Signed(ToWide(x), M64) == x
  {
  }

  /** idiv and irem are quotient and remainder toward zero, for all words except a zero divisor
      and the quotient of the smallest value and -1. */
  lemma {:induction false} IntQuotients(p: Program, s: State, b: Byte, rest: seq<Word>, x: Word, y: Word)
    returns (w: Word)
    requires Stands(p, s, [b]) && (b == 108 || b == 112) && s.frames[0].stack == rest + [x, y]
    requires y != 0 && !(x == 0x8000_0000 && y == 0xFFFF_FFFF)
    ensures Step(p, s) == Moved(s, s.frames[0].locals, rest + [w], s.frames[0].pc + 1)
    ensures var m, n, r := Signed(x, M32), Signed(y, M32), Signed(w, M32);
            if b == 108 then Truncates(m, r, n, m - r * n) else exists q :: Truncates(m, q, n, r)
  {
    hide Sound, Stands, Step, Quotient, Truncates;
    StackFits(p, s, [b]);
    var op := IntOp(if b == 108 then Div else Rem);
    var q := Quotient(Int(x), Int(y));
    w := ToWord(if b == 108 then q else Int(x) - q * Int(y));
    QuotientIs(Int(x), Int(y));
    OpWords(op);
    OpStep(p, s, b, op, rest, [x, y], [w]);
    WordsAre(x, 0, 0, 0);
    WordsAre(y, 0, 0, 0);
    IntQuotientFits(x, y);
  }

  lemma {:induction false} IntQuotientFits(x: Word, y: Word)
    requires y != 0 && !(x == 0x8000_0000 && y == 0xFFFF_FFFF)
    ensures var m, n := Int(x), Int(y); var q := Quotient(m, n);
            Signed(ToWord(q), M32) == q && Signed(ToWord(m - q * n), M32) == m - q * n
  {
    hide Quotient, ToWord;
    var m, n := Int(x), Int(y);
    QuotientSize(m, n, 0x8000_0000);
    QuotientIs(m, n);
    SignedOfWord(Quotient(m, n));
    SignedOfWord(m - Quotient(m, n) * n);
  }

  /** idiv and irem by zero fail the assertion; the smallest value by -1 traps. */
  lemma {:induction false} IntDivisionStops(p: Program, s: State, b: Byte, rest: seq<Word>, x: Word, y: Word)
    requires Stands(p, s, [b]) && (b == 108 || b == 112) && s.frames[0].stack == rest + [x, y]
    ensures y == 0 ==> Step(p, s) == Stop(AssertionFailed)
    ensures x == 0x8000_0000 && y == 0xFFFF_FFFF ==> Step(p, s) == Stop(ArithmeticTrap)
  {
    hide Sound, Stands, Step, Quotient;
    var op := IntOp(if b == 108 then Div else Rem);
    OpWords(op);
    if y == 0 || (x == 0x8000_0000 && y == 0xFFFF_FFFF) {
      OpStops(p, s, b, op, rest, [x, y]);
    }
  }

  // ----- long arithmetic -----

  lemma {:induction false} WideWords(x: int)
    ensures Pair(WideData(x)[0], WideData(x)[1]) == ToWide(x)
    ensures (ToWide(x) - x) % M64 == 0
  {
    JoinSplit(ToWide(x));
  }

  lemma {:induction false} WideProductWraps(m: int, m': int, n: int, n': int)
    requires (m' == m || m' == m - M64) && (n' == n || n' == n - M64)
    ensures (ToWide(m' * n') - m * n) % M64 == 0
  {
    hide ToWide;
    var k := m' * n';
    assert (k - m * n) % M64 == 0 by { ProductWraps(m, m', n, n', M64); }
    WideWords(k);
    SameRemainder(ToWide(k), k, m * n, M64);
  }

  lemma {:induction false} WideSumsWrap(m: int, m': int, n: int, n': int)
    requires (m' == m || m' == m - M64) && (n' == n || n' == n - M64)
    ensures (ToWide(m' + n') - (m + n)) % M64 == 0
    ensures (ToWide(m' - n') - (m - n)) % M64 == 0
  {
  }

  lemma {:induction false} LongIs(args: seq<Word>, i: nat)
    requires i + 1 < |args|
    ensures LongAt(args, i) == Signed(Pair(args[i], args[i + 1]), M64)
    ensures -0x8000_0000_0000_0000 <= LongAt(args, i) < 0x8000_0000_0000_0000
  {
    WordsAre(0, args[i], args[i + 1], 0);
  }

  /** ladd, lsub and lmul are sum, difference and product in 64 bits, on words in memory order. */
  lemma {:induction false} LongSums(p: Program, s: State, b: Byte, rest: seq<Word>, x: (Word, Word), y: (Word, Word))
    returns (w: (Word, Word))
    requires Stands(p, s, [b]) && (b == 97 || b == 101 || b == 105)
    requires s.frames[0].stack == rest + [x.0, x.1, y.0, y.1]
    ensures Step(p, s) == Moved(s, s.frames[0].locals, rest + [w.0, w.1], s.frames[0].pc + 1)
    ensures var m, n, r := Pair(x.0, x.1), Pair(y.0, y.1), Pair(w.0, w.1);
            && (b == 97 ==> (r - (m + n)) % M64 == 0)
            && (b == 101 ==> (r - (m - n)) % M64 == 0)
            && (b == 105 ==> (r - m * n) % M64 == 0)
  {
    hide Sound, Stands, Step, LongAt, WideData, ToWide;
    StackFits(p, s, [b]);
    var args := [x.0, x.1, y.0, y.1];
    var op := LongOp(if b == 97 then Arith.Add else if b == 101 then Sub else Mul);
    var m, n := LongAt(args, 0), LongAt(args, 2);
    var r := if b == 97 then m + n else if b == 101 then m - n else m * n;
    w := (WideData(r)[0], WideData(r)[1]);
    assert WideData(r) == [w.0, w.1];
    OpWords(op);
    OpStep(p, s, b, op, rest, args, [w.0, w.1]);
    LongIs(args, 0);
    LongIs(args, 2);
    WideWords(r);
    WideSumsWrap(Pair(x.0, x.1), m, Pair(y.0, y.1), n);
    WideProductWraps(Pair(x.0, x.1), m, Pair(y.0, y.1), n);
  }

  /** ldiv and lrem likewise, toward zero. */
  lemma {:induction false} LongQuotients(p: Program, s: State, b: Byte, rest: seq<Word>, x: (Word, Word),
                                         y: (Word, Word))
    returns (w: (Word, Word))
    requires Stands(p, s, [b]) && (b == 109 || b == 113)
    requires s.frames[0].stack == rest + [x.0, x.1, y.0, y.1]
    requires Pair(y.0, y.1) != 0
    requires !(Pair(x.0, x.1) == 0x8000_0000_0000_0000 && Pair(y.0, y.1) == 0xFFFF_FFFF_FFFF_FFFF)
    ensures Step(p, s) == Moved(s, s.frames[0].locals, rest + [w.0, w.1], s.frames[0].pc + 1)
    ensures var m, n, r := Signed(Pair(x.0, x.1), M64), Signed(Pair(y.0, y.1), M64), Signed(Pair(w.0, w.1), M64);
            if b == 109 then Truncates(m, r, n, m - r * n) else exists q :: Truncates(m, q, n, r)
  {
    hide Sound, Stands, Step, LongAt, WideData, ToWide, Quotient, Truncates;
    StackFits(p, s, [b]);
    var args := [x.0, x.1, y.0, y.1];
    var op := LongOp(if b == 109 then Div else Rem);
    LongIs(args, 0);
    LongIs(args, 2);
    var m, n := LongAt(args, 0), LongAt(args, 2);
    var q := Quotient(m, n);
    var r := if b == 109 then q else m - q * n;
    w := (WideData(r)[0], WideData(r)[1]);
    assert WideData(r) == [w.0, w.1];
    OpWords(op);
    OpStep(p, s, b, op, rest, args, [w.0, w.1]);
    QuotientIs(m, n);
    WideWords(r);
    LongQuotientFits(m, n);
  }

  lemma {:induction false} LongQuotientFits(m: int, n: int)
    requires -0x8000_0000_0000_0000 <= m < 0x8000_0000_0000_0000 && n != 0
    requires -0x8000_0000_0000_0000 <= n < 0x8000_0000_0000_0000
    requires !(m == -0x8000_0000_0000_0000 && n == -1)
    ensures var q := Quotient(m, n);
            Signed(ToWide(q), M64) == q && Signed(ToWide(m - q * n), M64) == m - q * n
  {
    hide Quotient, ToWide;
    QuotientSize(m, n, 0x8000_0000_0000_0000);
    QuotientIs(m, n);
    SignedOfWide(Quotient(m, n));
    SignedOfWide(m - Quotient(m, n) * n);
  }

  lemma {:induction false} LongDivisionStops(p: Program, s: State, b: Byte, rest: seq<Word>, x: (Word, Word),
                                             y: (Word, Word))
    requires Stands(p, s, [b]) && (b == 109 || b == 113)
    requires s.frames[0].stack == rest + [x.0, x.1, y.0, y.1]
    ensures Pair(y.0, y.1) == 0 ==> Step(p, s) == Stop(AssertionFailed)
    ensures Pair(x.0, x.1) == 0x8000_0000_0000_0000 && Pair(y.0, y.1) == 0xFFFF_FFFF_FFFF_FFFF ==>
              Step(p, s) == Stop(ArithmeticTrap)
  {
    hide Sound, Stands, Step, LongAt, Quotient;
    var args := [x.0, x.1, y.0, y.1];
    var op := LongOp(if b == 109 then Div else Rem);
    LongIs(args, 0);
    LongIs(args, 2);
    OpWords(op);
    if Apply(op, args).Fail? {
      OpStops(p, s, b, op, rest, args);
    }
  }

  // ----- negation, conversions, comparison -----

  /** ineg */
  lemma {:induction false} IntNegation(p: Program, s: State, rest: seq<Word>, x: Word) returns (w: Word)
    requires Stands(p, s, [116]) && s.frames[0].stack == rest + [x]
    ensures Step(p, s) == Moved(s, s.frames[0].locals, rest + [w], s.frames[0].pc + 1)
    ensures (w + x) % M32 == 0
  {
    hide Sound, Stands, Step, Int, ToWord;
    StackFits(p, s, [116]);
    w := ToWord(-Int(x));
    OpWords(IntNeg);
    OpStep(p, s, 116, IntNeg, rest, [x], [w]);
    NegationWraps(x);
  }

  lemma {:induction false} NegationWraps(x: Word)
    ensures (ToWord(-Int(x)) + x) % M32 == 0
  {
  }

  /** lneg */
  lemma {:induction false} LongNegation(p: Program, s: State, rest: seq<Word>, x: (Word, Word))
    returns (w: (Word, Word))
    requires Stands(p, s, [117]) && s.frames[0].stack == rest + [x.0, x.1]
    ensures Step(p, s) == Moved(s, s.frames[0].locals, rest + [w.0, w.1], s.frames[0].pc + 1)
    ensures (Pair(w.0, w.1) + Pair(x.0, x.1)) % M64 == 0
  {
    hide Sound, Stands, Step, LongAt, WideData;
    StackFits(p, s, [117]);
    var args := [x.0, x.1];
    var r := -LongAt(args, 0);
    w := (WideData(r)[0], WideData(r)[1]);
    assert WideData(r) == [w.0, w.1];
    OpWords(LongNeg);
    OpStep(p, s, 117, LongNeg, rest, args, [w.0, w.1]);
    LongIs(args, 0);
    WideWords(r);
  }

  /** i2l keeps the signed value. */
  lemma {:induction false} Widening(p: Program, s: State, rest: seq<Word>, x: Word) returns (w: (Word, Word))
    requires Stands(p, s, [133]) && s.frames[0].stack == rest + [x] && |rest| + 2 <= p.code[s.frames[0].mb].maxStack
    ensures Step(p, s) == Moved(s, s.frames[0].locals, rest + [w.0, w.1], s.frames[0].pc + 1)
    ensures Signed(Pair(w.0, w.1), M64) == Signed(x, M32)
  {
    hide Sound, Stands, Step, WideData;
    var r := Int(x);
    w := (WideData(r)[0], WideData(r)[1]);
    assert WideData(r) == [w.0, w.1];
    OpWords(IntToLong);
    OpStep(p, s, 133, IntToLong, rest, [x], [w.0, w.1]);
    WideWords(r);
    SignedOfWide(r);
    WordsAre(x, 0, 0, 0);
  }

  /** l2i keeps the value modulo 2^32. */
  lemma {:induction false} Narrowing(p: Program, s: State, rest: seq<Word>, x: (Word, Word)) returns (w: Word)
    requires Stands(p, s, [136]) && s.frames[0].stack == rest + [x.0, x.1]
    ensures Step(p, s) == Moved(s, s.frames[0].locals, rest + [w], s.frames[0].pc + 1)
    ensures (w - Pair(x.0, x.1)) % M32 == 0
  {
    hide Sound, Stands, Step;
    StackFits(p, s, [136]);
    w := x.0;
    OpWords(LongToInt);
    OpStep(p, s, 136, LongToInt, rest, [x.0, x.1], [w]);
  }

  /** lcmp */
  lemma {:induction false} Comparison(p: Program, s: State, rest: seq<Word>, x: (Word, Word), y: (Word, Word))
    requires Stands(p, s, [148]) && s.frames[0].stack == rest + [x.0, x.1, y.0, y.1]
    ensures var m, n := Signed(Pair(x.0, x.1), M64), Signed(Pair(y.0, y.1), M64);
            var w: Word := if m > n then 1 else if m == n then 0 else 0xFFFF_FFFF;
            Step(p, s) == Moved(s, s.frames[0].locals, rest + [w], s.frames[0].pc + 1)
  {
    hide Sound, Stands, Step, LongAt;
    StackFits(p, s, [148]);
    var args := [x.0, x.1, y.0, y.1];
    LongIs(args, 0);
    LongIs(args, 2);
    OpWords(LongCompare);
    OpStep(p, s, 148, LongCompare, rest, args, [ToWord(Compare(LongAt(args, 0), LongAt(args, 2)))]);
  }

  // ----- constants and stack shuffles -----

  /** pop, pop2, dup, dup_x1, swap and the dstore_0 that stores nothing. */
  lemma {:induction false} Shuffles(p: Program, s: State, b: Byte, rest: seq<Word>, x: Word, y: Word)
    requires Stands(p, s, [b]) && s.frames[0].stack == rest + [x, y]
    ensures var f := s.frames[0]; var maxStack := p.code[f.mb].maxStack;
            && (b == 87 ==> Step(p, s) == Moved(s, f.locals, rest + [x], f.pc + 1))
            && (b == 88 || b == 71 ==> Step(p, s) == Moved(s, f.locals, rest, f.pc + 1))
            && (b == 89 && |rest| + 3 <= maxStack ==> Step(p, s) == Moved(s, f.locals, rest + [x, y, y], f.pc + 1))
            && (b == 90 && |rest| + 3 <= maxStack ==> Step(p, s) == Moved(s, f.locals, rest + [y, x, y], f.pc + 1))
            && (b == 95 ==> Step(p, s) == Moved(s, f.locals, rest + [y, x], f.pc + 1))
  {
    hide Sound, Stands, Step;
    StackFits(p, s, [b]);
    var maxStack := p.code[s.frames[0].mb].maxStack;
    assert rest + [x, y] == rest + [x] + [y] && rest + [x] + [] == rest + [x] && rest + [] == rest;
    assert rest + [x] + [y, y] == rest + [x, y, y];
    if b == 87 {
      OpStep(p, s, b, Drop(OneWord), rest + [x], [y], []);
    } else if b == 88 {
      OpStep(p, s, b, Drop(AsLong), rest, [x, y], []);
    } else if b == 71 {
      OpStep(p, s, b, Drop(AsDouble), rest, [x, y], []);
    } else if b == 89 && |rest| + 3 <= maxStack {
      OpStep(p, s, b, Dup, rest + [x], [y], [y, y]);
    } else if b == 90 && |rest| + 3 <= maxStack {
      OpWords(DupX1);
      OpStep(p, s, b, DupX1, rest, [x, y], [y, x, y]);
    } else if b == 95 {
      OpWords(Swap);
      OpStep(p, s, b, Swap, rest, [x, y], [y, x]);
    }
  }

  /** aconst_null to dconst_1 push their number, 1.0 and 2.0 as the bits of the float or double. */
  lemma {:induction false} Constants(p: Program, s: State, b: Byte) returns (ws: seq<Word>)
    requires Stands(p, s, [b]) && 1 <= b <= 15
    ensures |ws| == (if b == 9 || b == 10 || b >= 14 then 2 else 1)
    ensures var f := s.frames[0];
            |f.stack| + |ws| <= p.code[f.mb].maxStack ==> Step(p, s) == Moved(s, f.locals, f.stack + ws, f.pc + 1)
    ensures b == 1 || b == 11 ==> ws == [0]
    ensures 2 <= b <= 8 ==> Signed(ws[0], M32) == b - 3
    ensures b == 9 || b == 10 ==> Pair(ws[0], ws[1]) == b - 9
    ensures b == 12 ==> ws == [0x3F80_0000]
    ensures b == 13 ==> ws == [0x4000_0000]
    ensures b == 14 ==> ws == [0, 0]
    ensures b == 15 ==> ws == [0, 0x3FF0_0000]
  {
    hide Sound, Stands, Step;
    StackFits(p, s, [b]);
    var op := DecodeConstant(b).op;
    ws := if op.Const? then [op.w] else [Low(op.v), High(op.v)];
    var f := s.frames[0];
    assert f.stack + [] == f.stack;
    if |f.stack| + |ws| <= p.code[f.mb].maxStack {
      OpStep(p, s, b, op, f.stack, [], ws);
    }
  }
}
