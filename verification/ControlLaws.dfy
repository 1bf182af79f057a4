/**
 Laws over the bytes of a method, continued: operands in the code, locals, branches and switches,
 and the faults of a stack that is full or empty.
*/
module ControlLaws {
  import opened Options
  import opened Words
  import opened Bytecode
  import opened Frames
  import opened Machine
  import opened Laws
  import Handlers

  lemma {:induction false} DecodedHere(p: Program, s: State, bytes: seq<Byte>)
    requires Stands(p, s, bytes) && 1 <= |bytes| <= 3
    ensures s.frames != [] && s.frames[0].mb in p.code
    ensures 0 <= s.frames[0].pc && s.frames[0].pc + |bytes| <= |p.code[s.frames[0].mb].bytes|
    ensures var f := s.frames[0]; var code := p.code[f.mb].bytes;
            && |f.stack| <= p.code[f.mb].maxStack && code[f.pc] == bytes[0]
            && (|bytes| == 1 && IsPlain(bytes[0]) ==> Decode(code, f.pc) == WithEnd(DecodePlain(bytes[0]), f.pc + 1))
            && (|bytes| == 2 && HasOperandByte(bytes[0]) ==>
                  Decode(code, f.pc) == WithEnd(DecodeByte(bytes[0], bytes[1]), f.pc + 2))
            && (|bytes| == 3 && HasTwoOperandBytes(bytes[0]) ==>
                  && Decode(code, f.pc) == WithEnd(DecodeShort(code, f.pc), f.pc + 3)
                  && code[f.pc + 1] == bytes[1] && code[f.pc + 2] == bytes[2]
                  && Number(bytes[1..]) == ReadU2(code, f.pc + 1))
  {
    hide Sound, Stands, DecodePlain, DecodeByte, DecodeShort, ReadU2, Number, DecodeTableSwitch, DecodeLookupSwitch;
    BytesHere(p, s, bytes);
    var f := s.frames[0];
    var code := p.code[f.mb].bytes;
    assert code[f.pc + 0] == bytes[0];
    if |bytes| == 2 {
      assert code[f.pc + 1] == bytes[1];
    }
    if |bytes| == 3 {
      assert code[f.pc + 1] == bytes[1] && code[f.pc + 2] == bytes[2];
      ReadingsAre(code, f.pc + 1);
      assert code[f.pc + 1..f.pc + 3] == bytes[1..];
    }
  }

  /** The step of an instruction of up to three bytes that succeeds and whose result fits. */
  lemma {:induction false} InsStep(p: Program, s: State, bytes: seq<Byte>, ins: Instr, rest: seq<Word>, args: seq<Word>,
                                   locals: seq<Word>, out: seq<Word>)
    requires Stands(p, s, bytes) && 1 <= |bytes| <= 3 && IsLocal(ins)
    requires 0 <= s.frames[0].pc < |p.code[s.frames[0].mb].bytes|
    requires Decode(p.code[s.frames[0].mb].bytes, s.frames[0].pc) == Some((ins, s.frames[0].pc + |bytes|))
    requires s.frames[0].stack == rest + args && |args| == WordsOf(Pops(ins))
    requires Compute(ins, args, s.frames[0].locals) == Ok((locals, out))
    requires |rest| + |out| <= p.code[s.frames[0].mb].maxStack
    ensures Step(p, s) == Moved(s, locals, rest + out, JumpTo(ins, s.frames[0].pc + |bytes|, args))
  {
    hide Sound, Stands, Decode, Compute, JumpTo, Step, Pops, WordsOf;
    BytesHere(p, s, bytes);
    LocalLaw(p, s, ins, s.frames[0].pc + |bytes|, rest, args);
  }

  lemma {:induction false} NothingHappens(p: Program, s: State)
    requires Stands(p, s, [0])
    ensures Step(p, s) == Moved(s, s.frames[0].locals, s.frames[0].stack, s.frames[0].pc + 1)
  {
    hide Sound, Stands, Step;
    DecodedHere(p, s, [0]);
    BytesHere(p, s, [0]);
    var f := s.frames[0];
    assert f.stack + [] == f.stack;
    InsStep(p, s, [0], Nop, f.stack, [], f.locals, []);
  }

  // ----- operands in the code -----

  /** bipush reads its byte unsigned; sipush is signed. */
  lemma {:induction false} Immediates(p: Program, s: State, bytes: seq<Byte>) returns (w: Word)
    requires Stands(p, s, bytes) && ((|bytes| == 2 && bytes[0] == 16) || (|bytes| == 3 && bytes[0] == 17))
    requires |s.frames[0].stack| < p.code[s.frames[0].mb].maxStack
    ensures var f := s.frames[0]; Step(p, s) == Moved(s, f.locals, f.stack + [w], f.pc + |bytes|)
    ensures bytes[0] == 16 ==> w == bytes[1]
    ensures bytes[0] == 17 ==> Signed(w, M32) == Signed(Number(bytes[1..]), 0x1_0000)
  {
    hide Sound, Stands, Step, Decode, ReadU2, Number;
    DecodedHere(p, s, bytes);
    var f := s.frames[0];
    var code := p.code[f.mb].bytes;
    var x: int := if bytes[0] == 16 then bytes[1] else Short(ReadU2(code, f.pc + 1));
    w := ToWord(x);
    assert f.stack + [] == f.stack;
    assert Apply(Const(w), []) == Ok([w]);
    InsStep(p, s, bytes, IntWord(x), f.stack, [], f.locals, [w]);
    SignedOfWord(x);
  }

  // ----- locals -----

  /** The loads push local i, or locals i and i + 1. */
  lemma {:induction false} Loads(p: Program, s: State, bytes: seq<Byte>, i: nat, wide: bool)
    requires Stands(p, s, bytes)
    requires || (|bytes| == 2 && 21 <= bytes[0] <= 25 && i == bytes[1] && (wide <==> bytes[0] == 22 || bytes[0] == 24))
             || (|bytes| == 1 && 26 <= bytes[0] <= 45 && i == (bytes[0] - 26) % 4
                 && (wide <==> 30 <= bytes[0] <= 33 || 38 <= bytes[0] <= 41))
    ensures var f, n := s.frames[0], if wide then 2 else 1;
            && (i + n <= |f.locals| && |f.stack| + n <= p.code[f.mb].maxStack ==>
                  Step(p, s) == Moved(s, f.locals, f.stack + f.locals[i..i + n], f.pc + |bytes|))
            && (i + n > |f.locals| ==> Step(p, s) == Stop(Wild))
  {
    hide Sound, Stands, Step, Decode;
    DecodedHere(p, s, bytes);
    BytesHere(p, s, bytes);
    var f, n := s.frames[0], if wide then 2 else 1;
    var ins := LoadVar(i, wide);
    assert f.stack + [] == f.stack;
    assert Decode(p.code[f.mb].bytes, f.pc) == Some((ins, f.pc + |bytes|));
    if i + n > |f.locals| {
      LocalLaw(p, s, ins, f.pc + |bytes|, f.stack, []);
    } else if |f.stack| + n <= p.code[f.mb].maxStack {
      assert f.locals[i..i + n] == if wide then [f.locals[i], f.locals[i + 1]] else [f.locals[i]];
      InsStep(p, s, bytes, ins, f.stack, [], f.locals, f.locals[i..i + n]);
    }
  }

  /** The stores put the topmost words into local i, or into i and i + 1; dstore_0 is not one. */
  lemma {:induction false} Stores(p: Program, s: State, bytes: seq<Byte>, i: nat, rest: seq<Word>, ws: seq<Word>)
    requires Stands(p, s, bytes) && s.frames[0].stack == rest + ws
    requires || (|bytes| == 2 && 54 <= bytes[0] <= 58 && i == bytes[1]
                 && |ws| == if bytes[0] == 55 || bytes[0] == 57 then 2 else 1)
             || (|bytes| == 1 && 59 <= bytes[0] <= 78 && bytes[0] != 71 && i == (bytes[0] - 59) % 4
                 && |ws| == if 63 <= bytes[0] <= 66 || 71 <= bytes[0] <= 74 then 2 else 1)
    ensures var f := s.frames[0];
            && (i + |ws| <= |f.locals| ==>
                  Step(p, s) == Moved(s, f.locals[..i] + ws + f.locals[i + |ws|..], rest, f.pc + |bytes|))
            && (i + |ws| > |f.locals| ==> Step(p, s) == Stop(Wild))
  {
    hide Sound, Stands, Step, Decode;
    DecodedHere(p, s, bytes);
    BytesHere(p, s, bytes);
    var f := s.frames[0];
    var ins := Decode(p.code[f.mb].bytes, f.pc).value.0;
    assert ins.StoreVar? && ins.i == i && Size(ins.kind) == |ws|;
    assert |ws| == WordsOf(Pops(ins)) by {
      assert Pops(ins)[1..] == [];
    }
    if i + |ws| > |f.locals| {
      LocalLaw(p, s, ins, f.pc + |bytes|, rest, ws);
    } else {
      var locals := f.locals[..i] + ws + f.locals[i + |ws|..];
      assert locals == (if |ws| == 1 then f.locals[i := ws[0]] else f.locals[i := ws[0]][i + 1 := ws[1]]);
      assert rest + [] == rest;
      InsStep(p, s, bytes, ins, rest, ws, locals, []);
    }
  }

  /** iinc adds a signed byte in 32 bits. */
  lemma {:induction false} Increments(p: Program, s: State, i: Byte, d: Byte) returns (w: Word)
    requires Stands(p, s, [132, i, d]) && i < |s.frames[0].locals|
    ensures var f := s.frames[0]; Step(p, s) == Moved(s, f.locals[i := w], f.stack, f.pc + 3)
    ensures (w - (s.frames[0].locals[i] + Signed(d, 0x100))) % M32 == 0
  {
    hide Sound, Stands, Step, Decode;
    var bytes := [132 as Byte, i, d];
    DecodedHere(p, s, bytes);
    var f := s.frames[0];
    w := ToWord(Int(f.locals[i]) + SignedByte(d));
    assert f.stack + [] == f.stack;
    InsStep(p, s, bytes, Increment(i, SignedByte(d)), f.stack, [], f.locals[i := w], []);
  }

  // ----- branches -----

  /** The relations of ifeq, ifne, iflt, ifge, ifgt and ifle, in this order. */
  ghost predicate Related(n: int, x: int, y: int) {
    && (n == 0 ==> x == y) && (n == 1 ==> x != y) && (n == 2 ==> x < y)
    && (n == 3 ==> x >= y) && (n == 4 ==> x > y) && (n == 5 ==> x <= y)
  }

  /** The address that two operand bytes lead to. */
  ghost function Target(pc: int, h: Byte, l: Byte): int {
    pc + Signed(Number([h, l]), 0x1_0000)
  }

  /** ifeq to ifle compare with 0, ifnull and ifnonnull with the null reference. */
  lemma {:induction false} Branches(p: Program, s: State, b: Byte, h: Byte, l: Byte, rest: seq<Word>, x: Word)
    requires Stands(p, s, [b, h, l]) && (153 <= b <= 158 || b == 198 || b == 199) && s.frames[0].stack == rest + [x]
    ensures var f := s.frames[0];
            var taken := Related(if b == 198 then 0 else if b == 199 then 1 else b - 153, Signed(x, M32), 0);
            Step(p, s) == Moved(s, f.locals, rest, if taken then Target(f.pc, h, l) else f.pc + 3)
  {
    hide Sound, Stands, Step, Decode, ReadU2, Number;
    DecodedHere(p, s, [b, h, l]);
    assert [b, h, l][1..] == [h, l];
    var f := s.frames[0];
    var ins := Decode(p.code[f.mb].bytes, f.pc).value.0;
    assert ins.If? && ins.target == Target(f.pc, h, l);
    assert rest + [] == rest && Pops(ins)[1..] == [];
    InsStep(p, s, [b, h, l], ins, rest, [x], f.locals, []);
  }

  /** if_icmpeq to if_icmple compare two words, the lower one first. */
  lemma {:induction false} CompareBranches(p: Program, s: State, b: Byte, h: Byte, l: Byte, rest: seq<Word>, x: Word,
                                           y: Word)
    requires Stands(p, s, [b, h, l]) && 159 <= b <= 164 && s.frames[0].stack == rest + [x, y]
    ensures var f := s.frames[0];
            var taken := Related(b - 159, Signed(x, M32), Signed(y, M32));
            Step(p, s) == Moved(s, f.locals, rest, if taken then Target(f.pc, h, l) else f.pc + 3)
  {
    hide Sound, Stands, Step, Decode, ReadU2, Number;
    DecodedHere(p, s, [b, h, l]);
    assert [b, h, l][1..] == [h, l];
    var f := s.frames[0];
    var ins := Decode(p.code[f.mb].bytes, f.pc).value.0;
    assert ins.IfCompare? && ins.target == Target(f.pc, h, l);
    assert rest + [] == rest && Pops(ins)[1..] == [OneWord] && WordsOf([OneWord]) == 1;
    InsStep(p, s, [b, h, l], ins, rest, [x, y], f.locals, []);
  }

  lemma {:induction false} Jumps(p: Program, s: State, h: Byte, l: Byte)
    requires Stands(p, s, [167, h, l])
    ensures var f := s.frames[0]; Step(p, s) == Moved(s, f.locals, f.stack, Target(f.pc, h, l))
  {
    hide Sound, Stands, Step, Decode, ReadU2, Number;
    DecodedHere(p, s, [167, h, l]);
    assert [167, h, l][1..] == [h, l];
    var f := s.frames[0];
    assert f.stack + [] == f.stack;
    InsStep(p, s, [167, h, l], Goto(Target(f.pc, h, l)), f.stack, [], f.locals, []);
  }

  // ----- switches -----

  /** The signed number in four bytes at q. */
  ghost function Operand(code: seq<Byte>, q: nat): int
    requires q + 4 <= |code|
  {
    Signed(Number(code[q..q + 4]), M32)
  }

  /** The first multiple of four behind the opcode. */
  ghost predicate OperandsAt(pc: int, q: nat) {
    pc < q <= pc + 4 && q % 4 == 0
  }

  lemma {:induction false} OperandIs(code: seq<Byte>, q: nat)
    requires q + 4 <= |code|
    ensures Operand(code, q) == Signed4(code, q)
  {
    hide Number, ReadU4, Int, Signed;
    ReadingsAre(code, q);
  }

  /** tableswitch goes to its pc plus entry key - low, or plus the default outside the range. */
  lemma {:induction false} TableJumps(p: Program, s: State, q: nat, rest: seq<Word>, key: Word)
    requires Stands(p, s, [170]) && OperandsAt(s.frames[0].pc, q) && s.frames[0].stack == rest + [key]
    requires var code := p.code[s.frames[0].mb].bytes;
             && q + 12 <= |code| && Operand(code, q + 4) <= Operand(code, q + 8)
             && q + 12 + 4 * (Operand(code, q + 8) - Operand(code, q + 4) + 1) <= |code|
    ensures var f := s.frames[0]; var code := p.code[f.mb].bytes;
            var k, low, high := Signed(key, M32), Operand(code, q + 4), Operand(code, q + 8);
            var entry := if low <= k <= high then q + 12 + 4 * (k - low) else q;
            Step(p, s) == Moved(s, f.locals, rest, f.pc + Operand(code, entry))
  {
    hide Sound, Stands, Step, Operand, Signed4;
    DecodedHere(p, s, [170]);
    BytesHere(p, s, [170]);
    var f := s.frames[0];
    var code := p.code[f.mb].bytes;
    assert Aligned(f.pc + 1) == q;
    OperandIs(code, q);
    OperandIs(code, q + 4);
    OperandIs(code, q + 8);
    var d := DecodeTableSwitch(code, f.pc).value;
    assert Decode(code, f.pc) == Some(d);
    var k := Signed(key, M32);
    assert rest + [] == rest && Pops(d.0)[1..] == [];
    if d.0.low <= k < d.0.low + |d.0.targets| {
      OperandIs(code, q + 12 + 4 * (k - d.0.low));
      assert d.0.targets[k - d.0.low] == f.pc + JumpEntry(code, q + 12, k - d.0.low);
    }
    LocalLaw(p, s, d.0, d.1, rest, [key]);
  }

  /** lookupswitch goes to its pc plus the offset of the first pair with the key, or plus the
      default if there is none. */
  lemma {:induction false} LookupJumps(p: Program, s: State, q: nat, rest: seq<Word>, key: Word, i: nat)
    requires Stands(p, s, [171]) && OperandsAt(s.frames[0].pc, q) && s.frames[0].stack == rest + [key]
    requires var code := p.code[s.frames[0].mb].bytes;
             && q + 8 <= |code| && 0 <= Operand(code, q + 4) && q + 8 + 8 * Operand(code, q + 4) <= |code|
             && i <= Operand(code, q + 4)
             && (forall j :: 0 <= j < i ==> Operand(code, q + 8 + 8 * j) != Signed(key, M32))
             && (i < Operand(code, q + 4) ==> Operand(code, q + 8 + 8 * i) == Signed(key, M32))
    ensures var f := s.frames[0]; var code := p.code[f.mb].bytes;
            var offset := if i < Operand(code, q + 4) then q + 8 + 8 * i + 4 else q;
            Step(p, s) == Moved(s, f.locals, rest, f.pc + Operand(code, offset))
  {
    hide Sound, Stands, Step, Operand, Signed4, Lookup;
    DecodedHere(p, s, [171]);
    BytesHere(p, s, [171]);
    var f := s.frames[0];
    var code := p.code[f.mb].bytes;
    assert Aligned(f.pc + 1) == q;
    OperandIs(code, q);
    OperandIs(code, q + 4);
    var d := DecodeLookupSwitch(code, f.pc).value;
    assert Decode(code, f.pc) == Some(d);
    var pairs := d.0.pairs;
    forall j | 0 <= j < |pairs|
      ensures pairs[j].0 == Operand(code, q + 8 + 8 * j) && pairs[j].1 == f.pc + Operand(code, q + 8 + 8 * j + 4)
    {
      OperandIs(code, q + 8 + 8 * j);
      OperandIs(code, q + 8 + 8 * j + 4);
    }
    assert rest + [] == rest && Pops(d.0)[1..] == [];
    LookupFirst(pairs, d.0.default, Int(key), i);
    LocalLaw(p, s, d.0, d.1, rest, [key]);
  }

  // ----- full and empty stacks -----

  /** A push on a full stack is a stack error; a wide push with room for one word goes past the
      frame unnoticed. */
  lemma {:induction false} FullStack(p: Program, s: State, b: Byte)
    requires Stands(p, s, [b]) && 1 <= b <= 15
    ensures var h, maxStack := |s.frames[0].stack|, p.code[s.frames[0].mb].maxStack;
            && (h == maxStack ==> Step(p, s) == Stop(StackError))
            && (h + 1 == maxStack && (b == 9 || b == 10 || b >= 14) ==> Step(p, s) == Stop(Wild))
  {
    hide Sound, Stands, Step, Decode;
    DecodedHere(p, s, [b]);
    BytesHere(p, s, [b]);
    var f := s.frames[0];
    var ins := DecodeConstant(b);
    assert f.stack + [] == f.stack;
    LocalLaw(p, s, ins, f.pc + 1, f.stack, []);
  }

  /** The step of an operation whose first pop finds too few words. */
  lemma {:induction false} OpStarves(p: Program, s: State, b: Byte, op: Op)
    requires Stands(p, s, [b]) && IsPlain(b) && DecodePlain(b) == Some(Operate(op)) && OpPops(op) != []
    requires |s.frames[0].stack| < Size(OpPops(op)[0]) && !ZeroDivisor(Operate(op), s.frames[0].stack)
    ensures var f := s.frames[0];
            Step(p, s) == Stop(PopFault(OpPops(op)[0], |f.stack|, p.code[f.mb].maxLocals))
  {
    hide Sound, Stands, Decode, LocalStep, ZeroDivisor, IsPlain, DecodePlain, OpPops;
    DecodedHere(p, s, [b]);
    BytesHere(p, s, [b]);
    var f := s.frames[0];
    assert WordsOf(OpPops(op)) >= Size(OpPops(op)[0]);
    Handlers.OpShort(op, f.pc + 1, f, p.code[f.mb].maxStack);
  }

  /** A pop on an empty stack is a stack error, or unnoticed if there are no locals below it; the
      long pops are never noticed. */
  lemma {:induction false} EmptyStack(p: Program, s: State, b: Byte)
    requires Stands(p, s, [b])
    ensures var h, maxLocals := |s.frames[0].stack|, p.code[s.frames[0].mb].maxLocals;
            && (h == 0 && b in {87, 89, 90, 95, 96, 100, 104, 108, 112, 116, 133} ==>
                  Step(p, s) == Stop(if maxLocals > 0 then StackError else Wild))
            && (h < 2 && b in {88, 97, 101, 105, 109, 113, 117, 136, 148} ==> Step(p, s) == Stop(Wild))
  {
    hide Sound, Stands, Step;
    StackFits(p, s, [b]);
    var h := |s.frames[0].stack|;
    if h == 0 && b in {87, 89, 90, 95, 96, 100, 104, 108, 112, 116, 133} {
      OpStarves(p, s, b, DecodePlain(b).value.op);
    }
    if h < 2 && b in {88, 97, 101, 105, 109, 113, 117, 136, 148} {
      OpStarves(p, s, b, DecodePlain(b).value.op);
    }
  }
}
