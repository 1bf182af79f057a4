/**
 The part of the dispatch of `executeJava` that stays in one frame: from the opcode byte to the
 handler. Every case is proved against the instruction that `Decode` reads at the same address.
*/
module Opcodes {
  import opened Options
  import opened Words
  import opened Bytecode
  import opened Frames
  import opened Machine
  import opened Handlers

  /** aconst_null to dconst_1 */
  method ExecConstant(f: JFrame, b: Byte) returns (r: Result<()>)
    requires f.Valid() && f.pc == f.pcOffset >= 0 && 1 <= b <= 15
    modifies f`ostack, f.words
    ensures f.pc == old(f.pc) && Did(DecodeConstant(b), f.pc, old(f.View()), f, r)
  {
    hide JFrame.Valid, JFrame.Locals, JFrame.Stack, Did;
    match b
    case 1 => r := PushConst(f, 0);
    case 9 => r := PushWideConst(f, 0);
    case 10 => r := PushWideConst(f, 1);
    case 11 => r := PushConst(f, 0);
    case 12 => r := PushConst(f, 0x3F80_0000);
    case 13 => r := PushConst(f, 0x4000_0000);
    case 14 => r := PushWideConst(f, 0);
    case 15 => r := PushWideConst(f, 0x3FF0_0000_0000_0000);
    case _ => r := PushConst(f, ToWord(b - 3));
  }

  /** pop, pop2, dup, dup_x1, swap */
  method ExecStackOp(f: JFrame, b: Byte) returns (r: Result<()>)
    requires f.Valid() && f.pc == f.pcOffset >= 0 && DecodeStackOp(b).Some?
    modifies f`ostack, f.words
    ensures f.pc == old(f.pc) && IsLocal(DecodeStackOp(b).value)
            && Did(DecodeStackOp(b).value, f.pc, old(f.View()), f, r)
  {
    hide JFrame.Valid, JFrame.Locals, JFrame.Stack, Did;
    match b
    case 87 => r := DropTop(f, OneWord);
    case 88 => r := DropTop(f, AsLong);
    case 89 => r := DupTop(f);
    case 90 => r := DupX1Top(f);
    case 95 => r := SwapTop(f);
  }

  /** int and long arithmetic, conversions, lcmp */
  method ExecArith(f: JFrame, b: Byte) returns (r: Result<()>)
    requires f.Valid() && f.pc == f.pcOffset >= 0 && DecodeArith(b).Some?
    modifies f`ostack, f.words
    ensures f.pc == old(f.pc) && IsLocal(DecodeArith(b).value) && Did(DecodeArith(b).value, f.pc, old(f.View()), f, r)
  {
    hide JFrame.Valid, JFrame.Locals, JFrame.Stack, Did;
    match b
    case 96 => r := IntArith(f, Arith.Add);
    case 97 => r := LongArith(f, Arith.Add);
    case 100 => r := IntArith(f, Sub);
    case 101 => r := LongArith(f, Sub);
    case 104 => r := IntArith(f, Mul);
    case 105 => r := LongArith(f, Mul);
    case 108 => r := IntArith(f, Div);
    case 109 => r := LongArith(f, Div);
    case 112 => r := IntArith(f, Rem);
    case 113 => r := LongArith(f, Rem);
    case 116 => r := NegateInt(f);
    case 117 => r := NegateLong(f);
    case 133 => r := WidenInt(f);
    case 136 => r := NarrowLong(f);
    case 148 => r := CompareLongs(f);
  }

  /** Opcodes without operands. */
  method ExecPlain(f: JFrame, b: Byte) returns (r: Result<()>)
    requires f.Valid() && f.pc == f.pcOffset >= 0 && DecodePlain(b).Some? && IsLocal(DecodePlain(b).value)
    modifies f`ostack, f.words
    ensures f.pc == old(f.pc) && Did(DecodePlain(b).value, f.pc, old(f.View()), f, r)
  {
    hide JFrame.Valid, JFrame.Locals, JFrame.Stack, Did, DecodeConstant, DecodeStackOp, DecodeArith;
    if 1 <= b <= 15 {
      r := ExecConstant(f, b);
    } else if 26 <= b <= 45 {
      var family := (b - 26) / 4;
      r := Load(f, (b - 26) % 4, family == 1 || family == 3);
    } else if b == 71 {
      r := DropTop(f, AsDouble);
    } else if 59 <= b <= 78 {
      r := Store(f, (b - 59) % 4, StoreKind((b - 59) / 4));
    } else if b < 96 {
      r := ExecStackOp(f, b);
    } else {
      r := ExecArith(f, b);
    }
  }

  /** bipush, and the long forms of loads and stores. */
  method ExecByteOperand(f: JFrame, code: seq<Byte>, b: Byte, ghost at: nat) returns (r: Result<()>)
    requires f.Valid() && f.pc == f.pcOffset == at + 1 && at + 2 <= |code| && DecodeByte(b, code[at + 1]).Some?
    modifies f`ostack, f`pc, f`pcOffset, f.words
    ensures IsLocal(DecodeByte(b, code[at + 1]).value)
            && Did(DecodeByte(b, code[at + 1]).value, at + 2, old(f.View()), f, r)
  {
    hide JFrame.Valid, JFrame.Locals, JFrame.Stack, LocalStep;
    ghost var before := f.View();
    var u := ReadByte(f, code);
    if b == 16 {
      r := PushConst(f, ToWord(u));
    } else if 21 <= b <= 25 {
      r := Load(f, u, b == 22 || b == 24);
    } else {
      r := Store(f, u, StoreKind(b - 54));
    }
    PcIsSet(DecodeByte(b, code[at + 1]).value, at + 2, before, before.(pc := at + 2), f.maxStack);
  }

  /** Where the frame stood before does not matter to what an instruction does. */
  lemma {:induction false} PcIsSet(ins: Instr, next: nat, f: Frame, g: Frame, maxStack: nat)
    requires IsLocal(ins) && g == f.(pc := g.pc)
    ensures LocalStep(ins, next, g, maxStack) == LocalStep(ins, next, f, maxStack)
  {
  }

  /** ifeq to if_icmple, goto, ifnull, ifnonnull */
  method ExecBranch(f: JFrame, code: seq<Byte>, b: Byte, ghost at: nat) returns (r: Result<()>)
    requires f.Valid() && f.pc == f.pcOffset == at + 1 && at + 3 <= |code|
             && DecodeBranch(b, at + Short(ReadU2(code, at + 1))).Some?
    modifies f`ostack, f`pc, f`pcOffset, f.words
    ensures var ins := DecodeBranch(b, at + Short(ReadU2(code, at + 1))).value;
            IsLocal(ins) && Did(ins, at + 3, old(f.View()), f, r)
  {
    hide JFrame.Valid, JFrame.Locals, JFrame.Stack, Did, CondOf;
    if 153 <= b <= 158 {
      r := BranchIf(f, code, CondOf(b - 153), at);
    } else if 159 <= b <= 164 {
      r := BranchIfCompare(f, code, CondOf(b - 159), at);
    } else if b == 167 {
      r := Goto16(f, code, at);
    } else if b == 198 {
      r := BranchIf(f, code, Eq, at);
    } else {
      r := BranchIf(f, code, Ne, at);
    }
  }

  /** sipush, iinc and the branches. */
  method ExecShortOperand(f: JFrame, code: seq<Byte>, b: Byte, ghost at: nat) returns (r: Result<()>)
    requires f.Valid() && f.pc == f.pcOffset == at + 1 && at + 3 <= |code| && code[at] == b
    requires DecodeShort(code, at).Some? && IsLocal(DecodeShort(code, at).value)
    modifies f`ostack, f`pc, f`pcOffset, f.words
    ensures Did(DecodeShort(code, at).value, at + 3, old(f.View()), f, r)
  {
    hide JFrame.Valid, JFrame.Locals, JFrame.Stack, LocalStep, DecodeBranch, ReadU2, Short;
    ghost var before := f.View();
    if b == 17 {
      var u := ReadShort(f, code);
      r := PushConst(f, ToWord(Short(u)));
    } else if b == 132 {
      var i := ReadByte(f, code);
      var c := ReadByte(f, code);
      r := IncrementVar(f, i, SignedByte(c));
    } else {
      r := ExecBranch(f, code, b, at);
    }
    PcIsSet(DecodeShort(code, at).value, at + 3, before, before.(pc := at + 3), f.maxStack);
  }

  /** One instruction that stays in its frame; its opcode has just been read. */
  method ExecLocal(f: JFrame, code: seq<Byte>, b: Byte, ghost at: nat) returns (r: Result<()>)
    requires f.Valid() && f.pc == f.pcOffset == at + 1 && at < |code| && code[at] == b
    requires Decode(code, at).Some? && IsLocal(Decode(code, at).value.0)
    modifies f`ostack, f`pc, f`pcOffset, f.words
    ensures Did(Decode(code, at).value.0, Decode(code, at).value.1, old(f.View()), f, r)
  {
    hide JFrame.Valid, JFrame.Locals, JFrame.Stack, DecodePlain, DecodeByte, DecodeShort, DecodeTableSwitch;
    hide DecodeLookupSwitch, Did;
    if b == 0 {
      NothingDone(f, at);
      return Ok(());
    } else if b == 170 {
      r := Tableswitch(f, code, at);
    } else if b == 171 {
      r := Lookupswitch(f, code, at);
    } else if HasOperandByte(b) {
      r := ExecByteOperand(f, code, b, at);
    } else if HasTwoOperandBytes(b) {
      r := ExecShortOperand(f, code, b, at);
    } else {
      r := ExecPlain(f, b);
    }
  }

  lemma {:induction false} NothingDone(f: JFrame, at: nat)
    requires f.Valid() && f.pc == f.pcOffset == at + 1
    ensures Did(Nop, at + 1, f.View(), f, Ok(()))
  {
    hide JFrame.Valid, JFrame.Locals, JFrame.Stack, LocalStep;
    StepWith(Nop, at + 1, f.View(), f.maxStack, f.Stack(), []);
    assert f.Stack() + [] == f.Stack();
  }
}
