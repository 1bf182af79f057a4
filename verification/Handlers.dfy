/**
 The handlers of `src/interp/interp.c` that stay inside one frame. Each is proved to do what the
 machine's `LocalStep` does for the instruction that `Decode` reads at the same address. The
 bytes are read through `pc`, which moves together with `pcOffset`.
*/
module Handlers {
  import opened Options
  import opened Words
  import opened Bytecode
  import opened Frames
  import opened Machine

  /** The frame after a handler, or the fault it reported, is what LocalStep says for the frame
      as it was before. */
  ghost predicate Did(ins: Instr, next: nat, before: Frame, f: JFrame, r: Result<()>)
    reads f, f.words
    requires IsLocal(ins)
  {
    var e := LocalStep(ins, next, before, f.maxStack);
    if r.Ok? then f.Valid() && f.pc == f.pcOffset && e == Ok(f.View()) else e == Fail(r.fault)
  }

  /** LocalStep for a stack that ends in the words the instruction takes. */
  lemma {:induction false} StepWith(ins: Instr, next: nat, f: Frame, maxStack: nat, rest: seq<Word>, args: seq<Word>)
    requires IsLocal(ins) && f.stack == rest + args && |args| == WordsOf(Pops(ins))
    ensures LocalStep(ins, next, f, maxStack) ==
              var done := Compute(ins, args, f.locals);
              if done.Fail? then Fail(done.fault)
              else if |rest| + |done.value.1| > maxStack then
                Fail(PushFault(if PushesWide(ins) then 2 else 1, |rest|, maxStack))
              else Ok(Frame(f.mb, done.value.0, rest + done.value.1, JumpTo(ins, next, args)))
  {
    hide Compute, JumpTo, PushesWide;
    assert f.stack[..|f.stack| - |args|] == rest && f.stack[|f.stack| - |args|..] == args;
  }

  /** LocalStep for a stack that is too short. */
  lemma {:induction false} StepShort(ins: Instr, next: nat, f: Frame, maxStack: nat)
    requires IsLocal(ins) && |f.stack| < WordsOf(Pops(ins))
    ensures LocalStep(ins, next, f, maxStack) ==
              Fail(if ZeroDivisor(ins, f.stack) then AssertionFailed else Underflow(Pops(ins), |f.stack|, |f.locals|))
  {
  }

  /** For an operation: the words that replace the arguments, or the fault. */
  lemma {:induction false} OpWith(op: Op, next: nat, f: Frame, maxStack: nat, rest: seq<Word>, args: seq<Word>)
    requires f.stack == rest + args && |args| == WordsOf(OpPops(op))
    ensures LocalStep(Operate(op), next, f, maxStack) ==
              var out := Apply(op, args);
              if out.Fail? then Fail(out.fault)
              else if |rest| + |out.value| > maxStack then
                Fail(PushFault(if PushesWide(Operate(op)) then 2 else 1, |rest|, maxStack))
              else Ok(f.(stack := rest + out.value, pc := next))
  {
    hide Apply, PushesWide, LocalStep;
    StepWith(Operate(op), next, f, maxStack, rest, args);
  }

  lemma {:induction false} UnderflowOfOne(k: Kind, h: nat, maxLocals: nat)
    requires h < Size(k)
    ensures Underflow([k], h, maxLocals) == PopFault(k, h, maxLocals)
  {
  }

  lemma {:induction false} UnderflowOfTwo(k: Kind, l: Kind, h: nat, maxLocals: nat)
    requires h < Size(k) + Size(l)
    ensures Underflow([k, l], h, maxLocals) ==
            if h < Size(k) then PopFault(k, h, maxLocals) else PopFault(l, h - Size(k), maxLocals)
  {
    assert [k, l][1..] == [l];
    if h >= Size(k) {
      UnderflowOfOne(l, h - Size(k), maxLocals);
    }
  }

  /** An operation on a stack that is too short, by the pops of its handler. */
  lemma {:induction false} OpShort(op: Op, next: nat, f: Frame, maxStack: nat)
    requires |f.stack| < WordsOf(OpPops(op))
    ensures OpPops(op) != []
    ensures var ks, h := OpPops(op), |f.stack|;
            LocalStep(Operate(op), next, f, maxStack) ==
              Fail(if ZeroDivisor(Operate(op), f.stack) then AssertionFailed
                   else if |ks| == 1 || h < Size(ks[0]) then PopFault(ks[0], h, |f.locals|)
                   else PopFault(ks[1], h - Size(ks[0]), |f.locals|))
  {
    hide LocalStep, ZeroDivisor, Underflow, PopFault;
    OpWords(op);
    StepShort(Operate(op), next, f, maxStack);
    var ks := OpPops(op);
    if |ks| == 1 {
      UnderflowOfOne(ks[0], |f.stack|, |f.locals|);
    } else {
      assert ks == [ks[0], ks[1]];
      UnderflowOfTwo(ks[0], ks[1], |f.stack|, |f.locals|);
    }
  }

  // ----- constants and stack shuffles -----

  method PushConst(f: JFrame, w: Word) returns (r: Result<()>)
    requires f.Valid() && f.pc == f.pcOffset >= 0
    modifies f`ostack, f.words
    ensures f.pc == old(f.pc) && Did(Operate(Const(w)), f.pc, old(f.View()), f, r)
  {
    hide JFrame.Valid, JFrame.Locals, JFrame.Stack, LocalStep, WordsOf;
    ghost var before := f.View();
    OpWords(Const(w));
    OpWith(Const(w), f.pc, before, f.maxStack, before.stack, []);
    r := f.PushWord(w);
  }

  method PushWideConst(f: JFrame, v: Wide) returns (r: Result<()>)
    requires f.Valid() && f.pc == f.pcOffset >= 0
    modifies f`ostack, f.words
    ensures f.pc == old(f.pc) && Did(Operate(WideConst(v)), f.pc, old(f.View()), f, r)
  {
    hide JFrame.Valid, JFrame.Locals, JFrame.Stack, LocalStep, WordsOf;
    ghost var before := f.View();
    OpWords(WideConst(v));
    OpWith(WideConst(v), f.pc, before, f.maxStack, before.stack, []);
    r := f.PushWide(v);
  }

  /** pop, pop2 and the short form dstore_0 */
  method DropTop(f: JFrame, kind: Kind) returns (r: Result<()>)
    requires f.Valid() && f.pc == f.pcOffset >= 0
    modifies f`ostack, f.words
    ensures f.pc == old(f.pc) && Did(Operate(Drop(kind)), f.pc, old(f.View()), f, r)
  {
    hide JFrame.Valid, JFrame.Locals, JFrame.Stack, LocalStep, WordsOf;
    ghost var before := f.View();
    OpWords(Drop(kind));
    if |before.stack| < WordsOf(OpPops(Drop(kind))) {
      OpShort(Drop(kind), f.pc, before, f.maxStack);
    }
    if kind == OneWord {
      var w :- f.PopWord();
      OpWith(Drop(kind), f.pc, before, f.maxStack, f.Stack(), [w]);
    } else {
      var v :- f.PopWide(kind);
      OpWith(Drop(kind), f.pc, before, f.maxStack, f.Stack(), [Low(v), High(v)]);
    }
    assert f.Stack() + [] == f.Stack();
    return Ok(());
  }

  method DupTop(f: JFrame) returns (r: Result<()>)
    requires f.Valid() && f.pc == f.pcOffset >= 0
    modifies f`ostack, f.words
    ensures f.pc == old(f.pc) && Did(Operate(Dup), f.pc, old(f.View()), f, r)
  {
    hide JFrame.Valid, JFrame.Locals, JFrame.Stack, LocalStep, WordsOf;
    ghost var before := f.View();
    OpWords(Dup);
    if |before.stack| < WordsOf(OpPops(Dup)) {
      OpShort(Dup, f.pc, before, f.maxStack);
    }
    var w :- f.PopWord();
    ghost var rest := f.Stack();
    OpWith(Dup, f.pc, before, f.maxStack, rest, [w]);
    var pushed := f.PushWord(w);
    var _ :- f.PushWord(w);
    assert f.Stack() == rest + [w, w];
    return Ok(());
  }

  method DupX1Top(f: JFrame) returns (r: Result<()>)
    requires f.Valid() && f.pc == f.pcOffset >= 0
    modifies f`ostack, f.words
    ensures f.pc == old(f.pc) && Did(Operate(DupX1), f.pc, old(f.View()), f, r)
  {
    hide JFrame.Valid, JFrame.Locals, JFrame.Stack, LocalStep, WordsOf;
    ghost var before := f.View();
    OpWords(DupX1);
    if |before.stack| < WordsOf(OpPops(DupX1)) {
      OpShort(DupX1, f.pc, before, f.maxStack);
    }
    var value1 :- f.PopWord();
    var value2 :- f.PopWord();
    ghost var rest := f.Stack();
    assert before.stack == rest + [value2, value1];
    OpWith(DupX1, f.pc, before, f.maxStack, rest, [value2, value1]);
    var pushed := f.PushWord(value1);
    pushed := f.PushWord(value2);
    var _ :- f.PushWord(value1);
    assert f.Stack() == rest + [value1, value2, value1];
    return Ok(());
  }

  method SwapTop(f: JFrame) returns (r: Result<()>)
    requires f.Valid() && f.pc == f.pcOffset >= 0
    modifies f`ostack, f.words
    ensures f.pc == old(f.pc) && Did(Operate(Swap), f.pc, old(f.View()), f, r)
  {
    hide JFrame.Valid, JFrame.Locals, JFrame.Stack, LocalStep, WordsOf;
    ghost var before := f.View();
    OpWords(Swap);
    if |before.stack| < WordsOf(OpPops(Swap)) {
      OpShort(Swap, f.pc, before, f.maxStack);
    }
    var value1 :- f.PopWord();
    var value2 :- f.PopWord();
    ghost var rest := f.Stack();
    assert before.stack == rest + [value2, value1];
    OpWith(Swap, f.pc, before, f.maxStack, rest, [value2, value1]);
    var pushed := f.PushWord(value1);
    pushed := f.PushWord(value2);
    assert f.Stack() == rest + [value1, value2];
    return Ok(());
  }

  // ----- arithmetic -----

  method IntArith(f: JFrame, a: Arith) returns (r: Result<()>)
    requires f.Valid() && f.pc == f.pcOffset >= 0
    modifies f`ostack, f.words
    ensures f.pc == old(f.pc) && Did(Operate(IntOp(a)), f.pc, old(f.View()), f, r)
  {
    hide JFrame.Valid, JFrame.Locals, JFrame.Stack, LocalStep, WordsOf, Quotient;
    ghost var before := f.View();
    OpWords(IntOp(a));
    if |before.stack| < WordsOf(OpPops(IntOp(a))) {
      OpShort(IntOp(a), f.pc, before, f.maxStack);
    }
    var value2 :- f.PopWord();
    if (a == Div || a == Rem) && value2 == 0 {
      if f.Stack() != [] {
        ghost var rest, x := f.Stack()[..|f.Stack()| - 1], f.Stack()[|f.Stack()| - 1];
        assert before.stack == rest + [x, value2];
        OpWith(IntOp(a), f.pc, before, f.maxStack, rest, [x, value2]);
      }
      return Fail(AssertionFailed);
    }
    var value1 :- f.PopWord();
    ghost var rest := f.Stack();
    assert before.stack == rest + [value1, value2];
    OpWith(IntOp(a), f.pc, before, f.maxStack, rest, [value1, value2]);
    var result :- Arithmetic(a, Int(value1), Int(value2), -0x8000_0000);
    var pushed := f.PushWord(ToWord(result));
    return Ok(());
  }

  method LongArith(f: JFrame, a: Arith) returns (r: Result<()>)
    requires f.Valid() && f.pc == f.pcOffset >= 0
    modifies f`ostack, f.words
    ensures f.pc == old(f.pc) && Did(Operate(LongOp(a)), f.pc, old(f.View()), f, r)
  {
    hide JFrame.Valid, JFrame.Locals, JFrame.Stack, LocalStep, WordsOf, Quotient, Low, High, Join;
    ghost var before := f.View();
    OpWords(LongOp(a));
    if |before.stack| < WordsOf(OpPops(LongOp(a))) {
      OpShort(LongOp(a), f.pc, before, f.maxStack);
    }
    var value2 :- f.PopWide(AsLong);
    JoinSplit(value2);
    ZeroHalves(value2);
    if (a == Div || a == Rem) && value2 == 0 {
      if |f.Stack()| >= 2 {
        ghost var k := |f.Stack()| - 2;
        ghost var rest, x, y := f.Stack()[..k], f.Stack()[k], f.Stack()[k + 1];
        assert before.stack == rest + [x, y, Low(value2), High(value2)];
        OpWith(LongOp(a), f.pc, before, f.maxStack, rest, [x, y, Low(value2), High(value2)]);
      }
      return Fail(AssertionFailed);
    }
    var value1 :- f.PopWide(AsLong);
    JoinSplit(value1);
    ghost var rest := f.Stack();
    ghost var args := [Low(value1), High(value1), Low(value2), High(value2)];
    assert before.stack == rest + args;
    OpWith(LongOp(a), f.pc, before, f.maxStack, rest, args);
    var result :- Arithmetic(a, Long(value1), Long(value2), -0x8000_0000_0000_0000);
    var pushed := f.PushWide(ToWide(result));
    return Ok(());
  }

  lemma {:induction false} ZeroHalves(v: Wide)
    ensures v == 0 <==> Low(v) == 0 && High(v) == 0
  {
  }

  method NegateInt(f: JFrame) returns (r: Result<()>)
    requires f.Valid() && f.pc == f.pcOffset >= 0
    modifies f`ostack, f.words
    ensures f.pc == old(f.pc) && Did(Operate(IntNeg), f.pc, old(f.View()), f, r)
  {
    hide JFrame.Valid, JFrame.Locals, JFrame.Stack, LocalStep, WordsOf;
    ghost var before := f.View();
    OpWords(IntNeg);
    if |before.stack| < WordsOf(OpPops(IntNeg)) {
      OpShort(IntNeg, f.pc, before, f.maxStack);
    }
    var value :- f.PopWord();
    OpWith(IntNeg, f.pc, before, f.maxStack, f.Stack(), [value]);
    var pushed := f.PushWord(ToWord(0 - Int(value)));
    return Ok(());
  }

  method NegateLong(f: JFrame) returns (r: Result<()>)
    requires f.Valid() && f.pc == f.pcOffset >= 0
    modifies f`ostack, f.words
    ensures f.pc == old(f.pc) && Did(Operate(LongNeg), f.pc, old(f.View()), f, r)
  {
    hide JFrame.Valid, JFrame.Locals, JFrame.Stack, LocalStep, WordsOf, Low, High, Join;
    ghost var before := f.View();
    OpWords(LongNeg);
    if |before.stack| < WordsOf(OpPops(LongNeg)) {
      OpShort(LongNeg, f.pc, before, f.maxStack);
    }
    var value :- f.PopWide(AsLong);
    JoinSplit(value);
    OpWith(LongNeg, f.pc, before, f.maxStack, f.Stack(), [Low(value), High(value)]);
    var pushed := f.PushWide(ToWide(0 - Long(value)));
    return Ok(());
  }

  method WidenInt(f: JFrame) returns (r: Result<()>)
    requires f.Valid() && f.pc == f.pcOffset >= 0
    modifies f`ostack, f.words
    ensures f.pc == old(f.pc) && Did(Operate(IntToLong), f.pc, old(f.View()), f, r)
  {
    hide JFrame.Valid, JFrame.Locals, JFrame.Stack, LocalStep, WordsOf, Low, High;
    ghost var before := f.View();
    OpWords(IntToLong);
    if |before.stack| < WordsOf(OpPops(IntToLong)) {
      OpShort(IntToLong, f.pc, before, f.maxStack);
    }
    var value :- f.PopWord();
    OpWith(IntToLong, f.pc, before, f.maxStack, f.Stack(), [value]);
    r := f.PushWide(ToWide(Int(value)));
  }

  method NarrowLong(f: JFrame) returns (r: Result<()>)
    requires f.Valid() && f.pc == f.pcOffset >= 0
    modifies f`ostack, f.words
    ensures f.pc == old(f.pc) && Did(Operate(LongToInt), f.pc, old(f.View()), f, r)
  {
    hide JFrame.Valid, JFrame.Locals, JFrame.Stack, LocalStep, WordsOf, Low, High;
    ghost var before := f.View();
    OpWords(LongToInt);
    if |before.stack| < WordsOf(OpPops(LongToInt)) {
      OpShort(LongToInt, f.pc, before, f.maxStack);
    }
    var value :- f.PopWide(AsLong);
    OpWith(LongToInt, f.pc, before, f.maxStack, f.Stack(), [Low(value), High(value)]);
    var pushed := f.PushWord(Low(value));
    return Ok(());
  }

  method CompareLongs(f: JFrame) returns (r: Result<()>)
    requires f.Valid() && f.pc == f.pcOffset >= 0
    modifies f`ostack, f.words
    ensures f.pc == old(f.pc) && Did(Operate(LongCompare), f.pc, old(f.View()), f, r)
  {
    hide JFrame.Valid, JFrame.Locals, JFrame.Stack, LocalStep, WordsOf, Low, High, Join;
    ghost var before := f.View();
    OpWords(LongCompare);
    if |before.stack| < WordsOf(OpPops(LongCompare)) {
      OpShort(LongCompare, f.pc, before, f.maxStack);
    }
    var value2 :- f.PopWide(AsLong);
    JoinSplit(value2);
    var value1 :- f.PopWide(AsLong);
    JoinSplit(value1);
    ghost var rest := f.Stack();
    ghost var args := [Low(value1), High(value1), Low(value2), High(value2)];
    assert before.stack == rest + args;
    OpWith(LongCompare, f.pc, before, f.maxStack, rest, args);
    var result := if Long(value1) > Long(value2) then 1 else if Long(value1) == Long(value2) then 0 else -1;
    var pushed := f.PushWord(ToWord(result));
    return Ok(());
  }

  // ----- locals -----

  method Load(f: JFrame, i: nat, wide: bool) returns (r: Result<()>)
    requires f.Valid() && f.pc == f.pcOffset >= 0
    modifies f`ostack, f.words
    ensures f.pc == old(f.pc) && Did(LoadVar(i, wide), f.pc, old(f.View()), f, r)
  {
    hide JFrame.Valid, JFrame.Locals, JFrame.Stack, LocalStep;
    ghost var before := f.View();
    StepWith(LoadVar(i, wide), f.pc, before, f.maxStack, before.stack, []);
    if wide {
      var v :- f.LoadWide(i);
      SplitJoin(f.Locals()[i], f.Locals()[i + 1]);
      r := f.PushWide(v);
    } else {
      var w :- f.LoadWord(i);
      r := f.PushWord(w);
    }
  }

  lemma {:induction false} StoreShort(i: nat, k: Kind, next: nat, f: Frame, maxStack: nat)
    requires |f.stack| < Size(k)
    ensures LocalStep(StoreVar(i, k), next, f, maxStack) == Fail(PopFault(k, |f.stack|, |f.locals|))
  {
  }

  method StoreOne(f: JFrame, i: nat) returns (r: Result<()>)
    requires f.Valid() && f.pc == f.pcOffset >= 0
    modifies f`ostack, f.words
    ensures f.pc == old(f.pc) && Did(StoreVar(i, OneWord), f.pc, old(f.View()), f, r)
  {
    hide JFrame.Valid, JFrame.Locals, JFrame.Stack, LocalStep;
    ghost var before := f.View();
    if |before.stack| < 1 {
      StoreShort(i, OneWord, f.pc, before, f.maxStack);
    }
    var w :- f.PopWord();
    StepWith(StoreVar(i, OneWord), f.pc, before, f.maxStack, f.Stack(), [w]);
    assert f.Stack() + [] == f.Stack();
    r := f.StoreWord(i, w);
  }

  method StoreTwo(f: JFrame, i: nat, kind: Kind) returns (r: Result<()>)
    requires f.Valid() && f.pc == f.pcOffset >= 0 && kind != OneWord
    modifies f`ostack, f.words
    ensures f.pc == old(f.pc) && Did(StoreVar(i, kind), f.pc, old(f.View()), f, r)
  {
    hide JFrame.Valid, JFrame.Locals, JFrame.Stack, LocalStep, Low, High;
    ghost var before := f.View();
    if |before.stack| < 2 {
      StoreShort(i, kind, f.pc, before, f.maxStack);
    }
    var v :- f.PopWide(kind);
    StepWith(StoreVar(i, kind), f.pc, before, f.maxStack, f.Stack(), [Low(v), High(v)]);
    assert f.Stack() + [] == f.Stack();
    r := f.StoreWide(i, v);
  }

  method Store(f: JFrame, i: nat, kind: Kind) returns (r: Result<()>)
    requires f.Valid() && f.pc == f.pcOffset >= 0
    modifies f`ostack, f.words
    ensures f.pc == old(f.pc) && Did(StoreVar(i, kind), f.pc, old(f.View()), f, r)
  {
    hide JFrame.Valid, JFrame.Locals, JFrame.Stack, LocalStep, Did;
    if kind == OneWord {
      r := StoreOne(f, i);
    } else {
      r := StoreTwo(f, i, kind);
    }
  }

  method IncrementVar(f: JFrame, i: nat, delta: int) returns (r: Result<()>)
    requires f.Valid() && f.pc == f.pcOffset >= 0
    modifies f`ostack, f.words
    ensures f.pc == old(f.pc) && Did(Increment(i, delta), f.pc, old(f.View()), f, r)
  {
    hide JFrame.Valid, JFrame.Locals, JFrame.Stack, LocalStep;
    ghost var before := f.View();
    StepWith(Increment(i, delta), f.pc, before, f.maxStack, before.stack, []);
    var value :- f.LoadWord(i);
    var stored := f.StoreWord(i, ToWord(Int(value) + delta));
    assert f.Stack() + [] == f.Stack();
    return Ok(());
  }

  // ----- operands -----

  /** `PC_MOVE`: the pointer and the offset together. */
  method PcMove(f: JFrame, x: int)
    modifies f`pc, f`pcOffset
    ensures f.pc == old(f.pc) + x && f.pcOffset == old(f.pcOffset) + x
  {
    f.pc := f.pc + x;
    f.pcOffset := f.pcOffset + x;
  }

  /** `INTERP_U1` */
  method ReadByte(f: JFrame, code: seq<Byte>) returns (u: Byte)
    requires 0 <= f.pc < |code|
    modifies f`pc, f`pcOffset
    ensures u == code[old(f.pc)] && f.pc == old(f.pc) + 1 && f.pcOffset == old(f.pcOffset) + 1
  {
    u := code[f.pc];
    f.pc := f.pc + 1;
    f.pcOffset := f.pcOffset + 1;
  }

  /** `INTERP_U2` */
  method ReadShort(f: JFrame, code: seq<Byte>) returns (u: U2)
    requires 0 <= f.pc && f.pc + 2 <= |code|
    modifies f`pc, f`pcOffset
    ensures u == ReadU2(code, old(f.pc)) && f.pc == old(f.pc) + 2 && f.pcOffset == old(f.pcOffset) + 2
  {
    u := ReadU2(code, f.pc);
    f.pc := f.pc + 2;
    f.pcOffset := f.pcOffset + 2;
  }

  /** `INTERP_U4` into an int */
  method ReadInt(f: JFrame, code: seq<Byte>) returns (x: int)
    requires 0 <= f.pc && f.pc + 4 <= |code|
    modifies f`pc, f`pcOffset
    ensures x == Signed4(code, old(f.pc)) && f.pc == old(f.pc) + 4 && f.pcOffset == old(f.pcOffset) + 4
  {
    x := Int(ReadU4(code, f.pc));
    f.pc := f.pc + 4;
    f.pcOffset := f.pcOffset + 4;
  }

  // ----- branches -----

  lemma {:induction false} JumpShort(ins: Instr, next: nat, f: Frame, maxStack: nat)
    requires ins.If? || ins.IfCompare? || ins.TableSwitch? || ins.LookupSwitch?
    ensures |f.stack| == 0 || (|f.stack| == 1 && ins.IfCompare?) ==>
              LocalStep(ins, next, f, maxStack) == Fail(PopFault(OneWord, 0, |f.locals|))
  {
    if ins.IfCompare? {
      assert Pops(ins)[1..] == [OneWord];
      assert WordsOf([OneWord]) == 1;
      if |f.stack| < 2 {
        UnderflowOfTwo(OneWord, OneWord, |f.stack|, |f.locals|);
      }
    }
  }

  lemma {:induction false} JumpWith(ins: Instr, next: nat, f: Frame, maxStack: nat, rest: seq<Word>, args: seq<Word>)
    requires ins.If? || ins.IfCompare? || ins.TableSwitch? || ins.LookupSwitch? || ins.Goto?
    requires f.stack == rest + args && |rest| <= maxStack
             && |args| == (if ins.IfCompare? then 2 else if ins.Goto? then 0 else 1)
    ensures |args| == WordsOf(Pops(ins))
    ensures LocalStep(ins, next, f, maxStack) == Ok(f.(stack := rest, pc := JumpTo(ins, next, args)))
  {
    hide LocalStep, JumpTo;
    if ins.IfCompare? {
      assert Pops(ins)[1..] == [OneWord];
      assert WordsOf([OneWord]) == 1;
    }
    StepWith(ins, next, f, maxStack, rest, args);
    assert rest + [] == rest;
  }

  method Goto16(f: JFrame, code: seq<Byte>, ghost at: nat) returns (r: Result<()>)
    requires f.Valid() && f.pc == f.pcOffset == at + 1 && at + 3 <= |code|
    modifies f`pc, f`pcOffset
    ensures Did(Goto(at + Short(ReadU2(code, at + 1))), at + 3, old(f.View()), f, r)
  {
    hide JFrame.Valid, JFrame.Locals, JFrame.Stack, LocalStep;
    ghost var before := f.View();
    JumpWith(Goto(at + Short(ReadU2(code, at + 1))), at + 3, before, f.maxStack, before.stack, []);
    var offset := ReadShort(f, code);
    PcMove(f, Short(offset) - 3);
    return Ok(());
  }

  /** ifeq to ifle, ifnull and ifnonnull: pop, compare with 0. */
  method BranchIf(f: JFrame, code: seq<Byte>, cond: Cond, ghost at: nat) returns (r: Result<()>)
    requires f.Valid() && f.pc == f.pcOffset == at + 1 && at + 3 <= |code|
    modifies f`ostack, f`pc, f`pcOffset, f.words
    ensures Did(If(cond, at + Short(ReadU2(code, at + 1))), at + 3, old(f.View()), f, r)
  {
    hide JFrame.Valid, JFrame.Locals, JFrame.Stack, LocalStep, ReadU2, Short;
    ghost var before := f.View();
    ghost var ins := If(cond, at + Short(ReadU2(code, at + 1)));
    JumpShort(ins, at + 3, before, f.maxStack);
    var value :- f.PopWord();
    JumpWith(ins, at + 3, before, f.maxStack, f.Stack(), [value]);
    if Holds(cond, Int(value), 0) {
      var offset := ReadShort(f, code);
      PcMove(f, Short(offset) - 3);
    } else {
      PcMove(f, 2);
    }
    return Ok(());
  }

  /** if_icmpeq to if_icmple */
  method BranchIfCompare(f: JFrame, code: seq<Byte>, cond: Cond, ghost at: nat) returns (r: Result<()>)
    requires f.Valid() && f.pc == f.pcOffset == at + 1 && at + 3 <= |code|
    modifies f`ostack, f`pc, f`pcOffset, f.words
    ensures Did(IfCompare(cond, at + Short(ReadU2(code, at + 1))), at + 3, old(f.View()), f, r)
  {
    hide JFrame.Valid, JFrame.Locals, JFrame.Stack, LocalStep, ReadU2, Short;
    ghost var before := f.View();
    ghost var ins := IfCompare(cond, at + Short(ReadU2(code, at + 1)));
    JumpShort(ins, at + 3, before, f.maxStack);
    var value2 :- f.PopWord();
    var value1 :- f.PopWord();
    assert before.stack == f.Stack() + [value1, value2];
    JumpWith(ins, at + 3, before, f.maxStack, f.Stack(), [value1, value2]);
    if Holds(cond, Int(value1), Int(value2)) {
      var offset := ReadShort(f, code);
      PcMove(f, Short(offset) - 3);
    } else {
      PcMove(f, 2);
    }
    return Ok(());
  }

  // ----- switches -----

  /** The padding computed from the opcode's address leads to the first aligned address behind it. */
  lemma {:induction false} Padding(at: nat)
    ensures at + (4 - at % 4) == Aligned(at + 1)
  {
  }

  /** The start of both switch handlers: back to the opcode, whose address is the base of all
      offsets, and over it and the padding. */
  method SkipPadding(f: JFrame, ghost at: nat) returns (base: int)
    requires f.pc == f.pcOffset == at + 1
    modifies f`pc, f`pcOffset
    ensures base == at && f.pc == f.pcOffset == Aligned(at + 1)
  {
    Padding(at);
    PcMove(f, -1);
    base := f.pcOffset;
    var pad := 4 - f.pcOffset % 4;
    PcMove(f, pad);
  }

  /** The end of both: an offset from the base becomes a move from where the operands end. */
  method JumpFrom(f: JFrame, base: int, offset: int)
    requires f.pc == f.pcOffset
    modifies f`pc, f`pcOffset
    ensures f.pc == f.pcOffset == base + offset
  {
    var jump := offset - (f.pcOffset - base);
    PcMove(f, jump);
  }

  lemma {:induction false} TableOperands(code: seq<Byte>, at: nat)
    requires DecodeTableSwitch(code, at).Some?
    ensures var p, ins := Aligned(at + 1), DecodeTableSwitch(code, at).value.0;
            && p + 12 <= |code| && ins.TableSwitch? && ins.default == at + Signed4(code, p)
            && ins.low == Signed4(code, p + 4)
            && |ins.targets| == Signed4(code, p + 8) - ins.low + 1 && p + 12 + 4 * |ins.targets| <= |code|
            && forall k :: 0 <= k < |ins.targets| ==> ins.targets[k] == at + JumpEntry(code, p + 12, k)
  {
  }

  /** Over the entries before the one of the key, which is read. */
  method ReadEntry(f: JFrame, code: seq<Byte>, k: nat) returns (jump: int)
    requires 0 <= f.pc == f.pcOffset && f.pc + 4 * k + 4 <= |code|
    modifies f`pc, f`pcOffset
    ensures f.pc == f.pcOffset && jump == JumpEntry(code, old(f.pc), k)
  {
    PcMove(f, k * 4);
    jump := ReadInt(f, code);
  }

  /** `exe_OPC_TABLESWITCH` */
  method Tableswitch(f: JFrame, code: seq<Byte>, ghost at: nat) returns (r: Result<()>)
    requires f.Valid() && f.pc == f.pcOffset == at + 1 && DecodeTableSwitch(code, at).Some?
    modifies f`ostack, f`pc, f`pcOffset, f.words
    ensures Did(DecodeTableSwitch(code, at).value.0, DecodeTableSwitch(code, at).value.1, old(f.View()), f, r)
  {
    hide JFrame.Valid, JFrame.Locals, JFrame.Stack, LocalStep, Signed4, DecodeTableSwitch, JumpEntry, Aligned;
    ghost var before := f.View();
    ghost var ins, next := DecodeTableSwitch(code, at).value.0, DecodeTableSwitch(code, at).value.1;
    TableOperands(code, at);
    JumpShort(ins, next, before, f.maxStack);
    var base := SkipPadding(f, at);
    var def := ReadInt(f, code);
    var low := ReadInt(f, code);
    var high := ReadInt(f, code);
    var key :- f.PopWord();
    var index := Int(key);
    JumpWith(ins, next, before, f.maxStack, f.Stack(), [key]);
    if index < low || index > high {
      JumpFrom(f, base, def);
      return Ok(());
    }
    var jump := ReadEntry(f, code, index - low);
    JumpFrom(f, base, jump);
    return Ok(());
  }

  lemma {:induction false} PairOperands(code: seq<Byte>, at: nat)
    requires DecodeLookupSwitch(code, at).Some?
    ensures var p, ins := Aligned(at + 1), DecodeLookupSwitch(code, at).value.0;
            && p + 8 <= |code| && ins.LookupSwitch? && ins.default == at + Signed4(code, p)
            && |ins.pairs| == Signed4(code, p + 4)
            && p + 8 + 8 * |ins.pairs| <= |code|
            && forall k :: 0 <= k < |ins.pairs| ==>
                 ins.pairs[k] == (MatchEntry(code, p + 8, k).0, at + MatchEntry(code, p + 8, k).1)
  {
  }

  /** The first loop of `exe_OPC_LOOKUPSWITCH`: the pairs are read into two arrays. */
  method ReadPairs(f: JFrame, code: seq<Byte>, npairs: nat) returns (matches: array<int>, offsets: array<int>)
    requires 0 <= f.pc && f.pc + 8 * npairs <= |code|
    modifies f`pc, f`pcOffset
    ensures f.pc == old(f.pc) + 8 * npairs && f.pcOffset == old(f.pcOffset) + 8 * npairs
    ensures fresh(matches) && fresh(offsets) && matches.Length == offsets.Length == npairs
    ensures forall k :: 0 <= k < npairs ==>
              matches[k] == MatchEntry(code, old(f.pc), k).0 && offsets[k] == MatchEntry(code, old(f.pc), k).1
  {
    hide Signed4;
    matches, offsets := new int[npairs], new int[npairs];
    ghost var start := f.pc;
    for i := 0 to npairs
      invariant f.pc == start + 8 * i && f.pcOffset == old(f.pcOffset) + 8 * i
      invariant forall k :: 0 <= k < i ==>
                  matches[k] == MatchEntry(code, start, k).0 && offsets[k] == MatchEntry(code, start, k).1
    {
      matches[i] := ReadInt(f, code);
      offsets[i] := ReadInt(f, code);
    }
  }

  /** The second loop: the offset of the first pair that matches, or the default. */
  method FirstMatch(matches: array<int>, offsets: array<int>, def: int, key: int, base: int,
                    ghost pairs: seq<(int, int)>)
    returns (offset: int)
    requires matches.Length == offsets.Length == |pairs|
    requires forall k :: 0 <= k < |pairs| ==> pairs[k] == (matches[k], base + offsets[k])
    ensures base + offset == Lookup(pairs, base + def, key)
  {
    hide Lookup;
    for i := 0 to matches.Length
      invariant forall j :: 0 <= j < i ==> pairs[j].0 != key
    {
      if key == matches[i] {
        LookupFirst(pairs, base + def, key, i);
        return offsets[i];
      }
    }
    LookupFirst(pairs, base + def, key, |pairs|);
    return def;
  }

  /** The operands of a lookupswitch and the search among them. */
  method LookupOffset(f: JFrame, code: seq<Byte>, key: int, ghost at: nat) returns (base: int, offset: int)
    requires f.pc == f.pcOffset == at + 1 && DecodeLookupSwitch(code, at).Some?
    modifies f`pc, f`pcOffset
    ensures f.pc == f.pcOffset && base == at
    ensures var ins := DecodeLookupSwitch(code, at).value.0;
            ins.LookupSwitch? && base + offset == Lookup(ins.pairs, ins.default, key)
  {
    hide Signed4, Lookup, DecodeLookupSwitch, MatchEntry, Aligned;
    PairOperands(code, at);
    ghost var ins := DecodeLookupSwitch(code, at).value.0;
    base := SkipPadding(f, at);
    var def := ReadInt(f, code);
    var npairs := ReadInt(f, code);
    var matches, offsets := ReadPairs(f, code, npairs);
    offset := FirstMatch(matches, offsets, def, key, base, ins.pairs);
  }

  /** `exe_OPC_LOOKUPSWITCH` */
  method Lookupswitch(f: JFrame, code: seq<Byte>, ghost at: nat) returns (r: Result<()>)
    requires f.Valid() && f.pc == f.pcOffset == at + 1 && DecodeLookupSwitch(code, at).Some?
    modifies f`ostack, f`pc, f`pcOffset, f.words
    ensures Did(DecodeLookupSwitch(code, at).value.0, DecodeLookupSwitch(code, at).value.1, old(f.View()), f, r)
  {
    hide JFrame.Valid, JFrame.Locals, JFrame.Stack, LocalStep, Lookup, DecodeLookupSwitch;
    ghost var before := f.View();
    ghost var ins, next := DecodeLookupSwitch(code, at).value.0, DecodeLookupSwitch(code, at).value.1;
    PairOperands(code, at);
    JumpShort(ins, next, before, f.maxStack);
    var word :- f.PopWord();
    JumpWith(ins, next, before, f.maxStack, f.Stack(), [word]);
    var base, offset := LookupOffset(f, code, Int(word), at);
    JumpFrom(f, base, offset);
    return Ok(());
  }
}
