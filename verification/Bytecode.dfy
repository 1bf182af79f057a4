/**
 Instructions of section 6.5 of the Java Virtual Machine Specification, read off the bytes of a
 method independently of the handlers of `src/interp/interp.c`. Jump targets are absolute:
 the address of the opcode plus the signed offset.
*/
module Bytecode {
  import opened Options
  import opened Words

  /** How a handler takes a value off the stack: one word, or two words as TYPE_LONG or
      as TYPE_DOUBLE. */
  datatype Kind = OneWord | AsLong | AsDouble

  datatype Arith = Add | Sub | Mul | Div | Rem

  datatype Cond = Eq | Ne | Lt | Ge | Gt | Le

  /** Instructions that only move and compute words of the operand stack. */
  datatype Op =
    | Const(w: Word)
    | WideConst(v: Wide)
    | Drop(kind: Kind)
    | Dup
    | DupX1
    | Swap
    | IntOp(a: Arith)
    | LongOp(a: Arith)
    | IntNeg
    | LongNeg
    | IntToLong
    | LongToInt
    | LongCompare

  datatype Instr =
    | Nop
    | Operate(op: Op)
    | LoadVar(i: nat, wide: bool)
    | StoreVar(i: nat, kind: Kind)
    | Increment(i: nat, delta: int)
    | Goto(target: int)
    | If(cond: Cond, target: int)
    | IfCompare(cond: Cond, target: int)
    | TableSwitch(default: int, low: int, targets: seq<int>)
    | LookupSwitch(default: int, pairs: seq<(int, int)>)
    | ReturnVoid
    | ReturnValue(kind: Kind)
    | GetField(index: nat)
    | PutField(index: nat)
    | InvokeVirtual(index: nat)
    | InvokeDirect(index: nat)
    | New(index: nat)

  // ----- decoding -----

  function IntWord(x: int): Instr {
    Operate(Const(ToWord(x)))
  }

  /** Opcodes 1 to 15. The float and double constants are payloads. */
  function DecodeConstant(b: Byte): Instr
    requires 1 <= b <= 15
  {
    if b == 1 then IntWord(0)
    else if b <= 8 then IntWord(b - 3)
    else if b <= 10 then Operate(WideConst(b - 9))
    else if b == 11 then IntWord(0)
    else if b == 12 then Operate(Const(0x3F80_0000))
    else if b == 13 then Operate(Const(0x4000_0000))
    else if b == 14 then Operate(WideConst(0))
    else Operate(WideConst(0x3FF0_0000_0000_0000))
  }

  /** The short forms of the loads, 26 to 45: five families of four locals. */
  function DecodeLoad(b: Byte): Instr
    requires 26 <= b <= 45
  {
    var family := (b - 26) / 4;
    LoadVar((b - 26) % 4, family == 1 || family == 3)
  }

  function StoreKind(family: nat): Kind {
    if family == 1 then AsLong else if family == 3 then AsDouble else OneWord
  }

  /** The short forms of the stores, 59 to 78. The handler of dstore_0 pops its operand and
      stores nothing. */
  function DecodeStore(b: Byte): Instr
    requires 59 <= b <= 78
  {
    if b == 71 then Operate(Drop(AsDouble)) else StoreVar((b - 59) % 4, StoreKind((b - 59) / 4))
  }

  function DecodeStackOp(b: Byte): Option<Instr> {
    if b == 87 then Some(Operate(Drop(OneWord)))
    else if b == 88 then Some(Operate(Drop(AsLong)))
    else if b == 89 then Some(Operate(Dup))
    else if b == 90 then Some(Operate(DupX1))
    else if b == 95 then Some(Operate(Swap))
    else None
  }

  function DecodeArith(b: Byte): Option<Instr> {
    if b == 96 then Some(Operate(IntOp(Add)))
    else if b == 97 then Some(Operate(LongOp(Add)))
    else if b == 100 then Some(Operate(IntOp(Sub)))
    else if b == 101 then Some(Operate(LongOp(Sub)))
    else if b == 104 then Some(Operate(IntOp(Mul)))
    else if b == 105 then Some(Operate(LongOp(Mul)))
    else if b == 108 then Some(Operate(IntOp(Div)))
    else if b == 109 then Some(Operate(LongOp(Div)))
    else if b == 112 then Some(Operate(IntOp(Rem)))
    else if b == 113 then Some(Operate(LongOp(Rem)))
    else if b == 116 then Some(Operate(IntNeg))
    else if b == 117 then Some(Operate(LongNeg))
    else if b == 133 then Some(Operate(IntToLong))
    else if b == 136 then Some(Operate(LongToInt))
    else if b == 148 then Some(Operate(LongCompare))
    else None
  }

  function DecodeReturn(b: Byte): Option<Instr> {
    if b == 172 || b == 176 then Some(ReturnValue(OneWord))
    else if b == 175 then Some(ReturnValue(AsDouble))
    else if b == 177 then Some(ReturnVoid)
    else None
  }

  /** Instructions of one byte. */
  function DecodePlain(b: Byte): Option<Instr> {
    if 1 <= b <= 15 then Some(DecodeConstant(b))
    else if 26 <= b <= 45 then Some(DecodeLoad(b))
    else if 59 <= b <= 78 then Some(DecodeStore(b))
    else if b < 96 then DecodeStackOp(b)
    else if b < 170 then DecodeArith(b)
    else DecodeReturn(b)
  }

  /** Instructions with one operand byte: bipush, whose byte the source reads unsigned, and
      the long forms of loads and stores. */
  function DecodeByte(b: Byte, u: Byte): Option<Instr> {
    if b == 16 then Some(IntWord(u))
    else if 21 <= b <= 25 then Some(LoadVar(u, b == 22 || b == 24))
    else if 54 <= b <= 58 then Some(StoreVar(u, StoreKind(b - 54)))
    else None
  }

  function CondOf(n: nat): Cond {
    if n == 0 then Eq else if n == 1 then Ne else if n == 2 then Lt else if n == 3 then Ge
    else if n == 4 then Gt else Le
  }

  function SignedByte(u: Byte): int {
    if u < 0x80 then u else u - 0x100
  }

  /** Branches; null references are the word 0. */
  function DecodeBranch(b: Byte, target: int): Option<Instr> {
    if 153 <= b <= 158 then Some(If(CondOf(b - 153), target))
    else if 159 <= b <= 164 then Some(IfCompare(CondOf(b - 159), target))
    else if b == 167 then Some(Goto(target))
    else if b == 198 then Some(If(Eq, target))
    else if b == 199 then Some(If(Ne, target))
    else None
  }

  function DecodeIndexed(b: Byte, index: U2): Option<Instr> {
    if b == 180 then Some(GetField(index))
    else if b == 181 then Some(PutField(index))
    else if b == 182 then Some(InvokeVirtual(index))
    else if b == 183 || b == 184 then Some(InvokeDirect(index))
    else if b == 187 then Some(New(index))
    else None
  }

  /** Instructions with two operand bytes. */
  function DecodeShort(code: seq<Byte>, at: nat): Option<Instr>
    requires at + 3 <= |code|
  {
    var b, u := code[at], ReadU2(code, at + 1);
    if b == 17 then Some(IntWord(Short(u)))
    else if b == 132 then Some(Increment(code[at + 1], SignedByte(code[at + 2])))
    else if b < 170 || b >= 198 then DecodeBranch(b, at + Short(u))
    else DecodeIndexed(b, u)
  }

  /** The first multiple of four at or after p. */
  function Aligned(p: nat): (q: nat)
    ensures p <= q < p + 4 && q % 4 == 0
  {
    p + (4 - p % 4) % 4
  }

  function Signed4(code: seq<Byte>, p: nat): int
    requires p + 4 <= |code|
  {
    Int(ReadU4(code, p))
  }

  /** Entry k of the jump offsets that start at p. */
  function JumpEntry(code: seq<Byte>, p: nat, k: nat): int
    requires p + 4 * k + 4 <= |code|
  {
    Signed4(code, p + 4 * k)
  }

  /** Match-offset pair k of those that start at p. */
  function MatchEntry(code: seq<Byte>, p: nat, k: nat): (int, int)
    requires p + 8 * k + 8 <= |code|
  {
    (Signed4(code, p + 8 * k), Signed4(code, p + 8 * k + 4))
  }

  /** n jump offsets from p on, made absolute. */
  function JumpTable(code: seq<Byte>, at: nat, p: nat, n: nat): (ts: seq<int>)
    requires p + 4 * n <= |code|
    ensures |ts| == n && forall k :: 0 <= k < n ==> ts[k] == at + JumpEntry(code, p, k)
  {
    if n == 0 then [] else JumpTable(code, at, p, n - 1) + [at + JumpEntry(code, p, n - 1)]
  }

  /** n match-offset pairs from p on. */
  function MatchTable(code: seq<Byte>, at: nat, p: nat, n: nat): (ps: seq<(int, int)>)
    requires p + 8 * n <= |code|
    ensures |ps| == n
    ensures forall k :: 0 <= k < n ==> ps[k] == (MatchEntry(code, p, k).0, at + MatchEntry(code, p, k).1)
  {
    if n == 0 then []
    else MatchTable(code, at, p, n - 1) + [(MatchEntry(code, p, n - 1).0, at + MatchEntry(code, p, n - 1).1)]
  }

  function DecodeTableSwitch(code: seq<Byte>, at: nat): (r: Option<(Instr, nat)>)
    ensures r.Some? ==> at < r.value.1 <= |code|
  {
    var p := Aligned(at + 1);
    if p + 12 > |code| then None
    else
      var low, high := Signed4(code, p + 4), Signed4(code, p + 8);
      var end := p + 12 + 4 * (high - low + 1);
      if low > high || end > |code| then None
      else Some((TableSwitch(at + Signed4(code, p), low, JumpTable(code, at, p + 12, high - low + 1)), end))
  }

  function DecodeLookupSwitch(code: seq<Byte>, at: nat): (r: Option<(Instr, nat)>)
    ensures r.Some? ==> at < r.value.1 <= |code|
  {
    var p := Aligned(at + 1);
    if p + 8 > |code| then None
    else
      var npairs := Signed4(code, p + 4);
      var end := p + 8 + 8 * npairs;
      if npairs < 0 || end > |code| then None
      else Some((LookupSwitch(at + Signed4(code, p), MatchTable(code, at, p + 8, npairs)), end))
  }

  predicate HasOperandByte(b: Byte) {
    b == 16 || 21 <= b <= 25 || 54 <= b <= 58
  }

  predicate HasTwoOperandBytes(b: Byte) {
    b == 17 || b == 132 || 153 <= b <= 167 || 178 <= b <= 187 || 198 <= b <= 199
  }

  function WithEnd(ins: Option<Instr>, end: nat): Option<(Instr, nat)> {
    if ins == None then None else Some((ins.value, end))
  }

  /** The instruction at an address and the address behind it; None for an opcode outside the
      modelled subset and for operands that do not fit in the code. */
  function Decode(code: seq<Byte>, at: nat): (r: Option<(Instr, nat)>)
    requires at < |code|
    ensures r.Some? ==> at < r.value.1 <= |code|
  {
    var b := code[at];
    if b == 0 then Some((Nop, at + 1))
    else if b == 170 then DecodeTableSwitch(code, at)
    else if b == 171 then DecodeLookupSwitch(code, at)
    else if HasOperandByte(b) then
      if at + 2 > |code| then None else WithEnd(DecodeByte(b, code[at + 1]), at + 2)
    else if HasTwoOperandBytes(b) then
      if at + 3 > |code| then None else WithEnd(DecodeShort(code, at), at + 3)
    else WithEnd(DecodePlain(b), at + 1)
  }

  // ----- where control goes -----

  predicate Holds(c: Cond, x: int, y: int) {
    match c
    case Eq => x == y
    case Ne => x != y
    case Lt => x < y
    case Ge => x >= y
    case Gt => x > y
    case Le => x <= y
  }

  /** The target of the first pair that matches the key. */
  function Lookup(pairs: seq<(int, int)>, default: int, key: int): int {
    if pairs == [] then default
    else if pairs[0].0 == key then pairs[0].1
    else Lookup(pairs[1..], default, key)
  }

  /** With no match before i: the answer is pair i if that one matches, and the default if there
      is no pair i. */
  lemma {:induction false} LookupFirst(pairs: seq<(int, int)>, default: int, key: int, i: nat)
    requires i <= |pairs| && forall j :: 0 <= j < i ==> pairs[j].0 != key
    ensures i < |pairs| && pairs[i].0 == key ==> Lookup(pairs, default, key) == pairs[i].1
    ensures i == |pairs| ==> Lookup(pairs, default, key) == default
  {
    if i > 0 {
      assert forall j :: 1 <= j < |pairs| ==> pairs[1..][j - 1] == pairs[j];
      LookupFirst(pairs[1..], default, key, i - 1);
    }
  }

  /** The address executed after an instruction that does not return, given the words it popped. */
  function JumpTo(ins: Instr, next: nat, args: seq<Word>): int
    requires |args| == WordsOf(Pops(ins))
  {
    match ins
    case Goto(t) => t
    case If(c, t) => if Holds(c, Int(args[0]), 0) then t else next
    case IfCompare(c, t) =>
      assert Pops(ins)[1..] == [OneWord] && WordsOf([OneWord]) == 1;
      if Holds(c, Int(args[0]), Int(args[1])) then t else next
    case TableSwitch(d, low, ts) =>
      var key := Int(args[0]);
      if low <= key < low + |ts| then ts[key - low] else d
    case LookupSwitch(d, ps) => Lookup(ps, d, Int(args[0]))
    case _ => next
  }

  ghost predicate Returns(ins: Instr) {
    ins.ReturnVoid? || ins.ReturnValue?
  }

  /** t may be executed after the instruction in the same method. */
  ghost predicate GoesTo(ins: Instr, next: nat, t: int) {
    match ins
    case Goto(target) => t == target
    case If(_, target) => t == target || t == next
    case IfCompare(_, target) => t == target || t == next
    case TableSwitch(d, _, ts) => t == d || t in ts
    case LookupSwitch(d, ps) => t == d || exists i :: 0 <= i < |ps| && ps[i].1 == t
    case _ => !Returns(ins) && t == next
  }

  /** What an instruction takes off the stack before it does anything else, topmost first;
      for the instructions that stay inside their frame. */
  function Pops(ins: Instr): seq<Kind> {
    match ins
    case Operate(op) => OpPops(op)
    case StoreVar(_, k) => [k]
    case If(_, _) => [OneWord]
    case IfCompare(_, _) => [OneWord, OneWord]
    case TableSwitch(_, _, _) => [OneWord]
    case LookupSwitch(_, _) => [OneWord]
    case _ => []
  }

  function OpPops(op: Op): seq<Kind> {
    match op
    case Const(_) => []
    case WideConst(_) => []
    case Drop(k) => [k]
    case Dup => [OneWord]
    case DupX1 => [OneWord, OneWord]
    case Swap => [OneWord, OneWord]
    case IntOp(_) => [OneWord, OneWord]
    case LongOp(_) => [AsLong, AsLong]
    case IntNeg => [OneWord]
    case LongNeg => [AsLong]
    case IntToLong => [OneWord]
    case LongToInt => [AsLong]
    case LongCompare => [AsLong, AsLong]
  }

  function Size(k: Kind): nat {
    if k == OneWord then 1 else 2
  }

  function WordsOf(ks: seq<Kind>): nat {
    if ks == [] then 0 else Size(ks[0]) + WordsOf(ks[1..])
  }

  lemma {:induction false} LookupGoes(pairs: seq<(int, int)>, default: int, key: int)
    ensures var t := Lookup(pairs, default, key); t == default || exists i :: 0 <= i < |pairs| && pairs[i].1 == t
  {
    if pairs != [] && pairs[0].0 != key {
      LookupGoes(pairs[1..], default, key);
      var t := Lookup(pairs[1..], default, key);
      if t != default {
        var i :| 0 <= i < |pairs[1..]| && pairs[1..][i].1 == t;
        assert pairs[i + 1].1 == t;
      }
    }
  }

  lemma {:induction false} JumpGoes(ins: Instr, next: nat, args: seq<Word>)
    requires |args| == WordsOf(Pops(ins)) && !Returns(ins)
    ensures GoesTo(ins, next, JumpTo(ins, next, args))
  {
    if ins.LookupSwitch? {
      LookupGoes(ins.pairs, ins.default, Int(args[0]));
    }
  }

  // ----- instruction boundaries -----

  /** The addresses of the opcodes when the code is read from one instruction to the next. */
  ghost function Boundaries(code: seq<Byte>, at: nat): set<int>
    requires at <= |code|
    decreases |code| - at
  {
    if at == |code| || Decode(code, at) == None then {}
    else {at as int} + Boundaries(code, Decode(code, at).value.1)
  }

  /** The code decodes from one instruction to the next up to its end. */
  ghost predicate Linear(code: seq<Byte>, at: nat)
    requires at <= |code|
    decreases |code| - at
  {
    at < |code| ==> Decode(code, at).Some? && Linear(code, Decode(code, at).value.1)
  }

  /** An address at which a method may stand: an opcode, or outside the code, where it ends. */
  ghost predicate AtBoundary(code: seq<Byte>, pc: int) {
    0 <= pc < |code| ==> pc in Boundaries(code, 0)
  }

  /** What the instruction at b may lead to starts an instruction or lies outside the code. */
  ghost predicate TargetsPlaced(code: seq<Byte>, b: nat)
    requires b < |code| && Decode(code, b).Some?
  {
    forall t: int :: GoesTo(Decode(code, b).value.0, Decode(code, b).value.1, t) ==> AtBoundary(code, t)
  }

  /** The code is a sequence of instructions, and every branch and switch target is placed. */
  ghost predicate Structured(code: seq<Byte>) {
    && Linear(code, 0)
    && forall b: nat :: b in Boundaries(code, 0) && b < |code| && Decode(code, b).Some? ==> TargetsPlaced(code, b)
  }

  lemma {:induction false} BoundaryDecodes(code: seq<Byte>, at: nat, b: int)
    requires at <= |code| && b in Boundaries(code, at)
    ensures at <= b < |code| && Decode(code, b).Some?
    ensures Linear(code, at) ==> Decode(code, b).value.1 < |code| ==>
              Decode(code, b).value.1 as int in Boundaries(code, at)
    decreases |code| - at
  {
    var next := Decode(code, at).value.1;
    if b != at {
      BoundaryDecodes(code, next, b);
    } else if Linear(code, at) && next < |code| {
      assert Linear(code, next);
      assert next as int in Boundaries(code, next);
    }
  }

  /** In structured code control passes from boundaries to boundaries. */
  lemma {:induction false} StaysOnBoundaries(code: seq<Byte>, pc: nat, t: int)
    requires Structured(code) && pc < |code| && AtBoundary(code, pc)
    ensures Decode(code, pc).Some?
    ensures GoesTo(Decode(code, pc).value.0, Decode(code, pc).value.1, t) ==> AtBoundary(code, t)
    ensures AtBoundary(code, Decode(code, pc).value.1)
  {
    BoundaryDecodes(code, 0, pc);
  }
}
