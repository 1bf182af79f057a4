/**
 The interpreter as a small-step machine over values: one instruction of the frame on top of
 the method stack per step. `Interpreter` proves that `executeJava` runs exactly these steps.
*/
module Machine {
  import opened Options
  import opened Words
  import opened Classes
  import opened Descriptors
  import opened Bytecode
  import opened Frames
  import Layout

  datatype Code = Code(bytes: seq<Byte>, maxStack: nat, maxLocals: nat)

  datatype Signature = Signature(params: seq<FieldType>, ret: string)

  /** Loaded classes, the code of methods, descriptors parsed, and what the constant pool entries
      of a class resolve to (caching the answers in the pool does not change them). */
  datatype Program = Program(
    classes: seq<ClassBlock>,
    code: map<MethodPtr, Code>,
    signatures: map<string, Signature>,
    fields: map<(nat, nat), FieldPtr>,
    methods: map<(nat, nat), MethodPtr>,
    types: map<(nat, nat), nat>)

  datatype Obj = Obj(cls: nat, data: seq<Word>)

  /** The method stack, topmost frame first, and the objects. The address of an object is one
      more than its index; 0 is the null reference. */
  datatype State = State(frames: seq<Frame>, heap: seq<Obj>)

  datatype Outcome = Next(state: State) | Done(heap: seq<Obj>) | Stop(fault: Fault)

  ghost predicate Sound(p: Program) {
    && Ordered(p.classes)
    && (forall m :: m in p.code ==> IsMethod(p.classes, m))
    && (forall m :: IsMethod(p.classes, m) ==> Parsed(p, MethodAt(p.classes, m).typ))
    && (forall r :: r in p.methods ==> IsMethod(p.classes, p.methods[r]))
    && (forall r :: r in p.fields ==>
      p.fields[r].cls < |p.classes| && p.fields[r].slot < |p.classes[p.fields[r].cls].fields|)
    && (forall r :: r in p.types ==> p.types[r] < |p.classes|)
    && (forall c, k :: 0 <= c < |p.classes| && 0 <= k < |p.classes[c].table| && p.classes[c].table[k].Some? ==>
          IsMethod(p.classes, p.classes[c].table[k].value))
  }

  ghost predicate Parsed(p: Program, typ: string) {
    && typ in p.signatures
    && typ == Descriptor(p.signatures[typ].params, p.signatures[typ].ret) && AllWellFormed(p.signatures[typ].params)
  }

  ghost function SignatureOf(p: Program, m: MethodPtr): Signature
    requires Sound(p) && IsMethod(p.classes, m)
  {
    p.signatures[MethodAt(p.classes, m).typ]
  }

  /** `args_count` */
  ghost function ArgsCount(p: Program, m: MethodPtr): nat
    requires Sound(p) && IsMethod(p.classes, m)
  {
    TotalSlots(SignatureOf(p, m).params)
  }

  /** What `resolveField` answers for an entry of the pool of class c. */
  ghost function FieldRef(p: Program, c: nat, i: nat): (r: Option<FieldPtr>)
    requires Sound(p)
    ensures r.Some? ==> r.value.cls < |p.classes| && r.value.slot < |p.classes[r.value.cls].fields|
  {
    if (c, i) in p.fields then Some(p.fields[(c, i)]) else None
  }

  /** `resolveMethod` */
  ghost function MethodRef(p: Program, c: nat, i: nat): (r: Option<MethodPtr>)
    requires Sound(p)
    ensures r.Some? ==> IsMethod(p.classes, r.value)
  {
    if (c, i) in p.methods then Some(p.methods[(c, i)]) else None
  }

  /** `resolveClass` */
  ghost function TypeRef(p: Program, c: nat, i: nat): (r: Option<nat>)
    requires Sound(p)
    ensures r.Some? ==> r.value < |p.classes|
  {
    if (c, i) in p.types then Some(p.types[(c, i)]) else None
  }

  ghost predicate FrameShaped(p: Program, f: Frame) {
    f.mb in p.code && p.code[f.mb].bytes != [] && |f.locals| == p.code[f.mb].maxLocals
    && |f.stack| <= p.code[f.mb].maxStack
  }

  ghost predicate Shaped(p: Program, s: State) {
    && s.frames != []
    && (forall i :: 0 <= i < |s.frames| ==> FrameShaped(p, s.frames[i]))
    && (forall i :: 0 <= i < |s.heap| ==> s.heap[i].cls < |p.classes|)
  }

  // ----- instructions inside one frame -----

  function Abs(x: int): nat {
    if x < 0 then -x else x
  }

  /** Division of C and Java, toward zero. */
  function Quotient(x: int, y: int): int
    requires y != 0
  {
    if (x < 0) == (y < 0) then Abs(x) / Abs(y) else -(Abs(x) / Abs(y))
  }

  lemma {:induction false} DividesDown(a: nat, b: nat)
    requires b > 0
    ensures a == (a / b) * b + a % b
  {
  }

  /** The quotient leaves a remainder smaller than the divisor and with the sign of the dividend. */
  lemma {:induction false} QuotientTruncates(x: int, y: int)
    requires y != 0
    ensures var r := x - Quotient(x, y) * y; Abs(r) < Abs(y) && (r == 0 || (r < 0 <==> x < 0))
  {
    DividesDown(Abs(x), Abs(y));
    var q := Abs(x) / Abs(y);
    assert Quotient(x, y) * y == if x < 0 then -(q * Abs(y)) else q * Abs(y);
  }

  /** Two's complement arithmetic; least is the smallest value of the width. */
  function Arithmetic(a: Arith, x: int, y: int, least: int): Result<int> {
    match a
    case Add => Ok(x + y)
    case Sub => Ok(x - y)
    case Mul => Ok(x * y)
    case _ =>
      if y == 0 then Fail(AssertionFailed)
      else if x == least && y == -1 then Fail(ArithmeticTrap)
      else Ok(if a == Div then Quotient(x, y) else x - Quotient(x, y) * y)
  }

  function LongAt(args: seq<Word>, i: nat): int
    requires i + 1 < |args|
  {
    Long(Join(args[i], args[i + 1]))
  }

  function WideData(x: int): (ws: seq<Word>)
    ensures |ws| == 2
  {
    [Low(ToWide(x)), High(ToWide(x))]
  }

  function Compare(x: int, y: int): int {
    if x > y then 1 else if x == y then 0 else -1
  }

  lemma {:induction false} OpWords(op: Op)
    ensures WordsOf(OpPops(op)) == match op
      case Const(_) => 0
      case WideConst(_) => 0
      case Drop(k) => Size(k)
      case DupX1 => 2
      case Swap => 2
      case IntOp(_) => 2
      case LongOp(_) => 4
      case LongNeg => 2
      case LongToInt => 2
      case LongCompare => 4
      case _ => 1
  {
    if |OpPops(op)| == 2 {
      assert OpPops(op)[1..] == [OpPops(op)[1]];
      assert WordsOf([OpPops(op)[1]]) == Size(OpPops(op)[1]);
    }
  }

  /** The words an operation pushes, given those it popped in stack order. */
  function Apply(op: Op, args: seq<Word>): Result<seq<Word>>
    requires |args| == WordsOf(OpPops(op))
  {
    OpWords(op);
    match op
    case Const(w) => Ok([w])
    case WideConst(v) => Ok([Low(v), High(v)])
    case Drop(_) => Ok([])
    case Dup => Ok([args[0], args[0]])
    case DupX1 => Ok([args[1], args[0], args[1]])
    case Swap => Ok([args[1], args[0]])
    case IntOp(a) =>
      var x :- Arithmetic(a, Int(args[0]), Int(args[1]), -0x8000_0000);
      Ok([ToWord(x)])
    case LongOp(a) =>
      var x :- Arithmetic(a, LongAt(args, 0), LongAt(args, 2), -0x8000_0000_0000_0000);
      Ok(WideData(x))
    case IntNeg => Ok([ToWord(-Int(args[0]))])
    case LongNeg => Ok(WideData(-LongAt(args, 0)))
    case IntToLong => Ok(WideData(Int(args[0])))
    case LongToInt => Ok([args[0]])
    case LongCompare => Ok([ToWord(Compare(LongAt(args, 0), LongAt(args, 2)))])
  }

  /** New locals and pushed words of an instruction that stays in its frame. */
  function Compute(ins: Instr, args: seq<Word>, locals: seq<Word>): (r: Result<(seq<Word>, seq<Word>)>)
    requires |args| == WordsOf(Pops(ins))
    ensures r.Ok? ==> |r.value.0| == |locals|
  {
    match ins
    case Operate(op) =>
      var out :- Apply(op, args);
      Ok((locals, out))
    case LoadVar(i, wide) =>
      if i + (if wide then 1 else 0) >= |locals| then Fail(Wild)
      else Ok((locals, if wide then [locals[i], locals[i + 1]] else [locals[i]]))
    case StoreVar(i, k) =>
      if i + Size(k) > |locals| then Fail(Wild)
      else Ok((if k == OneWord then locals[i := args[0]] else locals[i := args[0]][i + 1 := args[1]], []))
    case Increment(i, d) =>
      if i >= |locals| then Fail(Wild) else Ok((locals[i := ToWord(Int(locals[i]) + d)], []))
    case _ => Ok((locals, []))
  }

  /** The fault of the first pop that finds too few words. */
  function Underflow(ks: seq<Kind>, h: nat, maxLocals: nat): Fault {
    if ks == [] then Wild
    else if h < Size(ks[0]) then PopFault(ks[0], h, maxLocals)
    else Underflow(ks[1..], h - Size(ks[0]), maxLocals)
  }

  /** The division handlers test the divisor before they pop the dividend. */
  predicate ZeroDivisor(ins: Instr, stack: seq<Word>) {
    var h := |stack|;
    match ins
    case Operate(IntOp(a)) => (a == Div || a == Rem) && h >= 1 && stack[h - 1] == 0
    case Operate(LongOp(a)) => (a == Div || a == Rem) && h >= 2 && stack[h - 2] == 0 && stack[h - 1] == 0
    case _ => false
  }

  predicate IsLocal(ins: Instr) {
    && !ins.ReturnVoid? && !ins.ReturnValue? && !ins.GetField? && !ins.PutField?
    && !ins.InvokeVirtual? && !ins.InvokeDirect? && !ins.New?
  }

  function LocalStep(ins: Instr, next: nat, f: Frame, maxStack: nat): (r: Result<Frame>)
    requires IsLocal(ins)
    ensures r.Ok? ==> r.value.mb == f.mb && |r.value.locals| == |f.locals|
    ensures r.Ok? && |f.stack| <= maxStack ==> |r.value.stack| <= maxStack
  {
    var n := WordsOf(Pops(ins));
    if |f.stack| < n then
      Fail(if ZeroDivisor(ins, f.stack) then AssertionFailed else Underflow(Pops(ins), |f.stack|, |f.locals|))
    else
      var rest, args := f.stack[..|f.stack| - n], f.stack[|f.stack| - n..];
      var done :- Compute(ins, args, f.locals);
      if |rest| + |done.1| > maxStack then Fail(PushFault(if PushesWide(ins) then 2 else 1, |rest|, maxStack))
      else Ok(Frame(f.mb, done.0, rest + done.1, JumpTo(ins, next, args)))
  }

  predicate PushesWide(ins: Instr) {
    match ins
    case LoadVar(_, wide) => wide
    case Operate(op) => op.WideConst? || op.LongOp? || op.LongNeg? || op.IntToLong?
    case _ => false
  }

  // ----- objects -----

  function FieldKind(fb: FieldBlock): Kind {
    if fb.typ == "J" then AsLong else if fb.typ == "D" then AsDouble else OneWord
  }

  function FieldValue(fb: FieldBlock, ws: seq<Word>): Value
    requires |ws| == Size(FieldKind(fb))
  {
    if |ws| == 2 then Double(Join(ws[0], ws[1])) else Single(ws[0])
  }

  ghost function GetFieldStep(p: Program, s: State, fb: FieldBlock, next: nat): (r: Outcome)
    requires Shaped(p, s)
  {
    var f := s.frames[0];
    var h, maxStack := |f.stack|, p.code[f.mb].maxStack;
    if h == 0 then Stop(PopFault(OneWord, 0, |f.locals|))
    else
      var ref := f.stack[h - 1];
      if ref == 0 then Stop(NullDereference)
      else if ref > |s.heap| || !Layout.InBounds(s.heap[ref - 1].data, fb) then Stop(Wild)
      else
        var ws := ValueData(Layout.Load(s.heap[ref - 1].data, fb));
        if h - 1 + |ws| > maxStack then Stop(PushFault(|ws|, h - 1, maxStack))
        else Next(State([f.(stack := f.stack[..h - 1] + ws, pc := next)] + s.frames[1..], s.heap))
  }

  ghost function PutFieldStep(p: Program, s: State, fb: FieldBlock, next: nat): (r: Outcome)
    requires Shaped(p, s)
  {
    var f := s.frames[0];
    var h, n := |f.stack|, Size(FieldKind(fb));
    if h < n + 1 then Stop(Underflow([FieldKind(fb), OneWord], h, |f.locals|))
    else
      var ref, v := f.stack[h - n - 1], FieldValue(fb, f.stack[h - n..]);
      if ref == 0 then Stop(NullDereference)
      else if ref > |s.heap| || !Layout.InBounds(s.heap[ref - 1].data, fb) then Stop(Wild)
      else
        var o := s.heap[ref - 1];
        Next(State([f.(stack := f.stack[..h - n - 1], pc := next)] + s.frames[1..],
                   s.heap[ref - 1 := o.(data := Layout.Store(o.data, fb, v))]))
  }

  /** GetFieldStep for a stack that ends in the reference. */
  lemma {:induction false} GetFieldWith(p: Program, s: State, fb: FieldBlock, next: nat, rest: seq<Word>, ref: Word)
    requires Shaped(p, s) && s.frames[0].stack == rest + [ref]
    ensures GetFieldStep(p, s, fb, next) ==
              if ref == 0 then Stop(NullDereference)
              else if ref > |s.heap| || !Layout.InBounds(s.heap[ref - 1].data, fb) then Stop(Wild)
              else
                var f, ws := s.frames[0], ValueData(Layout.Load(s.heap[ref - 1].data, fb));
                if |rest| + |ws| > p.code[f.mb].maxStack then Stop(PushFault(|ws|, |rest|, p.code[f.mb].maxStack))
                else Next(State([f.(stack := rest + ws, pc := next)] + s.frames[1..], s.heap))
  {
    hide Layout.Load, Layout.InBounds, ValueData;
    assert (rest + [ref])[..|rest|] == rest;
  }

  /** PutFieldStep for a stack that ends in the reference and the words of the value. */
  lemma {:induction false} PutFieldWith(p: Program, s: State, fb: FieldBlock, next: nat, rest: seq<Word>, ref: Word,
                                        ws: seq<Word>)
    requires Shaped(p, s) && s.frames[0].stack == rest + [ref] + ws && |ws| == Size(FieldKind(fb))
    ensures PutFieldStep(p, s, fb, next) ==
              if ref == 0 then Stop(NullDereference)
              else if ref > |s.heap| || !Layout.InBounds(s.heap[ref - 1].data, fb) then Stop(Wild)
              else
                var f, o := s.frames[0], s.heap[ref - 1];
                Next(State([f.(stack := rest, pc := next)] + s.frames[1..],
                           s.heap[ref - 1 := o.(data := Layout.Store(o.data, fb, FieldValue(fb, ws)))]))
  {
    hide Layout.Store, Layout.InBounds, FieldValue;
    var stack := s.frames[0].stack;
    assert stack[..|rest|] == rest && stack[|rest| + 1..] == ws && stack[|rest|] == ref;
  }

  ghost function NewStep(p: Program, s: State, c: nat, next: nat): (r: Outcome)
    requires Shaped(p, s) && c < |p.classes|
  {
    var f := s.frames[0];
    if |s.heap| + 1 >= 0x1_0000_0000 then Stop(OutOfMemory)
    else if |f.stack| >= p.code[f.mb].maxStack then Stop(StackError)
    else Next(State([f.(stack := f.stack + [|s.heap| + 1], pc := next)] + s.frames[1..],
                    s.heap + [Obj(c, Zeros(p.classes[c].objSize))]))
  }

  // ----- calls -----

  /** `executeMethod`: a frame for the method is pushed with the arguments as its first locals. */
  ghost function Invoke(p: Program, s: State, m: MethodPtr, next: nat): (r: Outcome)
    requires Sound(p) && Shaped(p, s) && IsMethod(p.classes, m)
  {
    if m !in p.code || p.code[m].bytes == [] then Stop(NoCode)
    else
      var f, n := s.frames[0], ArgWords(MethodAt(p.classes, m).isStatic, ArgsCount(p, m));
      if n > |f.stack| || n > p.code[m].maxLocals then Stop(Wild)
      else
        var rest := |f.stack| - n;
        var callee := Frame(m, Entered(f.stack[rest..], p.code[m].maxLocals), [], 0);
        Next(State([callee, f.(stack := f.stack[..rest], pc := next)] + s.frames[1..], s.heap))
  }

  /** The method that `invokevirtual` runs for a resolved method: the entry at its index in the
      table of the receiver's class. */
  ghost function Receive(p: Program, s: State, m: MethodPtr): (r: Result<MethodPtr>)
    requires Sound(p) && Shaped(p, s) && IsMethod(p.classes, m)
    ensures r.Ok? ==> IsMethod(p.classes, r.value)
  {
    var f := s.frames[0];
    var under := |f.stack| - 1 - ArgsCount(p, m);
    if under < 0 then Fail(Wild)
    else if f.stack[under] == 0 then Fail(AssertionFailed)
    else if f.stack[under] > |s.heap| then Fail(Wild)
    else
      var table, k := p.classes[s.heap[f.stack[under] - 1].cls].table, MethodAt(p.classes, m).tableIdx;
      if k >= |table| then Fail(Wild)
      else if table[k] == None then Fail(NoSuchMethod)
      else Ok(table[k].value)
  }

  /** A return of the topmost words of the given number to the frame below. */
  ghost function Return(p: Program, s: State, kind: Option<Kind>): (r: Outcome)
    requires Shaped(p, s)
  {
    var f := s.frames[0];
    if kind == None then
      if |s.frames| == 1 then Done(s.heap) else Next(State(s.frames[1..], s.heap))
    else
      var h, n := |f.stack|, Size(kind.value);
      if h < n then Stop(PopFault(kind.value, h, |f.locals|))
      else if |s.frames| == 1 then Stop(NullDereference)
      else
        var to := s.frames[1];
        var maxStack := p.code[to.mb].maxStack;
        if |to.stack| + n > maxStack then Stop(PushFault(n, |to.stack|, maxStack))
        else Next(State([to.(stack := to.stack + f.stack[h - n..])] + s.frames[2..], s.heap))
  }

  // ----- steps and runs -----

  ghost function Execute(p: Program, s: State, ins: Instr, next: nat): (r: Outcome)
    requires Sound(p) && Shaped(p, s)
  {
    var f := s.frames[0];
    match ins
    case ReturnVoid => Return(p, s, None)
    case ReturnValue(k) => Return(p, s, Some(k))
    case GetField(i) =>
      var fp := FieldRef(p, f.mb.cls, i);
      if fp == None then Stop(Unresolved) else GetFieldStep(p, s, Layout.FieldAt(p.classes, fp.value), next)
    case PutField(i) =>
      var fp := FieldRef(p, f.mb.cls, i);
      if fp == None then Stop(Unresolved) else PutFieldStep(p, s, Layout.FieldAt(p.classes, fp.value), next)
    case New(i) =>
      var c := TypeRef(p, f.mb.cls, i);
      if c == None then Stop(Unresolved) else NewStep(p, s, c.value, next)
    case InvokeDirect(i) =>
      var m := MethodRef(p, f.mb.cls, i);
      if m == None then Stop(Unresolved) else Invoke(p, s, m.value, next)
    case InvokeVirtual(i) =>
      var m := MethodRef(p, f.mb.cls, i);
      if m == None then Stop(Unresolved)
      else
        var r := Receive(p, s, m.value);
        if r.Fail? then Stop(r.fault) else Invoke(p, s, r.value, next)
    case _ =>
      var r := LocalStep(ins, next, f, p.code[f.mb].maxStack);
      if r.Fail? then Stop(r.fault) else Next(State([r.value] + s.frames[1..], s.heap))
  }

  /** One turn of the loop of `executeJava`. An address outside the code ends the method as a
      void return does: the source compares it as an unsigned number with the code length. */
  ghost function Step(p: Program, s: State): (r: Outcome)
    requires Sound(p) && Shaped(p, s)
  {
    var f := s.frames[0];
    var code := p.code[f.mb].bytes;
    if !(0 <= f.pc < |code|) then Return(p, s, None)
    else
      var d := Decode(code, f.pc);
      if d == None then Stop(BadCode) else Execute(p, s, d.value.0, d.value.1)
  }

  lemma {:induction false} InvokeKeepsShape(p: Program, s: State, m: MethodPtr, next: nat)
    requires Sound(p) && Shaped(p, s) && IsMethod(p.classes, m)
    ensures var r := Invoke(p, s, m, next); r.Next? ==> Shaped(p, r.state)
  {
    hide Sound, ArgsCount;
  }

  lemma {:induction false} ReturnKeepsShape(p: Program, s: State, kind: Option<Kind>)
    requires Shaped(p, s)
    ensures var r := Return(p, s, kind); r.Next? ==> Shaped(p, r.state)
  {
  }

  lemma {:induction false} FieldsKeepShape(p: Program, s: State, fb: FieldBlock, next: nat)
    requires Shaped(p, s)
    ensures var r := GetFieldStep(p, s, fb, next); r.Next? ==> Shaped(p, r.state)
    ensures var r := PutFieldStep(p, s, fb, next); r.Next? ==> Shaped(p, r.state)
  {
    hide Layout.Load, Layout.Store, Layout.InBounds, FieldValue;
  }

  lemma {:induction false} NewKeepsShape(p: Program, s: State, c: nat, next: nat)
    requires Shaped(p, s) && c < |p.classes|
    ensures var r := NewStep(p, s, c, next); r.Next? ==> Shaped(p, r.state)
  {
    hide Zeros;
  }

  lemma {:induction false} ExecuteKeepsShape(p: Program, s: State, ins: Instr, next: nat)
    requires Sound(p) && Shaped(p, s)
    ensures var r := Execute(p, s, ins, next); r.Next? ==> Shaped(p, r.state)
  {
    hide Sound, Invoke, Return, GetFieldStep, PutFieldStep, NewStep, LocalStep, Receive, FieldRef, MethodRef, TypeRef;
    var c := s.frames[0].mb.cls;
    match ins
    case ReturnVoid => ReturnKeepsShape(p, s, None);
    case ReturnValue(k) => ReturnKeepsShape(p, s, Some(k));
    case GetField(i) =>
      if FieldRef(p, c, i).Some? { FieldsKeepShape(p, s, Layout.FieldAt(p.classes, FieldRef(p, c, i).value), next); }
    case PutField(i) =>
      if FieldRef(p, c, i).Some? { FieldsKeepShape(p, s, Layout.FieldAt(p.classes, FieldRef(p, c, i).value), next); }
    case New(i) =>
      if TypeRef(p, c, i).Some? { NewKeepsShape(p, s, TypeRef(p, c, i).value, next); }
    case InvokeDirect(i) =>
      if MethodRef(p, c, i).Some? { InvokeKeepsShape(p, s, MethodRef(p, c, i).value, next); }
    case InvokeVirtual(i) =>
      if MethodRef(p, c, i).Some? && Receive(p, s, MethodRef(p, c, i).value).Ok? {
        InvokeKeepsShape(p, s, Receive(p, s, MethodRef(p, c, i).value).value, next);
      }
    case _ =>
  }

  lemma {:induction false} StepKeepsShape(p: Program, s: State)
    requires Sound(p) && Shaped(p, s)
    ensures Step(p, s).Next? ==> Shaped(p, Step(p, s).state)
  {
    hide Sound, Return, Execute, Decode;
    ReturnKeepsShape(p, s, None);
    var f := s.frames[0];
    if 0 <= f.pc < |p.code[f.mb].bytes| && Decode(p.code[f.mb].bytes, f.pc).Some? {
      var d := Decode(p.code[f.mb].bytes, f.pc).value;
      ExecuteKeepsShape(p, s, d.0, d.1);
    }
  }

  ghost function Run(p: Program, s: State, n: nat): (r: Outcome)
    requires Sound(p) && Shaped(p, s)
    ensures r.Next? ==> Shaped(p, r.state)
    decreases n
  {
    if n == 0 then Next(s)
    else
      var r := Step(p, s);
      StepKeepsShape(p, s);
      if r.Next? then Run(p, r.state, n - 1) else r
  }

  lemma {:induction false} RunOneMore(p: Program, s: State, n: nat)
    requires Sound(p) && Shaped(p, s) && Run(p, s, n).Next?
    ensures Run(p, s, n + 1) == Step(p, Run(p, s, n).state)
    decreases n
  {
    hide Sound, Shaped, Step;
    StepKeepsShape(p, s);
    if n > 0 {
      RunOneMore(p, Step(p, s).state, n - 1);
    }
  }

  /** Runs compose. */
  lemma {:induction false} RunRuns(p: Program, s: State, n: nat, k: nat)
    requires Sound(p) && Shaped(p, s) && Run(p, s, n).Next?
    ensures Run(p, s, n + k) == Run(p, Run(p, s, n).state, k)
    decreases n
  {
    hide Sound, Shaped, Step;
    if n > 0 {
      StepKeepsShape(p, s);
      RunRuns(p, Step(p, s).state, n - 1, k);
    }
  }
}
