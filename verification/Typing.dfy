/**
 Frame types: what the words of a frame may hold at each instruction. A map from addresses to
 frame types that agrees along all edges of a method generalises a stack-height map, which is
 the case where every word has type Any; the reference types are what field accesses and
 virtual calls need.
*/
module Typing {
  import opened Options
  import opened Words
  import opened Classes
  import opened Descriptors
  import opened Bytecode
  import opened Frames
  import opened Machine

  /** Any word; the null reference; null or a reference to an object of class c or a subclass. */
  datatype WordType = Any | Null | Ref(c: nat)

  datatype FrameType = FrameType(locals: seq<WordType>, stack: seq<WordType>)

  ghost predicate SubType(cs: seq<ClassBlock>, a: WordType, b: WordType)
    requires Ordered(cs)
  {
    b == Any || a == b || (a.Null? && b.Ref?) || (a.Ref? && b.Ref? && a.c < |cs| && Ancestor(cs, a.c, b.c))
  }

  ghost predicate AllSub(cs: seq<ClassBlock>, ts: seq<WordType>, us: seq<WordType>)
    requires Ordered(cs)
  {
    |ts| == |us| && forall i :: 0 <= i < |ts| ==> SubType(cs, ts[i], us[i])
  }

  ghost predicate HasType(cs: seq<ClassBlock>, heap: seq<Obj>, w: Word, t: WordType)
    requires Ordered(cs)
  {
    match t
    case Any => true
    case Null => w == 0
    case Ref(c) => w == 0 || (w <= |heap| && heap[w - 1].cls < |cs| && Ancestor(cs, heap[w - 1].cls, c))
  }

  ghost predicate AllTyped(cs: seq<ClassBlock>, heap: seq<Obj>, ws: seq<Word>, ts: seq<WordType>)
    requires Ordered(cs)
  {
    |ws| == |ts| && forall i :: 0 <= i < |ws| ==> HasType(cs, heap, ws[i], ts[i])
  }

  lemma {:induction false} Subsumes(cs: seq<ClassBlock>, heap: seq<Obj>, w: Word, a: WordType, b: WordType)
    requires Ordered(cs) && HasType(cs, heap, w, a) && SubType(cs, a, b)
    ensures HasType(cs, heap, w, b)
  {
    if w != 0 && a.Ref? && b.Ref? && a != b {
      AncestorTransitive(cs, heap[w - 1].cls, a.c, b.c);
    }
  }

  lemma {:induction false} AllSubsume(cs: seq<ClassBlock>, heap: seq<Obj>, ws: seq<Word>, ts: seq<WordType>,
                                      us: seq<WordType>)
    requires Ordered(cs) && AllTyped(cs, heap, ws, ts) && AllSub(cs, ts, us)
    ensures AllTyped(cs, heap, ws, us)
  {
    hide HasType, SubType;
    forall i | 0 <= i < |ws|
      ensures HasType(cs, heap, ws[i], us[i])
    {
      Subsumes(cs, heap, ws[i], ts[i], us[i]);
    }
  }

  /** Objects keep their addresses and classes. */
  ghost predicate Extends(heap: seq<Obj>, heap': seq<Obj>) {
    |heap| <= |heap'| && forall i :: 0 <= i < |heap| ==> heap'[i].cls == heap[i].cls
  }

  lemma {:induction false} TypedInLarger(cs: seq<ClassBlock>, heap: seq<Obj>, heap': seq<Obj>, ws: seq<Word>,
                                        ts: seq<WordType>)
    requires Ordered(cs) && Extends(heap, heap') && AllTyped(cs, heap, ws, ts)
    ensures AllTyped(cs, heap', ws, ts)
  {
  }

  lemma {:induction false} TypedParts(cs: seq<ClassBlock>, heap: seq<Obj>, ws: seq<Word>, ts: seq<WordType>, k: nat)
    requires Ordered(cs) && AllTyped(cs, heap, ws, ts) && k <= |ws|
    ensures AllTyped(cs, heap, ws[..k], ts[..k]) && AllTyped(cs, heap, ws[k..], ts[k..])
  {
    hide HasType;
  }

  lemma {:induction false} TypedJoin(cs: seq<ClassBlock>, heap: seq<Obj>, ws: seq<Word>, vs: seq<Word>,
                                     ts: seq<WordType>, us: seq<WordType>)
    requires Ordered(cs) && AllTyped(cs, heap, ws, ts) && AllTyped(cs, heap, vs, us)
    ensures AllTyped(cs, heap, ws + vs, ts + us)
  {
    hide HasType;
  }

  // ----- instructions inside one frame -----

  function ApplyType(op: Op, args: seq<WordType>): (out: seq<WordType>)
    requires |args| == WordsOf(OpPops(op))
  {
    OpWords(op);
    match op
    case Const(w) => [if w == 0 then Null else Any]
    case Drop(_) => []
    case Dup => [args[0], args[0]]
    case DupX1 => [args[1], args[0], args[1]]
    case Swap => [args[1], args[0]]
    case WideConst(_) => [Any, Any]
    case LongOp(_) => [Any, Any]
    case LongNeg => [Any, Any]
    case IntToLong => [Any, Any]
    case _ => [Any]
  }

  function ComputeType(ins: Instr, args: seq<WordType>, locals: seq<WordType>)
    : (r: Option<(seq<WordType>, seq<WordType>)>)
    requires |args| == WordsOf(Pops(ins))
  {
    match ins
    case Operate(op) => Some((locals, ApplyType(op, args)))
    case LoadVar(i, wide) =>
      if i + (if wide then 1 else 0) >= |locals| then None
      else Some((locals, if wide then [Any, Any] else [locals[i]]))
    case StoreVar(i, k) =>
      if i + Size(k) > |locals| then None
      else Some((if k == OneWord then locals[i := args[0]] else locals[i := Any][i + 1 := Any], []))
    case Increment(i, _) =>
      if i >= |locals| then None else Some((locals[i := Any], []))
    case _ => Some((locals, []))
  }

  /** The frame type behind an instruction that stays in its frame. */
  function LocalFlow(ins: Instr, ft: FrameType, maxStack: nat): Option<FrameType>
    requires IsLocal(ins)
  {
    var n := WordsOf(Pops(ins));
    if |ft.stack| < n then None
    else
      var rest, args := ft.stack[..|ft.stack| - n], ft.stack[|ft.stack| - n..];
      var done := ComputeType(ins, args, ft.locals);
      if done == None || |rest| + |done.value.1| > maxStack then None
      else Some(FrameType(done.value.0, rest + done.value.1))
  }

  ghost predicate Conforms(cs: seq<ClassBlock>, heap: seq<Obj>, f: Frame, ft: FrameType)
    requires Ordered(cs)
  {
    AllTyped(cs, heap, f.locals, ft.locals) && AllTyped(cs, heap, f.stack, ft.stack)
  }

  /** The ways in which a well-typed program may break off. */
  predicate Allowed(fault: Fault) {
    fault == AssertionFailed || fault == ArithmeticTrap || fault == NullDereference || fault == OutOfMemory
    || fault == NoCode
  }

  /** What a division may end in. */
  predicate OnDivision(fault: Fault) {
    fault == AssertionFailed || fault == ArithmeticTrap
  }

  lemma {:induction false} ApplySafe(cs: seq<ClassBlock>, heap: seq<Obj>, op: Op, args: seq<Word>, ts: seq<WordType>)
    requires Ordered(cs) && AllTyped(cs, heap, args, ts) && |args| == WordsOf(OpPops(op))
    ensures var r := Apply(op, args);
            if r.Ok? then AllTyped(cs, heap, r.value, ApplyType(op, ts)) else OnDivision(r.fault)
  {
    OpWords(op);
    hide Quotient, LongAt, WideData, Compare, Int, ToWord;
  }

  lemma {:induction false} ComputeSafe(cs: seq<ClassBlock>, heap: seq<Obj>, ins: Instr, args: seq<Word>,
                                       locals: seq<Word>, ts: seq<WordType>, ls: seq<WordType>)
    requires Ordered(cs) && AllTyped(cs, heap, args, ts) && AllTyped(cs, heap, locals, ls)
             && |args| == WordsOf(Pops(ins))
    requires ComputeType(ins, ts, ls).Some?
    ensures var r := Compute(ins, args, locals); var t := ComputeType(ins, ts, ls).value;
            if r.Ok? then AllTyped(cs, heap, r.value.0, t.0) && AllTyped(cs, heap, r.value.1, t.1)
            else OnDivision(r.fault)
  {
    hide Apply, ApplyType, Int, ToWord;
    if ins.Operate? {
      ApplySafe(cs, heap, ins.op, args, ts);
    }
  }

  /** An instruction that stays in its frame takes a conforming frame to a conforming frame, or
      breaks off on a division. */
  lemma {:induction false} LocalSafe(cs: seq<ClassBlock>, heap: seq<Obj>, ins: Instr, next: nat, f: Frame,
                                     ft: FrameType, maxStack: nat)
    requires Ordered(cs) && IsLocal(ins) && Conforms(cs, heap, f, ft) && LocalFlow(ins, ft, maxStack).Some?
    ensures var r := LocalStep(ins, next, f, maxStack);
            if r.Ok? then Conforms(cs, heap, r.value, LocalFlow(ins, ft, maxStack).value) else OnDivision(r.fault)
  {
    hide AllTyped, Compute, JumpTo, Pops, HasType;
    var n := WordsOf(Pops(ins));
    assert |f.stack| == |ft.stack| by { SameLength(cs, heap, f.stack, ft.stack); }
    var k := |f.stack| - n;
    TypedParts(cs, heap, f.stack, ft.stack, k);
    ComputeSafe(cs, heap, ins, f.stack[k..], f.locals, ft.stack[k..], ft.locals);
    var r := Compute(ins, f.stack[k..], f.locals);
    if r.Ok? {
      var out := ComputeType(ins, ft.stack[k..], ft.locals).value.1;
      SameLength(cs, heap, r.value.1, out);
      TypedJoin(cs, heap, f.stack[..k], r.value.1, ft.stack[..k], out);
    }
  }

  lemma {:induction false} SameLength(cs: seq<ClassBlock>, heap: seq<Obj>, ws: seq<Word>, ts: seq<WordType>)
    requires Ordered(cs) && AllTyped(cs, heap, ws, ts)
    ensures |ws| == |ts|
  {
  }
}
