/**
 The interpreter as the source runs it: frames and objects in the heap, `executeJava` looping
 over the bytes of one method and calling itself for each invocation. It performs exactly the
 steps of `Machine`.
*/
module Interpreter {
  import opened Options
  import opened Words
  import opened Classes
  import opened Descriptors
  import opened Bytecode
  import opened Frames
  import opened Machine
  import opened Handlers
  import opened Opcodes
  import Layout

  class HeapObject {
    const cls: nat
    const data: array<Word>

    /** `allocObject` */
    constructor (cs: seq<ClassBlock>, c: nat)
      requires c < |cs|
      ensures fresh(data) && cls == c && data[..] == Zeros(cs[c].objSize)
    {
      var words := Layout.AllocObject(cs, c);
      cls, data := c, words;
      new;
      assert data[..] == Zeros(cs[c].objSize);
    }
  }

  /** A frame of the method stack and its value. */
  ghost predicate FrameOk(p: Program, f: JFrame, v: Frame)
    reads f, f.words
  {
    && f.Valid() && f.View() == v && f.pc == f.pcOffset
    && f.mb in p.code && f.maxLocals == p.code[f.mb].maxLocals && f.maxStack == p.code[f.mb].maxStack
  }

  ghost predicate AllShow(p: Program, fs: seq<JFrame>, vs: seq<Frame>)
    reads fs, set f | f in fs :: f.words
  {
    |fs| == |vs| && forall i :: 0 <= i < |fs| ==> FrameOk(p, fs[i], vs[i])
  }

  ghost predicate AllHold(os: seq<HeapObject>, vs: seq<Obj>)
    reads set o | o in os :: o.data
  {
    |os| == |vs| && forall i :: 0 <= i < |os| ==> os[i].cls == vs[i].cls && os[i].data[..] == vs[i].data
  }

  /** A frame that shares nothing with other frames and objects. */
  ghost predicate Separate(f: JFrame, fs: seq<JFrame>, os: seq<HeapObject>) {
    && f !in fs && (forall g :: g in fs ==> g.words != f.words)
    && (forall o :: o in os ==> o.data != f.words)
  }

  /** No two frames share words, no two objects share data, and no frame shares with an object. */
  ghost predicate Apart(fs: seq<JFrame>, os: seq<HeapObject>) {
    && (forall i :: 0 <= i < |fs| ==> Separate(fs[i], fs[i + 1..], os))
    && (forall i, j :: 0 <= i < j < |os| ==> os[i].data != os[j].data)
  }

  lemma {:induction false} ApartTail(fs: seq<JFrame>, os: seq<HeapObject>)
    requires Apart(fs, os) && fs != []
    ensures Separate(fs[0], fs[1..], os) && Apart(fs[1..], os)
  {
    hide Separate;
    assert forall i :: 0 <= i < |fs[1..]| ==> fs[1..][i] == fs[i + 1] && fs[1..][i + 1..] == fs[i + 1 + 1..];
  }

  lemma {:induction false} ApartMore(f: JFrame, fs: seq<JFrame>, os: seq<HeapObject>)
    requires Apart(fs, os) && Separate(f, fs, os)
    ensures Apart([f] + fs, os)
  {
    hide Separate;
    var gs := [f] + fs;
    forall i | 0 <= i < |gs|
      ensures Separate(gs[i], gs[i + 1..], os)
    {
      if i == 0 {
        assert gs[1..] == fs;
      } else {
        assert gs[i + 1..] == fs[i - 1 + 1..];
      }
    }
  }

  lemma {:induction false} ApartObject(fs: seq<JFrame>, os: seq<HeapObject>, o: HeapObject)
    requires Apart(fs, os) && (forall f :: f in fs ==> f.words != o.data) && (forall q :: q in os ==> q.data != o.data)
    ensures Apart(fs, os + [o])
  {
  }

  lemma {:induction false} ShowHead(p: Program, fs: seq<JFrame>, vs: seq<Frame>)
    requires |fs| == |vs| > 0
    ensures AllShow(p, fs, vs) <==> FrameOk(p, fs[0], vs[0]) && AllShow(p, fs[1..], vs[1..])
  {
    hide FrameOk;
    if FrameOk(p, fs[0], vs[0]) && AllShow(p, fs[1..], vs[1..]) {
      forall i | 0 <= i < |fs|
        ensures FrameOk(p, fs[i], vs[i])
      {
        if i > 0 {
          assert FrameOk(p, fs[1..][i - 1], vs[1..][i - 1]);
        }
      }
    }
    if AllShow(p, fs, vs) {
      forall i | 0 <= i < |fs[1..]|
        ensures FrameOk(p, fs[1..][i], vs[1..][i])
      {
        assert FrameOk(p, fs[i + 1], vs[i + 1]);
      }
    }
  }

  lemma {:induction false} DataApart(fs: seq<JFrame>, os: seq<HeapObject>, k: nat)
    requires Apart(fs, os) && k < |os|
    ensures forall g :: g in fs ==> g.words != os[k].data
  {
    forall g | g in fs
      ensures g.words != os[k].data
    {
      var i :| 0 <= i < |fs| && fs[i] == g;
      assert Separate(fs[i], fs[i + 1..], os);
    }
  }

  /** The state with the top frame's pc moved. */
  ghost function Moved(s: State, k: int): State
    requires s.frames != []
  {
    s.(frames := [s.frames[0].(pc := s.frames[0].pc + k)] + s.frames[1..])
  }

  method PushValue(f: JFrame, v: Value) returns (r: Result<()>)
    requires f.Valid()
    modifies f`ostack, f.words
    ensures r.Ok? <==> old(|f.Stack()|) + |ValueData(v)| <= f.maxStack
    ensures r.Ok? ==> f.Valid() && f.Stack() == old(f.Stack()) + ValueData(v) && f.Locals() == old(f.Locals())
    ensures r.Fail? ==> r.fault == PushFault(|ValueData(v)|, old(|f.Stack()|), f.maxStack)
  {
    hide JFrame.Valid, JFrame.Locals, JFrame.Stack;
    match v
    case Single(w) => r := f.PushWord(w);
    case Double(x) => r := f.PushWide(x);
  }

  /** Pops a value of a field's type: the branches of `exe_OPC_PUTFIELD`. */
  method PopValue(f: JFrame, fb: FieldBlock) returns (r: Result<Value>)
    requires f.Valid()
    modifies f`ostack, f.words
    ensures r.Ok? <==> old(|f.Stack()|) >= Size(FieldKind(fb))
    ensures r.Ok? ==>
              && f.Valid() && f.Locals() == old(f.Locals()) && Layout.Fits(fb, r.value)
              && var k := old(|f.Stack()|) - Size(FieldKind(fb));
                 f.Stack() == old(f.Stack())[..k] && r.value == FieldValue(fb, old(f.Stack())[k..])
    ensures r.Fail? ==> r.fault == PopFault(FieldKind(fb), old(|f.Stack()|), f.maxLocals)
  {
    hide JFrame.Valid, JFrame.Locals, JFrame.Stack, Low, High, Join;
    ghost var before := f.Stack();
    if fb.typ == "J" {
      var v :- f.PopWide(AsLong);
      JoinSplit(v);
      assert before[..|before| - 2] == f.Stack() && before[|before| - 2..] == [Low(v), High(v)];
      return Ok(Double(v));
    } else if fb.typ == "D" {
      var v :- f.PopWide(AsDouble);
      JoinSplit(v);
      assert before[..|before| - 2] == f.Stack() && before[|before| - 2..] == [Low(v), High(v)];
      return Ok(Double(v));
    } else {
      var w :- f.PopWord();
      assert before[..|before| - 1] == f.Stack() && before[|before| - 1..] == [w];
      return Ok(Single(w));
    }
  }

  lemma {:induction false} GetFieldShort(p: Program, s: State, fb: FieldBlock, next: nat)
    requires Shaped(p, s)
    ensures s.frames[0].stack == [] ==> GetFieldStep(p, s, fb, next) == Stop(PopFault(OneWord, 0, |s.frames[0].locals|))
  {
  }

  lemma {:induction false} PutFieldShort(p: Program, s: State, fb: FieldBlock, next: nat)
    requires Shaped(p, s)
    ensures var h, n, maxLocals := |s.frames[0].stack|, Size(FieldKind(fb)), |s.frames[0].locals|;
            h < n + 1 ==> PutFieldStep(p, s, fb, next) == Stop(if h < n then PopFault(FieldKind(fb), h, maxLocals)
                                                               else PopFault(OneWord, h - n, maxLocals))
  {
    hide Layout.Store, Layout.InBounds, FieldValue;
    if |s.frames[0].stack| < Size(FieldKind(fb)) + 1 {
      UnderflowOfTwo(FieldKind(fb), OneWord, |s.frames[0].stack|, |s.frames[0].locals|);
    }
  }

  lemma {:induction false} MovedTail(s: State, k: int)
    requires s.frames != []
    ensures Moved(s, k).frames[1..] == s.frames[1..] && Moved(s, k).heap == s.heap
    ensures Moved(s, k).frames[0] == s.frames[0].(pc := s.frames[0].pc + k)
    ensures |s.frames| > 1 ==> Moved(s, k).frames[1] == s.frames[1] && Moved(s, k).frames[2..] == s.frames[2..]
  {
  }

  lemma {:induction false} ObjectsMoved(p: Program, s: State, k: int, fb: FieldBlock, next: nat)
    requires Shaped(p, s) && Shaped(p, Moved(s, k))
    ensures GetFieldStep(p, Moved(s, k), fb, next) == GetFieldStep(p, s, fb, next)
    ensures PutFieldStep(p, Moved(s, k), fb, next) == PutFieldStep(p, s, fb, next)
  {
    hide Layout.Load, Layout.Store, Layout.InBounds, ValueData, Moved, FieldValue;
    MovedTail(s, k);
  }

  lemma {:induction false} NewMoved(p: Program, s: State, k: int, c: nat, next: nat)
    requires Shaped(p, s) && Shaped(p, Moved(s, k)) && c < |p.classes|
    ensures NewStep(p, Moved(s, k), c, next) == NewStep(p, s, c, next)
  {
    hide Moved, Zeros;
    MovedTail(s, k);
  }

  lemma {:induction false} InvokeMoved(p: Program, s: State, k: int, m: MethodPtr, next: nat)
    requires Sound(p) && Shaped(p, s) && Shaped(p, Moved(s, k)) && IsMethod(p.classes, m)
    ensures Invoke(p, Moved(s, k), m, next) == Invoke(p, s, m, next)
    ensures Receive(p, Moved(s, k), m) == Receive(p, s, m)
  {
    hide Sound, Moved, Entered, ArgsCount;
    MovedTail(s, k);
  }

  lemma {:induction false} ReturnMoved(p: Program, s: State, k: int, kind: Option<Kind>)
    requires Shaped(p, s) && Shaped(p, Moved(s, k))
    ensures Return(p, Moved(s, k), kind) == Return(p, s, kind)
  {
    hide Moved;
    MovedTail(s, k);
  }

  lemma {:induction false} LocalMoved(p: Program, s: State, k: int, ins: Instr, next: nat)
    requires Sound(p) && Shaped(p, s) && Shaped(p, Moved(s, k)) && IsLocal(ins)
    ensures Execute(p, Moved(s, k), ins, next) == Execute(p, s, ins, next)
  {
    hide Sound, LocalStep;
    MovedTail(s, k);
    var f := s.frames[0];
    PcIsSet(ins, next, f, f.(pc := f.pc + k), p.code[f.mb].maxStack);
  }

  lemma {:induction false} CallsMoved(p: Program, s: State, k: int, ins: Instr, next: nat)
    requires Sound(p) && Shaped(p, s) && Shaped(p, Moved(s, k)) && (ins.InvokeDirect? || ins.InvokeVirtual?)
    ensures Execute(p, Moved(s, k), ins, next) == Execute(p, s, ins, next)
  {
    hide Sound, Shaped, MethodRef, Invoke, Receive;
    ShapedTop(p, s);
    MovedTail(s, k);
    var m := MethodRef(p, s.frames[0].mb.cls, ins.index);
    if m.Some? {
      InvokeMoved(p, s, k, m.value, next);
      var e := Receive(p, s, m.value);
      if e.Ok? {
        InvokeMoved(p, s, k, e.value, next);
      }
    }
  }

  /** Where the frame stands does not matter to what an instruction does. */
  lemma {:induction false} ExecuteMoved(p: Program, s: State, k: int, ins: Instr, next: nat)
    requires Sound(p) && Shaped(p, s) && Shaped(p, Moved(s, k))
    ensures Execute(p, Moved(s, k), ins, next) == Execute(p, s, ins, next)
  {
    hide Sound, Shaped, Moved, FieldRef, TypeRef, GetFieldStep, PutFieldStep, NewStep, Return;
    if IsLocal(ins) {
      LocalMoved(p, s, k, ins, next);
    } else if ins.InvokeDirect? || ins.InvokeVirtual? {
      CallsMoved(p, s, k, ins, next);
    } else {
      ShapedTop(p, s);
      MovedTail(s, k);
      var c := s.frames[0].mb.cls;
      match ins
      case ReturnVoid => ReturnMoved(p, s, k, None);
      case ReturnValue(kind) => ReturnMoved(p, s, k, Some(kind));
      case GetField(i) =>
        if FieldRef(p, c, i).Some? { ObjectsMoved(p, s, k, Layout.FieldAt(p.classes, FieldRef(p, c, i).value), next); }
      case PutField(i) =>
        if FieldRef(p, c, i).Some? { ObjectsMoved(p, s, k, Layout.FieldAt(p.classes, FieldRef(p, c, i).value), next); }
      case New(i) =>
        if TypeRef(p, c, i).Some? { NewMoved(p, s, k, TypeRef(p, c, i).value, next); }
    }
  }

  lemma {:induction false} ShapedMore(p: Program, s: State, f: Frame)
    requires Shaped(p, s) && FrameShaped(p, f)
    ensures Shaped(p, State([f] + s.frames, s.heap)) && s.frames != []
  {
  }

  lemma {:induction false} ShapedTop(p: Program, s: State)
    requires Shaped(p, s)
    ensures s.frames != [] && FrameShaped(p, s.frames[0])
  {
  }

  /** What a stretch of execution ended with: the instruction is done, the frame has returned,
      the virtual machine broke off, or the allotted number of instructions is used up. */
  datatype Turn = Ran | Ended | Broke(fault: Fault) | Paused

  lemma {:induction false} RunNone(p: Program, s: State)
    requires Sound(p) && Shaped(p, s)
    ensures Run(p, s, 0) == Next(s) && Run(p, s, 1) == Step(p, s)
  {
    StepKeepsShape(p, s);
  }

  lemma {:induction false} PastTheEnd(p: Program, s: State)
    requires Sound(p) && Shaped(p, s) && !(0 <= s.frames[0].pc < |p.code[s.frames[0].mb].bytes|)
    ensures Step(p, s) == Return(p, s, None)
  {
  }

  lemma {:induction false} EndsIn(p: Program, s: State, ins: Instr, next: nat)
    requires Sound(p) && Shaped(p, s) && Returns(ins)
    ensures Execute(p, s, ins, next) == Return(p, s, if ins.ReturnVoid? then None else Some(ins.kind))
  {
    hide Sound, Shaped, Return;
  }

  lemma {:induction false} ReturnsVoid(p: Program, s: State)
    requires Shaped(p, s) && |s.frames| > 1
    ensures Return(p, s, None) == Next(State(s.frames[1..], s.heap))
  {
  }

  /** Inside the code the step is that of the decoded instruction, if there is one. */
  lemma {:induction false} StepAt(p: Program, s: State)
    requires Sound(p) && Shaped(p, s) && 0 <= s.frames[0].pc < |p.code[s.frames[0].mb].bytes|
    ensures var code, pc := p.code[s.frames[0].mb].bytes, s.frames[0].pc;
            Run(p, s, 1) == Step(p, s)
            == if Decode(code, pc) == None then Stop(BadCode)
               else Execute(p, s, Decode(code, pc).value.0, Decode(code, pc).value.1)
  {
    hide Sound, Execute, Decode;
    RunNone(p, s);
  }

  /** The groups in which the opcodes are dispatched. */
  lemma {:induction false} Classify(code: seq<Byte>, at: nat)
    requires at < |code| && Decode(code, at).Some?
    ensures var b, d := code[at], Decode(code, at).value;
            if b == 177 then d.0 == ReturnVoid
            else if b == 172 || b == 175 || b == 176 then d.0 == ReturnValue(if b == 175 then AsDouble else OneWord)
            else if 180 <= b <= 184 || b == 187 then
              at + 3 <= |code| && DecodeIndexed(b, ReadU2(code, at + 1)).Some?
              && d == (DecodeIndexed(b, ReadU2(code, at + 1)).value, at + 3)
            else IsLocal(d.0)
  {
  }

  class VM {
    const prog: Program
    var methodF: seq<JFrame>       // the method stack, topmost frame first
    var current: JFrame            // current_frame
    var heap: seq<HeapObject>
    ghost var st: State            // what the frames and objects say
    ghost var repr: set<object>

    /** `executeStaticMain` up to the run: a frame for main with its argument in local 0. */
    constructor (p: Program, m: MethodPtr, args: Word)
      requires Sound(p) && m in p.code && p.code[m].bytes != [] && p.code[m].maxLocals >= 1
      ensures Valid() && prog == p && fresh(repr)
      ensures st == State([Frame(m, Entered([args], p.code[m].maxLocals), [], 0)], [])
      ensures |methodF| == 1 && heap == []
    {
      hide Sound;
      var frame := new JFrame(m, p.code[m].maxLocals, p.code[m].maxStack);
      var stored := frame.StoreWord(0, args);
      assert frame.Locals() == Entered([args], p.code[m].maxLocals);
      prog, methodF, current, heap := p, [frame], frame, [];
      repr := {this, frame, frame.words};
      st := State([Frame(m, Entered([args], p.code[m].maxLocals), [], 0)], []);
    }

    /** The footprint holds all frames, their words and the data of all objects. */
    ghost predicate Inside()
      reads this`methodF, this`heap, this`repr
    {
      && this in repr
      && (forall f :: f in methodF ==> f in repr && f.words in repr)
      && (forall o :: o in heap ==> o.data in repr)
    }

    ghost predicate Valid()
      reads this, methodF, set f | f in methodF :: f.words, set o | o in heap :: o.data
    {
      && Sound(prog) && Shaped(prog, st)
      && |methodF| == |st.frames| && current == methodF[0]
      && FrameOk(prog, current, st.frames[0]) && AllShow(prog, methodF[1..], st.frames[1..])
      && AllHold(heap, st.heap) && Apart(methodF, heap) && Inside()
    }

    lemma {:induction false} InRepr()
      requires Valid()
      ensures Inside()
    {
    }

    /** What the loop needs of a valid state. */
    lemma {:induction false} ValidFacts()
      requires Valid()
      ensures Sound(prog) && Shaped(prog, st) && |methodF| == |st.frames| > 0 && current == methodF[0]
              && current in methodF
      ensures current.pc == current.pcOffset == st.frames[0].pc && current.mb == st.frames[0].mb
              && current.mb in prog.code
    {
      hide Sound, AllShow, AllHold, Apart, JFrame.Valid, JFrame.Locals, JFrame.Stack;
    }

    /** Makes the recorded state agree with the current frame again. */
    ghost method Settle()
      requires Sound(prog) && Shaped(prog, st) && methodF != [] && |methodF| == |st.frames| && current == methodF[0]
      requires current.Valid() && current.pc == current.pcOffset && current.mb == st.frames[0].mb
      requires current.maxLocals == prog.code[current.mb].maxLocals
               && current.maxStack == prog.code[current.mb].maxStack
      requires AllShow(prog, methodF[1..], st.frames[1..]) && AllHold(heap, st.heap) && Apart(methodF, heap) && Inside()
      modifies this`st
      ensures Valid() && st == State([current.View()] + old(st).frames[1..], old(st).heap)
    {
      hide Sound, Apart, AllShow, AllHold, JFrame.Valid, JFrame.Locals, JFrame.Stack;
      assert FrameShaped(prog, st.frames[0]);
      st := State([current.View()] + st.frames[1..], st.heap);
      assert st.frames[1..] == old(st).frames[1..];
      assert AllHold(heap, st.heap);
      assert AllShow(prog, methodF[1..], st.frames[1..]);
    }

    /** The next opcode: `INTERP_U1`. */
    method FetchByte(code: seq<Byte>) returns (b: Byte)
      requires Valid() && 0 <= current.pc < |code|
      modifies this`st, current`pc, current`pcOffset
      ensures Valid() && st == Moved(old(st), 1)
      ensures b == code[old(current.pc)] && current.pc == old(current.pc) + 1
    {
      hide Sound, Apart, AllShow, AllHold, JFrame.Valid, JFrame.Locals, JFrame.Stack;
      ApartTail(methodF, heap);
      b := ReadByte(current, code);
      Settle();
    }

    method FetchIndex(code: seq<Byte>) returns (u: U2)
      requires Valid() && 0 <= current.pc && current.pc + 2 <= |code|
      modifies this`st, current`pc, current`pcOffset
      ensures Valid() && st == Moved(old(st), 2)
      ensures u == ReadU2(code, old(current.pc)) && current.pc == old(current.pc) + 2
    {
      hide Sound, Apart, AllShow, AllHold, JFrame.Valid, JFrame.Locals, JFrame.Stack;
      ApartTail(methodF, heap);
      u := ReadShort(current, code);
      Settle();
    }

    /** An instruction that stays in the current frame. */
    method RunLocal(code: seq<Byte>, b: Byte, ghost at: nat) returns (r: Result<()>)
      requires Valid() && current.pc == at + 1 && at < |code| && code[at] == b
      requires Decode(code, at).Some? && IsLocal(Decode(code, at).value.0)
      modifies this`st, current`ostack, current`pc, current`pcOffset, current.words
      ensures r.Ok? ==>
                Valid() && Execute(prog, old(st), Decode(code, at).value.0, Decode(code, at).value.1) == Next(st)
      ensures r.Fail? ==> Execute(prog, old(st), Decode(code, at).value.0, Decode(code, at).value.1) == Stop(r.fault)
    {
      hide Sound, Apart, AllShow, AllHold, JFrame.Valid, JFrame.Locals, JFrame.Stack, LocalStep, Decode;
      ApartTail(methodF, heap);
      r := ExecLocal(current, code, b, at);
      if r.Ok? {
        Settle();
      }
    }

    /** `exe_OPC_GETFIELD` for the resolved field. */
    method GetFieldOf(fb: FieldBlock) returns (r: Result<()>)
      requires Valid() && current.pc >= 0
      modifies this`st, current`ostack, current.words
      ensures r.Ok? ==> Valid() && GetFieldStep(prog, old(st), fb, old(current.pc)) == Next(st)
      ensures r.Fail? ==> GetFieldStep(prog, old(st), fb, old(current.pc)) == Stop(r.fault)
    {
      hide Sound, Apart, AllShow, AllHold, JFrame.Valid, JFrame.Locals, JFrame.Stack, ValueData, Layout.InBounds;
      hide Layout.Load, GetFieldStep;
      ApartTail(methodF, heap);
      GetFieldShort(prog, st, fb, current.pc);
      var objref :- current.PopWord();
      GetFieldWith(prog, st, fb, current.pc, current.Stack(), objref);
      var data :- Data(objref, fb);
      var value := Layout.GetField(data, fb);
      var _ :- PushValue(current, value);
      Settle();
      return Ok(());
    }

    method GetField(i: nat) returns (r: Result<()>)
      requires Valid() && current.pc >= 0
      modifies this`st, current`ostack, current.words
      ensures r.Ok? ==> Valid() && Execute(prog, old(st), Instr.GetField(i), old(current.pc)) == Next(st)
      ensures r.Fail? ==> Execute(prog, old(st), Instr.GetField(i), old(current.pc)) == Stop(r.fault)
    {
      hide Sound, Apart, AllShow, AllHold, Shaped, JFrame.Valid, JFrame.Locals, JFrame.Stack, FieldRef, GetFieldStep;
      var fp :- ResolveField(i);
      r := GetFieldOf(Layout.FieldAt(prog.classes, fp));
    }

    /** `resolveField` */
    method ResolveField(i: nat) returns (r: Result<FieldPtr>)
      requires Sound(prog)
      ensures var fp := FieldRef(prog, current.mb.cls, i); r == if fp.Some? then Ok(fp.value) else Fail(Unresolved)
    {
      if (current.mb.cls, i) !in prog.fields {
        return Fail(Unresolved);
      }
      return Ok(prog.fields[(current.mb.cls, i)]);
    }

    /** The words of the object behind a reference; the accesses of the source to a field of a
        null or foreign reference or beyond the object are faults. */
    method Data(objref: Word, fb: FieldBlock) returns (r: Result<array<Word>>)
      requires AllHold(heap, st.heap)
      ensures r.Ok? ==>
                && 0 < objref <= |heap| == |st.heap| && r.value == heap[objref - 1].data
                && r.value[..] == st.heap[objref - 1].data && Layout.InBounds(st.heap[objref - 1].data, fb)
      ensures r.Fail? ==>
                if objref == 0 then r.fault == NullDereference
                else r.fault == Wild && (objref > |st.heap| || !Layout.InBounds(st.heap[objref - 1].data, fb))
    {
      if objref == 0 {
        return Fail(NullDereference);
      }
      if objref > |heap| {
        return Fail(Wild);
      }
      var data := heap[objref - 1].data;
      if !(1 <= fb.offset && fb.offset - 1 + Layout.Width(fb) <= data.Length) {
        return Fail(Wild);
      }
      return Ok(data);
    }

    /** `exe_OPC_PUTFIELD` for the resolved field. */
    method PutFieldOf(fb: FieldBlock) returns (r: Result<()>)
      requires Valid() && current.pc >= 0
      modifies this`st, current`ostack, current.words, set o | o in heap :: o.data
      ensures r.Ok? ==> Valid() && PutFieldStep(prog, old(st), fb, old(current.pc)) == Next(st)
      ensures r.Fail? ==> PutFieldStep(prog, old(st), fb, old(current.pc)) == Stop(r.fault)
    {
      hide Sound, Apart, AllShow, AllHold, JFrame.Valid, JFrame.Locals, JFrame.Stack, FieldValue, Layout.InBounds;
      hide Layout.Store, PutFieldStep;
      ApartTail(methodF, heap);
      PutFieldShort(prog, st, fb, current.pc);
      ghost var stack := current.Stack();
      var value :- PopValue(current, fb);
      ghost var ws := stack[|stack| - Size(FieldKind(fb))..];
      var objref :- current.PopWord();
      assert stack == current.Stack() + [objref] + ws;
      PutFieldWith(prog, st, fb, current.pc, current.Stack(), objref, ws);
      var data :- Data(objref, fb);
      StoreInto(objref - 1, fb, value);
      Settle();
      return Ok(());
    }

    /** The assignment to the object's data. */
    method StoreInto(k: nat, fb: FieldBlock, v: Value)
      requires k < |heap| && AllHold(heap, st.heap) && Apart(methodF, heap)
      requires Layout.InBounds(heap[k].data[..], fb) && Layout.Fits(fb, v)
      modifies this`st, heap[k].data
      ensures AllHold(heap, st.heap) && forall g :: g in methodF ==> g.words != heap[k].data
      ensures var o := old(st).heap[k];
              |old(st).heap| == |heap| && o.data == old(heap[k].data[..])
              && st == old(st).(heap := old(st).heap[k := o.(data := Layout.Store(o.data, fb, v))])
    {
      hide Separate, Layout.Store, Layout.InBounds, Layout.Fits;
      DataApart(methodF, heap, k);
      Layout.PutField(heap[k].data, fb, v);
      st := st.(heap := st.heap[k := st.heap[k].(data := heap[k].data[..])]);
    }

    method PutField(i: nat) returns (r: Result<()>)
      requires Valid() && current.pc >= 0
      modifies this`st, current`ostack, current.words, set o | o in heap :: o.data
      ensures r.Ok? ==> Valid() && Execute(prog, old(st), Instr.PutField(i), old(current.pc)) == Next(st)
      ensures r.Fail? ==> Execute(prog, old(st), Instr.PutField(i), old(current.pc)) == Stop(r.fault)
    {
      hide Sound, Apart, AllShow, AllHold, Shaped, JFrame.Valid, JFrame.Locals, JFrame.Stack, FieldRef, PutFieldStep;
      var fp :- ResolveField(i);
      r := PutFieldOf(Layout.FieldAt(prog.classes, fp));
    }

    /** `exe_OPC_NEW` for the resolved class. */
    method NewOf(c: nat) returns (r: Result<()>)
      requires Valid() && current.pc >= 0 && c < |prog.classes|
      modifies this`st, this`heap, this`repr, current`ostack, current.words
      ensures r.Ok? ==> Valid() && NewStep(prog, old(st), c, old(current.pc)) == Next(st) && fresh(repr - old(repr))
      ensures r.Fail? ==> NewStep(prog, old(st), c, old(current.pc)) == Stop(r.fault)
    {
      hide Sound, Apart, AllShow, JFrame.Valid, JFrame.Locals, JFrame.Stack, Zeros;
      ApartTail(methodF, heap);
      if |heap| + 1 >= 0x1_0000_0000 {
        return Fail(OutOfMemory);
      }
      var obj := new HeapObject(prog.classes, c);
      ApartObject(methodF, heap, obj);
      var _ :- current.PushWord(|heap| + 1);
      heap, repr := heap + [obj], repr + {obj.data};
      st := st.(heap := st.heap + [Obj(c, Zeros(prog.classes[c].objSize))]);
      Settle();
      return Ok(());
    }

    method New(i: nat) returns (r: Result<()>)
      requires Valid() && current.pc >= 0
      modifies this`st, this`heap, this`repr, current`ostack, current.words
      ensures r.Ok? ==>
                Valid() && Execute(prog, old(st), Instr.New(i), old(current.pc)) == Next(st) && fresh(repr - old(repr))
      ensures r.Fail? ==> Execute(prog, old(st), Instr.New(i), old(current.pc)) == Stop(r.fault)
    {
      hide Apart, AllShow, AllHold, Shaped, JFrame.Valid, JFrame.Locals, JFrame.Stack, NewStep;
      if (current.mb.cls, i) !in prog.types {
        return Fail(Unresolved);
      }
      r := NewOf(prog.types[(current.mb.cls, i)]);
    }

    // ----- calls and returns -----

    /** `args_count`, which `parseArgs` counted in the descriptor. */
    method CountArgs(m: MethodPtr) returns (argsCount: nat)
      requires Sound(prog) && IsMethod(prog.classes, m)
      ensures argsCount == ArgsCount(prog, m)
    {
      hide Descriptor;
      var typ := MethodAt(prog.classes, m).typ;
      var stop;
      argsCount, stop := ParseArgs(typ, prog.signatures[typ].params, prog.signatures[typ].ret);
    }

    /** The frame becomes the topmost and the current one. */
    method PushFrame(frame: JFrame)
      requires Sound(prog) && Shaped(prog, st) && methodF != [] && |methodF| == |st.frames| && current == methodF[0]
      requires current.Valid() && current.pc == current.pcOffset && current.mb == st.frames[0].mb
      requires current.maxLocals == prog.code[current.mb].maxLocals
               && current.maxStack == prog.code[current.mb].maxStack
      requires AllShow(prog, methodF[1..], st.frames[1..]) && AllHold(heap, st.heap) && Apart(methodF, heap)
               && Inside() && Separate(frame, methodF, heap)
      requires frame.Valid() && frame.pc == frame.pcOffset && frame.mb in prog.code && prog.code[frame.mb].bytes != []
      requires frame.maxLocals == prog.code[frame.mb].maxLocals && frame.maxStack == prog.code[frame.mb].maxStack
      modifies this`methodF, this`current, this`st, this`repr
      ensures Valid() && methodF == [frame] + old(methodF) && current == frame
              && repr == old(repr) + {frame, frame.words}
      ensures st == State([frame.View(), old(current).View()] + old(st).frames[1..], old(st).heap)
    {
      hide Sound, Shaped, Apart, AllShow, AllHold, JFrame.Valid, JFrame.Locals, JFrame.Stack, Separate;
      Settle();
      ghost var below := st;
      ShowHead(prog, methodF, below.frames);
      ApartMore(frame, methodF, heap);
      ShapedMore(prog, below, frame.View());
      st := State([frame.View()] + below.frames, below.heap);
      methodF, current, repr := [frame] + methodF, frame, repr + {frame, frame.words};
      assert methodF[1..] == old(methodF) && st.frames[1..] == below.frames;
    }

    /** `createFrame` without a va_list. */
    method CreateFrame(m: MethodPtr) returns (r: Result<()>)
      requires Valid() && current.pc >= 0 && IsMethod(prog.classes, m)
      modifies this`methodF, this`current, this`st, this`repr, current`ostack, current.words
      ensures r.Ok? ==>
                && Valid() && Invoke(prog, old(st), m, old(current.pc)) == Next(st)
                && methodF == [current] + old(methodF) && fresh(current) && fresh(current.words)
                && fresh(repr - old(repr))
      ensures r.Fail? ==> Invoke(prog, old(st), m, old(current.pc)) == Stop(r.fault)
    {
      hide Sound, Apart, AllShow, AllHold, JFrame.Valid, JFrame.Locals, JFrame.Stack, Zeros, Entered, ArgsCount;
      ApartTail(methodF, heap);
      if m !in prog.code || prog.code[m].bytes == [] {
        return Fail(NoCode);
      }
      var prev := current;
      var argsCount := CountArgs(m);
      var frame := new JFrame(m, prog.code[m].maxLocals, prog.code[m].maxStack);
      var _ :- CopyArgs(prev, frame, MethodAt(prog.classes, m).isStatic, argsCount);
      PushFrame(frame);
      return Ok(());
    }

    /** `popFrame` */
    method PopFrame()
      requires Valid() && |methodF| > 1
      modifies this`methodF, this`current, this`st
      ensures Valid() && methodF == old(methodF)[1..] && st == State(old(st).frames[1..], old(st).heap)
    {
      hide Sound, Apart, AllShow, AllHold, JFrame.Valid, JFrame.Locals, JFrame.Stack, FrameShaped;
      ApartTail(methodF, heap);
      ShowHead(prog, methodF[1..], st.frames[1..]);
      methodF := methodF[1..];
      current := methodF[0];
      st := State(st.frames[1..], st.heap);
    }

    /** The push of a return handler to the frame of the caller. */
    method PushResult(retFrame: JFrame, kind: Kind, ws: seq<Word>) returns (r: Result<()>)
      requires Valid() && |methodF| > 1 && retFrame == methodF[1] && |ws| == Size(kind)
      modifies this`st, retFrame`ostack, retFrame.words
      ensures var to, maxStack := old(st).frames[1], prog.code[old(st).frames[1].mb].maxStack;
              && (r.Ok? <==> |to.stack| + |ws| <= maxStack)
              && (r.Ok? ==>
                  && Valid()
                  && st == State([old(st).frames[0], to.(stack := to.stack + ws)] + old(st).frames[2..], old(st).heap))
              && (r.Fail? ==> r.fault == PushFault(|ws|, |to.stack|, maxStack))
    {
      hide Sound, Apart, AllShow, AllHold, JFrame.Valid, JFrame.Locals, JFrame.Stack, Low, High, Join;
      ApartTail(methodF, heap);
      ApartTail(methodF[1..], heap);
      ShowHead(prog, methodF[1..], st.frames[1..]);
      assert methodF[1..][1..] == methodF[2..] && st.frames[1..][1..] == st.frames[2..];
      assert methodF[1..][0] == retFrame && st.frames[1..][0] == st.frames[1];
      if kind == OneWord {
        assert ws == [ws[0]];
        var _ :- retFrame.PushWord(ws[0]);
      } else {
        SplitJoin(ws[0], ws[1]);
        assert ws == [ws[0], ws[1]];
        var _ :- retFrame.PushWide(Join(ws[0], ws[1]));
      }
      SettleCaller(retFrame);
      return Ok(());
    }

    ghost method SettleCaller(retFrame: JFrame)
      requires Sound(prog) && Shaped(prog, st) && |methodF| > 1 && |methodF| == |st.frames| && current == methodF[0]
               && retFrame == methodF[1]
      requires FrameOk(prog, current, st.frames[0]) && AllShow(prog, methodF[2..], st.frames[2..])
               && AllHold(heap, st.heap) && Apart(methodF, heap) && Inside()
      requires retFrame.Valid() && FrameOk(prog, retFrame, retFrame.View()) && retFrame.mb == st.frames[1].mb
      modifies this`st
      ensures Valid() && st == State([old(st).frames[0], retFrame.View()] + old(st).frames[2..], old(st).heap)
    {
      hide Sound, Apart, AllShow, AllHold, JFrame.Valid, JFrame.Locals, JFrame.Stack;
      assert FrameShaped(prog, st.frames[1]);
      st := State([st.frames[0], retFrame.View()] + st.frames[2..], st.heap);
      assert st.frames[1..] == [retFrame.View()] + old(st).frames[2..];
      assert st.frames[1..][1..] == old(st).frames[2..] && methodF[1..][1..] == methodF[2..];
      ShowHead(prog, methodF[1..], st.frames[1..]);
    }

    /** The pop of a return handler from the frame that ends. */
    method PopResult(kind: Kind) returns (r: Result<seq<Word>>)
      requires Valid()
      modifies this`st, current`ostack, current.words
      ensures var f := old(st).frames[0]; var h := |f.stack|;
              && (r.Ok? <==> h >= Size(kind))
              && (r.Ok? ==> Valid() && r.value == f.stack[h - Size(kind)..]
                            && st == State([f.(stack := f.stack[..h - Size(kind)])] + old(st).frames[1..],
                                           old(st).heap))
              && (r.Fail? ==> r.fault == PopFault(kind, h, |f.locals|))
    {
      hide Sound, Apart, AllShow, AllHold, JFrame.Valid, JFrame.Locals, JFrame.Stack, Low, High;
      ApartTail(methodF, heap);
      ghost var stack := current.Stack();
      if kind == OneWord {
        var w :- current.PopWord();
        r := Ok([w]);
      } else {
        var v :- current.PopWide(kind);
        r := Ok([Low(v), High(v)]);
      }
      assert stack[..|stack| - Size(kind)] == current.Stack() && stack[|stack| - Size(kind)..] == r.value;
      Settle();
    }

    /** ireturn, areturn and dreturn: what is left to do is the return of a void method. */
    method ReturnResult(retFrame: JFrame?, kind: Kind) returns (r: Result<()>)
      requires Valid() && retFrame == (if |methodF| > 1 then methodF[1] else null)
      modifies this`st, current`ostack, current.words, if retFrame == null then {} else {retFrame, retFrame.words}
      ensures r.Ok? ==>
                Valid() && methodF == old(methodF) && heap == old(heap)
                && Return(prog, st, None) == Return(prog, old(st), Some(kind))
      ensures r.Fail? ==> Return(prog, old(st), Some(kind)) == Stop(r.fault)
    {
      hide Sound, Apart, AllShow, AllHold, JFrame.Valid, JFrame.Locals, JFrame.Stack, FrameOk;
      var ws :- PopResult(kind);
      if retFrame == null {
        return Fail(NullDereference);
      }
      ghost var before := st;
      assert st.frames[1] == old(st).frames[1] && st.frames[2..] == old(st).frames[2..];
      var _ :- PushResult(retFrame, kind, ws);
      assert st.frames[1..] == [before.frames[1].(stack := before.frames[1].stack + ws)] + before.frames[2..];
      return Ok(());
    }

    /** The lookup of `exe_OPC_INVOKEVIRTUAL`. */
    method Dispatch(m: MethodPtr) returns (r: Result<MethodPtr>)
      requires Valid() && IsMethod(prog.classes, m)
      ensures r == Receive(prog, st, m)
    {
      hide Sound, Apart, AllShow, ArgsCount;
      var argsCount := CountArgs(m);
      if current.ostack - argsCount <= current.Bottom() {
        return Fail(Wild);
      }
      var objref := current.words[current.ostack - argsCount];
      assert objref == st.frames[0].stack[|st.frames[0].stack| - 1 - argsCount];
      if objref == 0 {
        return Fail(AssertionFailed);
      }
      if objref > |heap| {
        return Fail(Wild);
      }
      var vtable := prog.classes[heap[objref - 1].cls].table;
      var k := MethodAt(prog.classes, m).tableIdx;
      if k >= |vtable| {
        return Fail(Wild);
      }
      if vtable[k] == None {
        return Fail(NoSuchMethod);
      }
      return Ok(vtable[k].value);
    }

    // ----- the loop -----

    /** The caller's frame, if there is one. */
    ghost predicate IsCaller(retFrame: JFrame?)
      reads this
    {
      methodF != [] && retFrame == if |methodF| > 1 then methodF[1] else null
    }

    /** getfield, putfield and new. */
    method RunObject(code: seq<Byte>, b: Byte, ghost at: nat) returns (r: Result<()>)
      requires Valid() && current.pc == at + 1 && at + 3 <= |code| && code[at] == b
               && (b == 180 || b == 181 || b == 187)
      modifies this`st, this`heap, this`repr, current`ostack, current`pc, current`pcOffset, current.words
      modifies set o | o in heap :: o.data
      ensures r.Ok? ==>
                Valid() && Execute(prog, old(st), DecodeIndexed(b, ReadU2(code, at + 1)).value, at + 3) == Next(st)
      ensures r.Ok? ==> fresh(repr - old(repr))
      ensures r.Fail? ==> Execute(prog, old(st), DecodeIndexed(b, ReadU2(code, at + 1)).value, at + 3) == Stop(r.fault)
    {
      hide Sound, Apart, AllShow, AllHold, FrameOk, JFrame.Valid, JFrame.Locals, JFrame.Stack, Execute, ReadU2, Shaped;
      var index := FetchIndex(code);
      ExecuteMoved(prog, old(st), 2, DecodeIndexed(b, index).value, at + 3);
      if b == 180 {
        r := GetField(index);
      } else if b == 181 {
        r := PutField(index);
      } else {
        r := New(index);
      }
    }

    /** invokevirtual, invokespecial and invokestatic up to the new frame. */
    method BeginCall(code: seq<Byte>, b: Byte, ghost at: nat) returns (r: Result<()>)
      requires Valid() && current.pc == at + 1 && at + 3 <= |code| && code[at] == b && 182 <= b <= 184
      modifies this`methodF, this`current, this`st, this`repr
      modifies current`ostack, current`pc, current`pcOffset, current.words
      ensures r.Ok? ==>
                && Valid() && Execute(prog, old(st), DecodeIndexed(b, ReadU2(code, at + 1)).value, at + 3) == Next(st)
                && methodF == [current] + old(methodF) && fresh(current) && fresh(current.words)
                && fresh(repr - old(repr))
      ensures r.Fail? ==> Execute(prog, old(st), DecodeIndexed(b, ReadU2(code, at + 1)).value, at + 3) == Stop(r.fault)
    {
      hide Apart, AllShow, AllHold, JFrame.Valid, JFrame.Locals, JFrame.Stack, ReadU2, Shaped, Invoke, Receive, Parsed;
      var index := FetchIndex(code);
      ExecuteMoved(prog, old(st), 2, DecodeIndexed(b, index).value, at + 3);
      if (current.mb.cls, index as nat) !in prog.methods {
        return Fail(Unresolved);
      }
      var m := prog.methods[(current.mb.cls, index as nat)];
      if b == 182 {
        m :- Dispatch(m);
      }
      r := CreateFrame(m);
    }

    /** What n steps from s have come to. */
    ghost predicate After(s: State, n: nat, r: Turn)
      requires Sound(prog) && Shaped(prog, s)
      reads this, methodF, set f | f in methodF :: f.words, set o | o in heap :: o.data
    {
      match r
      case Ran => Valid() && Run(prog, s, n) == Next(st)
      case Ended => Valid() && Run(prog, s, n) == Return(prog, st, None)
      case Broke(fault) => Run(prog, s, n) == Stop(fault)
      case Paused => Valid() && Run(prog, s, n) == Next(st)
    }

    /** An invocation: the new frame is run and popped. */
    method RunCall(code: seq<Byte>, b: Byte, ghost at: nat, ghost s: State, fuel: nat) returns (r: Turn, left: nat)
      requires Valid() && current.pc == at + 1 && at + 3 <= |code| && code[at] == b && 182 <= b <= 184 && fuel > 0
      requires Shaped(prog, s)
      requires Run(prog, s, 1) == Execute(prog, st, DecodeIndexed(b, ReadU2(code, at + 1)).value, at + 3)
      modifies repr
      decreases fuel, 0
      ensures left < fuel && After(s, fuel - left, r) && !r.Ended?
      ensures r.Ran? ==> methodF == old(methodF)
      ensures r.Paused? ==> left == 0
      ensures !r.Broke? ==> fresh(repr - old(repr))
    {
      hide Sound, Shaped, Valid, Execute, ReadU2, Step, Run, Return, DecodeIndexed;
      InRepr();
      ValidFacts();
      var begun := BeginCall(code, b, at);
      left := fuel - 1;
      if begun.Fail? {
        return Broke(begun.fault), left;
      }
      ValidFacts();
      assert methodF[1] == old(methodF)[0];
      r, left := ExecuteJava(methodF[1], current, fuel - 1);
      RunRuns(prog, s, 1, fuel - 1 - left);
      assert 1 + (fuel - 1 - left) == fuel - left;
      if r.Ended? {
        r := Ran;
        ValidFacts();
        ReturnsVoid(prog, st);
        InRepr();
        PopFrame();
        assert methodF == old(methodF);
      }
    }

    /** One turn of the loop of `executeJava`. */
    method RunOpcode(retFrame: JFrame?, fuel: nat) returns (r: Turn, left: nat)
      requires Valid() && IsCaller(retFrame) && fuel > 0
      requires current.mb in prog.code && 0 <= current.pc < |prog.code[current.mb].bytes|
      modifies repr
      decreases fuel, 1
      ensures left < fuel && After(old(st), fuel - left, r)
      ensures r.Ran? || r.Ended? ==> methodF == old(methodF)
      ensures r.Paused? ==> left == 0
      ensures !r.Broke? ==> fresh(repr - old(repr))
    {
      hide Sound, Shaped, Valid, Execute, ReadU2, Step, Decode, Run, DecodeIndexed, Return, Moved;
      InRepr();
      ValidFacts();
      var code := prog.code[current.mb].bytes;
      var at := current.pc;
      ghost var s := st;
      StepAt(prog, s);
      if Decode(code, at) == None {
        // the source exits on an opcode it does not know, and reads on where operands are cut off
        return Broke(BadCode), fuel - 1;
      }
      ghost var ins, next := Decode(code, at).value.0, Decode(code, at).value.1;
      Classify(code, at);
      var b := FetchByte(code);
      ValidFacts();
      ExecuteMoved(prog, s, 1, ins, next);
      left := fuel - 1;
      var done: Result<()>;
      if b == 177 {
        EndsIn(prog, st, ins, next);
        return Ended, left;
      } else if b == 172 || b == 175 || b == 176 {
        done := ReturnResult(retFrame, if b == 175 then AsDouble else OneWord);
        EndsIn(prog, Moved(s, 1), ins, next);
        return if done.Ok? then Ended else Broke(done.fault), left;
      } else if b == 182 || b == 183 || b == 184 {
        r, left := RunCall(code, b, at, s, fuel);
        return;
      } else if b == 180 || b == 181 || b == 187 {
        done := RunObject(code, b, at);
      } else {
        done := RunLocal(code, b, at);
      }
      return if done.Ok? then Ran else Broke(done.fault), left;
    }

    /** `executeJava`: runs the frame f on top of the method stack until it returns, for at most
        the given number of instructions in it and the methods it calls. What has been run is
        exactly the steps of the machine; when f has returned, popping it completes the last. */
    method ExecuteJava(retFrame: JFrame?, f: JFrame, fuel: nat) returns (r: Turn, left: nat)
      requires Valid() && f == current && IsCaller(retFrame)
      modifies repr
      decreases fuel, 2
      ensures left <= fuel && After(old(st), fuel - left, r) && !r.Ran?
      ensures r.Ended? ==> methodF == old(methodF)
      ensures r.Paused? ==> left == 0
      ensures !r.Broke? ==> fresh(repr - old(repr))
    {
      hide Sound, Shaped, Valid, Step, Run, Return;
      ValidFacts();
      var code := prog.code[f.mb].bytes;
      ghost var s := st;
      left := fuel;
      RunNone(prog, s);
      while 0 <= f.pcOffset < |code|
        invariant Valid() && methodF == old(methodF) && left <= fuel && Run(prog, s, fuel - left) == Next(st)
        invariant fresh(repr - old(repr))
        decreases left
      {
        if left == 0 {
          return Paused, 0;
        }
        ghost var n, was := fuel - left, left;
        ValidFacts();
        r, left := RunOpcode(retFrame, left);
        RunRuns(prog, s, n, was - left);
        assert n + (was - left) == fuel - left;
        if !r.Ran? {
          return;
        }
      }
      if left == 0 {
        return Paused, 0;
      }
      ValidFacts();
      RunOneMore(prog, s, fuel - left);
      PastTheEnd(prog, st);
      left := left - 1;
      return Ended, left;
    }
  }
}
