/**
 Whole-run safety: a program whose methods have consistent frame-type maps never reaches the
 "stack error" exit, never reads or writes outside a frame, an object or a method table, and
 never fails to find a method.
*/
module TypeSafety {
  import opened Options
  import opened Words
  import opened Classes
  import opened Descriptors
  import opened Bytecode
  import opened Frames
  import opened Machine
  import opened Typing
  import opened Runs
  import Layout
  import Linking
  import Dispatch

  /** Classes that class types name, and the frame-type map of each method. */
  datatype Typed = Typed(refs: map<string, nat>, maps: map<MethodPtr, map<int, FrameType>>)

  /** The words of a value whose type is spelled by the text. */
  ghost function WordTypes(t: Typed, text: string): (r: seq<WordType>)
    ensures |r| == if text == "J" || text == "D" then 2 else 1
  {
    if text == "J" || text == "D" then [Any, Any]
    else if text in t.refs then [Ref(t.refs[text])]
    else [Any]
  }

  ghost function ParamTypes(t: Typed, ps: seq<FieldType>): seq<WordType> {
    if ps == [] then [] else WordTypes(t, Spell(ps[0])) + ParamTypes(t, ps[1..])
  }

  ghost function RetTypes(t: Typed, ret: string): seq<WordType> {
    if ret == "V" then [] else WordTypes(t, ret)
  }

  ghost function ResultTypes(p: Program, t: Typed, m: MethodPtr): seq<WordType>
    requires Sound(p) && IsMethod(p.classes, m)
  {
    RetTypes(t, SignatureOf(p, m).ret)
  }

  /** The words a call takes: the receiver of an instance method and the parameters. */
  ghost function ArgTypes(p: Program, t: Typed, m: MethodPtr): seq<WordType>
    requires Sound(p) && IsMethod(p.classes, m)
  {
    (if MethodAt(p.classes, m).isStatic then [] else [Ref(m.cls)]) + ParamTypes(t, SignatureOf(p, m).params)
  }

  /** A class of which objects may be made: laid out, and linked so that dispatch is right. */
  ghost predicate Instantiable(p: Program, c: nat)
    requires Ordered(p.classes)
  {
    && c < |p.classes|
    && Layout.LaidOut(p.classes, c) && Dispatch.Ready(p.classes, c) && Dispatch.Uniform(p.classes, c)
  }

  /** The stack has the given types on top. */
  ghost predicate OnTop(cs: seq<ClassBlock>, stack: seq<WordType>, us: seq<WordType>)
    requires Ordered(cs)
  {
    |us| <= |stack| && AllSub(cs, stack[|stack| - |us|..], us)
  }

  /** Takes n words off the stack and pushes others, if they fit. */
  ghost function Replaced(ft: FrameType, n: nat, out: seq<WordType>, maxStack: nat): Option<FrameType>
    requires n <= |ft.stack|
  {
    var rest := ft.stack[..|ft.stack| - n];
    if |rest| + |out| > maxStack then None else Some(ft.(stack := rest + out))
  }

  ghost function CallFlow(p: Program, t: Typed, m: MethodPtr, ft: FrameType, maxStack: nat): Option<FrameType>
    requires Sound(p) && IsMethod(p.classes, m)
  {
    if !OnTop(p.classes, ft.stack, ArgTypes(p, t, m)) then None
    else Replaced(ft, |ArgTypes(p, t, m)|, ResultTypes(p, t, m), maxStack)
  }

  /** The frame type behind an instruction of class c that does not return. */
  ghost function Flow(p: Program, t: Typed, c: nat, ins: Instr, ft: FrameType, maxStack: nat): Option<FrameType>
    requires Sound(p)
  {
    match ins
    case ReturnVoid => None
    case ReturnValue(_) => None
    case GetField(i) =>
      var fp := FieldRef(p, c, i);
      if || fp == None || Layout.FieldAt(p.classes, fp.value).isStatic
         || !OnTop(p.classes, ft.stack, [Ref(fp.value.cls)])
      then None
      else Replaced(ft, 1, WordTypes(t, Layout.FieldAt(p.classes, fp.value).typ), maxStack)
    case PutField(i) =>
      var fp := FieldRef(p, c, i);
      if fp == None || Layout.FieldAt(p.classes, fp.value).isStatic then None
      else
        var ts := [Ref(fp.value.cls)] + WordTypes(t, Layout.FieldAt(p.classes, fp.value).typ);
        if !OnTop(p.classes, ft.stack, ts) then None else Replaced(ft, |ts|, [], maxStack)
    case New(i) =>
      var d := TypeRef(p, c, i);
      if d == None || !Instantiable(p, d.value) then None else Replaced(ft, 0, [Ref(d.value)], maxStack)
    case InvokeDirect(i) =>
      var m := MethodRef(p, c, i);
      if m == None then None else CallFlow(p, t, m.value, ft, maxStack)
    case InvokeVirtual(i) =>
      var m := MethodRef(p, c, i);
      if m == None || !Linking.Virtual(MethodAt(p.classes, m.value)) then None
      else CallFlow(p, t, m.value, ft, maxStack)
    case _ => LocalFlow(ins, ft, maxStack)
  }

  ghost predicate ReturnTyped(p: Program, t: Typed, m: MethodPtr, ins: Instr, ft: FrameType)
    requires Sound(p) && IsMethod(p.classes, m) && Returns(ins)
  {
    && |ResultTypes(p, t, m)| == (if ins.ReturnValue? then Size(ins.kind) else 0)
    && OnTop(p.classes, ft.stack, ResultTypes(p, t, m))
  }

  ghost predicate FrameSub(cs: seq<ClassBlock>, ft: FrameType, gt: FrameType)
    requires Ordered(cs)
  {
    AllSub(cs, ft.locals, gt.locals) && AllSub(cs, ft.stack, gt.stack)
  }

  /** The instruction at pc agrees with the types before it and at every place it leads to. */
  ghost predicate TypedAt(p: Program, t: Typed, m: MethodPtr, fts: map<int, FrameType>, pc: int)
    requires Sound(p) && m in p.code && pc in fts
  {
    var code, ft := p.code[m], fts[pc];
    && 0 <= pc < |code.bytes| && |ft.locals| == code.maxLocals && |ft.stack| <= code.maxStack
    && var d := Decode(code.bytes, pc);
       && d.Some?
       && if Returns(d.value.0) then ReturnTyped(p, t, m, d.value.0, ft)
          else
            && Flow(p, t, m.cls, d.value.0, ft, code.maxStack).Some?
            && forall to :: GoesTo(d.value.0, d.value.1, to) ==>
                 to in fts && FrameSub(p.classes, Flow(p, t, m.cls, d.value.0, ft, code.maxStack).value, fts[to])
  }

  function Anys(n: nat): (s: seq<WordType>)
    ensures |s| == n && forall i :: 0 <= i < n ==> s[i] == Any
  {
    if n == 0 then [] else Anys(n - 1) + [Any]
  }

  ghost predicate EntryTyped(p: Program, t: Typed, m: MethodPtr, ft: FrameType)
    requires Sound(p) && m in p.code
  {
    && |ArgTypes(p, t, m)| <= p.code[m].maxLocals
    && AllSub(p.classes, ArgTypes(p, t, m) + Anys(p.code[m].maxLocals - |ArgTypes(p, t, m)|), ft.locals)
    && ft.stack == []
  }

  ghost predicate MethodTyped(p: Program, t: Typed, m: MethodPtr)
    requires Sound(p) && m in p.code
  {
    m in t.maps
    && (p.code[m].bytes != [] ==> 0 in t.maps[m] && EntryTyped(p, t, m, t.maps[m][0]))
    && forall pc :: pc in t.maps[m] ==> TypedAt(p, t, m, t.maps[m], pc)
  }

  ghost predicate WellTyped(p: Program, t: Typed) {
    Sound(p) && forall m :: m in p.code ==> MethodTyped(p, t, m)
  }

  // ----- states -----

  ghost predicate ObjTyped(p: Program, t: Typed, heap: seq<Obj>, o: Obj)
    requires Ordered(p.classes)
  {
    && Instantiable(p, o.cls) && |o.data| == p.classes[o.cls].objSize
    && forall fp :: Layout.Visible(p.classes, o.cls, fp) ==> FieldTyped(p, t, heap, o, Layout.FieldAt(p.classes, fp))
  }

  ghost predicate FieldTyped(p: Program, t: Typed, heap: seq<Obj>, o: Obj, fb: FieldBlock)
    requires Ordered(p.classes)
  {
    Layout.InBounds(o.data, fb) && AllTyped(p.classes, heap, ValueData(Layout.Load(o.data, fb)), WordTypes(t, fb.typ))
  }

  ghost predicate HeapTyped(p: Program, t: Typed, heap: seq<Obj>)
    requires Ordered(p.classes)
  {
    forall i :: 0 <= i < |heap| ==> ObjTyped(p, t, heap, heap[i])
  }

  /** A frame that waits for words of the given types to be pushed. */
  ghost predicate FrameTyped(p: Program, t: Typed, heap: seq<Obj>, f: Frame, pushed: seq<WordType>)
    requires Sound(p)
  {
    && f.mb in p.code && f.mb in t.maps && f.pc in t.maps[f.mb]
    && var ft := t.maps[f.mb][f.pc];
       && AllTyped(p.classes, heap, f.locals, ft.locals)
       && |f.stack| + |pushed| == |ft.stack|
       && AllTyped(p.classes, heap, f.stack, ft.stack[..|f.stack|])
       && AllSub(p.classes, pushed, ft.stack[|f.stack|..])
  }

  ghost predicate FramesTyped(p: Program, t: Typed, heap: seq<Obj>, frames: seq<Frame>, pushed: seq<WordType>)
    requires Sound(p)
  {
    frames != [] ==>
      && FrameTyped(p, t, heap, frames[0], pushed)
      && FramesTyped(p, t, heap, frames[1..], ResultTypes(p, t, frames[0].mb))
  }

  ghost predicate StateTyped(p: Program, t: Typed, s: State)
    requires Sound(p)
  {
    s.frames != [] && HeapTyped(p, t, s.heap) && FramesTyped(p, t, s.heap, s.frames, [])
  }

  // ----- objects -----

  lemma {:induction false} FramesInLarger(p: Program, t: Typed, heap: seq<Obj>, heap': seq<Obj>, frames: seq<Frame>,
                                        pushed: seq<WordType>)
    requires Sound(p) && Extends(heap, heap') && FramesTyped(p, t, heap, frames, pushed)
    ensures FramesTyped(p, t, heap', frames, pushed)
    decreases |frames|
  {
    hide AllTyped, AllSub, Parsed;
    if frames != [] {
      var f := frames[0];
      var ft := t.maps[f.mb][f.pc];
      TypedInLarger(p.classes, heap, heap', f.locals, ft.locals);
      TypedInLarger(p.classes, heap, heap', f.stack, ft.stack[..|f.stack|]);
      FramesInLarger(p, t, heap, heap', frames[1..], ResultTypes(p, t, f.mb));
    }
  }

  lemma {:induction false} ObjInLarger(p: Program, t: Typed, heap: seq<Obj>, heap': seq<Obj>, o: Obj)
    requires Ordered(p.classes) && Extends(heap, heap') && ObjTyped(p, t, heap, o)
    ensures ObjTyped(p, t, heap', o)
  {
    hide Extends, AllTyped, Dispatch.Ready, Dispatch.Uniform, Layout.LaidOut;
    forall fp | Layout.Visible(p.classes, o.cls, fp)
      ensures FieldTyped(p, t, heap', o, Layout.FieldAt(p.classes, fp))
    {
      var fb := Layout.FieldAt(p.classes, fp);
      assert FieldTyped(p, t, heap, o, fb);
      TypedInLarger(p.classes, heap, heap', ValueData(Layout.Load(o.data, fb)), WordTypes(t, fb.typ));
    }
  }

  lemma {:induction false} ZeroIsTyped(cs: seq<ClassBlock>, heap: seq<Obj>, ws: seq<Word>, ts: seq<WordType>)
    requires Ordered(cs) && |ws| == |ts| && forall i :: 0 <= i < |ws| ==> ws[i] == 0
    ensures AllTyped(cs, heap, ws, ts)
  {
  }

  /** A new object is conforming: its fields are zero and inside its words. */
  lemma {:induction false} NewTyped(p: Program, t: Typed, heap: seq<Obj>, c: nat)
    requires Ordered(p.classes) && Instantiable(p, c)
    ensures ObjTyped(p, t, heap, Obj(c, Zeros(p.classes[c].objSize)))
  {
    hide Dispatch.Ready, Dispatch.Uniform, Layout.LaidOut, AllTyped;
    var o := Obj(c, Zeros(p.classes[c].objSize));
    forall fp | Layout.Visible(p.classes, c, fp)
      ensures FieldTyped(p, t, heap, o, Layout.FieldAt(p.classes, fp))
    {
      var fb := Layout.FieldAt(p.classes, fp);
      Layout.FieldInside(p.classes, c, fp);
      ZeroIsTyped(p.classes, heap, ValueData(Layout.Load(o.data, fb)), WordTypes(t, fb.typ));
    }
  }

  /** Writing a field keeps the object conforming: the other fields do not share its words. */
  lemma {:induction false} StoreTyped(p: Program, t: Typed, heap: seq<Obj>, o: Obj, fp: FieldPtr, v: Value)
    requires Ordered(p.classes) && ObjTyped(p, t, heap, o) && Layout.Visible(p.classes, o.cls, fp)
    requires Layout.Fits(Layout.FieldAt(p.classes, fp), v)
    requires AllTyped(p.classes, heap, ValueData(v), WordTypes(t, Layout.FieldAt(p.classes, fp).typ))
    ensures Layout.InBounds(o.data, Layout.FieldAt(p.classes, fp))
    ensures ObjTyped(p, t, heap, o.(data := Layout.Store(o.data, Layout.FieldAt(p.classes, fp), v)))
  {
    hide Dispatch.Ready, Dispatch.Uniform, Layout.LaidOut, AllTyped, ValueData, Layout.Load, Layout.Store, Ancestor;
    Layout.ReadAfterWrite(p.classes, o.cls, o.data, fp, v);
    var fb := Layout.FieldAt(p.classes, fp);
    var o' := o.(data := Layout.Store(o.data, fb, v));
    forall q | Layout.Visible(p.classes, o.cls, q)
      ensures FieldTyped(p, t, heap, o', Layout.FieldAt(p.classes, q))
    {
      if q != fp {
        assert FieldTyped(p, t, heap, o, Layout.FieldAt(p.classes, q));
      }
    }
  }

  // ----- frames -----

  /** What a step must come to. */
  ghost predicate Safe(p: Program, t: Typed, r: Outcome)
    requires Sound(p)
  {
    match r
    case Next(s) => StateTyped(p, t, s)
    case Done(_) => true
    case Stop(fault) => Allowed(fault)
  }

  /** The words under and in the given top of a stack. */
  lemma {:induction false} TopWords(cs: seq<ClassBlock>, heap: seq<Obj>, ws: seq<Word>, ts: seq<WordType>,
                                    us: seq<WordType>)
    requires Ordered(cs) && AllTyped(cs, heap, ws, ts) && OnTop(cs, ts, us)
    ensures |ws| == |ts| && |us| <= |ws|
    ensures AllTyped(cs, heap, ws[..|ws| - |us|], ts[..|ts| - |us|])
    ensures AllTyped(cs, heap, ws[|ws| - |us|..], us)
  {
    hide HasType, SubType;
    var k := |ws| - |us|;
    TypedParts(cs, heap, ws, ts, k);
    AllSubsume(cs, heap, ws[k..], ts[k..], us);
  }

  lemma {:induction false} SubParts(cs: seq<ClassBlock>, ts: seq<WordType>, vs: seq<WordType>, us: seq<WordType>)
    requires Ordered(cs) && AllSub(cs, ts + vs, us)
    ensures |us| == |ts| + |vs| && AllSub(cs, ts, us[..|ts|]) && AllSub(cs, vs, us[|ts|..])
  {
    hide SubType;
    assert forall i :: 0 <= i < |ts| ==> (ts + vs)[i] == ts[i];
    assert forall i :: 0 <= i < |vs| ==> (ts + vs)[|ts| + i] == vs[i];
  }

  lemma {:induction false} NoneSub(cs: seq<ClassBlock>)
    requires Ordered(cs)
    ensures AllSub(cs, [], [])
  {
  }

  /** A frame that conforms to a type below the one its address asks for is typed. */
  lemma {:induction false} Arrives(p: Program, t: Typed, heap: seq<Obj>, f: Frame, out: FrameType)
    requires Sound(p) && f.mb in p.code && f.mb in t.maps && f.pc in t.maps[f.mb]
    requires Conforms(p.classes, heap, f, out) && FrameSub(p.classes, out, t.maps[f.mb][f.pc])
    ensures FrameTyped(p, t, heap, f, [])
  {
    hide AllTyped, AllSub;
    var ft := t.maps[f.mb][f.pc];
    AllSubsume(p.classes, heap, f.locals, out.locals, ft.locals);
    AllSubsume(p.classes, heap, f.stack, out.stack, ft.stack);
    SameLength(p.classes, heap, f.stack, ft.stack);
    assert ft.stack[..|f.stack|] == ft.stack && ft.stack[|f.stack|..] == [];
    NoneSub(p.classes);
  }

  /** A caller that gave up its arguments waits for the result behind its call. */
  lemma {:induction false} Waits(p: Program, t: Typed, heap: seq<Obj>, f: Frame, under: FrameType, res: seq<WordType>)
    requires Sound(p) && f.mb in p.code && f.mb in t.maps && f.pc in t.maps[f.mb]
    requires Conforms(p.classes, heap, f, under)
    requires FrameSub(p.classes, under.(stack := under.stack + res), t.maps[f.mb][f.pc])
    ensures FrameTyped(p, t, heap, f, res)
  {
    hide AllTyped, AllSub;
    var ft := t.maps[f.mb][f.pc];
    SameLength(p.classes, heap, f.stack, under.stack);
    SubParts(p.classes, under.stack, res, ft.stack);
    AllSubsume(p.classes, heap, f.locals, under.locals, ft.locals);
    AllSubsume(p.classes, heap, f.stack, under.stack, ft.stack[..|f.stack|]);
  }

  /** A waiting frame that gets its words is typed. */
  lemma {:induction false} Receives(p: Program, t: Typed, heap: seq<Obj>, f: Frame, res: seq<WordType>, ret: seq<Word>)
    requires Sound(p) && FrameTyped(p, t, heap, f, res) && AllTyped(p.classes, heap, ret, res)
    ensures FrameTyped(p, t, heap, f.(stack := f.stack + ret), [])
  {
    hide AllTyped, AllSub;
    var ft := t.maps[f.mb][f.pc];
    var k := |f.stack|;
    SameLength(p.classes, heap, ret, res);
    AllSubsume(p.classes, heap, ret, res, ft.stack[k..]);
    TypedJoin(p.classes, heap, f.stack, ret, ft.stack[..k], ft.stack[k..]);
    assert ft.stack[..k] + ft.stack[k..] == ft.stack;
    var g := f.(stack := f.stack + ret);
    assert ft.stack[..|g.stack|] == ft.stack && ft.stack[|g.stack|..] == [];
    NoneSub(p.classes);
  }

  lemma {:induction false} TopConforms(p: Program, t: Typed, heap: seq<Obj>, f: Frame)
    requires Sound(p) && FrameTyped(p, t, heap, f, [])
    ensures f.mb in t.maps && f.pc in t.maps[f.mb] && Conforms(p.classes, heap, f, t.maps[f.mb][f.pc])
    ensures |f.stack| == |t.maps[f.mb][f.pc].stack|
  {
    hide AllTyped, AllSub;
    var ft := t.maps[f.mb][f.pc];
    assert ft.stack[..|f.stack|] == ft.stack;
  }

  /** The state before an instruction of a typed program, and what its flow promises. */
  ghost predicate Before(p: Program, t: Typed, s: State, ins: Instr, next: nat)
    requires Sound(p)
  {
    && Shaped(p, s) && StateTyped(p, t, s)
    && s.frames[0].mb in t.maps && s.frames[0].pc in t.maps[s.frames[0].mb]
    && var f := s.frames[0]; var ft := t.maps[f.mb][f.pc]; var code := p.code[f.mb];
       && Conforms(p.classes, s.heap, f, ft)
       && |ft.stack| <= code.maxStack
       && if Returns(ins) then ReturnTyped(p, t, f.mb, ins, ft)
          else
            && Flow(p, t, f.mb.cls, ins, ft, code.maxStack).Some?
            && forall to :: GoesTo(ins, next, to) ==>
                 to in t.maps[f.mb]
                 && FrameSub(p.classes, Flow(p, t, f.mb.cls, ins, ft, code.maxStack).value, t.maps[f.mb][to])
  }

  /** A step that only moves the frame on top. */
  lemma {:induction false} MovesOn(p: Program, t: Typed, s: State, ins: Instr, next: nat, f: Frame, heap: seq<Obj>)
    requires Sound(p) && Before(p, t, s, ins, next) && !Returns(ins)
    requires var g := s.frames[0];
             f.mb == g.mb && GoesTo(ins, next, f.pc) && Extends(s.heap, heap) && HeapTyped(p, t, heap)
             && Conforms(p.classes, heap, f, Flow(p, t, g.mb.cls, ins, t.maps[g.mb][g.pc], p.code[g.mb].maxStack).value)
    ensures StateTyped(p, t, State([f] + s.frames[1..], heap))
  {
    hide Flow, Conforms, FrameSub, HeapTyped, Extends;
    var g := s.frames[0];
    Arrives(p, t, heap, f, Flow(p, t, g.mb.cls, ins, t.maps[g.mb][g.pc], p.code[g.mb].maxStack).value);
    FramesInLarger(p, t, s.heap, heap, s.frames[1..], ResultTypes(p, t, g.mb));
    assert ([f] + s.frames[1..])[1..] == s.frames[1..];
  }

  lemma {:induction false} SameHeap(heap: seq<Obj>)
    ensures Extends(heap, heap)
  {
  }

  lemma {:induction false} LocalIsSafe(p: Program, t: Typed, s: State, ins: Instr, next: nat)
    requires Sound(p) && Before(p, t, s, ins, next) && IsLocal(ins)
    ensures Safe(p, t, Execute(p, s, ins, next))
  {
    hide LocalStep, LocalFlow, Conforms, FrameSub, FramesTyped, HeapTyped, GoesTo, Parsed;
    var f := s.frames[0];
    var ft, maxStack := t.maps[f.mb][f.pc], p.code[f.mb].maxStack;
    LocalSafe(p.classes, s.heap, ins, next, f, ft, maxStack);
    LocalGoes(ins, next, f, maxStack);
    var r := LocalStep(ins, next, f, maxStack);
    if r.Ok? {
      SameHeap(s.heap);
      MovesOn(p, t, s, ins, next, r.value, s.heap);
    }
  }

  // ----- objects -----

  lemma {:induction false} ReplacedConforms(cs: seq<ClassBlock>, heap: seq<Obj>, f: Frame, ft: FrameType, n: nat,
                                        ws: seq<Word>,
                                            out: seq<WordType>, maxStack: nat, next: int)
    requires Ordered(cs) && Conforms(cs, heap, f, ft) && n <= |ft.stack| && Replaced(ft, n, out, maxStack).Some?
             && AllTyped(cs, heap, ws, out)
    ensures |f.stack| == |ft.stack| && |ws| == |out| && |f.stack| - n + |ws| <= maxStack
    ensures var after := f.(stack := f.stack[..|f.stack| - n] + ws, pc := next);
            Conforms(cs, heap, after, Replaced(ft, n, out, maxStack).value)
  {
    hide HasType;
    TypedParts(cs, heap, f.stack, ft.stack, |ft.stack| - n);
    TypedJoin(cs, heap, f.stack[..|f.stack| - n], ws, ft.stack[..|ft.stack| - n], out);
  }

  /** A non-null reference of the type of a field's class leads to an object that has the field. */
  lemma {:induction false} FieldOf(p: Program, t: Typed, heap: seq<Obj>, ref: Word, fp: FieldPtr)
    requires Ordered(p.classes) && HeapTyped(p, t, heap) && HasType(p.classes, heap, ref, Ref(fp.cls)) && ref != 0
    requires fp.cls < |p.classes| && fp.slot < |p.classes[fp.cls].fields| && !Layout.FieldAt(p.classes, fp).isStatic
    ensures ref <= |heap| && heap[ref - 1].cls < |p.classes| && Layout.Visible(p.classes, heap[ref - 1].cls, fp)
    ensures ObjTyped(p, t, heap, heap[ref - 1]) && FieldTyped(p, t, heap, heap[ref - 1], Layout.FieldAt(p.classes, fp))
  {
    hide FieldTyped, Instantiable;
    assert ObjTyped(p, t, heap, heap[ref - 1]);
  }

  lemma {:induction false} StackTyped(cs: seq<ClassBlock>, heap: seq<Obj>, f: Frame, ft: FrameType)
    requires Ordered(cs) && Conforms(cs, heap, f, ft)
    ensures AllTyped(cs, heap, f.stack, ft.stack)
  {
  }

  /** A step that leaves the top frame at next, conforming, and the rest alone. */
  ghost predicate Moves(cs: seq<ClassBlock>, s: State, r: Outcome, next: nat, out: FrameType)
    requires Ordered(cs)
  {
    && s.frames != [] && r.Next? && r.state.frames != [] && r.state.frames[1..] == s.frames[1..]
    && r.state.frames[0].mb == s.frames[0].mb && r.state.frames[0].pc == next
    && Conforms(cs, r.state.heap, r.state.frames[0], out)
  }

  lemma {:induction false} GetFieldConforms(p: Program, t: Typed, s: State, fp: FieldPtr, ft: FrameType, next: nat)
    requires Ordered(p.classes) && Shaped(p, s) && HeapTyped(p, t, s.heap)
             && Conforms(p.classes, s.heap, s.frames[0], ft)
    requires fp.cls < |p.classes| && fp.slot < |p.classes[fp.cls].fields| && !Layout.FieldAt(p.classes, fp).isStatic
    requires OnTop(p.classes, ft.stack, [Ref(fp.cls)])
    requires Replaced(ft, 1, WordTypes(t, Layout.FieldAt(p.classes, fp).typ), p.code[s.frames[0].mb].maxStack).Some?
    ensures var fb := Layout.FieldAt(p.classes, fp);
            var r := GetFieldStep(p, s, fb, next);
            r == Stop(NullDereference)
            || (&& Moves(p.classes, s, r, next,
                         Replaced(ft, 1, WordTypes(t, fb.typ), p.code[s.frames[0].mb].maxStack).value)
                && r.state.heap == s.heap)
  {
    hide HeapTyped, Conforms, ObjTyped, Layout.Visible, Replaced, GetFieldStep, Layout.InBounds, Layout.Load;
    var f, maxStack := s.frames[0], p.code[s.frames[0].mb].maxStack;
    var fb, h := Layout.FieldAt(p.classes, fp), |f.stack|;
    StackTyped(p.classes, s.heap, f, ft);
    TopWords(p.classes, s.heap, f.stack, ft.stack, [Ref(fp.cls)]);
    var ref := f.stack[h - 1];
    assert f.stack == f.stack[..h - 1] + [ref];
    GetFieldWith(p, s, fb, next, f.stack[..h - 1], ref);
    assert HasType(p.classes, s.heap, f.stack[h - 1..][0], Ref(fp.cls));
    if ref != 0 {
      FieldOf(p, t, s.heap, ref, fp);
      var ws := ValueData(Layout.Load(s.heap[ref - 1].data, fb));
      ReplacedConforms(p.classes, s.heap, f, ft, 1, ws, WordTypes(t, fb.typ), maxStack, next);
    }
  }

  lemma {:induction false} GetFieldIsSafe(p: Program, t: Typed, s: State, i: nat, next: nat)
    requires Sound(p) && Before(p, t, s, GetField(i), next)
    ensures Safe(p, t, Execute(p, s, GetField(i), next))
  {
    hide FrameSub, FramesTyped, Parsed, FieldRef, HeapTyped, Conforms, Extends, GetFieldStep, Replaced, OnTop;
    var f := s.frames[0];
    var ft := t.maps[f.mb][f.pc];
    var fp := FieldRef(p, f.mb.cls, i).value;
    GetFieldConforms(p, t, s, fp, ft, next);
    var r := GetFieldStep(p, s, Layout.FieldAt(p.classes, fp), next);
    if r.Next? {
      SameHeap(s.heap);
      MovesOn(p, t, s, GetField(i), next, r.state.frames[0], s.heap);
      assert r.state.frames == [r.state.frames[0]] + s.frames[1..];
    }
  }

  lemma {:induction false} ValueBack(fb: FieldBlock, ws: seq<Word>)
    requires |ws| == Size(FieldKind(fb))
    ensures ValueData(FieldValue(fb, ws)) == ws && Layout.Fits(fb, FieldValue(fb, ws))
  {
    if |ws| == 2 {
      SplitJoin(ws[0], ws[1]);
    }
  }

  lemma {:induction false} HeapAfterStore(p: Program, t: Typed, heap: seq<Obj>, k: nat, o: Obj)
    requires Ordered(p.classes) && HeapTyped(p, t, heap) && k < |heap| && o.cls == heap[k].cls
             && ObjTyped(p, t, heap, o)
    ensures Extends(heap, heap[k := o]) && HeapTyped(p, t, heap[k := o])
  {
    hide ObjTyped;
    var heap' := heap[k := o];
    forall i | 0 <= i < |heap'|
      ensures ObjTyped(p, t, heap', heap'[i])
    {
      ObjInLarger(p, t, heap, heap', heap'[i]);
    }
  }

  lemma {:induction false} HeapAfterNew(p: Program, t: Typed, heap: seq<Obj>, c: nat)
    requires Ordered(p.classes) && HeapTyped(p, t, heap) && Instantiable(p, c)
    ensures var heap' := heap + [Obj(c, Zeros(p.classes[c].objSize))]; Extends(heap, heap') && HeapTyped(p, t, heap')
  {
    hide ObjTyped, Layout.LaidOut, Dispatch.Ready, Dispatch.Uniform;
    var heap' := heap + [Obj(c, Zeros(p.classes[c].objSize))];
    NewTyped(p, t, heap', c);
    forall i | 0 <= i < |heap'|
      ensures ObjTyped(p, t, heap', heap'[i])
    {
      if i < |heap| {
        ObjInLarger(p, t, heap, heap', heap[i]);
      }
    }
  }

  lemma {:induction false} ConformsInLarger(cs: seq<ClassBlock>, heap: seq<Obj>, heap': seq<Obj>, f: Frame,
                                            ft: FrameType)
    requires Ordered(cs) && Conforms(cs, heap, f, ft) && Extends(heap, heap')
    ensures Conforms(cs, heap', f, ft)
  {
    hide AllTyped, Extends;
    TypedInLarger(cs, heap, heap', f.locals, ft.locals);
    TypedInLarger(cs, heap, heap', f.stack, ft.stack);
  }

  lemma {:induction false} NewIsSafe(p: Program, t: Typed, s: State, i: nat, next: nat)
    requires Sound(p) && Before(p, t, s, New(i), next)
    ensures Safe(p, t, Execute(p, s, New(i), next))
  {
    hide FrameSub, FramesTyped, Parsed, TypeRef, HeapTyped, Conforms, Extends, Instantiable, Zeros;
    var f := s.frames[0];
    var ft, code := t.maps[f.mb][f.pc], p.code[f.mb];
    var c := TypeRef(p, f.mb.cls, i).value;
    var heap' := s.heap + [Obj(c, Zeros(p.classes[c].objSize))];
    if |s.heap| + 1 < 0x1_0000_0000 {
      HeapAfterNew(p, t, s.heap, c);
      ConformsInLarger(p.classes, s.heap, heap', f, ft);
      var ref: Word := |s.heap| + 1;
      NewReference(p, heap', c, ref);
      ReplacedConforms(p.classes, heap', f, ft, 0, [ref], [Ref(c)], code.maxStack, next);
      assert f.stack[..|f.stack|] == f.stack;
      MovesOn(p, t, s, New(i), next, f.(stack := f.stack + [ref], pc := next), heap');
    }
  }

  lemma {:induction false} NewReference(p: Program, heap: seq<Obj>, c: nat, ref: Word)
    requires Ordered(p.classes) && 0 < ref <= |heap| && heap[ref - 1].cls == c < |p.classes|
    ensures AllTyped(p.classes, heap, [ref], [Ref(c)])
  {
  }

  lemma {:induction false} NoneTyped(cs: seq<ClassBlock>, heap: seq<Obj>)
    requires Ordered(cs)
    ensures AllTyped(cs, heap, [], [])
  {
  }

  lemma {:induction false} PutFieldConforms(p: Program, t: Typed, s: State, fp: FieldPtr, ft: FrameType, next: nat)
    requires Ordered(p.classes) && Shaped(p, s) && HeapTyped(p, t, s.heap)
             && Conforms(p.classes, s.heap, s.frames[0], ft)
    requires fp.cls < |p.classes| && fp.slot < |p.classes[fp.cls].fields| && !Layout.FieldAt(p.classes, fp).isStatic
    requires var ts := [Ref(fp.cls)] + WordTypes(t, Layout.FieldAt(p.classes, fp).typ);
             OnTop(p.classes, ft.stack, ts) && Replaced(ft, |ts|, [], p.code[s.frames[0].mb].maxStack).Some?
    ensures var fb := Layout.FieldAt(p.classes, fp);
            var ts := [Ref(fp.cls)] + WordTypes(t, fb.typ);
            var r := PutFieldStep(p, s, fb, next);
            r == Stop(NullDereference)
            || (Moves(p.classes, s, r, next, Replaced(ft, |ts|, [], p.code[s.frames[0].mb].maxStack).value)
                && Extends(s.heap, r.state.heap) && HeapTyped(p, t, r.state.heap))
  {
    hide HeapTyped, Conforms, Extends, ObjTyped, Layout.Visible, Layout.Store, FieldValue, FieldTyped, Replaced;
    hide PutFieldStep, Layout.InBounds;
    var f, maxStack := s.frames[0], p.code[s.frames[0].mb].maxStack;
    var fb := Layout.FieldAt(p.classes, fp);
    var h, n := |f.stack|, Size(FieldKind(fb));
    var ts := [Ref(fp.cls)] + WordTypes(t, fb.typ);
    StackTyped(p.classes, s.heap, f, ft);
    TopWords(p.classes, s.heap, f.stack, ft.stack, ts);
    var top := f.stack[h - n - 1..];
    assert top[0] == f.stack[h - n - 1] && top[1..] == f.stack[h - n..] && ts[1..] == WordTypes(t, fb.typ);
    var ref := f.stack[h - n - 1];
    assert f.stack == f.stack[..h - n - 1] + [ref] + f.stack[h - n..];
    PutFieldWith(p, s, fb, next, f.stack[..h - n - 1], ref, f.stack[h - n..]);
    assert HasType(p.classes, s.heap, top[0], ts[0]);
    TypedParts(p.classes, s.heap, top, ts, 1);
    if ref != 0 {
      FieldOf(p, t, s.heap, ref, fp);
      var o, v := s.heap[ref - 1], FieldValue(fb, f.stack[h - n..]);
      ValueBack(fb, f.stack[h - n..]);
      StoreTyped(p, t, s.heap, o, fp, v);
      var o' := o.(data := Layout.Store(o.data, fb, v));
      HeapAfterStore(p, t, s.heap, ref - 1, o');
      var heap' := s.heap[ref - 1 := o'];
      ConformsInLarger(p.classes, s.heap, heap', f, ft);
      NoneTyped(p.classes, heap');
      ReplacedConforms(p.classes, heap', f, ft, n + 1, [], [], maxStack, next);
      assert f.stack[..h - (n + 1)] + [] == f.stack[..h - n - 1];
    }
  }

  lemma {:induction false} PutFieldIsSafe(p: Program, t: Typed, s: State, i: nat, next: nat)
    requires Sound(p) && Before(p, t, s, PutField(i), next)
    ensures Safe(p, t, Execute(p, s, PutField(i), next))
  {
    hide FrameSub, FramesTyped, Parsed, FieldRef, HeapTyped, Conforms, Extends, PutFieldStep, Replaced, OnTop;
    var f := s.frames[0];
    var ft := t.maps[f.mb][f.pc];
    var fp := FieldRef(p, f.mb.cls, i).value;
    PutFieldConforms(p, t, s, fp, ft, next);
    var r := PutFieldStep(p, s, Layout.FieldAt(p.classes, fp), next);
    if r.Next? {
      MovesOn(p, t, s, PutField(i), next, r.state.frames[0], r.state.heap);
      assert r.state.frames == [r.state.frames[0]] + s.frames[1..];
    }
  }

  // ----- calls and returns -----

  lemma {:induction false} SpelledWidth(t: Typed, ft: FieldType)
    requires WellFormed(ft)
    ensures |WordTypes(t, Spell(ft))| == Slots(ft)
  {
  }

  lemma {:induction false} ParamWords(t: Typed, ps: seq<FieldType>)
    requires AllWellFormed(ps)
    ensures |ParamTypes(t, ps)| == TotalSlots(ps)
  {
    if ps != [] {
      SpelledWidth(t, ps[0]);
      ParamWords(t, ps[1..]);
    }
  }

  /** The typed argument words are as many as `createFrame` copies. */
  lemma {:induction false} ArgTypesLength(p: Program, t: Typed, m: MethodPtr)
    requires Sound(p) && IsMethod(p.classes, m)
    ensures |ArgTypes(p, t, m)| == ArgsOf(p, m)
  {
    ParamWords(t, SignatureOf(p, m).params);
  }

  lemma {:induction false} AnysTyped(cs: seq<ClassBlock>, heap: seq<Obj>, n: nat)
    requires Ordered(cs)
    ensures AllTyped(cs, heap, Zeros(n), Anys(n))
  {
  }

  lemma {:induction false} SoundFacts(p: Program, m: MethodPtr)
    requires Sound(p)
    ensures Ordered(p.classes) && (m in p.code ==> IsMethod(p.classes, m))
  {
  }

  /** The frame of a callee conforms to the type of its first instruction. */
  lemma {:induction false} CalleeTyped(p: Program, t: Typed, heap: seq<Obj>, m: MethodPtr, args: seq<Word>)
    requires WellTyped(p, t) && m in p.code && p.code[m].bytes != []
             && AllTyped(p.classes, heap, args, ArgTypes(p, t, m))
    ensures |args| <= p.code[m].maxLocals
    ensures FrameTyped(p, t, heap, Frame(m, Entered(args, p.code[m].maxLocals), [], 0), [])
  {
    hide AllTyped, AllSub, Sound, ArgTypes, TypedAt;
    SoundFacts(p, m);
    assert MethodTyped(p, t, m);
    var maxLocals, ats, ft := p.code[m].maxLocals, ArgTypes(p, t, m), t.maps[m][0];
    SameLength(p.classes, heap, args, ats);
    AnysTyped(p.classes, heap, maxLocals - |args|);
    TypedJoin(p.classes, heap, args, Zeros(maxLocals - |args|), ats, Anys(maxLocals - |ats|));
    AllSubsume(p.classes, heap, Entered(args, maxLocals), ats + Anys(maxLocals - |ats|), ft.locals);
    NoneTyped(p.classes, heap);
    NoneSub(p.classes);
  }

  /** A call with typed arguments, from a frame that then waits for the result. */
  lemma {:induction false} InvokeIsSafe(p: Program, t: Typed, s: State, m: MethodPtr, next: nat)
    requires WellTyped(p, t) && Shaped(p, s) && IsMethod(p.classes, m) && HeapTyped(p, t, s.heap)
    requires var f, n := s.frames[0], |ArgTypes(p, t, m)|;
             && n <= |f.stack| && AllTyped(p.classes, s.heap, f.stack[|f.stack| - n..], ArgTypes(p, t, m))
             && FrameTyped(p, t, s.heap, f.(stack := f.stack[..|f.stack| - n], pc := next), ResultTypes(p, t, m))
             && FramesTyped(p, t, s.heap, s.frames[1..], ResultTypes(p, t, f.mb))
    ensures Safe(p, t, Invoke(p, s, m, next))
    ensures var r := Invoke(p, s, m, next); r.Stop? ==> r.fault == NoCode
  {
    hide Sound, AllTyped, MethodTyped, FrameTyped, HeapTyped, ArgTypes, ResultTypes, ArgsCount, Entered;
    ArgTypesLength(p, t, m);
    if m in p.code && p.code[m].bytes != [] {
      var f, n := s.frames[0], |ArgTypes(p, t, m)|;
      var rest := |f.stack| - n;
      CalleeTyped(p, t, s.heap, m, f.stack[rest..]);
      var callee := Frame(m, Entered(f.stack[rest..], p.code[m].maxLocals), [], 0);
      var caller := f.(stack := f.stack[..rest], pc := next);
      var frames := [callee, caller] + s.frames[1..];
      assert frames[1..] == [caller] + s.frames[1..] && frames[1..][1..] == s.frames[1..];
      assert FramesTyped(p, t, s.heap, frames[1..], ResultTypes(p, t, m));
    }
  }

  /** What CallFlow promises: typed arguments on top, and behind the call a frame that waits. */
  lemma {:induction false} CallerWaits(p: Program, t: Typed, heap: seq<Obj>, m: MethodPtr, f: Frame, ft: FrameType,
                                       maxStack: nat, next: nat)
    requires Sound(p) && IsMethod(p.classes, m) && f.mb in p.code && f.mb in t.maps && next in t.maps[f.mb]
    requires Conforms(p.classes, heap, f, ft) && CallFlow(p, t, m, ft, maxStack).Some?
    requires FrameSub(p.classes, CallFlow(p, t, m, ft, maxStack).value, t.maps[f.mb][next])
    ensures var n := |ArgTypes(p, t, m)|;
            && n <= |f.stack| && AllTyped(p.classes, heap, f.stack[|f.stack| - n..], ArgTypes(p, t, m))
            && FrameTyped(p, t, heap, f.(stack := f.stack[..|f.stack| - n], pc := next), ResultTypes(p, t, m))
  {
    hide Sound, AllTyped, FrameTyped, ArgTypes, ResultTypes, OnTop, FrameSub;
    SoundFacts(p, m);
    var n := |ArgTypes(p, t, m)|;
    StackTyped(p.classes, heap, f, ft);
    TopWords(p.classes, heap, f.stack, ft.stack, ArgTypes(p, t, m));
    Waits(p, t, heap, f.(stack := f.stack[..|f.stack| - n], pc := next), ft.(stack := ft.stack[..|ft.stack| - n]),
          ResultTypes(p, t, m));
  }

  lemma {:induction false} DirectIsSafe(p: Program, t: Typed, s: State, i: nat, next: nat)
    requires WellTyped(p, t) && Before(p, t, s, InvokeDirect(i), next)
    ensures Safe(p, t, Execute(p, s, InvokeDirect(i), next))
  {
    hide FrameSub, Parsed, MethodRef, HeapTyped, Conforms, Invoke, CallFlow, FrameTyped, MethodTyped, ArgTypes;
    hide ResultTypes, AllTyped;
    var f := s.frames[0];
    var ft := t.maps[f.mb][f.pc];
    var m := MethodRef(p, f.mb.cls, i).value;
    CallerWaits(p, t, s.heap, m, f, ft, p.code[f.mb].maxStack, next);
    InvokeIsSafe(p, t, s, m, next);
  }

  /** The entry that a virtual call finds for a receiver of the declared class: it exists, has the
      descriptor of the resolved method, and belongs to a class of which the receiver is an
      instance. */
  lemma {:induction false} EntryFits(cs: seq<ClassBlock>, c: nat, m: MethodPtr)
    requires Ordered(cs) && c < |cs| && Dispatch.Ready(cs, c) && Dispatch.Uniform(cs, c)
    requires IsMethod(cs, m) && Ancestor(cs, c, m.cls) && Linking.Virtual(MethodAt(cs, m))
    ensures var k := MethodAt(cs, m).tableIdx;
            && k < |cs[c].table| && cs[c].table[k].Some? && IsMethod(cs, cs[c].table[k].value)
            && var e := cs[c].table[k].value;
               Ancestor(cs, c, e.cls) && Linking.Virtual(MethodAt(cs, e)) && MethodAt(cs, e).typ == MethodAt(cs, m).typ
  {
    hide Dispatch.Ready, Dispatch.Uniform, Dispatch.CorrectChain;
    var mb := MethodAt(cs, m);
    Dispatch.UniformImpliesCorrect(cs, c);
    Dispatch.CorrectHere(cs, c);
    assert Dispatch.Dispatches(cs, c, m);
    Dispatch.TableSizes(cs, c);
    Dispatch.EntryIsFound(cs, c, mb.tableIdx);
    FoundInAncestor(cs, c, mb.name, mb.typ);
  }

  /** The arguments typed for the resolved method are typed for the method dispatched to. */
  lemma {:induction false} Redirected(p: Program, t: Typed, heap: seq<Obj>, m: MethodPtr, e: MethodPtr, args: seq<Word>)
    requires Sound(p) && IsMethod(p.classes, m) && IsMethod(p.classes, e)
    requires !MethodAt(p.classes, m).isStatic && !MethodAt(p.classes, e).isStatic
    requires MethodAt(p.classes, e).typ == MethodAt(p.classes, m).typ
    requires AllTyped(p.classes, heap, args, ArgTypes(p, t, m))
    requires args != [] && HasType(p.classes, heap, args[0], Ref(e.cls))
    ensures AllTyped(p.classes, heap, args, ArgTypes(p, t, e)) && |ArgTypes(p, t, e)| == |ArgTypes(p, t, m)|
    ensures ResultTypes(p, t, e) == ResultTypes(p, t, m)
  {
    hide HasType, Parsed;
    assert forall i :: 1 <= i < |args| ==> ArgTypes(p, t, e)[i] == ArgTypes(p, t, m)[i];
  }

  /** The table of the receiver's class has an entry that fits at the index of the method. */
  lemma {:induction false} ReceiverDispatches(p: Program, t: Typed, heap: seq<Obj>, ref: Word, m: MethodPtr)
    requires Ordered(p.classes) && HeapTyped(p, t, heap) && IsMethod(p.classes, m)
             && Linking.Virtual(MethodAt(p.classes, m))
    requires ref != 0 && HasType(p.classes, heap, ref, Ref(m.cls))
    ensures ref <= |heap| && heap[ref - 1].cls < |p.classes|
    ensures var table, k := p.classes[heap[ref - 1].cls].table, MethodAt(p.classes, m).tableIdx;
            && k < |table| && table[k].Some? && IsMethod(p.classes, table[k].value)
            && HasType(p.classes, heap, ref, Ref(table[k].value.cls))
            && !MethodAt(p.classes, table[k].value).isStatic
            && MethodAt(p.classes, table[k].value).typ == MethodAt(p.classes, m).typ
  {
    hide Dispatch.Ready, Dispatch.Uniform, Layout.LaidOut, FieldTyped;
    assert ObjTyped(p, t, heap, heap[ref - 1]);
    EntryFits(p.classes, heap[ref - 1].cls, m);
  }

  /** What `invokevirtual` finds, for typed arguments: no null check fails silently, no access
      misses the table, and the method found fits the arguments. */
  lemma {:induction false} ReceiveFits(p: Program, t: Typed, s: State, m: MethodPtr)
    requires Sound(p) && Shaped(p, s) && HeapTyped(p, t, s.heap) && IsMethod(p.classes, m)
             && Linking.Virtual(MethodAt(p.classes, m))
    requires var f, n := s.frames[0], |ArgTypes(p, t, m)|;
             n <= |f.stack| && AllTyped(p.classes, s.heap, f.stack[|f.stack| - n..], ArgTypes(p, t, m))
    ensures var r := Receive(p, s, m); var f, n := s.frames[0], |ArgTypes(p, t, m)|;
            r == Fail(AssertionFailed)
            || (r.Ok? && |ArgTypes(p, t, r.value)| == n
                && AllTyped(p.classes, s.heap, f.stack[|f.stack| - n..], ArgTypes(p, t, r.value))
                && ResultTypes(p, t, r.value) == ResultTypes(p, t, m))
  {
    hide AllTyped, Parsed, ResultTypes, ArgTypes, ArgsCount, HeapTyped, HasType;
    ArgTypesLength(p, t, m);
    var f, n := s.frames[0], |ArgTypes(p, t, m)|;
    var under := |f.stack| - n;
    var args := f.stack[under..];
    var ref := f.stack[under];
    assert args[0] == ref;
    ReceiverTyped(p, t, s.heap, m, args);
    if ref != 0 {
      ReceiverDispatches(p, t, s.heap, ref, m);
      var e := p.classes[s.heap[ref - 1].cls].table[MethodAt(p.classes, m).tableIdx].value;
      Redirected(p, t, s.heap, m, e, args);
    }
  }

  lemma {:induction false} ReceiverTyped(p: Program, t: Typed, heap: seq<Obj>, m: MethodPtr, args: seq<Word>)
    requires Sound(p) && IsMethod(p.classes, m) && !MethodAt(p.classes, m).isStatic
    requires AllTyped(p.classes, heap, args, ArgTypes(p, t, m))
    ensures args != [] && HasType(p.classes, heap, args[0], Ref(m.cls))
  {
    assert ArgTypes(p, t, m)[0] == Ref(m.cls);
  }

  lemma {:induction false} VirtualIsSafe(p: Program, t: Typed, s: State, i: nat, next: nat)
    requires WellTyped(p, t) && Before(p, t, s, InvokeVirtual(i), next)
    ensures Safe(p, t, Execute(p, s, InvokeVirtual(i), next))
    ensures var r := Execute(p, s, InvokeVirtual(i), next); r.Stop? ==> r.fault == AssertionFailed || r.fault == NoCode
  {
    hide FrameSub, Parsed, MethodRef, HeapTyped, Conforms, Invoke, CallFlow, FrameTyped, MethodTyped, ArgTypes;
    hide ResultTypes, AllTyped, Receive;
    var f := s.frames[0];
    var ft := t.maps[f.mb][f.pc];
    var m := MethodRef(p, f.mb.cls, i).value;
    CallerWaits(p, t, s.heap, m, f, ft, p.code[f.mb].maxStack, next);
    ReceiveFits(p, t, s, m);
    var r := Receive(p, s, m);
    if r.Ok? {
      InvokeIsSafe(p, t, s, r.value, next);
    }
  }

  lemma {:induction false} ReturnIsSafe(p: Program, t: Typed, s: State, ins: Instr, next: nat)
    requires WellTyped(p, t) && Before(p, t, s, ins, next) && Returns(ins)
    ensures Safe(p, t, Execute(p, s, ins, next))
    ensures Execute(p, s, ins, next).Stop? <==> ins.ReturnValue? && |s.frames| == 1
    ensures var r := Execute(p, s, ins, next); r.Stop? ==> r.fault == NullDereference
  {
    hide Sound, FrameSub, HeapTyped, Conforms, FrameTyped, MethodTyped, ResultTypes, AllTyped, OnTop;
    var f := s.frames[0];
    var ft := t.maps[f.mb][f.pc];
    SoundFacts(p, f.mb);
    var res := ResultTypes(p, t, f.mb);
    StackTyped(p.classes, s.heap, f, ft);
    TopWords(p.classes, s.heap, f.stack, ft.stack, res);
    if |s.frames| > 1 {
      var to := s.frames[1];
      assert FramesTyped(p, t, s.heap, s.frames[1..], res);
      assert s.frames[1..][0] == to && s.frames[1..][1..] == s.frames[2..];
      var ret := f.stack[|f.stack| - |res|..];
      Receives(p, t, s.heap, to, res, ret);
      RoomFor(p, t, s.heap, to, res);
      var frames := [to.(stack := to.stack + ret)] + s.frames[2..];
      assert frames[1..] == s.frames[2..];
      if ins.ReturnVoid? {
        assert ret == [] && to.stack + ret == to.stack;
        assert frames == s.frames[1..];
      }
    }
  }

  /** The words a waiting frame is due fit on its stack. */
  lemma {:induction false} RoomFor(p: Program, t: Typed, heap: seq<Obj>, f: Frame, res: seq<WordType>)
    requires WellTyped(p, t) && FrameTyped(p, t, heap, f, res)
    ensures |f.stack| + |res| <= p.code[f.mb].maxStack
  {
    hide Sound, AllTyped, AllSub;
    assert MethodTyped(p, t, f.mb);
    assert TypedAt(p, t, f.mb, t.maps[f.mb], f.pc);
  }

  // ----- whole runs -----

  lemma {:induction false} TopIsBefore(p: Program, t: Typed, s: State)
    requires WellTyped(p, t) && Shaped(p, s) && StateTyped(p, t, s)
    ensures var f := s.frames[0]; var code := p.code[f.mb].bytes;
            && 0 <= f.pc < |code| && Decode(code, f.pc).Some?
            && Before(p, t, s, Decode(code, f.pc).value.0, Decode(code, f.pc).value.1)
  {
    hide Sound, AllTyped, AllSub, Flow, GoesTo, Decode, ReturnTyped, HeapTyped, FrameSub;
    var f := s.frames[0];
    SoundFacts(p, f.mb);
    TopConforms(p, t, s.heap, f);
    assert MethodTyped(p, t, f.mb);
    assert TypedAt(p, t, f.mb, t.maps[f.mb], f.pc);
  }

  /** One step of a typed state: another typed state, the end of the run, or one of the exits
      the source takes on a null reference, a bad division, exhausted memory or a missing body. */
  lemma {:induction false} StepIsSafe(p: Program, t: Typed, s: State)
    requires WellTyped(p, t) && Shaped(p, s) && StateTyped(p, t, s)
    ensures Safe(p, t, Step(p, s))
  {
    hide Before, Decode, Execute, StateTyped, MethodTyped, Parsed;
    TopIsBefore(p, t, s);
    var f := s.frames[0];
    var d := Decode(p.code[f.mb].bytes, f.pc).value;
    var ins, next := d.0, d.1;
    if Returns(ins) {
      ReturnIsSafe(p, t, s, ins, next);
    } else {
      match ins
      case GetField(i) => GetFieldIsSafe(p, t, s, i, next);
      case PutField(i) => PutFieldIsSafe(p, t, s, i, next);
      case New(i) => NewIsSafe(p, t, s, i, next);
      case InvokeDirect(i) => DirectIsSafe(p, t, s, i, next);
      case InvokeVirtual(i) => VirtualIsSafe(p, t, s, i, next);
      case _ => LocalIsSafe(p, t, s, ins, next);
    }
  }

  /** Whole-run safety: no run of a well-typed program from a typed state reaches the "stack
      error" exit, an access outside its memory, a missing method, an unresolved reference or
      bytes that are no instruction. */
  lemma {:induction false} RunIsSafe(p: Program, t: Typed, s: State, n: nat)
    requires WellTyped(p, t) && Shaped(p, s) && StateTyped(p, t, s)
    ensures Safe(p, t, Run(p, s, n))
    ensures var r := Run(p, s, n); r.Stop? ==>
              r.fault != StackError && r.fault != Wild && r.fault != NoSuchMethod && r.fault != Unresolved
              && r.fault != BadCode
    decreases n
  {
    hide Step, StateTyped, MethodTyped, Sound;
    if n > 0 {
      StepIsSafe(p, t, s);
      if Step(p, s).Next? {
        StepKeepsShape(p, s);
        RunIsSafe(p, t, Step(p, s).state, n - 1);
      }
    }
  }

  /** A frame entered with typed arguments and no caller starts a typed run. */
  lemma {:induction false} EntryIsTyped(p: Program, t: Typed, m: MethodPtr, args: seq<Word>)
    requires WellTyped(p, t) && m in p.code && p.code[m].bytes != [] && AllTyped(p.classes, [], args, ArgTypes(p, t, m))
    ensures |args| <= p.code[m].maxLocals
    ensures var s := State([Frame(m, Entered(args, p.code[m].maxLocals), [], 0)], []);
            Shaped(p, s) && StateTyped(p, t, s)
  {
    hide Sound, AllTyped, MethodTyped, FrameTyped, ArgTypes;
    SoundFacts(p, m);
    CalleeTyped(p, t, [], m, args);
    var f := Frame(m, Entered(args, p.code[m].maxLocals), [], 0);
    assert [f][1..] == [] && FramesTyped(p, t, [], [], ResultTypes(p, t, m));
  }

  /** In a typed program a completed call hands over exactly the words of the method's return
      type, the topmost of the frame that ends: the caller's stack changes by these minus the
      argument words. */
  lemma {:induction false} TypedCallReturns(p: Program, t: Typed, s: State, n: nat) returns (ret: seq<Word>)
    requires WellTyped(p, t) && Shaped(p, s) && StateTyped(p, t, s) && Step(p, s).Next?
    requires var s1 := Step(p, s).state; |s1.frames| > |s.frames| && Shaped(p, s1) && StaysAbove(p, s1, n, |s.frames|)
    requires Run(p, Step(p, s).state, n).Next? && Shaped(p, Run(p, Step(p, s).state, n).state)
    requires Step(p, Run(p, Step(p, s).state, n).state).Next?
    requires |Step(p, Run(p, Step(p, s).state, n).state).state.frames| == |s.frames|
    ensures var f, m := s.frames[0], Step(p, s).state.frames[0].mb;
            var s2 := Run(p, Step(p, s).state, n).state;
            var s3 := Step(p, s2).state;
            && s2.frames[0].mb == m && IsTop(s2.frames[0].stack, ret)
            && IsMethod(p.classes, m) && ArgsOf(p, m) <= |f.stack|
            && s3.frames[0].stack == f.stack[..|f.stack| - ArgsOf(p, m)] + ret
            && s3.frames[0].locals == f.locals && s3.frames[0].mb == f.mb && s3.frames[1..] == s.frames[1..]
            && |ret| == |ResultTypes(p, t, m)|
            && |s3.frames[0].stack| == |f.stack| + |ResultTypes(p, t, m)| - ArgsOf(p, m)
  {
    hide Step, Run, StateTyped, MethodTyped, Sound, Decode, ArgsOf, ResultTypes, Before, StaysAbove;
    ret := CallReturns(p, s, n);
    RunKeepsBelow(p, Step(p, s).state, n, |s.frames|);
    StepIsSafe(p, t, s);
    RunIsSafe(p, t, Step(p, s).state, n);
    var s2 := Run(p, Step(p, s).state, n).state;
    ReturnWords(p, t, s2);
  }

  lemma {:induction false} ReturnWords(p: Program, t: Typed, s: State)
    requires WellTyped(p, t) && Shaped(p, s) && StateTyped(p, t, s) && Step(p, s).Next?
             && |Step(p, s).state.frames| < |s.frames|
    ensures IsMethod(p.classes, s.frames[0].mb) && |ResultTypes(p, t, s.frames[0].mb)| == ReturnSize(p, s.frames[0])
  {
    hide Step, StateTyped, MethodTyped, Sound, Decode, ResultTypes, Flow, OnTop, Conforms, FrameSub;
    TopIsBefore(p, t, s);
    StepCases(p, s);
    SoundFacts(p, s.frames[0].mb);
  }
}
