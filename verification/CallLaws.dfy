/**
 Laws over the bytes of a method, concluded: calls and what they hand back, virtual dispatch, new
 objects and fields.
*/
module CallLaws {
  import opened Options
  import opened Words
  import opened Classes
  import opened Descriptors
  import opened Bytecode
  import opened Frames
  import opened Machine
  import opened Laws
  import opened ControlLaws
  import opened RunLaws
  import Dispatch
  import Layout
  import Linking

  // ----- calls -----

  /** The words a method takes: those of its parameters, and one for the receiver. */
  ghost function Taken(p: Program, m: MethodPtr): nat
    requires IsMethod(p.classes, m) && MethodAt(p.classes, m).typ in p.signatures
  {
    TotalSlots(p.signatures[MethodAt(p.classes, m).typ].params) + if MethodAt(p.classes, m).isStatic then 0 else 1
  }

  /** The state after a call of m: the arguments are the first locals of a new frame, and gone
      from the stack of the caller. */
  ghost function Entering(p: Program, s: State, m: MethodPtr, rest: seq<Word>, args: seq<Word>, pc: int): State
    requires s.frames != [] && m in p.code && |args| <= p.code[m].maxLocals
  {
    var locals := args + seq(p.code[m].maxLocals - |args|, _ => 0);
    State([Frame(m, locals, [], 0), s.frames[0].(stack := rest, pc := pc)] + s.frames[1..], s.heap)
  }

  lemma {:induction false} ZerosAre(n: nat)
    ensures Zeros(n) == seq(n, _ => 0)
  {
  }

  lemma {:induction false} MethodFacts(p: Program, m: MethodPtr)
    requires Sound(p) && IsMethod(p.classes, m)
    ensures MethodAt(p.classes, m).typ in p.signatures
    ensures Taken(p, m) == ArgWords(MethodAt(p.classes, m).isStatic, ArgsCount(p, m))
  {
    assert Parsed(p, MethodAt(p.classes, m).typ);
  }

  lemma {:induction false} InvokeIs(p: Program, s: State, m: MethodPtr, next: nat, rest: seq<Word>, args: seq<Word>)
    requires Sound(p) && Shaped(p, s) && IsMethod(p.classes, m) && MethodAt(p.classes, m).typ in p.signatures
    requires m in p.code && p.code[m].bytes != [] && s.frames[0].stack == rest + args
    requires |args| == Taken(p, m) && |args| <= p.code[m].maxLocals
    ensures Invoke(p, s, m, next) == Next(Entering(p, s, m, rest, args, next))
  {
    hide Sound, FrameShaped, ArgsCount, Taken, Zeros;
    MethodFacts(p, m);
    ZerosAre(p.code[m].maxLocals - |args|);
    var f := s.frames[0];
    assert f.stack[..|rest|] == rest && f.stack[|rest|..] == args;
  }

  /** The method that two operand bytes resolve to in the class of the running method. */
  ghost predicate Names(p: Program, s: State, h: Byte, l: Byte, m: MethodPtr) {
    && s.frames != [] && (s.frames[0].mb.cls, Number([h, l])) in p.methods
    && p.methods[(s.frames[0].mb.cls, Number([h, l]))] == m
  }

  lemma {:induction false} NamesMethod(p: Program, s: State, h: Byte, l: Byte, m: MethodPtr)
    requires Sound(p) && Names(p, s, h, l, m)
    ensures IsMethod(p.classes, m) && MethodAt(p.classes, m).typ in p.signatures
    ensures MethodRef(p, s.frames[0].mb.cls, Number([h, l])) == Some(m)
  {
    hide Number;
    assert Parsed(p, MethodAt(p.classes, m).typ);
  }

  /** invokespecial and invokestatic run the method their operand names. */
  lemma {:induction false} DirectCall(p: Program, s: State, b: Byte, h: Byte, l: Byte, m: MethodPtr, rest: seq<Word>,
                                      args: seq<Word>)
    requires Stands(p, s, [b, h, l]) && (b == 183 || b == 184) && Names(p, s, h, l, m)
    requires IsMethod(p.classes, m) && MethodAt(p.classes, m).typ in p.signatures
    requires m in p.code && p.code[m].bytes != [] && s.frames[0].stack == rest + args
    requires |args| == Taken(p, m) && |args| <= p.code[m].maxLocals
    ensures Step(p, s) == Next(Entering(p, s, m, rest, args, s.frames[0].pc + 3))
  {
    hide Stands, Sound, Decode, Invoke, Entering, Names, Taken, Number, ReadU2, MethodRef;
    DecodedHere(p, s, [b, h, l]);
    Known(p, s, [b, h, l]);
    assert [b, h, l][1..] == [h, l];
    NamesMethod(p, s, h, l, m);
    InvokeIs(p, s, m, s.frames[0].pc + 3, rest, args);
  }

  /** invokevirtual runs what lookup by name finds from the class of the object under the
      arguments, with that object as the first argument; null fails the assertion. */
  lemma {:induction false} VirtualCall(p: Program, s: State, h: Byte, l: Byte, m: MethodPtr, rest: seq<Word>,
                                       args: seq<Word>)
    requires Stands(p, s, [182, h, l]) && Names(p, s, h, l, m)
    requires IsMethod(p.classes, m) && MethodAt(p.classes, m).typ in p.signatures && Ordered(p.classes)
    requires Linking.Virtual(MethodAt(p.classes, m)) && s.frames[0].stack == rest + args && |args| == Taken(p, m)
    ensures args[0] == 0 ==> Step(p, s) == Stop(AssertionFailed)
    ensures 0 < args[0] <= |s.heap| ==>
              var c := s.heap[args[0] - 1].cls;
              c < |p.classes| && Dispatch.Ready(p.classes, c) && Dispatch.Uniform(p.classes, c)
              && Ancestor(p.classes, c, m.cls) ==>
                var e := FindMethod(p.classes, c, MethodAt(p.classes, m).name, MethodAt(p.classes, m).typ);
                && e.Some?
                && (e.value in p.code && p.code[e.value].bytes != [] && |args| <= p.code[e.value].maxLocals ==>
                      Step(p, s) == Next(Entering(p, s, e.value, rest, args, s.frames[0].pc + 3)))
  {
    hide Stands, Sound, Step, Entering, Names, Dispatch.Ready, Dispatch.Uniform, Receive, Invoke, FindMethod, Taken;
    StackFits(p, s, [182, h, l]);
    Known(p, s, [182, h, l]);
    VirtualStep(p, s, h, l, m);
    ReceiverIs(p, s, m, rest, args);
    if 0 < args[0] <= |s.heap| {
      var c := s.heap[args[0] - 1].cls;
      if c < |p.classes| && Dispatch.Ready(p.classes, c) && Dispatch.Uniform(p.classes, c)
         && Ancestor(p.classes, c, m.cls) {
        EntryFound(p, c, m);
        var e := FindMethod(p.classes, c, MethodAt(p.classes, m).name, MethodAt(p.classes, m).typ).value;
        if e in p.code && p.code[e].bytes != [] && |args| <= p.code[e].maxLocals {
          InvokeIs(p, s, e, s.frames[0].pc + 3, rest, args);
        }
      }
    }
  }

  lemma {:induction false} VirtualStep(p: Program, s: State, h: Byte, l: Byte, m: MethodPtr)
    requires Stands(p, s, [182, h, l]) && Names(p, s, h, l, m)
    ensures Sound(p) && Shaped(p, s) && IsMethod(p.classes, m)
    ensures var r := Receive(p, s, m);
            Step(p, s) == if r.Fail? then Stop(r.fault) else Invoke(p, s, r.value, s.frames[0].pc + 3)
  {
    hide Stands, Sound, Decode, Invoke, Receive, Names, Number, ReadU2, MethodRef;
    DecodedHere(p, s, [182, h, l]);
    Known(p, s, [182, h, l]);
    assert [182, h, l][1..] == [h, l];
    NamesMethod(p, s, h, l, m);
  }

  /** The receiver is the first argument word. */
  lemma {:induction false} ReceiverIs(p: Program, s: State, m: MethodPtr, rest: seq<Word>, args: seq<Word>)
    requires Sound(p) && Shaped(p, s) && IsMethod(p.classes, m) && !MethodAt(p.classes, m).isStatic
    requires MethodAt(p.classes, m).typ in p.signatures
    requires s.frames[0].stack == rest + args && |args| == Taken(p, m)
    ensures |args| > 0
    ensures args[0] == 0 ==> Receive(p, s, m) == Fail(AssertionFailed)
    ensures 0 < args[0] <= |s.heap| ==>
              var table, k := p.classes[s.heap[args[0] - 1].cls].table, MethodAt(p.classes, m).tableIdx;
              k < |table| && table[k].Some? ==> Receive(p, s, m) == Ok(table[k].value)
  {
    hide Sound, ArgsCount;
    MethodFacts(p, m);
    assert s.frames[0].stack[|rest|] == args[0];
  }

  /** The table entry at the index of m is what lookup by name finds, and takes as many words. */
  lemma {:induction false} EntryFound(p: Program, c: nat, m: MethodPtr)
    requires Sound(p) && c < |p.classes| && Dispatch.Ready(p.classes, c) && Dispatch.Uniform(p.classes, c)
    requires IsMethod(p.classes, m) && Ancestor(p.classes, c, m.cls) && Linking.Virtual(MethodAt(p.classes, m))
    requires MethodAt(p.classes, m).typ in p.signatures
    ensures var k, e := MethodAt(p.classes, m).tableIdx,
                        FindMethod(p.classes, c, MethodAt(p.classes, m).name, MethodAt(p.classes, m).typ);
            && k < |p.classes[c].table| && p.classes[c].table[k] == e && e.Some? && IsMethod(p.classes, e.value)
            && MethodAt(p.classes, e.value).typ == MethodAt(p.classes, m).typ && Taken(p, e.value) == Taken(p, m)
  {
    hide Dispatch.Ready, Dispatch.Uniform, FindMethod;
    var cs := p.classes;
    Dispatch.UniformImpliesCorrect(cs, c);
    Dispatch.CorrectHere(cs, c);
    assert Dispatch.Dispatches(cs, c, m);
    DeclaredIsFound(cs, c, m);
    Dispatch.TableSizes(cs, c);
    Dispatch.EntryIsFound(cs, c, MethodAt(cs, m).tableIdx);
  }

  // ----- returns -----

  /** ireturn and areturn hand the topmost word to the caller, dreturn the two topmost words in
      their order, return none; the rest of the frame is dropped. */
  lemma {:induction false} HandsBack(p: Program, s: State, b: Byte, under: seq<Word>, ws: seq<Word>)
    requires Stands(p, s, [b]) && (b == 172 || b == 175 || b == 176 || b == 177)
    requires |ws| == (if b == 175 then 2 else if b == 177 then 0 else 1) && s.frames[0].stack == under + ws
    requires |s.frames| > 1 && s.frames[1].mb in p.code
    requires |s.frames[1].stack| + |ws| <= p.code[s.frames[1].mb].maxStack
    ensures Step(p, s) == Next(State([s.frames[1].(stack := s.frames[1].stack + ws)] + s.frames[2..], s.heap))
  {
    hide Stands, Sound, Decode;
    DecodedHere(p, s, [b]);
    Known(p, s, [b]);
    var f, to := s.frames[0], s.frames[1];
    assert f.stack[|under|..] == ws;
    if b == 177 {
      assert to.stack + ws == to.stack;
      assert s.frames[1..] == [to] + s.frames[2..];
    }
  }

  /** Outside its code a method ends without a result; the end of the last one is the end. */
  lemma {:induction false} FallsOff(p: Program, s: State)
    requires Sound(p) && Shaped(p, s) && !(0 <= s.frames[0].pc < |p.code[s.frames[0].mb].bytes|)
    ensures Step(p, s) == if |s.frames| == 1 then Done(s.heap) else Next(State(s.frames[1..], s.heap))
  {
    hide Sound;
  }

  /** A method that only returns its argument, one word or two. */
  ghost predicate ReturnsArgument(p: Program, m: MethodPtr, n: nat) {
    && IsMethod(p.classes, m) && MethodAt(p.classes, m).isStatic && MethodAt(p.classes, m).typ in p.signatures
    && Taken(p, m) == n && m in p.code && n <= p.code[m].maxLocals && n <= p.code[m].maxStack
    && ((n == 1 && p.code[m].bytes == [26, 172]) || (n == 2 && p.code[m].bytes == [38, 175]))
  }

  /** A call of such a method leaves the caller's stack exactly as it was, for every argument. */
  lemma {:induction false} ArgumentComesBack(p: Program, s: State, h: Byte, l: Byte, m: MethodPtr, rest: seq<Word>,
                                             args: seq<Word>)
    requires Stands(p, s, [184, h, l]) && Names(p, s, h, l, m) && ReturnsArgument(p, m, |args|)
    requires s.frames[0].stack == rest + args
    ensures Leaves(p, s, [184, h, l], 3, s.frames[0].locals, rest + args)
  {
    hide Stands, Sound, Step, Names, Entering, Run, Taken, Number;
    StackFits(p, s, [184, h, l]);
    Known(p, s, [184, h, l]);
    DirectCall(p, s, 184, h, l, m, rest, args);
    StepKeepsShape(p, s);
    var s1, code := Step(p, s).state, p.code[m].bytes;
    EnteringIs(p, s, m, rest, args, s.frames[0].pc + 3);
    assert s1.frames[0].locals[..|args|] == args;
    assert code[0..1] == [code[0]] && code[1..2] == [code[1]];
    StandsIn(p, s1, [code[0]]);
    Loads(p, s1, [code[0]], 0, |args| == 2);
    var locals := s1.frames[0].locals;
    assert [] + locals[0..|args|] == args;
    StepKeepsShape(p, s1);
    var s2 := Step(p, s1).state;
    MovedIs(s1, locals, args, 1);
    StandsIn(p, s2, [code[1]]);
    HandsBack(p, s2, code[1], [], args);
    ThreeSteps(p, s);
    var caller := s.frames[0].(stack := rest, pc := s.frames[0].pc + 3);
    assert s2.frames[1] == caller && s2.frames[2..] == s.frames[1..];
  }

  lemma {:induction false} EnteringIs(p: Program, s: State, m: MethodPtr, rest: seq<Word>, args: seq<Word>, pc: int)
    requires s.frames != [] && m in p.code && |args| <= p.code[m].maxLocals
    ensures var t := Entering(p, s, m, rest, args, pc);
            && |t.frames| > 1 && t.frames[0].mb == m && t.frames[0].pc == 0 && t.frames[0].stack == []
            && t.heap == s.heap
            && |t.frames[0].locals| == p.code[m].maxLocals && t.frames[0].locals[..|args|] == args
            && t.frames[1] == s.frames[0].(stack := rest, pc := pc) && t.frames[2..] == s.frames[1..]
  {
  }

  lemma {:induction false} MovedIs(s: State, locals: seq<Word>, stack: seq<Word>, k: nat)
    requires |s.frames| > 1
    ensures var t := Moved(s, locals, stack, s.frames[0].pc + k).state;
            && |t.frames| == |s.frames| && t.frames[0] == Frame(s.frames[0].mb, locals, stack, s.frames[0].pc + k)
            && t.frames[1] == s.frames[1] && t.frames[2..] == s.frames[2..] && t.heap == s.heap
  {
  }

  lemma {:induction false} StandsIn(p: Program, s: State, bytes: seq<Byte>)
    requires Sound(p) && Shaped(p, s)
    requires var f := s.frames[0]; var code := p.code[f.mb].bytes;
             0 <= f.pc && f.pc + |bytes| <= |code| && code[f.pc..f.pc + |bytes|] == bytes
    ensures Stands(p, s, bytes)
  {
    hide Sound;
  }

  lemma {:induction false} ThreeSteps(p: Program, s: State)
    requires Sound(p) && Shaped(p, s) && Step(p, s).Next? && Shaped(p, Step(p, s).state)
    requires Step(p, Step(p, s).state).Next? && Shaped(p, Step(p, Step(p, s).state).state)
    ensures Run(p, s, 3) == Step(p, Step(p, Step(p, s).state).state)
  {
    hide Sound, Shaped, Step;
    var s1 := Step(p, s).state;
    var s2 := Step(p, s1).state;
    StepKeepsShape(p, s);
    StepKeepsShape(p, s1);
    assert Run(p, s2, 1) == Step(p, s2) by {
      if Step(p, s2).Next? { StepKeepsShape(p, s2); assert Run(p, Step(p, s2).state, 0) == Step(p, s2); }
    }
    assert Run(p, s1, 2) == Run(p, s2, 1);
  }

  // ----- objects -----

  /** new makes an object of the class its operand names, with nothing but zeros in it, and pushes
      a reference that was not in use. */
  lemma {:induction false} MakesObject(p: Program, s: State, h: Byte, l: Byte, c: nat)
    requires Stands(p, s, [187, h, l]) && (s.frames[0].mb.cls, Number([h, l])) in p.types
    requires c == p.types[(s.frames[0].mb.cls, Number([h, l]))] && c < |p.classes|
    requires |s.frames[0].stack| < p.code[s.frames[0].mb].maxStack && |s.heap| + 1 < 0x1_0000_0000
    ensures var f := s.frames[0]; var o := Obj(c, seq(p.classes[c].objSize, _ => 0));
            Step(p, s) ==
              Next(State([f.(stack := f.stack + [|s.heap| + 1], pc := f.pc + 3)] + s.frames[1..], s.heap + [o]))
  {
    hide Stands, Sound, Decode, Number, ReadU2, Zeros;
    DecodedHere(p, s, [187, h, l]);
    Known(p, s, [187, h, l]);
    assert [187, h, l][1..] == [h, l];
    ZerosAre(p.classes[c].objSize);
  }

  /** The field that two operand bytes resolve to in the class of the running method. */
  ghost predicate NamesField(p: Program, s: State, h: Byte, l: Byte, fp: FieldPtr) {
    && s.frames != [] && (s.frames[0].mb.cls, Number([h, l])) in p.fields
    && p.fields[(s.frames[0].mb.cls, Number([h, l]))] == fp
  }

  /** getfield and putfield on null raise the exception. */
  lemma {:induction false} NullHasNoFields(p: Program, s: State, b: Byte, h: Byte, l: Byte, fp: FieldPtr,
                                           rest: seq<Word>, ws: seq<Word>)
    requires Stands(p, s, [b, h, l]) && (b == 180 || b == 181) && NamesField(p, s, h, l, fp)
    requires fp.cls < |p.classes| && fp.slot < |p.classes[fp.cls].fields|
    requires s.frames[0].stack == rest + [0] + ws
    requires |ws| == if b == 180 then 0 else FieldSize(Layout.FieldAt(p.classes, fp))
    ensures Step(p, s) == Stop(NullDereference)
  {
    hide Stands, Sound, Decode, GetFieldStep, PutFieldStep;
    StackFits(p, s, [b, h, l]);
    FieldStep(p, s, b, h, l, fp);
    var fb, next := Layout.FieldAt(p.classes, fp), s.frames[0].pc + 3;
    if b == 180 {
      assert rest + [0] + ws == rest + [0];
      GetFieldWith(p, s, fb, next, rest, 0);
    } else {
      PutFieldWith(p, s, fb, next, rest, 0, ws);
    }
  }

  /** long and double fields take two words, all others one. */
  ghost function FieldSize(fb: FieldBlock): nat {
    if fb.typ == "J" || fb.typ == "D" then 2 else 1
  }

  lemma {:induction false} FieldRefIs(p: Program, c: nat, i: nat, fp: FieldPtr)
    requires Sound(p) && (c, i) in p.fields && p.fields[(c, i)] == fp
    ensures FieldRef(p, c, i) == Some(fp) && fp.cls < |p.classes| && fp.slot < |p.classes[fp.cls].fields|
  {
  }

  lemma {:induction false} FieldStep(p: Program, s: State, b: Byte, h: Byte, l: Byte, fp: FieldPtr)
    requires Stands(p, s, [b, h, l]) && (b == 180 || b == 181) && NamesField(p, s, h, l, fp)
    ensures Sound(p) && Shaped(p, s) && fp.cls < |p.classes| && fp.slot < |p.classes[fp.cls].fields|
    ensures var fb, next := Layout.FieldAt(p.classes, fp), s.frames[0].pc + 3;
            Step(p, s) == if b == 180 then GetFieldStep(p, s, fb, next) else PutFieldStep(p, s, fb, next)
  {
    hide Stands, Sound, Decode, Number, ReadU2, GetFieldStep, PutFieldStep, FieldRef;
    DecodedHere(p, s, [b, h, l]);
    Known(p, s, [b, h, l]);
    FieldRefIs(p, s.frames[0].mb.cls, Number([h, l]), fp);
    assert [b, h, l][1..] == [h, l];
  }

  /** The field lies inside the words of the object; offsets count from 1. */
  ghost predicate Inside(data: seq<Word>, fb: FieldBlock) {
    1 <= fb.offset && fb.offset - 1 + FieldSize(fb) <= |data|
  }

  /** The words of a field in an object. */
  ghost function WordsIn(data: seq<Word>, fb: FieldBlock): seq<Word>
    requires Inside(data, fb)
  {
    data[fb.offset - 1..fb.offset - 1 + FieldSize(fb)]
  }

  /** The model's own bounds, loads and stores of a field are these. */
  lemma {:induction false} WordsAreIn(data: seq<Word>, fb: FieldBlock, ws: seq<Word>)
    ensures Inside(data, fb) <==> Layout.InBounds(data, fb)
    ensures Inside(data, fb) ==> ValueData(Layout.Load(data, fb)) == WordsIn(data, fb)
    ensures Inside(data, fb) && |ws| == FieldSize(fb) ==>
              WordsIn(Layout.Store(data, fb, FieldValue(fb, ws)), fb) == ws
  {
    if Inside(data, fb) {
      if FieldSize(fb) == 2 {
        SplitJoin(data[fb.offset - 1], data[fb.offset]);
        if |ws| == 2 { SplitJoin(ws[0], ws[1]); }
      }
    }
  }

  /** The object keeps its class and size and every field but fp. */
  ghost predicate OnlyField(p: Program, o: Obj, o': Obj, fp: FieldPtr)
    requires Ordered(p.classes) && o.cls < |p.classes|
  {
    && o'.cls == o.cls && |o'.data| == |o.data|
    && forall q :: Layout.Visible(p.classes, o.cls, q) && q != fp ==>
         var fb := Layout.FieldAt(p.classes, q);
         Inside(o.data, fb) && Inside(o'.data, fb) && WordsIn(o'.data, fb) == WordsIn(o.data, fb)
  }

  /** putfield changes the one field of the one object and leaves the words written in it. */
  lemma {:induction false} PutsField(p: Program, s: State, h: Byte, l: Byte, fp: FieldPtr, rest: seq<Word>, ref: Word,
                                     ws: seq<Word>) returns (o: Obj)
    requires Stands(p, s, [181, h, l]) && NamesField(p, s, h, l, fp) && Ordered(p.classes)
    requires s.frames[0].stack == rest + [ref] + ws && 0 < ref <= |s.heap| && s.heap[ref - 1].cls < |p.classes|
    requires Holder(p, s.heap[ref - 1], fp) && |ws| == FieldSize(Layout.FieldAt(p.classes, fp))
    ensures var f := s.frames[0];
            Step(p, s) == Next(State([f.(stack := rest, pc := f.pc + 3)] + s.frames[1..], s.heap[ref - 1 := o]))
    ensures OnlyField(p, s.heap[ref - 1], o, fp) && Holder(p, o, fp)
    ensures WordsIn(o.data, Layout.FieldAt(p.classes, fp)) == ws
  {
    hide Stands, Sound, Step, PutFieldStep, Layout.Store, Layout.Load, Layout.InBounds, Layout.Visible, Layout.LaidOut;
    StackFits(p, s, [181, h, l]);
    FieldStep(p, s, 181, h, l, fp);
    var fb, before := Layout.FieldAt(p.classes, fp), s.heap[ref - 1];
    var v := FieldValue(fb, ws);
    Layout.ReadAfterWrite(p.classes, before.cls, before.data, fp, v);
    PutFieldWith(p, s, fb, s.frames[0].pc + 3, rest, ref, ws);
    o := before.(data := Layout.Store(before.data, fb, v));
    WordsAreIn(before.data, fb, ws);
    WordsAreIn(o.data, fb, ws);
    OthersStay(p, before, o, fp, v);
  }

  lemma {:induction false} OthersStay(p: Program, o: Obj, o': Obj, fp: FieldPtr, v: Value)
    requires Ordered(p.classes) && Holder(p, o, fp)
    requires var fb := Layout.FieldAt(p.classes, fp);
             Layout.Fits(fb, v) && Layout.InBounds(o.data, fb) && o' == o.(data := Layout.Store(o.data, fb, v))
    ensures OnlyField(p, o, o', fp)
  {
    hide Layout.Store, Layout.Load, Layout.InBounds, Layout.LaidOut, Inside, WordsIn;
    Layout.ReadAfterWrite(p.classes, o.cls, o.data, fp, v);
    forall q | Layout.Visible(p.classes, o.cls, q) && q != fp
      ensures q.cls < |p.classes| && q.slot < |p.classes[q.cls].fields|
      ensures var fb := Layout.FieldAt(p.classes, q);
              Inside(o.data, fb) && Inside(o'.data, fb) && WordsIn(o'.data, fb) == WordsIn(o.data, fb)
    {
      WordsAreIn(o.data, Layout.FieldAt(p.classes, q), []);
      WordsAreIn(o'.data, Layout.FieldAt(p.classes, q), []);
      SameSize(o.data, o'.data, Layout.FieldAt(p.classes, q));
    }
  }

  lemma {:induction false} SameSize(data: seq<Word>, data': seq<Word>, fb: FieldBlock)
    requires |data'| == |data|
    ensures Inside(data, fb) <==> Inside(data', fb)
  {
  }

  /** An object laid out by its class, which has the field. */
  ghost predicate Holder(p: Program, o: Obj, fp: FieldPtr)
    requires Ordered(p.classes)
  {
    && o.cls < |p.classes| && Layout.LaidOut(p.classes, o.cls) && |o.data| == p.classes[o.cls].objSize
    && Layout.Visible(p.classes, o.cls, fp) && Inside(o.data, Layout.FieldAt(p.classes, fp))
  }

  /** getfield pushes the words of the field and changes no object. */
  lemma {:induction false} GetsField(p: Program, s: State, h: Byte, l: Byte, fp: FieldPtr, rest: seq<Word>, ref: Word)
    requires Stands(p, s, [180, h, l]) && NamesField(p, s, h, l, fp) && Ordered(p.classes)
    requires s.frames[0].stack == rest + [ref] && 0 < ref <= |s.heap| && Holder(p, s.heap[ref - 1], fp)
    requires |rest| + FieldSize(Layout.FieldAt(p.classes, fp)) <= p.code[s.frames[0].mb].maxStack
    ensures var ws := WordsIn(s.heap[ref - 1].data, Layout.FieldAt(p.classes, fp));
            Step(p, s) == Moved(s, s.frames[0].locals, rest + ws, s.frames[0].pc + 3)
  {
    hide Stands, Sound, Step, GetFieldStep, Layout.Visible, Layout.LaidOut;
    StackFits(p, s, [180, h, l]);
    FieldStep(p, s, 180, h, l, fp);
    WordsAreIn(s.heap[ref - 1].data, Layout.FieldAt(p.classes, fp), []);
    GetFieldWith(p, s, Layout.FieldAt(p.classes, fp), s.frames[0].pc + 3, rest, ref);
  }
}
