/**
 Stack heights alone: a map from addresses to heights that agrees along all branch, switch and
 call edges keeps every run away from the "stack error" exit, whatever the words on the stacks
 are. A virtual call counts with the words of the method it names, so the method its receiver's
 table leads to must take and leave as many. What such a map cannot rule out is a word used as a
 reference that is none; `TypeSafety` covers that with types for the words.
*/
module Heights {
  import opened Options
  import opened Words
  import opened Classes
  import opened Descriptors
  import opened Bytecode
  import opened Frames
  import opened Machine
  import opened Runs
  import Layout

  type HeightMap = map<MethodPtr, map<int, nat>>

  /** Words of a result, by the text of the return descriptor. */
  function RetSize(ret: string): nat {
    if ret == "V" then 0 else if ret == "J" || ret == "D" then 2 else 1
  }

  ghost function ResultSize(p: Program, m: MethodPtr): nat
    requires Sound(p) && IsMethod(p.classes, m)
  {
    RetSize(SignatureOf(p, m).ret)
  }

  /** Words an instruction that stays in its frame pushes. */
  function OutSize(ins: Instr): nat {
    match ins
    case LoadVar(_, wide) => if wide then 2 else 1
    case Operate(op) =>
      (match op
       case Drop(_) => 0
       case Dup => 2
       case DupX1 => 3
       case Swap => 2
       case WideConst(_) => 2
       case LongOp(_) => 2
       case LongNeg => 2
       case IntToLong => 2
       case _ => 1)
    case _ => 0
  }

  /** The words an instruction takes off the stack and the words it pushes; None for an unresolved
      reference. A call counts with the words of the method it names. */
  ghost function Effect(p: Program, c: nat, ins: Instr): Option<(nat, nat)>
    requires Sound(p)
  {
    match ins
    case ReturnVoid => None
    case ReturnValue(_) => None
    case GetField(i) =>
      var fp := FieldRef(p, c, i);
      if fp == None then None else Some((1, Layout.Width(Layout.FieldAt(p.classes, fp.value))))
    case PutField(i) =>
      var fp := FieldRef(p, c, i);
      if fp == None then None else Some((1 + Layout.Width(Layout.FieldAt(p.classes, fp.value)), 0))
    case New(i) => if TypeRef(p, c, i) == None then None else Some((0, 1))
    case InvokeDirect(i) =>
      var m := MethodRef(p, c, i);
      if m == None then None else Some((ArgsOf(p, m.value), ResultSize(p, m.value)))
    case InvokeVirtual(i) =>
      var m := MethodRef(p, c, i);
      if m == None then None else Some((ArgsOf(p, m.value), ResultSize(p, m.value)))
    case _ => Some((WordsOf(Pops(ins)), OutSize(ins)))
  }

  /** The address's height agrees with the height at every place the instruction leads to. */
  ghost predicate HeightAt(p: Program, m: MethodPtr, hs: map<int, nat>, pc: int)
    requires Sound(p) && m in p.code && pc in hs
  {
    var code, h := p.code[m], hs[pc];
    && 0 <= pc < |code.bytes| && h <= code.maxStack
    && var d := Decode(code.bytes, pc);
       && d.Some?
       && if Returns(d.value.0) then
            var n := if d.value.0.ReturnValue? then Size(d.value.0.kind) else 0;
            n <= h && ResultSize(p, m) == n
          else
            && Effect(p, m.cls, d.value.0).Some?
            && var e := Effect(p, m.cls, d.value.0).value;
               && e.0 <= h && h - e.0 + e.1 <= code.maxStack
               && forall to :: GoesTo(d.value.0, d.value.1, to) ==> to in hs && hs[to] == h - e.0 + e.1
  }

  ghost predicate MethodLevel(p: Program, hm: HeightMap, m: MethodPtr)
    requires Sound(p) && m in p.code
  {
    && m in hm && (p.code[m].bytes != [] ==> 0 in hm[m] && hm[m][0] == 0)
    && forall pc :: pc in hm[m] ==> HeightAt(p, m, hm[m], pc)
  }

  ghost predicate Level(p: Program, hm: HeightMap) {
    Sound(p) && forall m :: m in p.code ==> MethodLevel(p, hm, m)
  }

  /** A frame that waits for the given number of words has the height its address asks for. */
  ghost predicate FrameLevel(p: Program, hm: HeightMap, f: Frame, pushed: nat) {
    f.mb in p.code && f.mb in hm && f.pc in hm[f.mb] && |f.stack| + pushed == hm[f.mb][f.pc]
  }

  ghost predicate FramesLevel(p: Program, hm: HeightMap, frames: seq<Frame>, pushed: nat)
    requires Sound(p)
  {
    frames != [] ==>
      FrameLevel(p, hm, frames[0], pushed) && FramesLevel(p, hm, frames[1..], ResultSize(p, frames[0].mb))
  }

  ghost predicate NoStackError(p: Program, hm: HeightMap, r: Outcome)
    requires Sound(p)
  {
    match r
    case Next(s) => s.frames != [] && FramesLevel(p, hm, s.frames, 0)
    case Done(_) => true
    case Stop(fault) => fault != StackError && fault != BadCode && fault != Unresolved
  }

  lemma {:induction false} ApplySize(op: Op, args: seq<Word>)
    requires |args| == WordsOf(OpPops(op))
    ensures var r := Apply(op, args); if r.Ok? then |r.value| == OutSize(Operate(op))
            else r.fault != StackError && r.fault != BadCode && r.fault != Unresolved
  {
    OpWords(op);
    hide Quotient, LongAt, Compare, Int, ToWord;
  }

  lemma {:induction false} ComputeSize(ins: Instr, args: seq<Word>, locals: seq<Word>)
    requires IsLocal(ins) && |args| == WordsOf(Pops(ins))
    ensures var r := Compute(ins, args, locals);
            if r.Ok? then |r.value.1| == OutSize(ins)
            else r.fault != StackError && r.fault != BadCode && r.fault != Unresolved
  {
    hide Apply, Int, ToWord;
    if ins.Operate? {
      ApplySize(ins.op, args);
    }
  }

  lemma {:induction false} LocalLevel(ins: Instr, next: nat, f: Frame, maxStack: nat)
    requires IsLocal(ins) && WordsOf(Pops(ins)) <= |f.stack|
             && |f.stack| - WordsOf(Pops(ins)) + OutSize(ins) <= maxStack
    ensures var r := LocalStep(ins, next, f, maxStack);
            if r.Ok? then |r.value.stack| == |f.stack| - WordsOf(Pops(ins)) + OutSize(ins) && r.value.mb == f.mb
            else r.fault != StackError && r.fault != BadCode && r.fault != Unresolved
  {
    hide Compute, JumpTo, Pops, OutSize;
    ComputeSize(ins, f.stack[|f.stack| - WordsOf(Pops(ins))..], f.locals);
  }

  /** What the map says about the instruction the top frame stands at. */
  ghost predicate Before(p: Program, hm: HeightMap, s: State, ins: Instr, next: nat)
    requires Sound(p)
  {
    && Shaped(p, s) && FramesLevel(p, hm, s.frames, 0) && s.frames[0].mb in hm
    && var f := s.frames[0];
       if Returns(ins) then
         var n := if ins.ReturnValue? then Size(ins.kind) else 0;
         IsMethod(p.classes, f.mb) && n <= |f.stack| && ResultSize(p, f.mb) == n
       else
         && Effect(p, f.mb.cls, ins).Some?
         && var e := Effect(p, f.mb.cls, ins).value;
            && e.0 <= |f.stack| && |f.stack| - e.0 + e.1 <= p.code[f.mb].maxStack
            && forall to :: GoesTo(ins, next, to) ==> to in hm[f.mb] && hm[f.mb][to] == |f.stack| - e.0 + e.1
  }

  lemma {:induction false} MovesLevel(p: Program, hm: HeightMap, s: State, s': State)
    requires Sound(p) && Shaped(p, s) && FramesLevel(p, hm, s.frames, 0) && Advances(s, s')
    requires FrameLevel(p, hm, s'.frames[0], 0)
    ensures FramesLevel(p, hm, s'.frames, 0)
  {
  }

  lemma {:induction false} LocalIsLevel(p: Program, hm: HeightMap, s: State, ins: Instr, next: nat)
    requires Sound(p) && Before(p, hm, s, ins, next) && IsLocal(ins)
    ensures NoStackError(p, hm, Execute(p, s, ins, next))
  {
    hide LocalStep, GoesTo, Parsed, OutSize, Pops;
    var f := s.frames[0];
    LocalLevel(ins, next, f, p.code[f.mb].maxStack);
    LocalGoes(ins, next, f, p.code[f.mb].maxStack);
    var r := LocalStep(ins, next, f, p.code[f.mb].maxStack);
    if r.Ok? {
      MovesLevel(p, hm, s, State([r.value] + s.frames[1..], s.heap));
    }
  }

  lemma {:induction false} ObjectsLevel(p: Program, s: State, fb: FieldBlock, next: nat)
    requires Shaped(p, s)
    ensures var r, f := GetFieldStep(p, s, fb, next), s.frames[0];
            |f.stack| >= 1 && |f.stack| - 1 + Layout.Width(fb) <= p.code[f.mb].maxStack ==>
              if r.Next? then Advances(s, r.state) && r.state.frames[0].pc == next
              && |r.state.frames[0].stack| == |f.stack| - 1 + Layout.Width(fb)
              else r == Stop(NullDereference) || r == Stop(Wild)
    ensures var r, f := PutFieldStep(p, s, fb, next), s.frames[0];
            |f.stack| >= 1 + Layout.Width(fb) ==>
              if r.Next? then Advances(s, r.state) && r.state.frames[0].pc == next
              && |r.state.frames[0].stack| == |f.stack| - 1 - Layout.Width(fb)
              else r == Stop(NullDereference) || r == Stop(Wild)
  {
    hide Layout.Store, Layout.InBounds, FieldValue;
  }

  lemma {:induction false} NewLevel(p: Program, s: State, c: nat, next: nat)
    requires Shaped(p, s) && c < |p.classes|
    ensures var r, f := NewStep(p, s, c, next), s.frames[0];
            |f.stack| + 1 <= p.code[f.mb].maxStack ==>
              if r.Next? then Advances(s, r.state) && r.state.frames[0].pc == next
              && |r.state.frames[0].stack| == |f.stack| + 1
              else r == Stop(OutOfMemory)
  {
    hide Zeros;
  }

  lemma {:induction false} ObjectIsLevel(p: Program, hm: HeightMap, s: State, ins: Instr, next: nat)
    requires Sound(p) && Before(p, hm, s, ins, next) && (ins.GetField? || ins.PutField? || ins.New?)
    ensures NoStackError(p, hm, Execute(p, s, ins, next))
  {
    hide GetFieldStep, PutFieldStep, NewStep, Parsed, FieldRef, TypeRef, FramesLevel;
    var f := s.frames[0];
    var r := Execute(p, s, ins, next);
    if ins.New? {
      NewLevel(p, s, TypeRef(p, f.mb.cls, ins.index).value, next);
    } else {
      ObjectsLevel(p, s, Layout.FieldAt(p.classes, FieldRef(p, f.mb.cls, ins.index).value), next);
    }
    if r.Next? {
      MovesLevel(p, hm, s, r.state);
    }
  }

  ghost predicate SameShape(p: Program, m: MethodPtr, e: MethodPtr)
    requires Sound(p) && IsMethod(p.classes, m) && IsMethod(p.classes, e)
  {
    ArgsOf(p, e) == ArgsOf(p, m) && ResultSize(p, e) == ResultSize(p, m)
  }

  /** The instruction is a virtual call that finds a method of another shape than the one it names. */
  ghost predicate Misfit(p: Program, s: State, ins: Instr)
    requires Sound(p) && Shaped(p, s)
  {
    && ins.InvokeVirtual?
    && var m := MethodRef(p, s.frames[0].mb.cls, ins.index);
       m.Some? && Receive(p, s, m.value).Ok? && !SameShape(p, m.value, Receive(p, s, m.value).value)
  }

  /** A frame pushed for method e by a call that names m. */
  lemma {:induction false} InvokeLevel(p: Program, hm: HeightMap, s: State, ins: Instr, next: nat, m: MethodPtr,
                                       e: MethodPtr)
    requires Level(p, hm) && Before(p, hm, s, ins, next) && (ins.InvokeDirect? || ins.InvokeVirtual?)
    requires MethodRef(p, s.frames[0].mb.cls, ins.index) == Some(m) && IsMethod(p.classes, e) && SameShape(p, m, e)
    ensures NoStackError(p, hm, Invoke(p, s, e, next))
  {
    hide Sound, ArgsCount, Entered, MethodRef, ResultSize;
    var r := Invoke(p, s, e, next);
    if r.Next? {
      assert MethodLevel(p, hm, e);
      assert r.state.frames[1..][1..] == s.frames[1..];
      assert FramesLevel(p, hm, r.state.frames[1..], ResultSize(p, e));
    }
  }

  lemma {:induction false} ReceiveFaults(p: Program, s: State, m: MethodPtr)
    requires Sound(p) && Shaped(p, s) && IsMethod(p.classes, m)
    ensures var r := Receive(p, s, m); r.Fail? ==>
              r.fault == Wild || r.fault == AssertionFailed || r.fault == NoSuchMethod
  {
    hide Sound, ArgsCount;
  }

  lemma {:induction false} CallIsLevel(p: Program, hm: HeightMap, s: State, ins: Instr, next: nat)
    requires Level(p, hm) && Before(p, hm, s, ins, next) && (ins.InvokeDirect? || ins.InvokeVirtual?)
             && !Misfit(p, s, ins)
    ensures NoStackError(p, hm, Execute(p, s, ins, next))
  {
    hide Sound, MethodRef, Invoke, Receive, SameShape, MethodLevel, FramesLevel;
    var m := MethodRef(p, s.frames[0].mb.cls, ins.index).value;
    if ins.InvokeDirect? {
      ShapeOfItself(p, m);
      InvokeLevel(p, hm, s, ins, next, m, m);
    } else {
      ReceiveFaults(p, s, m);
      var e := Receive(p, s, m);
      if e.Ok? {
        InvokeLevel(p, hm, s, ins, next, m, e.value);
      }
    }
  }

  lemma {:induction false} ShapeOfItself(p: Program, m: MethodPtr)
    requires Sound(p) && IsMethod(p.classes, m)
    ensures SameShape(p, m, m)
  {
  }

  lemma {:induction false} UnderTop(p: Program, hm: HeightMap, frames: seq<Frame>, to: Frame)
    requires Sound(p) && FramesLevel(p, hm, frames, 0) && |frames| > 1
    requires var n := ResultSize(p, frames[0].mb);
             FrameLevel(p, hm, frames[1], n) ==> FrameLevel(p, hm, to, 0) && to.mb == frames[1].mb
    ensures FrameLevel(p, hm, frames[1], ResultSize(p, frames[0].mb)) && FramesLevel(p, hm, [to] + frames[2..], 0)
  {
    hide Parsed, ResultSize;
    assert FramesLevel(p, hm, frames[1..], ResultSize(p, frames[0].mb));
    assert frames[1..][0] == frames[1] && frames[1..][1..] == frames[2..];
    assert ([to] + frames[2..])[1..] == frames[2..];
  }

  lemma {:induction false} ReturnIsLevel(p: Program, hm: HeightMap, s: State, ins: Instr, next: nat)
    requires Level(p, hm) && Before(p, hm, s, ins, next) && Returns(ins)
    ensures NoStackError(p, hm, Execute(p, s, ins, next))
  {
    hide Sound, ResultSize, FramesLevel, MethodLevel;
    var f := s.frames[0];
    var n := ResultSize(p, f.mb);
    if |s.frames| > 1 {
      var to := s.frames[1].(stack := s.frames[1].stack + f.stack[|f.stack| - n..]);
      UnderTop(p, hm, s.frames, to);
      RoomAt(p, hm, s.frames[1], n);
      if n == 0 {
        assert to == s.frames[1] && s.frames[1..] == [to] + s.frames[2..];
      }
    }
  }

  lemma {:induction false} RoomAt(p: Program, hm: HeightMap, f: Frame, n: nat)
    requires Level(p, hm) && FrameLevel(p, hm, f, n)
    ensures |f.stack| + n <= p.code[f.mb].maxStack
  {
    hide Sound;
    assert MethodLevel(p, hm, f.mb);
    assert HeightAt(p, f.mb, hm[f.mb], f.pc);
  }

  lemma {:induction false} TopIsBefore(p: Program, hm: HeightMap, s: State)
    requires Level(p, hm) && Shaped(p, s) && FramesLevel(p, hm, s.frames, 0)
    ensures var f := s.frames[0]; var code := p.code[f.mb].bytes;
            && 0 <= f.pc < |code| && Decode(code, f.pc).Some?
            && Before(p, hm, s, Decode(code, f.pc).value.0, Decode(code, f.pc).value.1)
  {
    hide Decode, Effect, GoesTo, Parsed;
    var f := s.frames[0];
    assert FrameLevel(p, hm, f, 0);
    assert MethodLevel(p, hm, f.mb);
    assert HeightAt(p, f.mb, hm[f.mb], f.pc);
  }

  /** The top frame stands at such a call. */
  ghost predicate AtMisfit(p: Program, s: State)
    requires Sound(p) && Shaped(p, s)
  {
    var code, pc := p.code[s.frames[0].mb].bytes, s.frames[0].pc;
    0 <= pc < |code| && Decode(code, pc).Some? && Misfit(p, s, Decode(code, pc).value.0)
  }

  lemma {:induction false} StepIsLevel(p: Program, hm: HeightMap, s: State)
    requires Level(p, hm) && Shaped(p, s) && FramesLevel(p, hm, s.frames, 0) && !AtMisfit(p, s)
    ensures NoStackError(p, hm, Step(p, s))
  {
    hide Before, Decode, Execute, FramesLevel, MethodLevel, Misfit;
    TopIsBefore(p, hm, s);
    var f := s.frames[0];
    var d := Decode(p.code[f.mb].bytes, f.pc).value;
    if Returns(d.0) {
      ReturnIsLevel(p, hm, s, d.0, d.1);
    } else if d.0.InvokeDirect? || d.0.InvokeVirtual? {
      CallIsLevel(p, hm, s, d.0, d.1);
    } else if d.0.GetField? || d.0.PutField? || d.0.New? {
      ObjectIsLevel(p, hm, s, d.0, d.1);
    } else {
      LocalIsLevel(p, hm, s, d.0, d.1);
    }
  }

  /** In code with a consistent height map a run that meets no misfit reports no stack error, does
      not run out of its code, meets no bytes that are no instruction, and every frame has the
      height of its address, less the words it is still waiting for. */
  lemma {:induction false} HeightsHoldUntilMisfit(p: Program, hm: HeightMap, s: State, n: nat)
    requires Level(p, hm) && Shaped(p, s) && FramesLevel(p, hm, s.frames, 0)
    requires forall k: nat :: k < n && Run(p, s, k).Next? ==> !AtMisfit(p, Run(p, s, k).state)
    ensures NoStackError(p, hm, Run(p, s, n))
    decreases n
  {
    hide Step, FramesLevel, MethodLevel, Sound, AtMisfit;
    if n > 0 {
      assert !AtMisfit(p, Run(p, s, 0).state);
      StepIsLevel(p, hm, s);
      if Step(p, s).Next? {
        StepKeepsShape(p, s);
        var t := Step(p, s).state;
        forall k: nat | k < n - 1 && Run(p, t, k).Next?
          ensures !AtMisfit(p, Run(p, t, k).state)
        {
          assert Run(p, s, k + 1) == Run(p, t, k);
        }
        HeightsHoldUntilMisfit(p, hm, t, n - 1);
      }
    }
  }

  /** Every method in a table at the index of m has the shape of m. */
  ghost predicate TablesAgree(p: Program, m: MethodPtr)
    requires Sound(p) && IsMethod(p.classes, m)
  {
    forall c :: 0 <= c < |p.classes| ==>
      var table, k := p.classes[c].table, MethodAt(p.classes, m).tableIdx;
      k < |table| && table[k].Some? ==> SameShape(p, m, table[k].value)
  }

  /** The virtual calls in the mapped code name methods with whose shape all tables agree. */
  ghost predicate CallsAgree(p: Program, hm: HeightMap)
    requires Level(p, hm)
  {
    forall m, pc :: m in p.code && pc in hm[m] ==> CallAgrees(p, m, pc)
  }

  ghost predicate CallAgrees(p: Program, m: MethodPtr, pc: int)
    requires Sound(p) && m in p.code
  {
    var code := p.code[m].bytes;
    0 <= pc < |code| && Decode(code, pc).Some? && Decode(code, pc).value.0.InvokeVirtual? ==>
      var r := MethodRef(p, m.cls, Decode(code, pc).value.0.index); r.Some? ==> TablesAgree(p, r.value)
  }

  lemma {:induction false} NoMisfit(p: Program, hm: HeightMap, s: State)
    requires Level(p, hm) && CallsAgree(p, hm) && Shaped(p, s) && FramesLevel(p, hm, s.frames, 0)
    ensures !AtMisfit(p, s)
  {
    hide Sound, MethodLevel, Decode, SameShape, MethodRef, ArgsCount;
    var f := s.frames[0];
    assert CallAgrees(p, f.mb, f.pc);
  }

  /** Consistent heights, agreeing along branches, switches, returns and calls of all kinds, rule
      out the stack error in every run. */
  lemma {:induction false} HeightsPreventStackError(p: Program, hm: HeightMap, s: State, n: nat)
    requires Level(p, hm) && CallsAgree(p, hm) && Shaped(p, s) && FramesLevel(p, hm, s.frames, 0)
    ensures NoStackError(p, hm, Run(p, s, n))
    decreases n
  {
    hide Run, FramesLevel, MethodLevel, Sound, CallsAgree, AtMisfit;
    forall k: nat | k < n && Run(p, s, k).Next?
      ensures !AtMisfit(p, Run(p, s, k).state)
    {
      HeightsPreventStackError(p, hm, s, k);
      NoMisfit(p, hm, Run(p, s, k).state);
    }
    HeightsHoldUntilMisfit(p, hm, s, n);
  }
}
