/**
 What whole runs of the machine keep: control stays on instruction boundaries, and a call leaves
 the frames below it alone.
*/
module Runs {
  import opened Options
  import opened Words
  import opened Classes
  import opened Bytecode
  import opened Frames
  import opened Machine
  import Layout

  // ----- boundaries -----

  ghost predicate AllStructured(p: Program) {
    forall m :: m in p.code ==> Structured(p.code[m].bytes)
  }

  /** Every frame stands at the start of an instruction, or outside its code, where it ends. */
  ghost predicate OnBoundaries(p: Program, s: State)
    requires Shaped(p, s)
  {
    forall i :: 0 <= i < |s.frames| ==> AtBoundary(p.code[s.frames[i].mb].bytes, s.frames[i].pc)
  }

  /** What a step does to the method stack: the frame on top moves on, calls, or returns. */
  ghost predicate Advances(s: State, s': State) {
    s.frames != [] && s'.frames != [] && s'.frames[1..] == s.frames[1..] && s'.frames[0].mb == s.frames[0].mb
  }

  ghost predicate Calls(s: State, s': State, n: nat, next: int) {
    && s.frames != [] && n <= |s.frames[0].stack| && |s'.frames| == |s.frames| + 1
    && s'.frames[2..] == s.frames[1..] && s'.heap == s.heap
    && var f := s.frames[0];
       s'.frames[1] == f.(stack := f.stack[..|f.stack| - n], pc := next) && s'.frames[0].pc == 0
       && s'.frames[0].stack == [] && StartsWith(s'.frames[0].locals, f.stack[|f.stack| - n..])
  }

  /** The words ws, and zeros behind them. */
  ghost predicate StartsWith(locals: seq<Word>, ws: seq<Word>) {
    |ws| <= |locals| && locals[..|ws|] == ws && forall i :: |ws| <= i < |locals| ==> locals[i] == 0
  }

  ghost predicate IsTop(stack: seq<Word>, ws: seq<Word>) {
    |ws| <= |stack| && ws == stack[|stack| - |ws|..]
  }

  /** The topmost words of the frame that ends, on top of the caller's stack. */
  ghost predicate Yields(s: State, s': State, ret: seq<Word>) {
    && |s.frames| > 1 && IsTop(s.frames[0].stack, ret) && |s'.frames| == |s.frames| - 1
    && s'.frames[1..] == s.frames[2..] && s'.heap == s.heap
    && s'.frames[0] == s.frames[1].(stack := s.frames[1].stack + ret)
  }

  ghost function ArgsOf(p: Program, m: MethodPtr): nat
    requires Sound(p) && IsMethod(p.classes, m)
  {
    ArgWords(MethodAt(p.classes, m).isStatic, ArgsCount(p, m))
  }

  /** The step of an instruction; next is the address behind it. */
  ghost predicate StepsTo(p: Program, s: State, s': State, ins: Instr, next: nat)
    requires Sound(p)
  {
    if Returns(ins) then
      exists ret :: Yields(s, s', ret) && (if ins.ReturnValue? then |ret| == Size(ins.kind) else ret == [])
    else if ins.InvokeDirect? || ins.InvokeVirtual? then
      && s'.frames != [] && IsMethod(p.classes, s'.frames[0].mb)
      && Calls(s, s', ArgsOf(p, s'.frames[0].mb), next)
    else
      Advances(s, s') && GoesTo(ins, next, s'.frames[0].pc)
  }

  lemma {:induction false} LocalGoes(ins: Instr, next: nat, f: Frame, maxStack: nat)
    requires IsLocal(ins)
    ensures var r := LocalStep(ins, next, f, maxStack); r.Ok? ==> GoesTo(ins, next, r.value.pc)
  {
    hide JumpTo, GoesTo, Compute, ZeroDivisor, Underflow, Pops;
    var n := WordsOf(Pops(ins));
    if |f.stack| >= n {
      JumpGoes(ins, next, f.stack[|f.stack| - n..]);
    }
  }

  lemma {:induction false} ReturnYields(p: Program, s: State, kind: Option<Kind>)
    requires Shaped(p, s)
    ensures var r := Return(p, s, kind); r.Next? ==>
              exists ret :: Yields(s, r.state, ret) && |ret| == if kind.Some? then Size(kind.value) else 0
  {
    var r := Return(p, s, kind);
    if r.Next? {
      var f := s.frames[0];
      if kind == None {
        assert s.frames[1].(stack := s.frames[1].stack + []) == s.frames[1];
        assert Yields(s, r.state, []);
      } else {
        assert Yields(s, r.state, f.stack[|f.stack| - Size(kind.value)..]);
      }
    }
  }

  lemma {:induction false} InvokeCalls(p: Program, s: State, m: MethodPtr, next: nat)
    requires Sound(p) && Shaped(p, s) && IsMethod(p.classes, m)
    ensures var r := Invoke(p, s, m, next); r.Next? ==>
              r.state.frames != [] && r.state.frames[0].mb == m && Calls(s, r.state, ArgsOf(p, m), next)
  {
    hide Sound, ArgsCount;
  }

  lemma {:induction false} ObjectsAdvance(p: Program, s: State, fb: FieldBlock, next: nat)
    requires Shaped(p, s)
    ensures var r := GetFieldStep(p, s, fb, next); r.Next? ==> Advances(s, r.state) && r.state.frames[0].pc == next
    ensures var r := PutFieldStep(p, s, fb, next); r.Next? ==> Advances(s, r.state) && r.state.frames[0].pc == next
  {
    hide FrameShaped, ValueData, Layout.Load, Layout.Store, Layout.InBounds, FieldValue;
  }

  lemma {:induction false} NewAdvances(p: Program, s: State, c: nat, next: nat)
    requires Shaped(p, s) && c < |p.classes|
    ensures var r := NewStep(p, s, c, next); r.Next? ==> Advances(s, r.state) && r.state.frames[0].pc == next
  {
    hide FrameShaped, Zeros;
  }

  lemma {:induction false} ReturnSteps(p: Program, s: State, ins: Instr, next: nat)
    requires Sound(p) && Shaped(p, s) && Returns(ins)
    ensures var r := Execute(p, s, ins, next); r.Next? ==> StepsTo(p, s, r.state, ins, next)
  {
    hide Sound, Return, Yields;
    ReturnYields(p, s, if ins.ReturnVoid? then None else Some(ins.kind));
  }

  lemma {:induction false} ObjectSteps(p: Program, s: State, ins: Instr, next: nat)
    requires Sound(p) && Shaped(p, s) && (ins.GetField? || ins.PutField? || ins.New?)
    ensures var r := Execute(p, s, ins, next); r.Next? ==> StepsTo(p, s, r.state, ins, next)
  {
    hide Sound, GetFieldStep, PutFieldStep, NewStep, FieldRef, TypeRef, Yields, Calls, Advances;
    var c := s.frames[0].mb.cls;
    if ins.New? {
      if TypeRef(p, c, ins.index).Some? { NewAdvances(p, s, TypeRef(p, c, ins.index).value, next); }
    } else if FieldRef(p, c, ins.index).Some? {
      ObjectsAdvance(p, s, Layout.FieldAt(p.classes, FieldRef(p, c, ins.index).value), next);
    }
  }

  lemma {:induction false} InvokeSteps(p: Program, s: State, ins: Instr, next: nat)
    requires Sound(p) && Shaped(p, s) && (ins.InvokeDirect? || ins.InvokeVirtual?)
    ensures var r := Execute(p, s, ins, next); r.Next? ==> StepsTo(p, s, r.state, ins, next)
  {
    hide Sound, Invoke, Receive, MethodRef, Yields, Calls, ArgsOf;
    var m := MethodRef(p, s.frames[0].mb.cls, ins.index);
    if m.Some? {
      if ins.InvokeDirect? {
        InvokeCalls(p, s, m.value, next);
      } else if Receive(p, s, m.value).Ok? {
        InvokeCalls(p, s, Receive(p, s, m.value).value, next);
      }
    }
  }

  lemma {:induction false} LocalSteps(p: Program, s: State, ins: Instr, next: nat)
    requires Sound(p) && Shaped(p, s) && IsLocal(ins)
    ensures var r := Execute(p, s, ins, next); r.Next? ==> StepsTo(p, s, r.state, ins, next)
  {
    hide Sound, LocalStep, Yields, Calls, GoesTo;
    var f := s.frames[0];
    LocalGoes(ins, next, f, p.code[f.mb].maxStack);
  }

  lemma {:induction false} ExecuteSteps(p: Program, s: State, ins: Instr, next: nat)
    requires Sound(p) && Shaped(p, s)
    ensures var r := Execute(p, s, ins, next); r.Next? ==> StepsTo(p, s, r.state, ins, next)
  {
    hide Sound, Execute, StepsTo;
    if Returns(ins) {
      ReturnSteps(p, s, ins, next);
    } else if ins.GetField? || ins.PutField? || ins.New? {
      ObjectSteps(p, s, ins, next);
    } else if ins.InvokeDirect? || ins.InvokeVirtual? {
      InvokeSteps(p, s, ins, next);
    } else {
      LocalSteps(p, s, ins, next);
    }
  }

  /** What one step may do, whatever the instruction. */
  lemma {:induction false} StepCases(p: Program, s: State)
    requires Sound(p) && Shaped(p, s) && Step(p, s).Next?
    ensures var s' := Step(p, s).state; var f := s.frames[0]; var code := p.code[f.mb].bytes;
            if 0 <= f.pc < |code| then
              Decode(code, f.pc).Some? && StepsTo(p, s, s', Decode(code, f.pc).value.0, Decode(code, f.pc).value.1)
            else Yields(s, s', [])
  {
    hide Sound, Return, Execute, Decode, StepsTo, Yields;
    var f := s.frames[0];
    var code := p.code[f.mb].bytes;
    if 0 <= f.pc < |code| {
      var d := Decode(code, f.pc).value;
      ExecuteSteps(p, s, d.0, d.1);
    } else {
      ReturnYields(p, s, None);
    }
  }

  lemma {:induction false} EntryIsBoundary(code: seq<Byte>)
    requires Structured(code)
    ensures AtBoundary(code, 0)
  {
  }

  ghost predicate FrameOnBoundary(p: Program, f: Frame)
    requires f.mb in p.code
  {
    AtBoundary(p.code[f.mb].bytes, f.pc)
  }

  /** A step leaves all frames on boundaries if it leaves the ones it touched on boundaries. */
  lemma {:induction false} FramesFrom(p: Program, s: State, s': State, k: nat, j: nat)
    requires Shaped(p, s) && Shaped(p, s') && OnBoundaries(p, s)
    requires k <= |s.frames| && j <= |s'.frames| && s'.frames[j..] == s.frames[k..]
    requires forall i :: 0 <= i < j ==> FrameOnBoundary(p, s'.frames[i])
    ensures OnBoundaries(p, s')
  {
    hide AtBoundary;
    forall i | 0 <= i < |s'.frames|
      ensures FrameOnBoundary(p, s'.frames[i])
    {
      if i >= j {
        assert s'.frames[i] == s'.frames[j..][i - j] == s.frames[k..][i - j] == s.frames[i - j + k];
      }
    }
  }

  lemma {:induction false} StepStaysOnBoundaries(p: Program, s: State)
    requires Sound(p) && Shaped(p, s) && AllStructured(p) && OnBoundaries(p, s) && Step(p, s).Next?
    ensures Shaped(p, Step(p, s).state) && OnBoundaries(p, Step(p, s).state)
  {
    hide Sound, Step, Decode, Structured, ArgsCount, GoesTo, AtBoundary, ArgsOf;
    StepKeepsShape(p, s);
    StepCases(p, s);
    var f, s' := s.frames[0], Step(p, s).state;
    var code := p.code[f.mb].bytes;
    assert FrameOnBoundary(p, f);
    if 0 <= f.pc < |code| {
      var d := Decode(code, f.pc).value;
      StaysOnBoundaries(code, f.pc, s'.frames[0].pc);
      if Returns(d.0) {
        assert FrameOnBoundary(p, s.frames[1]);
        FramesFrom(p, s, s', 2, 1);
      } else if d.0.InvokeDirect? || d.0.InvokeVirtual? {
        EntryIsBoundary(p.code[s'.frames[0].mb].bytes);
        assert FrameOnBoundary(p, s'.frames[0]) && FrameOnBoundary(p, s'.frames[1]);
        FramesFrom(p, s, s', 1, 2);
      } else {
        assert FrameOnBoundary(p, s'.frames[0]);
        FramesFrom(p, s, s', 1, 1);
      }
    } else {
      assert FrameOnBoundary(p, s.frames[1]);
      FramesFrom(p, s, s', 2, 1);
    }
  }

  /** When every branch and switch target is an instruction boundary, a run never stands anywhere
      but at an instruction or outside the code. */
  lemma {:induction false} RunStaysOnBoundaries(p: Program, s: State, n: nat)
    requires Sound(p) && Shaped(p, s) && AllStructured(p) && OnBoundaries(p, s)
    ensures Run(p, s, n).Next? ==> OnBoundaries(p, Run(p, s, n).state)
    decreases n
  {
    hide Step, Structured, Sound;
    if n > 0 && Step(p, s).Next? {
      StepStaysOnBoundaries(p, s);
      RunStaysOnBoundaries(p, Step(p, s).state, n - 1);
    }
  }

  // ----- calls -----

  /** n steps from s keep more than d frames on the method stack. */
  ghost predicate StaysAbove(p: Program, s: State, n: nat, d: nat)
    requires Sound(p) && Shaped(p, s)
    decreases n
  {
    && |s.frames| > d
    && (n > 0 ==>
          && Step(p, s).Next?
          && (StepKeepsShape(p, s); StaysAbove(p, Step(p, s).state, n - 1, d)))
  }

  /** The lowest d frames. */
  ghost function Below(s: State, d: nat): seq<Frame>
    requires d <= |s.frames|
  {
    s.frames[|s.frames| - d..]
  }

  /** The method whose frame lies on the lowest d frames. */
  ghost function Owner(s: State, d: nat): MethodPtr
    requires d < |s.frames|
  {
    s.frames[|s.frames| - 1 - d].mb
  }

  lemma {:induction false} KeepsBelow(s: State, s': State, k: nat, j: nat, d: nat)
    requires j <= |s'.frames| && k <= |s.frames| && s'.frames[j..] == s.frames[k..] && d <= |s.frames| - k
    ensures Below(s', d) == Below(s, d)
  {
    var e := |s.frames| - k - d;
    assert s'.frames[j..][e..] == s.frames[k..][e..];
    assert s'.frames[j..][e..] == s'.frames[j + e..] && s.frames[k..][e..] == s.frames[k + e..];
  }

  lemma {:induction false} OwnerBelow(s: State, s': State, d: nat)
    requires d + 1 <= |s.frames| && d + 1 <= |s'.frames| && Below(s', d + 1) == Below(s, d + 1)
    ensures Owner(s', d) == Owner(s, d)
  {
    assert Below(s, d + 1)[0] == s.frames[|s.frames| - 1 - d] && Below(s', d + 1)[0] == s'.frames[|s'.frames| - 1 - d];
  }

  lemma {:induction false} StepKeepsBelow(p: Program, s: State, d: nat)
    requires Sound(p) && Shaped(p, s) && Step(p, s).Next?
    requires d < |s.frames| && d < |Step(p, s).state.frames|
    ensures Below(Step(p, s).state, d) == Below(s, d) && Owner(Step(p, s).state, d) == Owner(s, d)
  {
    hide Sound, Step, Decode, ArgsOf, GoesTo, Below, Owner;
    StepCases(p, s);
    var f, s' := s.frames[0], Step(p, s).state;
    var code := p.code[f.mb].bytes;
    if 0 <= f.pc < |code| && !Returns(Decode(code, f.pc).value.0) {
      var ins := Decode(code, f.pc).value.0;
      if ins.InvokeDirect? || ins.InvokeVirtual? {
        KeepsBelow(s, s', 1, 2, d);
        CallOwner(s, s', d);
      } else {
        KeepsBelow(s, s', 1, 1, d);
        AdvanceOwner(s, s', d);
      }
    } else {
      KeepsBelow(s, s', 2, 1, d);
      var ret :| Yields(s, s', ret);
      YieldOwner(s, s', ret, d);
    }
  }

  lemma {:induction false} AdvanceOwner(s: State, s': State, d: nat)
    requires Advances(s, s') && d < |s.frames| && d < |s'.frames|
    ensures Owner(s', d) == Owner(s, d)
  {
    if d + 1 < |s.frames| {
      KeepsBelow(s, s', 1, 1, d + 1);
      OwnerBelow(s, s', d);
    }
  }

  lemma {:induction false} CallOwner(s: State, s': State, d: nat)
    requires exists n, next :: Calls(s, s', n, next)
    requires d < |s.frames| && d < |s'.frames|
    ensures Owner(s', d) == Owner(s, d)
  {
    if d + 1 < |s.frames| {
      KeepsBelow(s, s', 1, 2, d + 1);
      OwnerBelow(s, s', d);
    }
  }

  lemma {:induction false} YieldOwner(s: State, s': State, ret: seq<Word>, d: nat)
    requires Yields(s, s', ret) && d < |s.frames| && d < |s'.frames|
    ensures Owner(s', d) == Owner(s, d)
  {
    if d + 1 < |s'.frames| {
      KeepsBelow(s, s', 2, 1, d + 1);
      OwnerBelow(s, s', d);
    }
  }

  /** While more than d frames are on the stack, the lowest d do not change. */
  lemma {:induction false} RunKeepsBelow(p: Program, s: State, n: nat, d: nat)
    requires Sound(p) && Shaped(p, s) && StaysAbove(p, s, n, d)
    ensures Run(p, s, n).Next? && d < |Run(p, s, n).state.frames|
    ensures Below(Run(p, s, n).state, d) == Below(s, d) && Owner(Run(p, s, n).state, d) == Owner(s, d)
    decreases n
  {
    hide Sound, Step, FrameShaped, Below, Owner;
    if n > 0 {
      StepKeepsShape(p, s);
      StepKeepsBelow(p, s, d);
      RunKeepsBelow(p, Step(p, s).state, n - 1, d);
    }
  }

  /** The number of words the frame on top is about to hand to its caller. */
  ghost function ReturnSize(p: Program, f: Frame): nat
    requires f.mb in p.code
  {
    var code := p.code[f.mb].bytes;
    if 0 <= f.pc < |code| && Decode(code, f.pc).Some? && Decode(code, f.pc).value.0.ReturnValue? then
      Size(Decode(code, f.pc).value.0.kind)
    else 0
  }

  lemma {:induction false} ReturnStep(p: Program, s: State) returns (ret: seq<Word>)
    requires Sound(p) && Shaped(p, s) && Step(p, s).Next? && |Step(p, s).state.frames| < |s.frames|
    ensures Yields(s, Step(p, s).state, ret) && |ret| == ReturnSize(p, s.frames[0])
  {
    hide Sound, Step, Decode, ArgsOf, GoesTo, Yields;
    StepCases(p, s);
    var f, s' := s.frames[0], Step(p, s).state;
    var code := p.code[f.mb].bytes;
    if 0 <= f.pc < |code| {
      var ins := Decode(code, f.pc).value.0;
      assert Returns(ins);
      ret :| Yields(s, s', ret) && (if ins.ReturnValue? then |ret| == Size(ins.kind) else ret == []);
    } else {
      ret := [];
    }
  }

  lemma {:induction false} CallStep(p: Program, s: State)
    requires Sound(p) && Shaped(p, s) && Step(p, s).Next? && |Step(p, s).state.frames| > |s.frames|
    ensures var f, s' := s.frames[0], Step(p, s).state;
            && 0 <= f.pc < |p.code[f.mb].bytes| && Decode(p.code[f.mb].bytes, f.pc).Some?
            && IsMethod(p.classes, s'.frames[0].mb)
            && Calls(s, s', ArgsOf(p, s'.frames[0].mb), Decode(p.code[f.mb].bytes, f.pc).value.1)
  {
    hide Sound, Step, Decode, ArgsOf, GoesTo;
    StepCases(p, s);
  }

  /** A completed call: s calls a method, n further steps stay above the frames of s, and the next
      step comes back to them. Then the caller stands behind its call instruction with its locals
      as they were, the words of the call's arguments are gone from its stack and were the callee's
      first locals, the topmost words of the frame that ended are in their place, and all frames
      below are as they were. */
  lemma {:induction false} CallReturns(p: Program, s: State, n: nat) returns (ret: seq<Word>)
    requires Sound(p) && Shaped(p, s) && Step(p, s).Next?
    requires var s1 := Step(p, s).state; |s1.frames| > |s.frames| && Shaped(p, s1) && StaysAbove(p, s1, n, |s.frames|)
    requires Run(p, Step(p, s).state, n).Next? && Shaped(p, Run(p, Step(p, s).state, n).state)
    requires Step(p, Run(p, Step(p, s).state, n).state).Next?
    requires |Step(p, Run(p, Step(p, s).state, n).state).state.frames| == |s.frames|
    ensures var f, m := s.frames[0], Step(p, s).state.frames[0].mb;
            var s2 := Run(p, Step(p, s).state, n).state;
            && 0 <= f.pc < |p.code[f.mb].bytes| && Decode(p.code[f.mb].bytes, f.pc).Some?
            && IsMethod(p.classes, m) && ArgsOf(p, m) <= |f.stack|
            && Step(p, s2).state.frames ==
                 [f.(stack := f.stack[..|f.stack| - ArgsOf(p, m)] + ret,
                     pc := Decode(p.code[f.mb].bytes, f.pc).value.1)] + s.frames[1..]
            && s2.frames[0].mb == m && |ret| == ReturnSize(p, s2.frames[0])
            && IsTop(s2.frames[0].stack, ret)
            && StartsWith(Step(p, s).state.frames[0].locals, f.stack[|f.stack| - ArgsOf(p, m)..])
  {
    hide Sound, Step, Run, Decode, ArgsOf, FrameShaped;
    var s1 := Step(p, s).state;
    var d := |s.frames|;
    CallStep(p, s);
    RunKeepsBelow(p, s1, n, d);
    var s2 := Run(p, s1, n).state;
    ret := ReturnStep(p, s2);
    var s3 := Step(p, s2).state;
    assert Below(s1, d) == s1.frames[1..] && Below(s2, d) == s2.frames[1..];
    assert s3.frames == [s3.frames[0]] + s3.frames[1..];
    assert s2.frames[1..][1..] == s2.frames[2..] && s1.frames[1..][1..] == s1.frames[2..];
  }
}
