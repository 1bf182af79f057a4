/** Small programs: one on which stack heights mislead, and ones that meet the conditions of the
    safety theorem. */
module Samples {
  import opened Options
  import opened Words
  import opened Classes
  import opened Descriptors
  import opened Bytecode
  import opened Frames
  import opened Machine
  import opened Runs
  import opened Typing
  import opened TypeSafety
  import Dispatch
  import Heights
  import Layout
  import Linking

  // ----- heights that mislead -----

  /** Two unrelated classes: A has a virtual f()V and B a virtual g()I, each at index 0. */
  function MixedClasses(): seq<ClassBlock> {
    var main, f := MethodBlock("main", "()V", true, false, 0), MethodBlock("f", "()V", false, false, 0);
    var g := MethodBlock("g", "()I", false, false, 0);
    [ClassBlock("A", None, [], false, 0, None, 0, [main, f], [], 1, [Some(MethodPtr(0, 1))], 0, LINKED),
     ClassBlock("B", None, [], false, 0, None, 0, [g], [], 1, [Some(MethodPtr(1, 0))], 0, LINKED)]
  }

  const MAIN: MethodPtr := MethodPtr(0, 0)
  const F: MethodPtr := MethodPtr(0, 1)
  const G: MethodPtr := MethodPtr(1, 0)

  /** new B; invokevirtual A.f; iconst_0; pop; return */
  const MAIN_CODE: seq<Byte> := [187, 0, 1, 182, 0, 2, 3, 87, 177]

  /** iconst_0; ireturn */
  const G_CODE: seq<Byte> := [3, 172]

  function Mixed(): Program {
    Program(MixedClasses(),
            map[MAIN := Code(MAIN_CODE, 1, 0), F := Code([177], 0, 1), G := Code(G_CODE, 1, 1)],
            map["()V" := Signature([], "V"), "()I" := Signature([], "I")],
            map[], map[(0, 2) := F], map[(0, 1) := 1])
  }

  function MixedHeights(): Heights.HeightMap {
    map[MAIN := map[0 := 0, 3 := 1, 6 := 0, 7 := 1, 8 := 0], F := map[0 := 0], G := map[0 := 0, 1 := 1]]
  }

  lemma {:induction false} MixedFacts()
    ensures var p := Mixed(); var cs := p.classes;
            && |cs| == 2 && Ordered(cs) && cs[1].objSize == 0
            && cs[0].table == [Some(F)] && cs[1].table == [Some(G)]
            && |cs[0].methods| == 2 && |cs[1].methods| == 1
            && MethodAt(cs, MAIN).typ == MethodAt(cs, F).typ == "()V" && MethodAt(cs, G).typ == "()I"
            && MethodAt(cs, MAIN).isStatic && !MethodAt(cs, F).isStatic && !MethodAt(cs, G).isStatic
            && MethodAt(cs, F).tableIdx == 0
            && p.code.Keys == {MAIN, F, G} && p.code[MAIN] == Code(MAIN_CODE, 1, 0)
            && p.code[F] == Code([177], 0, 1) && p.code[G] == Code(G_CODE, 1, 1)
            && p.fields == map[] && p.methods == map[(0, 2) := F] && p.types == map[(0, 1) := 1]
  {
  }

  lemma {:induction false} MixedSignatures()
    ensures var p := Mixed();
            && Parsed(p, "()V") && Parsed(p, "()I")
            && p.signatures["()V"] == Signature([], "V") && p.signatures["()I"] == Signature([], "I")
  {
    assert Descriptor([], "V") == "()V" && Descriptor([], "I") == "()I";
    assert "()V"[2] != "()I"[2];
  }

  lemma {:induction false} MixedIsSound()
    ensures Sound(Mixed())
    ensures IsMethod(Mixed().classes, MAIN) && IsMethod(Mixed().classes, F) && IsMethod(Mixed().classes, G)
    ensures SignatureOf(Mixed(), MAIN) == SignatureOf(Mixed(), F) == Signature([], "V")
    ensures SignatureOf(Mixed(), G) == Signature([], "I")
  {
    MixedFacts();
    MixedSignatures();
    hide Mixed, Parsed;
    var p := Mixed();
    assert forall m :: IsMethod(p.classes, m) ==> m == MAIN || m == F || m == G;
  }

  lemma {:induction false} MixedDecodes()
    ensures Decode(MAIN_CODE, 0) == Some((New(1), 3)) && Decode(MAIN_CODE, 3) == Some((InvokeVirtual(2), 6))
    ensures Decode(MAIN_CODE, 6) == Some((Operate(Const(0)), 7))
            && Decode(MAIN_CODE, 7) == Some((Operate(Drop(OneWord)), 8))
    ensures Decode(MAIN_CODE, 8) == Some((ReturnVoid, 9))
    ensures Decode([177], 0) == Some((ReturnVoid, 1))
    ensures Decode(G_CODE, 0) == Some((Operate(Const(0)), 1)) && Decode(G_CODE, 1) == Some((ReturnValue(OneWord), 2))
  {
  }

  lemma {:induction false} MixedEffects()
    requires Sound(Mixed())
    ensures Heights.Effect(Mixed(), 0, New(1)) == Some((0, 1))
            && Heights.Effect(Mixed(), 0, InvokeVirtual(2)) == Some((1, 0))
    ensures forall c: nat :: Heights.Effect(Mixed(), c, Operate(Const(0))) == Some((0, 1))
    ensures Heights.Effect(Mixed(), 0, Operate(Drop(OneWord))) == Some((1, 0))
    ensures IsMethod(Mixed().classes, MAIN) && Heights.ResultSize(Mixed(), MAIN) == 0
    ensures IsMethod(Mixed().classes, F) && Heights.ResultSize(Mixed(), F) == 0
    ensures IsMethod(Mixed().classes, G) && Heights.ResultSize(Mixed(), G) == 1 && ArgsOf(Mixed(), G) == 1
            && ArgsOf(Mixed(), F) == 1
  {
    hide Sound, Mixed;
    MixedIsSound();
    MixedFacts();
    OpWords(Const(0));
    OpWords(Drop(OneWord));
  }

  lemma {:induction false} MainAt(pc: int)
    requires Sound(Mixed()) && MAIN in Mixed().code && pc in MixedHeights()[MAIN]
    ensures Heights.HeightAt(Mixed(), MAIN, MixedHeights()[MAIN], pc)
  {
    MixedFacts();
    hide Decode, Sound, Mixed, Heights.Effect, Heights.ResultSize;
    MixedDecodes();
    MixedEffects();
  }

  lemma {:induction false} MainIsLevel()
    requires Sound(Mixed())
    ensures Heights.MethodLevel(Mixed(), MixedHeights(), MAIN)
  {
    MixedFacts();
    hide Sound, Mixed, Heights.HeightAt;
    var p, hs := Mixed(), MixedHeights()[MAIN];
    forall pc | pc in hs
      ensures Heights.HeightAt(p, MAIN, hs, pc)
    {
      MainAt(pc);
    }
  }

  /** The heights agree along all edges when the virtual call counts as the method it names. */
  lemma {:induction false} MixedIsLevel()
    ensures Heights.Level(Mixed(), MixedHeights())
  {
    MixedFacts();
    hide Decode, Sound, Mixed, Heights.Effect, Heights.ResultSize;
    MixedIsSound();
    MixedDecodes();
    MixedEffects();
    MainIsLevel();
    var p, hm := Mixed(), MixedHeights();
    assert Heights.HeightAt(p, F, hm[F], 0);
    assert Heights.HeightAt(p, G, hm[G], 0);
    assert Heights.HeightAt(p, G, hm[G], 1);
  }

  // The states of the run of main.

  const OBJECTS: seq<Obj> := [Obj(1, [])]
  const START: State := State([Frame(MAIN, [], [], 0)], [])
  const CREATED: State := State([Frame(MAIN, [], [1], 3)], OBJECTS)
  const CALLED: State := State([Frame(G, [1], [], 0), Frame(MAIN, [], [], 6)], OBJECTS)
  const PUSHED: State := State([Frame(G, [1], [0], 1), Frame(MAIN, [], [], 6)], OBJECTS)
  const RETURNED: State := State([Frame(MAIN, [], [0], 6)], OBJECTS)

  lemma {:induction false} Shapes()
    ensures Shaped(Mixed(), START) && Shaped(Mixed(), CREATED) && Shaped(Mixed(), CALLED) && Shaped(Mixed(), PUSHED)
    ensures Shaped(Mixed(), RETURNED)
  {
    MixedFacts();
    hide Mixed;
  }

  lemma {:induction false} Creates()
    requires Sound(Mixed()) && Shaped(Mixed(), START)
    ensures Step(Mixed(), START) == Next(CREATED)
  {
    MixedFacts();
    hide Decode, Sound, Mixed;
    MixedDecodes();
    assert START.frames[1..] == [] && START.heap + [Obj(1, Zeros(0))] == OBJECTS;
    assert TypeRef(Mixed(), 0, 1) == Some(1);
    var f := START.frames[0];
    assert f.stack + [1] == [1] && [f.(stack := [1], pc := 3)] + START.frames[1..] == CREATED.frames;
    assert NewStep(Mixed(), START, 1, 3) == Next(CREATED);
  }

  lemma {:induction false} ArgsOfMixed()
    requires Sound(Mixed())
    ensures IsMethod(Mixed().classes, F) && ArgsCount(Mixed(), F) == 0
    ensures IsMethod(Mixed().classes, G) && ArgsCount(Mixed(), G) == 0
  {
    MixedIsSound();
  }

  lemma {:induction false} CallsG()
    requires Sound(Mixed()) && Shaped(Mixed(), CREATED)
    ensures Step(Mixed(), CREATED) == Next(CALLED)
  {
    MixedFacts();
    hide Decode, Sound, Mixed, ArgsCount;
    MixedDecodes();
    ArgsOfMixed();
    assert Entered([1], 1) == [1];
    assert MethodRef(Mixed(), 0, 2) == Some(F);
  }

  lemma {:induction false} Pushes(f: Frame)
    requires f.stack == []
    ensures LocalStep(Operate(Const(0)), 1, f, 1) == Ok(f.(stack := [0], pc := 1))
  {
    OpWords(Const(0));
    assert f.stack[..0] + [0] == [0];
  }

  lemma {:induction false} Overflows(f: Frame)
    requires |f.stack| == 1
    ensures LocalStep(Operate(Const(0)), 7, f, 1) == Fail(StackError)
  {
    OpWords(Const(0));
  }

  lemma {:induction false} GPushes()
    requires Sound(Mixed()) && Shaped(Mixed(), CALLED)
    ensures Step(Mixed(), CALLED) == Next(PUSHED)
  {
    MixedFacts();
    hide Decode, Sound, Mixed, LocalStep;
    MixedDecodes();
    Pushes(CALLED.frames[0]);
  }

  lemma {:induction false} GReturns()
    requires Sound(Mixed()) && Shaped(Mixed(), PUSHED)
    ensures Step(Mixed(), PUSHED) == Next(RETURNED)
  {
    MixedFacts();
    hide Decode, Sound, Mixed;
    MixedDecodes();
    assert PUSHED.frames[2..] == [] && [] + PUSHED.frames[0].stack[0..] == [0];
    assert Return(Mixed(), PUSHED, Some(OneWord)) == Next(RETURNED);
  }

  lemma {:induction false} Breaks()
    requires Sound(Mixed()) && Shaped(Mixed(), RETURNED)
    ensures Step(Mixed(), RETURNED) == Stop(StackError)
  {
    MixedFacts();
    hide Decode, Sound, Mixed, LocalStep;
    MixedDecodes();
    Overflows(RETURNED.frames[0]);
  }

  lemma {:induction false} MixedRun()
    requires Sound(Mixed()) && Shaped(Mixed(), START)
    ensures Run(Mixed(), START, 5) == Stop(StackError)
  {
    var p := Mixed();
    Shapes();
    Creates();
    CallsG();
    GPushes();
    GReturns();
    Breaks();
    hide Step, Sound, Mixed, Shaped;
    assert Run(p, RETURNED, 1) == Stop(StackError);
    assert Run(p, PUSHED, 2) == Stop(StackError);
    assert Run(p, CALLED, 3) == Stop(StackError);
    assert Run(p, CREATED, 4) == Stop(StackError);
  }

  lemma {:induction false} StartIsLevel()
    ensures Sound(Mixed()) && Heights.FramesLevel(Mixed(), MixedHeights(), START.frames, 0)
  {
    MixedIsSound();
    MixedFacts();
    hide Sound, Mixed;
    assert START.frames[1..] == [];
  }

  /** Heights alone do not rule out the stack error: the object the call is made on has another
      method at the index, which leaves a word the map does not expect. */
  lemma {:induction false} HeightsMislead()
    ensures var p, hm := Mixed(), MixedHeights();
            && Heights.Level(p, hm) && Shaped(p, START) && Heights.FramesLevel(p, hm, START.frames, 0)
            && !Heights.CallsAgree(p, hm)
            && Run(p, START, 5) == Stop(StackError)
  {
    var p, hm := Mixed(), MixedHeights();
    MixedIsLevel();
    MixedFacts();
    Shapes();
    MixedRun();
    StartIsLevel();
    hide Run, Mixed, Shaped, Heights.CallsAgree, Heights.Level, Heights.FramesLevel;
    if Heights.CallsAgree(p, hm) {
      Heights.HeightsPreventStackError(p, hm, START, 5);
    }
  }

  // ----- a well-typed program with objects -----

  /** A class with a field x; main makes an object and calls set on it, which stores the argument. */
  function CellClasses(): seq<ClassBlock> {
    var main, put := MethodBlock("main", "(I)V", true, false, 0), MethodBlock("set", "(I)V", false, false, 0);
    [ClassBlock("A", None, [], false, 0, None, 0, [main, put], [FieldBlock("x", "I", false, 1)],
                1, [Some(MethodPtr(0, 1))], 1, LINKED)]
  }

  const SET: MethodPtr := MethodPtr(0, 1)

  /** new A; iload_0; invokevirtual A.set; return */
  const CELL_MAIN: seq<Byte> := [187, 0, 1, 26, 182, 0, 2, 177]

  /** aload_0; iload_1; putfield A.x; return */
  const CELL_SET: seq<Byte> := [42, 27, 181, 0, 3, 177]

  function Cell(): Program {
    Program(CellClasses(), map[MAIN := Code(CELL_MAIN, 2, 1), SET := Code(CELL_SET, 2, 2)],
            map["(I)V" := Signature([Prim('I')], "V")],
            map[(0, 3) := FieldPtr(0, 0)], map[(0, 2) := SET], map[(0, 1) := 0])
  }

  function MainTypes(): map<int, FrameType> {
    map[0 := FrameType([Any], []), 3 := FrameType([Any], [Ref(0)]),
        4 := FrameType([Any], [Ref(0), Any]), 7 := FrameType([Any], [])]
  }

  function SetTypes(): map<int, FrameType> {
    map[0 := FrameType([Ref(0), Any], []), 1 := FrameType([Ref(0), Any], [Ref(0)]),
        2 := FrameType([Ref(0), Any], [Ref(0), Any]), 5 := FrameType([Ref(0), Any], [])]
  }

  function CellTypes(): Typed {
    Typed(map[], map[MAIN := MainTypes(), SET := SetTypes()])
  }

  lemma {:induction false} CellFacts()
    ensures var p := Cell(); var cs := p.classes;
            && |cs| == 1 && Ordered(cs) && cs[0].super == None && cs[0].objSize == 1 && cs[0].tableSize == 1
            && cs[0].table == [Some(SET)] && |cs[0].methods| == 2 && cs[0].fields == [FieldBlock("x", "I", false, 1)]
            && MethodAt(cs, MAIN) == MethodBlock("main", "(I)V", true, false, 0)
            && MethodAt(cs, SET) == MethodBlock("set", "(I)V", false, false, 0)
            && p.code.Keys == {MAIN, SET} && p.code[MAIN] == Code(CELL_MAIN, 2, 1)
            && p.code[SET] == Code(CELL_SET, 2, 2)
            && p.fields == map[(0, 3) := FieldPtr(0, 0)] && p.methods == map[(0, 2) := SET]
            && p.types == map[(0, 1) := 0]
            && p.signatures == map["(I)V" := Signature([Prim('I')], "V")]
  {
  }

  lemma {:induction false} CellSignature()
    ensures Parsed(Cell(), "(I)V")
  {
    assert Spell(Prim('I')) == "I";
    assert SpellAll([Prim('I')]) == "I" by {
      assert [Prim('I')][1..] == [];
    }
    assert Descriptor([Prim('I')], "V") == "(I)V";
  }

  lemma {:induction false} CellIsSound()
    ensures Sound(Cell()) && IsMethod(Cell().classes, MAIN) && IsMethod(Cell().classes, SET)
    ensures SignatureOf(Cell(), MAIN) == SignatureOf(Cell(), SET) == Signature([Prim('I')], "V")
  {
    CellFacts();
    CellSignature();
    hide Cell, Parsed;
    assert forall m :: IsMethod(Cell().classes, m) ==> m == MAIN || m == SET;
  }

  /** The class is prepared and linked, and laid out. */
  lemma {:induction false} CellIsReady()
    ensures Ordered(Cell().classes) && |Cell().classes| == 1
    ensures Dispatch.Ready(Cell().classes, 0) && Dispatch.Uniform(Cell().classes, 0)
            && Layout.LaidOut(Cell().classes, 0)
  {
    CellFacts();
    hide Cell;
    var cs := Cell().classes;
    assert cs[0].methods[0].name == "main" && cs[0].methods[1].name == "set" && "main"[0] != "set"[0];
    assert Linking.NewBefore(cs, 0, 0) == 0 && Linking.NewBefore(cs, 0, 1) == 0 && Linking.NewBefore(cs, 0, 2) == 1;
    assert Linking.PreparedIdx(cs, 0, 0) == 0 && Linking.PreparedIdx(cs, 0, 1) == 0;
    assert Linking.TableAfter(cs, 0, 1) == Linking.TableAfter(cs, 0, 0);
    assert Linking.TableAfter(cs, 0, 2) == [Some(SET)];
    assert Layout.FieldWords(cs[0].fields, 0) == 0 && Layout.FieldWords(cs[0].fields, 1) == 1;
  }

  lemma {:induction false} CellArgs()
    requires Sound(Cell())
    ensures IsMethod(Cell().classes, MAIN) && IsMethod(Cell().classes, SET)
    ensures ArgTypes(Cell(), CellTypes(), MAIN) == [Any] && ResultTypes(Cell(), CellTypes(), MAIN) == []
    ensures ArgTypes(Cell(), CellTypes(), SET) == [Ref(0), Any] && ResultTypes(Cell(), CellTypes(), SET) == []
  {
    CellIsSound();
    CellFacts();
    hide Cell, Sound;
    assert Spell(Prim('I')) == "I" && [Prim('I')][1..] == [];
    assert ParamTypes(CellTypes(), [Prim('I')]) == [Any];
  }

  lemma {:induction false} CellDecodes()
    ensures Decode(CELL_MAIN, 0) == Some((New(1), 3)) && Decode(CELL_MAIN, 3) == Some((LoadVar(0, false), 4))
    ensures Decode(CELL_MAIN, 4) == Some((InvokeVirtual(2), 7)) && Decode(CELL_MAIN, 7) == Some((ReturnVoid, 8))
    ensures Decode(CELL_SET, 0) == Some((LoadVar(0, false), 1)) && Decode(CELL_SET, 1) == Some((LoadVar(1, false), 2))
    ensures Decode(CELL_SET, 2) == Some((PutField(3), 5)) && Decode(CELL_SET, 5) == Some((ReturnVoid, 6))
  {
  }

  lemma {:induction false} LoadFlows(i: nat, locals: seq<WordType>, stack: seq<WordType>)
    requires Sound(Cell()) && i < |locals| && |stack| < 2
    ensures Flow(Cell(), CellTypes(), 0, LoadVar(i, false), FrameType(locals, stack), 2) ==
              Some(FrameType(locals, stack + [locals[i]]))
  {
    hide Sound, Cell;
    assert stack[..|stack|] == stack;
  }

  lemma {:induction false} NewFlows(locals: seq<WordType>)
    requires Sound(Cell())
    ensures Flow(Cell(), CellTypes(), 0, New(1), FrameType(locals, []), 2) == Some(FrameType(locals, [Ref(0)]))
  {
    CellFacts();
    CellIsReady();
    hide Cell, Sound, Dispatch.Ready, Dispatch.Uniform, Layout.LaidOut;
    assert TypeRef(Cell(), 0, 1) == Some(0);
    var none: seq<WordType> := [];
    assert none[..0] + [Ref(0)] == [Ref(0)];
  }

  /** The two words that both the call and the store take. */
  lemma {:induction false} BothOnTop(locals: seq<WordType>)
    requires Ordered(Cell().classes)
    ensures OnTop(Cell().classes, [Ref(0), Any], [Ref(0), Any])
    ensures Replaced(FrameType(locals, [Ref(0), Any]), 2, [], 2) == Some(FrameType(locals, []))
  {
    hide Cell;
    var ts: seq<WordType> := [Ref(0), Any];
    assert ts[0..] == ts && ts[..0] + [] == [];
  }

  lemma {:induction false} SetCallFlows(locals: seq<WordType>)
    requires Sound(Cell()) && IsMethod(Cell().classes, SET)
    ensures CallFlow(Cell(), CellTypes(), SET, FrameType(locals, [Ref(0), Any]), 2) == Some(FrameType(locals, []))
  {
    CellArgs();
    BothOnTop(locals);
    hide Cell, Sound, ArgTypes, ResultTypes, Replaced, OnTop;
  }

  lemma {:induction false} CallFlows(locals: seq<WordType>)
    requires Sound(Cell())
    ensures Flow(Cell(), CellTypes(), 0, InvokeVirtual(2), FrameType(locals, [Ref(0), Any]), 2) ==
            Some(FrameType(locals, []))
  {
    CellFacts();
    hide Cell, Sound, CallFlow;
    SetCallFlows(locals);
    assert MethodRef(Cell(), 0, 2) == Some(SET);
    assert MethodAt(Cell().classes, SET).name[0] != '<';
  }

  lemma {:induction false} StoreFlows(locals: seq<WordType>)
    requires Sound(Cell())
    ensures Flow(Cell(), CellTypes(), 0, PutField(3), FrameType(locals, [Ref(0), Any]), 2) ==
            Some(FrameType(locals, []))
  {
    CellFacts();
    BothOnTop(locals);
    hide Cell, Sound, Replaced, OnTop;
    assert FieldRef(Cell(), 0, 3) == Some(FieldPtr(0, 0));
    assert [Ref(0)] + [Any] == [Ref(0), Any];
  }

  lemma {:induction false} SubOfItself(ft: FrameType)
    requires Ordered(Cell().classes)
    ensures FrameSub(Cell().classes, ft, ft)
  {
    hide Cell;
  }

  /** An instruction that leads only to the next one, with exactly the types that stand there. */
  lemma {:induction false} TypedBy(m: MethodPtr, fts: map<int, FrameType>, pc: nat, ins: Instr, next: nat)
    requires Sound(Cell()) && m in Cell().code && m.cls == 0 && pc in fts && next in fts
    requires var code := Cell().code[m];
             && pc < |code.bytes| && |fts[pc].locals| == code.maxLocals && |fts[pc].stack| <= code.maxStack == 2
             && Decode(code.bytes, pc) == Some((ins, next)) && !Returns(ins)
             && forall to :: GoesTo(ins, next, to) ==> to == next
    requires Flow(Cell(), CellTypes(), 0, ins, fts[pc], 2) == Some(fts[next])
    ensures TypedAt(Cell(), CellTypes(), m, fts, pc)
  {
    CellFacts();
    SubOfItself(fts[next]);
    hide Cell, Sound, Decode, Flow, FrameSub, GoesTo;
  }

  lemma {:induction false} TypedReturn(m: MethodPtr, fts: map<int, FrameType>, pc: nat)
    requires Sound(Cell()) && m in Cell().code && m.cls == 0 && pc in fts
    requires IsMethod(Cell().classes, m) && ResultTypes(Cell(), CellTypes(), m) == []
    requires var code := Cell().code[m];
             && pc < |code.bytes| && |fts[pc].locals| == code.maxLocals && fts[pc].stack == []
             && Decode(code.bytes, pc) == Some((ReturnVoid, pc + 1))
    ensures TypedAt(Cell(), CellTypes(), m, fts, pc)
  {
    CellFacts();
    hide Cell, Sound, Decode, ResultTypes;
    assert fts[pc].stack[0..] == [];
  }

  lemma {:induction false} MainIsTyped(pc: int)
    requires Sound(Cell()) && MAIN in Cell().code && pc in MainTypes()
    ensures TypedAt(Cell(), CellTypes(), MAIN, MainTypes(), pc)
  {
    CellFacts();
    CellDecodes();
    hide Cell, Sound, Decode, Flow, TypedAt, ResultTypes;
    if pc == 0 {
      NewFlows([Any]);
      TypedBy(MAIN, MainTypes(), 0, New(1), 3);
    } else if pc == 3 {
      LoadFlows(0, [Any], [Ref(0)]);
      assert [Ref(0)] + [Any] == [Ref(0), Any];
      TypedBy(MAIN, MainTypes(), 3, LoadVar(0, false), 4);
    } else if pc == 4 {
      CallFlows([Any]);
      TypedBy(MAIN, MainTypes(), 4, InvokeVirtual(2), 7);
    } else {
      CellArgs();
      TypedReturn(MAIN, MainTypes(), 7);
    }
  }

  lemma {:induction false} SetIsTyped(pc: int)
    requires Sound(Cell()) && SET in Cell().code && pc in SetTypes()
    ensures TypedAt(Cell(), CellTypes(), SET, SetTypes(), pc)
  {
    CellFacts();
    CellDecodes();
    hide Cell, Sound, Decode, Flow, TypedAt, ResultTypes;
    if pc == 0 {
      LoadFlows(0, [Ref(0), Any], []);
      assert [] + [Ref(0)] == [Ref(0)];
      TypedBy(SET, SetTypes(), 0, LoadVar(0, false), 1);
    } else if pc == 1 {
      LoadFlows(1, [Ref(0), Any], [Ref(0)]);
      assert [Ref(0)] + [Any] == [Ref(0), Any];
      TypedBy(SET, SetTypes(), 1, LoadVar(1, false), 2);
    } else if pc == 2 {
      StoreFlows([Ref(0), Any]);
      TypedBy(SET, SetTypes(), 2, PutField(3), 5);
    } else {
      CellArgs();
      TypedReturn(SET, SetTypes(), 5);
    }
  }

  lemma {:induction false} EntrySub(ts: seq<WordType>)
    requires Ordered(Cell().classes)
    ensures AllSub(Cell().classes, ts + Anys(0), ts)
  {
    hide Cell;
    assert ts + Anys(0) == ts;
  }

  lemma {:induction false} CellMethods()
    requires Sound(Cell())
    ensures MAIN in Cell().code && MethodTyped(Cell(), CellTypes(), MAIN)
    ensures SET in Cell().code && MethodTyped(Cell(), CellTypes(), SET)
  {
    CellFacts();
    CellArgs();
    hide Cell, Sound, TypedAt, ArgTypes, ResultTypes, AllSub;
    var p, t := Cell(), CellTypes();
    EntrySub([Any]);
    EntrySub([Ref(0), Any]);
    forall pc | pc in MainTypes()
      ensures TypedAt(p, t, MAIN, MainTypes(), pc)
    {
      MainIsTyped(pc);
    }
    forall pc | pc in SetTypes()
      ensures TypedAt(p, t, SET, SetTypes(), pc)
    {
      SetIsTyped(pc);
    }
  }

  lemma {:induction false} AnyArgument(cs: seq<ClassBlock>, w: Word)
    requires Ordered(cs)
    ensures AllTyped(cs, [], [w], [Any])
  {
  }

  /** The program meets the conditions of the safety theorem, and any int those of its main. */
  lemma {:induction false} CellIsWellTyped(w: Word)
    ensures WellTyped(Cell(), CellTypes())
    ensures AllTyped(Cell().classes, [], [w], ArgTypes(Cell(), CellTypes(), MAIN))
  {
    CellIsSound();
    CellFacts();
    CellArgs();
    CellMethods();
    AnyArgument(Cell().classes, w);
    hide Cell, CellTypes, Sound, MethodTyped, ArgTypes, AllTyped, MethodAt;
  }
}
