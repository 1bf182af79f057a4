/**
 Stack frames: `src/interp/stackmanager.h` and `src/interp/stackmanager.c`. A frame's locals and
 operand stack share one block of words; `ostack` points at the topmost word in use.
*/
module Frames {
  import opened Options
  import opened Words
  import opened Classes
  import opened Bytecode
  import opened Descriptors

  /** How a run of the virtual machine breaks off. */
  datatype Fault =
    | StackError        // reported by ASSERT_STACK
    | Wild              // an access outside the words of the frame, object or table it is meant for
    | AssertionFailed   // an Assert_ASSERT of a handler
    | ArithmeticTrap    // the quotient of the smallest value and -1
    | NullDereference
    | OutOfMemory
    | Unresolved        // a constant pool reference that does not resolve
    | NoSuchMethod
    | NoCode            // a method without bytecode
    | BadCode           // an opcode outside the modelled subset or cut off

  datatype Result<+T> = Ok(value: T) | Fail(fault: Fault) {
    predicate IsFailure() {
      Fail?
    }

    function PropagateFailure<U>(): Result<U>
      requires Fail?
    {
      Fail(fault)
    }

    function Extract(): T
      requires Ok?
    {
      value
    }
  }

  /** A frame as a value: the stack grows to the right, pc counts from the start of the code. */
  datatype Frame = Frame(mb: MethodPtr, locals: seq<Word>, stack: seq<Word>, pc: int)

  /** What popping a value of the given kind does on a stack of h words that is too short. The
      long pops have no ASSERT_STACK: the source goes on with ostack below the stack. */
  function PopFault(k: Kind, h: nat, maxLocals: nat): Fault {
    if k == AsLong || maxLocals + h < Size(k) then Wild else StackError
  }

  /** What pushing words does when they do not fit: the assertion looks at the first word only. */
  function PushFault(words: nat, h: nat, maxStack: nat): Fault {
    if words == 2 && h < maxStack then Wild else StackError
  }

  function Zeros(n: nat): (s: seq<Word>)
    ensures |s| == n && forall i :: 0 <= i < n ==> s[i] == 0
  {
    if n == 0 then [] else Zeros(n - 1) + [0]
  }

  class JFrame {
    const mb: MethodPtr
    const maxLocals: nat
    const maxStack: nat
    const words: array<Word>
    var ostack: int
    var pc: int
    var pcOffset: int

    function Bottom(): int {
      maxLocals - 1
    }

    function Top(): int {
      Bottom() + maxStack
    }

    /** The stack pointer is inside the stack and the words above it are clear. */
    ghost predicate Valid()
      reads this`ostack, words
    {
      && words.Length == maxLocals + maxStack
      && Bottom() <= ostack <= Top()
      && forall i :: ostack < i < words.Length ==> words[i] == 0
    }

    ghost function Locals(): (s: seq<Word>)
      reads this`ostack, words
      requires Valid()
      ensures |s| == maxLocals
    {
      words[..maxLocals]
    }

    ghost function Stack(): (s: seq<Word>)
      reads this`ostack, words
      requires Valid()
      ensures |s| == ostack - Bottom() <= maxStack
    {
      words[maxLocals..ostack + 1]
    }

    ghost function View(): Frame
      reads this`ostack, this`pc, words
      requires Valid()
    {
      Frame(mb, Locals(), Stack(), pc)
    }

    /** `createFrame0` without the bookkeeping of the method stack. */
    constructor (mb: MethodPtr, maxLocals: nat, maxStack: nat)
      ensures Valid() && fresh(words)
      ensures this.mb == mb && this.maxLocals == maxLocals && this.maxStack == maxStack
      ensures View() == Frame(mb, Zeros(maxLocals), [], 0) && pcOffset == 0
    {
      this.mb, this.maxLocals, this.maxStack := mb, maxLocals, maxStack;
      words := new Word[maxLocals + maxStack](_ => 0);
      ostack := maxLocals - 1;
      pc, pcOffset := 0, 0;
    }

    predicate InStack()
      reads this`ostack
    {
      Bottom() <= ostack <= Top()
    }

    /** `push` of one word */
    method PushWord(w: Word) returns (r: Result<()>)
      requires Valid()
      modifies this`ostack, words
      ensures r.Ok? <==> old(|Stack()|) < maxStack
      ensures r.Ok? ==> Valid() && Stack() == old(Stack()) + [w] && Locals() == old(Locals())
      ensures r.Fail? ==> r.fault == PushFault(1, old(|Stack()|), maxStack)
    {
      ostack := ostack + 1;
      if !InStack() {
        return Fail(StackError);
      }
      words[ostack] := w;
      return Ok(());
    }

    /** `push` of a long or double: the words in memory order, and no second check. */
    method PushWide(v: Wide) returns (r: Result<()>)
      requires Valid()
      modifies this`ostack, words
      ensures r.Ok? <==> old(|Stack()|) + 2 <= maxStack
      ensures r.Ok? ==> Valid() && Stack() == old(Stack()) + [Low(v), High(v)] && Locals() == old(Locals())
      ensures r.Fail? ==> r.fault == PushFault(2, old(|Stack()|), maxStack)
    {
      ostack := ostack + 1;
      if !InStack() {
        return Fail(StackError);
      }
      if ostack + 1 >= words.Length {
        return Fail(Wild);
      }
      words[ostack], words[ostack + 1] := Low(v), High(v);
      ostack := ostack + 1;
      return Ok(());
    }

    /** `pop` of one word: the word it frees is cleared. */
    method PopWord() returns (r: Result<Word>)
      requires Valid()
      modifies this`ostack, words
      ensures r.Ok? <==> old(|Stack()|) >= 1
      ensures r.Ok? ==> Valid() && old(Stack()) == Stack() + [r.value] && Locals() == old(Locals())
      ensures r.Fail? ==> r.fault == PopFault(OneWord, old(|Stack()|), maxLocals)
    {
      if ostack < 0 {
        return Fail(Wild);
      }
      var w := words[ostack];
      words[ostack] := 0;
      ostack := ostack - 1;
      if !InStack() {
        return Fail(StackError);
      }
      return Ok(w);
    }

    /** `pop` of two words, with the check of TYPE_DOUBLE or without it as for TYPE_LONG. */
    method PopWide(kind: Kind) returns (r: Result<Wide>)
      requires Valid() && kind != OneWord
      modifies this`ostack, words
      ensures r.Ok? <==> old(|Stack()|) >= 2
      ensures r.Ok? ==> Valid() && old(Stack()) == Stack() + [Low(r.value), High(r.value)] && Locals() == old(Locals())
      ensures r.Fail? ==> r.fault == PopFault(kind, old(|Stack()|), maxLocals)
    {
      ostack := ostack - 1;
      if ostack < 0 {
        return Fail(Wild);
      }
      SplitJoin(words[ostack], words[ostack + 1]);
      var v := Join(words[ostack], words[ostack + 1]);
      words[ostack], words[ostack + 1] := 0, 0;
      ostack := ostack - 1;
      if kind == AsDouble && !InStack() {
        return Fail(StackError);
      }
      if ostack < Bottom() {
        return Fail(Wild);
      }
      return Ok(v);
    }

    /** `LOAD` of one word */
    method LoadWord(i: nat) returns (r: Result<Word>)
      requires Valid()
      ensures r == if i < maxLocals then Ok(Locals()[i]) else Fail(Wild)
    {
      if i >= maxLocals {
        return Fail(Wild);
      }
      return Ok(words[i]);
    }

    method LoadWide(i: nat) returns (r: Result<Wide>)
      requires Valid()
      ensures r == if i + 1 < maxLocals then Ok(Join(Locals()[i], Locals()[i + 1])) else Fail(Wild)
    {
      if i + 1 >= maxLocals {
        return Fail(Wild);
      }
      return Ok(Join(words[i], words[i + 1]));
    }

    /** `STORE` of one word */
    method StoreWord(i: nat, w: Word) returns (r: Result<()>)
      requires Valid()
      modifies words
      ensures r.Ok? <==> i < maxLocals
      ensures r.Ok? ==> Valid() && Locals() == old(Locals())[i := w] && Stack() == old(Stack())
      ensures r.Fail? ==> r.fault == Wild
    {
      if i >= maxLocals {
        return Fail(Wild);
      }
      words[i] := w;
      return Ok(());
    }

    method StoreWide(i: nat, v: Wide) returns (r: Result<()>)
      requires Valid()
      modifies words
      ensures r.Ok? <==> i + 1 < maxLocals
      ensures r.Ok? ==> Valid() && Locals() == old(Locals())[i := Low(v)][i + 1 := High(v)] && Stack() == old(Stack())
      ensures r.Fail? ==> r.fault == Wild
    {
      if i + 1 >= maxLocals {
        return Fail(Wild);
      }
      words[i], words[i + 1] := Low(v), High(v);
      return Ok(());
    }
  }

  // ----- passing arguments -----

  /** Locals of a new frame: the arguments, then zeros. */
  function Entered(args: seq<Word>, maxLocals: nat): (s: seq<Word>)
    requires |args| <= maxLocals
    ensures |s| == maxLocals
  {
    args + Zeros(maxLocals - |args|)
  }

  /** Locals while the arguments are copied from the last to the first: those from k on are in. */
  function Partly(args: seq<Word>, maxLocals: nat, k: nat): (s: seq<Word>)
    requires k <= |args| <= maxLocals
    ensures |s| == maxLocals
  {
    Zeros(k) + args[k..] + Zeros(maxLocals - |args|)
  }

  lemma {:induction false} PartlySteps(args: seq<Word>, maxLocals: nat, k: nat)
    requires k <= |args| <= maxLocals
    ensures Partly(args, maxLocals, |args|) == Zeros(maxLocals)
    ensures Partly(args, maxLocals, 0) == Entered(args, maxLocals)
    ensures k > 0 ==> Partly(args, maxLocals, k)[k - 1 := args[k - 1]] == Partly(args, maxLocals, k - 1)
  {
  }

  /** One turn of the copy loop. */
  method MoveArg(prev: JFrame, frame: JFrame, i: nat) returns (r: Result<()>)
    requires prev.Valid() && frame.Valid() && prev != frame && prev.words != frame.words
    requires i < frame.maxLocals
    modifies prev`ostack, prev.words, frame.words
    ensures r.Ok? <==> old(prev.Stack()) != []
    ensures r.Ok? ==>
              && prev.Valid() && prev.Locals() == old(prev.Locals())
              && frame.Valid() && frame.Stack() == old(frame.Stack())
              && var rest := old(|prev.Stack()|) - 1;
                 && prev.Stack() == old(prev.Stack())[..rest]
                 && frame.Locals() == old(frame.Locals())[i := old(prev.Stack())[rest]]
    ensures r.Fail? ==> r.fault == Wild
  {
    if prev.ostack <= prev.Bottom() {
      return Fail(Wild);
    }
    frame.words[i] := prev.words[prev.ostack];
    prev.words[prev.ostack] := 0;
    prev.ostack := prev.ostack - 1;
    return Ok(());
  }

  /** The words a call takes off the caller's stack. */
  function ArgWords(isStatic: bool, argsCount: nat): nat {
    if isStatic then argsCount else argsCount + 1
  }

  /** The copy loop of `createFrame` without a va_list: the topmost words of the caller become
      the first locals of the callee and are cleared in the caller. */
  method CopyArgs(prev: JFrame, frame: JFrame, isStatic: bool, argsCount: nat) returns (r: Result<()>)
    requires prev.Valid() && frame.Valid() && prev != frame && prev.words != frame.words
    requires frame.Locals() == Zeros(frame.maxLocals)
    modifies prev`ostack, prev.words, frame.words
    ensures r.Ok? <==>
              ArgWords(isStatic, argsCount) <= old(|prev.Stack()|) && ArgWords(isStatic, argsCount) <= frame.maxLocals
    ensures r.Ok? ==>
              && prev.Valid() && prev.Locals() == old(prev.Locals())
              && frame.Valid() && frame.Stack() == old(frame.Stack())
              && var rest := old(|prev.Stack()|) - ArgWords(isStatic, argsCount);
                 && prev.Stack() == old(prev.Stack())[..rest]
                 && frame.Locals() == Entered(old(prev.Stack())[rest..], frame.maxLocals)
    ensures r.Fail? ==> r.fault == Wild
  {
    hide JFrame.Valid, JFrame.Locals, JFrame.Stack, Partly, Entered, Zeros;
    ghost var n := ArgWords(isStatic, argsCount);
    var localsIdx: int := if isStatic then argsCount - 1 else argsCount;
    if localsIdx >= frame.maxLocals {
      return Fail(Wild);
    }
    ghost var stack, locals, zeros := prev.Stack(), prev.Locals(), frame.Stack();
    ghost var fits := n <= |stack|;
    ghost var args := if fits then stack[|stack| - n..] else Zeros(n);
    if fits {
      PartlySteps(args, frame.maxLocals, n);
    }
    while localsIdx >= 0
      invariant -1 <= localsIdx < n <= frame.maxLocals
      invariant prev.Valid() && frame.Valid() && prev.Locals() == locals && frame.Stack() == zeros
      invariant n - 1 - localsIdx <= |stack| && prev.Stack() == stack[..|stack| - (n - 1 - localsIdx)]
      invariant fits ==> |args| == n && frame.Locals() == Partly(args, frame.maxLocals, localsIdx + 1)
    {
      var _ :- MoveArg(prev, frame, localsIdx);
      if fits {
        PartlySteps(args, frame.maxLocals, localsIdx + 1);
      }
      localsIdx := localsIdx - 1;
    }
    PartlySteps(args, frame.maxLocals, 0);
    return Ok(());
  }

  /** One parameter in `SCAN_SIG`: whether it takes the D branch, and the cursor behind it. */
  method ScanArg(text: string, p: nat, ghost t: FieldType) returns (wide: bool, q: nat)
    requires SpelledAt(text, p, t)
    ensures (if wide then 2 else 1) == Slots(t) && q == p + |Spell(t)|
  {
    if text[p] == 'J' || text[p] == 'D' {
      return true, p + 1;
    }
    wide, q := false, p;
    if text[q] == '[' {
      q := SkipArray(text, p, t);
      q := q + 1;
    } else if text[q] == 'L' {
      q := SkipObject(text, p, t);
    } else {
      q := q + 1;
    }
  }

  lemma {:induction false} EnterNext(js: seq<Word>, k: nat, maxLocals: nat)
    requires k < |js| && k < maxLocals
    ensures Entered(js[..0], maxLocals) == Zeros(maxLocals)
    ensures Entered(js[..k], maxLocals)[k := js[k]] == Entered(js[..k + 1], maxLocals)
    ensures k + 1 < |js| && k + 1 < maxLocals ==>
              Entered(js[..k], maxLocals)[k := js[k]][k + 1 := js[k + 1]] == Entered(js[..k + 2], maxLocals)
  {
  }

  lemma {:induction false} EnterNone(js: seq<Word>, maxLocals: nat)
    ensures Entered(js[..0], maxLocals) == Zeros(maxLocals)
  {
  }

  /** `VA_DOUBLE` and `VA_SINGLE`: the next argument of a va_list becomes the next local. */
  method TakeArg(frame: JFrame, jargs: seq<Word>, sp: nat, wide: bool) returns (r: Result<()>)
    requires frame.Valid() && sp + (if wide then 2 else 1) <= |jargs| && sp <= frame.maxLocals
    requires frame.Locals() == Entered(jargs[..sp], frame.maxLocals)
    modifies frame.words
    ensures r.Ok? <==> sp + (if wide then 2 else 1) <= frame.maxLocals
    ensures r.Ok? ==>
              && frame.Valid() && frame.Stack() == old(frame.Stack())
              && frame.Locals() == Entered(jargs[..sp + if wide then 2 else 1], frame.maxLocals)
    ensures r.Fail? ==> r.fault == Wild
  {
    hide JFrame.Valid, JFrame.Locals, JFrame.Stack, Entered, Zeros;
    if sp < frame.maxLocals {
      EnterNext(jargs, sp, frame.maxLocals);
    }
    if wide {
      SplitJoin(jargs[sp], jargs[sp + 1]);
      r := frame.StoreWide(sp, Join(jargs[sp], jargs[sp + 1]));
    } else {
      r := frame.StoreWord(sp, jargs[sp]);
    }
  }

  /** The va_list branch of `createFrame`: the receiver, then one local or two for each
      parameter that `SCAN_SIG` finds. The va_list is the sequence of its words, and the cursor
      into it runs with the cursor into the locals. The result is the place where `SCAN_SIG`
      stops, the ')'. */
  method TakeArgs(frame: JFrame, isStatic: bool, typ: string, jargs: seq<Word>, ghost ps: seq<FieldType>,
                  ghost ret: string)
    returns (r: Result<nat>)
    requires frame.Valid() && frame.Locals() == Zeros(frame.maxLocals)
    requires typ == Descriptor(ps, ret) && AllWellFormed(ps)
    requires |jargs| == ArgWords(isStatic, TotalSlots(ps))
    modifies frame.words
    ensures r.Ok? <==> |jargs| <= frame.maxLocals
    ensures r.Ok? ==> r.value == 1 + |SpellAll(ps)|
    ensures r.Ok? ==>
              frame.Valid() && frame.Stack() == old(frame.Stack()) && frame.Locals() == Entered(jargs, frame.maxLocals)
    ensures r.Fail? ==> r.fault == Wild
  {
    hide JFrame.Valid, JFrame.Locals, JFrame.Stack, Entered, Zeros;
    hide SpelledAt, Reads, Started, Spell, SpellAll, Descriptor, AllWellFormed;
    EnterNone(jargs, frame.maxLocals);
    var sp := 0;
    if !isStatic {
      var _ :- TakeArg(frame, jargs, sp, false);
      sp := sp + 1;
    }
    Begin(typ, ps, ret);
    ghost var rest := ps;
    StartedAt(typ, 0, rest, ret);
    var p := 1;
    StartedAt(typ, p, rest, ret);
    while typ[p] != ')'
      invariant 0 < p < |typ| && Started(typ, p, rest, ret)
      invariant sp + TotalSlots(rest) == |jargs| && sp <= frame.maxLocals
      invariant p + |SpellAll(rest)| == 1 + |SpellAll(ps)|
      invariant frame.Valid() && frame.Stack() == old(frame.Stack())
      invariant frame.Locals() == Entered(jargs[..sp], frame.maxLocals)
      decreases |typ| - p
    {
      StartedAt(typ, p, rest, ret);
      var wide;
      wide, p := ScanArg(typ, p, rest[0]);
      var _ :- TakeArg(frame, jargs, sp, wide);
      sp := sp + if wide then 2 else 1;
      rest := rest[1..];
      StartedAt(typ, p, rest, ret);
    }
    StartedAt(typ, p, rest, ret);
    assert jargs[..sp] == jargs;
    return Ok(p);
  }

  // ----- the calling convention -----

  function AllData(args: seq<Value>): seq<Word> {
    if args == [] then [] else ValueData(args[0]) + AllData(args[1..])
  }

  /** The arguments have the widths of the parameters. */
  ghost predicate ArgsFor(args: seq<Value>, ps: seq<FieldType>) {
    |args| == |ps| && forall i :: 0 <= i < |ps| ==> (args[i].Double? <==> Slots(ps[i]) == 2)
  }

  /** The slot of parameter i, counted from the first parameter. */
  ghost function SlotOf(ps: seq<FieldType>, i: nat): nat
    requires i <= |ps|
  {
    if i == 0 then 0 else Slots(ps[0]) + SlotOf(ps[1..], i - 1)
  }

  /** What a typed `LOAD` reads. */
  ghost predicate LoadsAs(locals: seq<Word>, i: nat, a: Value) {
    match a
    case Single(w) => i < |locals| && locals[i] == w
    case Double(v) => i + 1 < |locals| && Join(locals[i], locals[i + 1]) == v
  }

  lemma {:induction false} DataLength(args: seq<Value>, ps: seq<FieldType>)
    requires ArgsFor(args, ps)
    ensures |AllData(args)| == TotalSlots(ps)
  {
    if ps != [] {
      DataLength(args[1..], ps[1..]);
    }
  }

  lemma {:induction false} LoadsShifted(head: seq<Word>, locals: seq<Word>, i: nat, a: Value)
    requires LoadsAs(locals, i, a)
    ensures LoadsAs(head + locals, |head| + i, a)
  {
  }

  lemma {:induction false} EachLoads(args: seq<Value>, ps: seq<FieldType>, tail: seq<Word>, i: nat)
    requires ArgsFor(args, ps) && i < |ps|
    ensures LoadsAs(AllData(args) + tail, SlotOf(ps, i), args[i])
  {
    var head := ValueData(args[0]);
    assert AllData(args) + tail == head + (AllData(args[1..]) + tail);
    if i == 0 {
      if args[0].Double? {
        JoinSplit(args[0].v);
      }
    } else {
      EachLoads(args[1..], ps[1..], tail, i - 1);
      LoadsShifted(head, AllData(args[1..]) + tail, SlotOf(ps[1..], i - 1), args[i]);
    }
  }

  /** A callee entered with a receiver (or none) and typed arguments finds the receiver in local
      0 and every argument at the slot of its parameter. */
  lemma {:induction false} CalleeLoads(receiver: seq<Word>, args: seq<Value>, ps: seq<FieldType>, maxLocals: nat)
    requires ArgsFor(args, ps) && |receiver| + TotalSlots(ps) <= maxLocals
    ensures |receiver + AllData(args)| == |receiver| + TotalSlots(ps)
    ensures var locals := Entered(receiver + AllData(args), maxLocals);
            && receiver <= locals
            && forall i :: 0 <= i < |ps| ==> LoadsAs(locals, |receiver| + SlotOf(ps, i), args[i])
  {
    DataLength(args, ps);
    var tail := Zeros(maxLocals - |receiver + AllData(args)|);
    var locals := Entered(receiver + AllData(args), maxLocals);
    assert locals == receiver + (AllData(args) + tail);
    forall i | 0 <= i < |ps|
      ensures LoadsAs(locals, |receiver| + SlotOf(ps, i), args[i])
    {
      EachLoads(args, ps, tail, i);
      LoadsShifted(receiver, AllData(args) + tail, SlotOf(ps, i), args[i]);
    }
  }

  method PushArg(prev: JFrame, a: Value)
    requires prev.Valid() && |prev.Stack()| + |ValueData(a)| <= prev.maxStack
    modifies prev`ostack, prev.words
    ensures prev.Valid() && prev.Locals() == old(prev.Locals())
    ensures prev.Stack() == old(prev.Stack()) + ValueData(a)
  {
    hide JFrame.Valid, JFrame.Locals, JFrame.Stack;
    if a.Double? {
      var r := prev.PushWide(a.v);
    } else {
      var r := prev.PushWord(a.w);
    }
  }

  /** The operand pushes that precede a call. */
  method PushArgs(prev: JFrame, args: seq<Value>)
    requires prev.Valid() && |prev.Stack()| + |AllData(args)| <= prev.maxStack
    modifies prev`ostack, prev.words
    ensures prev.Valid() && prev.Locals() == old(prev.Locals())
    ensures prev.Stack() == old(prev.Stack()) + AllData(args)
  {
    hide JFrame.Valid, JFrame.Locals, JFrame.Stack, ValueData;
    ghost var stack, all := prev.Stack(), AllData(args);
    for i := 0 to |args|
      invariant prev.Valid() && prev.Locals() == old(prev.Locals())
      invariant prev.Stack() + AllData(args[i..]) == stack + all
    {
      ghost var before := prev.Stack();
      assert args[i..][1..] == args[i + 1..];
      PushArg(prev, args[i]);
      assert before + AllData(args[i..]) == prev.Stack() + AllData(args[i + 1..]);
    }
  }

  function ReceiverData(receiver: Option<Word>): seq<Word> {
    if receiver.Some? then [receiver.value] else []
  }

  /** The pushes of a receiver, if the method has one, and of the arguments. */
  method PushAll(prev: JFrame, receiver: Option<Word>, args: seq<Value>)
    requires prev.Valid() && |prev.Stack()| + |ReceiverData(receiver)| + |AllData(args)| <= prev.maxStack
    modifies prev`ostack, prev.words
    ensures prev.Valid() && prev.Locals() == old(prev.Locals())
    ensures prev.Stack() == old(prev.Stack()) + (ReceiverData(receiver) + AllData(args))
  {
    hide JFrame.Valid, JFrame.Locals, JFrame.Stack, AllData;
    ghost var stack := prev.Stack();
    if receiver.Some? {
      var pushed := prev.PushWord(receiver.value);
    }
    PushArgs(prev, args);
    assert prev.Stack() == stack + (ReceiverData(receiver) + AllData(args));
  }

  /** The convention end to end: the caller pushes a receiver, if the method has one, and the
      arguments; `createFrame` copies as many words as `parseArgs` counted in the descriptor.
      The caller is left with the words it had before, and the callee loads every argument. */
  method CallWith(prev: JFrame, frame: JFrame, receiver: Option<Word>, args: seq<Value>, typ: string,
                  ghost ps: seq<FieldType>, ghost ret: string) returns (r: Result<()>)
    requires prev.Valid() && frame.Valid() && prev != frame && prev.words != frame.words
    requires frame.Locals() == Zeros(frame.maxLocals)
    requires typ == Descriptor(ps, ret) && AllWellFormed(ps) && ArgsFor(args, ps)
    requires |prev.Stack()| + ArgWords(receiver == None, TotalSlots(ps)) <= prev.maxStack
    modifies prev`ostack, prev.words, frame.words
    ensures r.Ok? <==> ArgWords(receiver == None, TotalSlots(ps)) <= frame.maxLocals
    ensures r.Ok? ==>
              && prev.Valid() && prev.Stack() == old(prev.Stack()) && prev.Locals() == old(prev.Locals())
              && frame.Valid() && frame.Stack() == old(frame.Stack())
              && (receiver.Some? ==> frame.Locals()[0] == receiver.value)
              && forall i :: 0 <= i < |ps| ==>
                   LoadsAs(frame.Locals(), ArgWords(receiver == None, 0) + SlotOf(ps, i), args[i])
  {
    hide JFrame.Valid, JFrame.Locals, JFrame.Stack, Entered, Zeros, AllData, TotalSlots, ArgsFor, SlotOf, LoadsAs;
    hide Descriptor;
    ghost var stack, ws := prev.Stack(), ReceiverData(receiver) + AllData(args);
    DataLength(args, ps);
    PushAll(prev, receiver, args);
    var argsCount, stop := ParseArgs(typ, ps, ret);
    r := CopyArgs(prev, frame, receiver == None, argsCount);
    if r.Ok? {
      assert (stack + ws)[|stack|..] == ws && (stack + ws)[..|stack|] == stack;
      CalleeLoads(ReceiverData(receiver), args, ps, frame.maxLocals);
    }
  }
}
