/**
 Laws over runs of several instructions: what one computes another undoes, and two ways to compute
 the same value agree, for all words.
*/
module RunLaws {
  import opened Options
  import opened Words
  import opened Bytecode
  import opened Frames
  import opened Machine
  import opened Laws
  import opened ControlLaws

  // ----- runs over consecutive bytes -----

  /** The frame on top, j bytes on, with these locals and this stack. */
  ghost function Now(s: State, j: nat, locals: seq<Word>, stack: seq<Word>): State
    requires s.frames != []
  {
    Moved(s, locals, stack, s.frames[0].pc + j).state
  }

  /** n steps over the first j of the bytes lead to these locals and this stack. */
  ghost predicate Ran(p: Program, s: State, bytes: seq<Byte>, n: nat, j: nat, locals: seq<Word>, stack: seq<Word>) {
    && Stands(p, s, bytes) && j <= |bytes| && Run(p, s, n) == Next(Now(s, j, locals, stack))
    && Stands(p, Now(s, j, locals, stack), bytes[j..])
  }

  /** n steps over all the bytes lead to these locals and this stack; nothing else changes. */
  ghost predicate Leaves(p: Program, s: State, bytes: seq<Byte>, n: nat, locals: seq<Word>, stack: seq<Word>) {
    Sound(p) && Shaped(p, s) && Run(p, s, n) == Moved(s, locals, stack, s.frames[0].pc + |bytes|)
  }

  lemma {:induction false} Start(p: Program, s: State, bytes: seq<Byte>)
    requires Stands(p, s, bytes)
    ensures s.frames != [] && Ran(p, s, bytes, 0, 0, s.frames[0].locals, s.frames[0].stack)
  {
    hide Sound;
    assert bytes[0..] == bytes;
    assert s.frames == [s.frames[0]] + s.frames[1..];
  }

  /** The bytes at which a run stands. */
  lemma {:induction false} Here(p: Program, s: State, bytes: seq<Byte>, n: nat, j: nat, locals: seq<Word>,
                                stack: seq<Word>, next: seq<Byte>)
    requires Ran(p, s, bytes, n, j, locals, stack) && j + |next| <= |bytes| && bytes[j..j + |next|] == next
    ensures s.frames != [] && Stands(p, Now(s, j, locals, stack), next)
    ensures Now(s, j, locals, stack).frames[0].locals == locals && Now(s, j, locals, stack).frames[0].stack == stack
    ensures Now(s, j, locals, stack).frames[0].mb == s.frames[0].mb
  {
    hide Sound;
    var t := Now(s, j, locals, stack);
    var f := t.frames[0];
    var code := p.code[f.mb].bytes;
    assert code[f.pc..f.pc + |bytes[j..]|][..|next|] == code[f.pc..f.pc + |next|];
    assert bytes[j..][..|next|] == bytes[j..j + |next|];
  }

  /** One more step. */
  lemma {:induction false} Advance(p: Program, s: State, bytes: seq<Byte>, n: nat, j: nat, locals: seq<Word>,
                                   stack: seq<Word>, k: nat, locals': seq<Word>, stack': seq<Word>)
    requires Ran(p, s, bytes, n, j, locals, stack) && j + k <= |bytes|
    requires var t := Now(s, j, locals, stack); Step(p, t) == Moved(t, locals', stack', t.frames[0].pc + k)
    ensures Ran(p, s, bytes, n + 1, j + k, locals', stack')
  {
    hide Sound, Step;
    var t := Now(s, j, locals, stack);
    RunOneMore(p, s, n);
    StepKeepsShape(p, t);
    StandsNext(p, t, bytes[j..], k, locals', stack');
    assert bytes[j..][k..] == bytes[j + k..];
    assert t.frames[1..] == s.frames[1..];
  }

  lemma {:induction false} Finish(p: Program, s: State, bytes: seq<Byte>, n: nat, locals: seq<Word>, stack: seq<Word>)
    requires Ran(p, s, bytes, n, |bytes|, locals, stack)
    ensures Leaves(p, s, bytes, n, locals, stack)
  {
    hide Sound, Run;
  }

  /** iload k, lload k in a run. */
  lemma {:induction false} LoadNext(p: Program, s: State, bytes: seq<Byte>, n: nat, j: nat, locals: seq<Word>,
                                    stack: seq<Word>, k: Byte, wide: bool)
    requires Ran(p, s, bytes, n, j, locals, stack) && j + 2 <= |bytes|
    requires bytes[j] == (if wide then 22 else 21) && bytes[j + 1] == k && s.frames != [] && s.frames[0].mb in p.code
    requires var size := if wide then 2 else 1;
             k + size <= |locals| && |stack| + size <= p.code[s.frames[0].mb].maxStack
    ensures Ran(p, s, bytes, n + 1, j + 2, locals, stack + locals[k..k + if wide then 2 else 1])
  {
    hide Ran, Stands, Step, Now;
    var next := [bytes[j], k];
    assert bytes[j..j + 2] == next;
    Here(p, s, bytes, n, j, locals, stack, next);
    Loads(p, Now(s, j, locals, stack), next, k, wide);
    Advance(p, s, bytes, n, j, locals, stack, 2, locals, stack + locals[k..k + if wide then 2 else 1]);
  }

  /** iadd, isub or imul in a run. */
  lemma {:induction false} SumNext(p: Program, s: State, bytes: seq<Byte>, n: nat, j: nat, locals: seq<Word>,
                                   rest: seq<Word>, x: Word, y: Word) returns (w: Word)
    requires Ran(p, s, bytes, n, j, locals, rest + [x, y]) && j < |bytes|
    requires bytes[j] == 96 || bytes[j] == 100 || bytes[j] == 104
    ensures Ran(p, s, bytes, n + 1, j + 1, locals, rest + [w])
    ensures bytes[j] == 96 ==> (w - (x + y)) % M32 == 0
    ensures bytes[j] == 100 ==> (w - (x - y)) % M32 == 0
    ensures bytes[j] == 104 ==> (w - x * y) % M32 == 0
  {
    hide Ran, Stands, Step, Now;
    assert bytes[j..j + 1] == [bytes[j]];
    Here(p, s, bytes, n, j, locals, rest + [x, y], [bytes[j]]);
    w := IntSums(p, Now(s, j, locals, rest + [x, y]), bytes[j], rest, x, y);
    Advance(p, s, bytes, n, j, locals, rest + [x, y], 1, locals, rest + [w]);
  }

  // ----- subtraction -----

  /** What isub takes away, iadd gives back: isub, iload k, iadd leaves x. */
  lemma {:induction false} SubThenAdd(p: Program, s: State, k: Byte, rest: seq<Word>, x: Word, y: Word)
    requires Stands(p, s, [100, 21, k, 96]) && s.frames[0].stack == rest + [x, y]
    requires k < |s.frames[0].locals| && s.frames[0].locals[k] == y
    ensures Leaves(p, s, [100, 21, k, 96], 3, s.frames[0].locals, rest + [x])
  {
    hide Stands, Ran, Leaves;
    var bytes: seq<Byte> := [100, 21, k, 96];
    StackFits(p, s, bytes);
    var locals := s.frames[0].locals;
    Start(p, s, bytes);
    var w := SumNext(p, s, bytes, 0, 0, locals, rest, x, y);
    LoadNext(p, s, bytes, 1, 1, locals, rest + [w], k, false);
    assert rest + [w] + locals[k..k + 1] == rest + [w, y];
    var v := SumNext(p, s, bytes, 2, 3, locals, rest, w, y);
    AddsBack(x, y, w, v, M32);
    Finish(p, s, bytes, 3, locals, rest + [v]);
  }

  /** isub does what ineg and iadd do. */
  lemma {:induction false} SubIsNegatedAdd(p: Program, s: State, t: State, rest: seq<Word>, x: Word, y: Word)
    returns (w: Word)
    requires Stands(p, s, [100]) && Stands(p, t, [116, 96])
    requires s.frames[0].stack == t.frames[0].stack == rest + [x, y]
    ensures Leaves(p, s, [100], 1, s.frames[0].locals, rest + [w])
    ensures Leaves(p, t, [116, 96], 2, t.frames[0].locals, rest + [w])
  {
    hide Stands, Ran, Leaves, Step, Now;
    StackFits(p, s, [100]);
    StackFits(p, t, [116, 96]);
    Start(p, s, [100]);
    w := SumNext(p, s, [100], 0, 0, s.frames[0].locals, rest, x, y);
    Finish(p, s, [100], 1, s.frames[0].locals, rest + [w]);
    var bytes: seq<Byte> := [116, 96];
    var locals := t.frames[0].locals;
    assert rest + [x, y] == rest + [x] + [y];
    Start(p, t, bytes);
    Here(p, t, bytes, 0, 0, locals, rest + [x, y], [116]);
    var m := IntNegation(p, Now(t, 0, locals, rest + [x, y]), rest + [x], y);
    Advance(p, t, bytes, 0, 0, locals, rest + [x, y], 1, locals, rest + [x] + [m]);
    assert rest + [x] + [m] == rest + [x, m];
    var v := SumNext(p, t, bytes, 1, 1, locals, rest, x, m);
    SubtractsNegated(x, y, w, m, v, M32);
    Finish(p, t, bytes, 2, locals, rest + [v]);
  }

  /** ladd, lsub or lmul in a run. */
  lemma {:induction false} WideSumNext(p: Program, s: State, bytes: seq<Byte>, n: nat, j: nat, locals: seq<Word>,
                                       rest: seq<Word>, x: (Word, Word), y: (Word, Word)) returns (w: (Word, Word))
    requires Ran(p, s, bytes, n, j, locals, rest + [x.0, x.1, y.0, y.1]) && j < |bytes|
    requires bytes[j] == 97 || bytes[j] == 101 || bytes[j] == 105
    ensures Ran(p, s, bytes, n + 1, j + 1, locals, rest + [w.0, w.1])
    ensures var a, b, r := Pair(x.0, x.1), Pair(y.0, y.1), Pair(w.0, w.1);
            && (bytes[j] == 97 ==> (r - (a + b)) % M64 == 0)
            && (bytes[j] == 101 ==> (r - (a - b)) % M64 == 0)
            && (bytes[j] == 105 ==> (r - a * b) % M64 == 0)
  {
    hide Ran, Stands, Step, Now;
    var stack := rest + [x.0, x.1, y.0, y.1];
    assert bytes[j..j + 1] == [bytes[j]];
    Here(p, s, bytes, n, j, locals, stack, [bytes[j]]);
    w := LongSums(p, Now(s, j, locals, stack), bytes[j], rest, x, y);
    Advance(p, s, bytes, n, j, locals, stack, 1, locals, rest + [w.0, w.1]);
  }

  lemma {:induction false} SamePair(x: (Word, Word), y: (Word, Word))
    ensures 0 <= Pair(x.0, x.1) < M64
    ensures Pair(x.0, x.1) == Pair(y.0, y.1) ==> x == y
  {
  }

  /** lsub, lload k, ladd leaves x. */
  lemma {:induction false} LongSubThenAdd(p: Program, s: State, k: Byte, rest: seq<Word>, x: (Word, Word),
                                          y: (Word, Word))
    requires Stands(p, s, [101, 22, k, 97]) && s.frames[0].stack == rest + [x.0, x.1, y.0, y.1]
    requires k + 1 < |s.frames[0].locals| && s.frames[0].locals[k] == y.0 && s.frames[0].locals[k + 1] == y.1
    ensures Leaves(p, s, [101, 22, k, 97], 3, s.frames[0].locals, rest + [x.0, x.1])
  {
    hide Stands, Ran, Leaves, Pair;
    var bytes: seq<Byte> := [101, 22, k, 97];
    StackFits(p, s, bytes);
    var locals := s.frames[0].locals;
    Start(p, s, bytes);
    var w := WideSumNext(p, s, bytes, 0, 0, locals, rest, x, y);
    LoadNext(p, s, bytes, 1, 1, locals, rest + [w.0, w.1], k, true);
    assert rest + [w.0, w.1] + locals[k..k + 2] == rest + [w.0, w.1, y.0, y.1];
    var v := WideSumNext(p, s, bytes, 2, 3, locals, rest, w, y);
    SamePair(v, x);
    SamePair(x, v);
    AddsBack(Pair(x.0, x.1), Pair(y.0, y.1), Pair(w.0, w.1), Pair(v.0, v.1), M64);
    Finish(p, s, bytes, 3, locals, rest + [v.0, v.1]);
  }

  /** lsub does what lneg and ladd do. */
  lemma {:induction false} LongSubIsNegatedAdd(p: Program, s: State, t: State, rest: seq<Word>, x: (Word, Word),
                                               y: (Word, Word)) returns (w: (Word, Word))
    requires Stands(p, s, [101]) && Stands(p, t, [117, 97])
    requires s.frames[0].stack == t.frames[0].stack == rest + [x.0, x.1, y.0, y.1]
    ensures Leaves(p, s, [101], 1, s.frames[0].locals, rest + [w.0, w.1])
    ensures Leaves(p, t, [117, 97], 2, t.frames[0].locals, rest + [w.0, w.1])
  {
    hide Stands, Ran, Leaves, Step, Now, Pair;
    StackFits(p, s, [101]);
    StackFits(p, t, [117, 97]);
    var stack, under := rest + [x.0, x.1, y.0, y.1], rest + [x.0, x.1];
    Start(p, s, [101]);
    w := WideSumNext(p, s, [101], 0, 0, s.frames[0].locals, rest, x, y);
    Finish(p, s, [101], 1, s.frames[0].locals, rest + [w.0, w.1]);
    var bytes: seq<Byte> := [117, 97];
    var locals := t.frames[0].locals;
    assert stack == under + [y.0, y.1];
    Start(p, t, bytes);
    Here(p, t, bytes, 0, 0, locals, stack, [117]);
    var m := LongNegation(p, Now(t, 0, locals, stack), under, y);
    Advance(p, t, bytes, 0, 0, locals, stack, 1, locals, under + [m.0, m.1]);
    assert under + [m.0, m.1] == rest + [x.0, x.1, m.0, m.1];
    var v := WideSumNext(p, t, bytes, 1, 1, locals, rest, x, m);
    SamePair(v, w);
    SamePair(w, v);
    SubtractsNegated(Pair(x.0, x.1), Pair(y.0, y.1), Pair(w.0, w.1), Pair(m.0, m.1), Pair(v.0, v.1), M64);
    Finish(p, t, bytes, 2, locals, rest + [v.0, v.1]);
  }

  // ----- division -----

  /** idiv or irem in a run. */
  lemma {:induction false} QuotientNext(p: Program, s: State, bytes: seq<Byte>, n: nat, j: nat, locals: seq<Word>,
                                        rest: seq<Word>, x: Word, y: Word) returns (w: Word)
    requires Ran(p, s, bytes, n, j, locals, rest + [x, y]) && j < |bytes| && (bytes[j] == 108 || bytes[j] == 112)
    requires y != 0 && !(x == 0x8000_0000 && y == 0xFFFF_FFFF)
    ensures Ran(p, s, bytes, n + 1, j + 1, locals, rest + [w])
    ensures var a, b, r := Signed(x, M32), Signed(y, M32), Signed(w, M32);
            if bytes[j] == 108 then Truncates(a, r, b, a - r * b) else exists q :: Truncates(a, q, b, r)
  {
    hide Ran, Stands, Step, Now, Truncates;
    assert bytes[j..j + 1] == [bytes[j]];
    Here(p, s, bytes, n, j, locals, rest + [x, y], [bytes[j]]);
    w := IntQuotients(p, Now(s, j, locals, rest + [x, y]), bytes[j], rest, x, y);
    Advance(p, s, bytes, n, j, locals, rest + [x, y], 1, locals, rest + [w]);
  }

  /** There is only one way to divide toward zero. */
  lemma {:induction false} OneQuotient(x: int, q: int, r: int, y: int, q': int, r': int)
    requires y != 0 && Truncates(x, q, y, r) && Truncates(x, q', y, r')
    ensures q == q' && r == r'
  {
    assert (q - q') * y == r' - r && (q' - q) * y == r - r';
    var size := if y < 0 then -y else y;
    assert -size < r' - r < size;
    if q > q' {
      SmallProduct(q - q', y, size);
    } else if q < q' {
      SmallProduct(q' - q, y, size);
    }
  }

  lemma {:induction false} SmallProduct(d: int, y: int, size: int)
    requires d >= 1 && size == (if y < 0 then -y else y)
    ensures d * y >= size || d * y <= -size
  {
    AtLeast(d, size, 1);
    assert size * d == d * y || size * d == -(d * y);
  }

  /** The code of `x / y * y + x % y`, with x in local i and y in local k. */
  function Divided(i: Byte, k: Byte): seq<Byte> {
    [21, i, 21, k, 108, 21, k, 104, 21, i, 21, k, 112, 96]
  }

  /** Quotient times divisor plus remainder is the dividend, for all words that can be divided. */
  lemma {:induction false} DivideAndRestore(p: Program, s: State, i: Byte, k: Byte)
    requires Stands(p, s, Divided(i, k)) && i < |s.frames[0].locals| && k < |s.frames[0].locals|
    requires |s.frames[0].stack| + 3 <= p.code[s.frames[0].mb].maxStack
    requires var x, y := s.frames[0].locals[i], s.frames[0].locals[k]; y != 0 && !(x == 0x8000_0000 && y == 0xFFFF_FFFF)
    ensures var f := s.frames[0]; Leaves(p, s, Divided(i, k), 9, f.locals, f.stack + [f.locals[i]])
  {
    hide Stands, Ran, Leaves, Truncates;
    var bytes := Divided(i, k);
    StackFits(p, s, bytes);
    var f := s.frames[0];
    var locals, stack, x, y := f.locals, f.stack, f.locals[i], f.locals[k];
    Start(p, s, bytes);
    LoadNext(p, s, bytes, 0, 0, locals, stack, i, false);
    assert stack + locals[i..i + 1] == stack + [x];
    LoadNext(p, s, bytes, 1, 2, locals, stack + [x], k, false);
    assert stack + [x] + locals[k..k + 1] == stack + [x, y];
    var q := QuotientNext(p, s, bytes, 2, 4, locals, stack, x, y);
    LoadNext(p, s, bytes, 3, 5, locals, stack + [q], k, false);
    assert stack + [q] + locals[k..k + 1] == stack + [q, y];
    var m := SumNext(p, s, bytes, 4, 7, locals, stack, q, y);
    LoadNext(p, s, bytes, 5, 8, locals, stack + [m], i, false);
    assert stack + [m] + locals[i..i + 1] == stack + [m, x];
    LoadNext(p, s, bytes, 6, 10, locals, stack + [m, x], k, false);
    assert stack + [m, x] + locals[k..k + 1] == (stack + [m]) + [x, y];
    var r := QuotientNext(p, s, bytes, 7, 12, locals, stack + [m], x, y);
    assert (stack + [m]) + [r] == stack + [m, r];
    var v := SumNext(p, s, bytes, 8, 13, locals, stack, m, r);
    Restored(x, y, q, m, r, v);
    Finish(p, s, bytes, 9, locals, stack + [v]);
  }

  lemma {:induction false} Restored(x: Word, y: Word, q: Word, m: Word, r: Word, v: Word)
    requires y != 0 && (m - q * y) % M32 == 0 && (v - (m + r)) % M32 == 0
    requires var a, b, c := Signed(x, M32), Signed(y, M32), Signed(q, M32); Truncates(a, c, b, a - c * b)
    requires var a, b, d := Signed(x, M32), Signed(y, M32), Signed(r, M32); exists q' :: Truncates(a, q', b, d)
    ensures v == x
  {
    var a, b, c, d := Signed(x, M32), Signed(y, M32), Signed(q, M32), Signed(r, M32);
    var c' :| Truncates(a, c', b, d);
    OneQuotient(a, c, a - c * b, b, c', d);
    ProductWraps(q, c, y, b, M32);
    Recombine(x, a, r, d, q * y, c * b, m, v);
  }

  lemma {:induction false} Recombine(x: Word, a: int, r: Word, d: int, n: int, n': int, m: Word, v: Word)
    requires (a == x || a == x - M32) && (d == r || d == r - M32) && a == n' + d
    requires (n' - n) % M32 == 0 && (m - n) % M32 == 0 && (v - (m + r)) % M32 == 0
    ensures v == x
  {
  }

  // ----- what one instruction does, another undoes -----

  /** istore k, iload k: the word comes back, and local k holds it. */
  lemma {:induction false} StoreThenLoad(p: Program, s: State, k: Byte, rest: seq<Word>, x: Word)
    requires Stands(p, s, [54, k, 21, k]) && s.frames[0].stack == rest + [x] && k < |s.frames[0].locals|
    ensures Leaves(p, s, [54, k, 21, k], 2, s.frames[0].locals[k := x], rest + [x])
  {
    hide Stands, Ran, Leaves, Step, Now;
    var bytes: seq<Byte> := [54, k, 21, k];
    StackFits(p, s, bytes);
    var locals := s.frames[0].locals;
    Start(p, s, bytes);
    Here(p, s, bytes, 0, 0, locals, rest + [x], [54, k]);
    Stores(p, Now(s, 0, locals, rest + [x]), [54, k], k, rest, [x]);
    assert locals[..k] + [x] + locals[k + 1..] == locals[k := x];
    Advance(p, s, bytes, 0, 0, locals, rest + [x], 2, locals[k := x], rest);
    LoadNext(p, s, bytes, 1, 2, locals[k := x], rest, k, false);
    assert locals[k := x][k..k + 1] == [x];
    Finish(p, s, bytes, 2, locals[k := x], rest + [x]);
  }

  /** lstore k, lload k: both words come back in their order. */
  lemma {:induction false} WideStoreThenLoad(p: Program, s: State, k: Byte, rest: seq<Word>, x: (Word, Word))
    requires Stands(p, s, [55, k, 22, k]) && s.frames[0].stack == rest + [x.0, x.1] && k + 1 < |s.frames[0].locals|
    ensures Leaves(p, s, [55, k, 22, k], 2, s.frames[0].locals[k := x.0][k + 1 := x.1], rest + [x.0, x.1])
  {
    hide Stands, Ran, Leaves, Step, Now;
    var bytes: seq<Byte> := [55, k, 22, k];
    StackFits(p, s, bytes);
    var locals, ws := s.frames[0].locals, [x.0, x.1];
    var after := locals[k := x.0][k + 1 := x.1];
    Start(p, s, bytes);
    Here(p, s, bytes, 0, 0, locals, rest + ws, [55, k]);
    Stores(p, Now(s, 0, locals, rest + ws), [55, k], k, rest, ws);
    assert locals[..k] + ws + locals[k + 2..] == after;
    Advance(p, s, bytes, 0, 0, locals, rest + ws, 2, after, rest);
    LoadNext(p, s, bytes, 1, 2, after, rest, k, true);
    assert after[k..k + 2] == ws;
    Finish(p, s, bytes, 2, after, rest + ws);
  }

  /** i2l, l2i leaves the int. */
  lemma {:induction false} WidenThenNarrow(p: Program, s: State, rest: seq<Word>, x: Word)
    requires Stands(p, s, [133, 136]) && s.frames[0].stack == rest + [x]
    requires |rest| + 2 <= p.code[s.frames[0].mb].maxStack
    ensures Leaves(p, s, [133, 136], 2, s.frames[0].locals, rest + [x])
  {
    hide Stands, Ran, Leaves, Step, Now;
    var bytes: seq<Byte> := [133, 136];
    StackFits(p, s, bytes);
    var locals := s.frames[0].locals;
    Start(p, s, bytes);
    Here(p, s, bytes, 0, 0, locals, rest + [x], [133]);
    var w := Widening(p, Now(s, 0, locals, rest + [x]), rest, x);
    Advance(p, s, bytes, 0, 0, locals, rest + [x], 1, locals, rest + [w.0, w.1]);
    Here(p, s, bytes, 1, 1, locals, rest + [w.0, w.1], [136]);
    var v := Narrowing(p, Now(s, 1, locals, rest + [w.0, w.1]), rest, w);
    Advance(p, s, bytes, 1, 1, locals, rest + [w.0, w.1], 1, locals, rest + [v]);
    assert v == x;
    Finish(p, s, bytes, 2, locals, rest + [v]);
  }

  /** lcmp followed by a branch compares the two long values as the branch says. */
  lemma {:induction false} CompareThenBranch(p: Program, s: State, b: Byte, h: Byte, l: Byte, rest: seq<Word>,
                                             x: (Word, Word), y: (Word, Word))
    requires Stands(p, s, [148, b, h, l]) && 153 <= b <= 158
    requires s.frames[0].stack == rest + [x.0, x.1, y.0, y.1]
    ensures Sound(p) && Shaped(p, s)
    ensures var f := s.frames[0];
            var taken := Related(b - 153, Signed(Pair(x.0, x.1), M64), Signed(Pair(y.0, y.1), M64));
            Run(p, s, 2) == Moved(s, f.locals, rest, f.pc + if taken then 1 + Signed(Number([h, l]), 0x1_0000) else 4)
  {
    hide Stands, Ran, Step, Now, Run, Sound, Number;
    var bytes: seq<Byte> := [148, b, h, l];
    StackFits(p, s, bytes);
    var f := s.frames[0];
    var stack := rest + [x.0, x.1, y.0, y.1];
    Start(p, s, bytes);
    Here(p, s, bytes, 0, 0, f.locals, stack, [148]);
    Comparison(p, Now(s, 0, f.locals, stack), rest, x, y);
    var m, n := Signed(Pair(x.0, x.1), M64), Signed(Pair(y.0, y.1), M64);
    var w: Word := if m > n then 1 else if m == n then 0 else 0xFFFF_FFFF;
    Advance(p, s, bytes, 0, 0, f.locals, stack, 1, f.locals, rest + [w]);
    Here(p, s, bytes, 1, 1, f.locals, rest + [w], [b, h, l]);
    var t := Now(s, 1, f.locals, rest + [w]);
    Branches(p, t, b, h, l, rest, w);
    RanOneMore(p, s, bytes, 1, 1, f.locals, rest + [w]);
    NowIs(s, 1, f.locals, rest + [w]);
  }

  lemma {:induction false} RanOneMore(p: Program, s: State, bytes: seq<Byte>, n: nat, j: nat, locals: seq<Word>,
                                      stack: seq<Word>)
    requires Ran(p, s, bytes, n, j, locals, stack)
    ensures Sound(p) && Shaped(p, s) && Shaped(p, Now(s, j, locals, stack))
    ensures Run(p, s, n + 1) == Step(p, Now(s, j, locals, stack))
  {
    hide Sound, Step, Run;
    RunOneMore(p, s, n);
  }

  lemma {:induction false} NowIs(s: State, j: nat, locals: seq<Word>, stack: seq<Word>)
    requires s.frames != []
    ensures var t := Now(s, j, locals, stack);
            && t.frames[0] == Frame(s.frames[0].mb, locals, stack, s.frames[0].pc + j)
            && t.frames[1..] == s.frames[1..] && t.heap == s.heap
  {
  }
}
