/**
 Object layout: `prepareField` of `src/classloader/class.c`, field lookup of
 `src/classloader/resolve.c` and the field accesses of `src/interp/interp.c`.
*/
module Layout {
  import opened Options
  import opened Classes
  import opened Words

  /** long and double fields take two words. */
  function Width(f: FieldBlock): nat {
    if f.typ == "J" || f.typ == "D" then 2 else 1
  }

  /** Words of the instance fields among the first n. */
  function FieldWords(fs: seq<FieldBlock>, n: nat): nat
    requires n <= |fs|
  {
    if n == 0 then 0 else FieldWords(fs, n - 1) + if fs[n - 1].isStatic then 0 else Width(fs[n - 1])
  }

  function SuperWords(cs: seq<ClassBlock>, c: nat): nat
    requires Ordered(cs) && c < |cs|
  {
    if cs[c].super == None then 0 else cs[cs[c].super.value].objSize
  }

  /** Offsets count words from 1, after the words of the superclass. */
  ghost predicate FieldsPlaced(cs: seq<ClassBlock>, c: nat)
    requires Ordered(cs) && c < |cs|
  {
    && (forall i :: 0 <= i < |cs[c].fields| && !cs[c].fields[i].isStatic ==>
          cs[c].fields[i].offset == 1 + SuperWords(cs, c) + FieldWords(cs[c].fields, i))
    && cs[c].objSize == SuperWords(cs, c) + FieldWords(cs[c].fields, |cs[c].fields|)
  }

  function WithOffset(f: FieldBlock, offset: nat): FieldBlock {
    f.(offset := offset)
  }

  /** The fields after prepareField has placed the first n. */
  ghost predicate Placing(fs: seq<FieldBlock>, now: seq<FieldBlock>, base: nat, n: nat) {
    && |now| == |fs| && n <= |fs|
    && (forall i :: 0 <= i < n ==>
          now[i] == if fs[i].isStatic then fs[i] else WithOffset(fs[i], 1 + base + FieldWords(fs, i)))
    && (forall i :: n <= i < |fs| ==> now[i] == fs[i])
  }

  lemma {:induction false} SameWords(fs: seq<FieldBlock>, now: seq<FieldBlock>, base: nat, n: nat, k: nat)
    requires Placing(fs, now, base, n) && k <= |fs|
    ensures FieldWords(now, k) == FieldWords(fs, k)
  {
    if k > 0 {
      SameWords(fs, now, base, n, k - 1);
      assert now[k - 1].typ == fs[k - 1].typ;
    }
  }

  lemma {:induction false} PlacingStarts(fs: seq<FieldBlock>, base: nat)
    ensures Placing(fs, fs, base, 0) && FieldWords(fs, 0) == 0
  {
  }

  lemma {:induction false} NextWords(fs: seq<FieldBlock>, n: nat)
    requires n < |fs|
    ensures FieldWords(fs, n + 1) == FieldWords(fs, n) + if fs[n].isStatic then 0 else Width(fs[n])
  {
  }

  lemma {:induction false} PlacingStep(fs: seq<FieldBlock>, now: seq<FieldBlock>, base: nat, n: nat)
    requires Placing(fs, now, base, n) && n < |fs|
    ensures |now| == |fs| && now[n] == fs[n]
    ensures var placed := if fs[n].isStatic then now else now[n := WithOffset(fs[n], 1 + base + FieldWords(fs, n))];
            Placing(fs, placed, base, n + 1)
  {
    hide FieldWords, WithOffset, Width;
  }

  /** The loop of `prepareField`: the placed fields and the running offset. */
  method PlaceFields(fs: seq<FieldBlock>, base: nat) returns (fields: seq<FieldBlock>, fieldOffset: nat)
    ensures Placing(fs, fields, base, |fs|)
    ensures fieldOffset == 1 + base + FieldWords(fs, |fs|)
  {
    hide WithOffset, Placing, FieldWords;
    fields, fieldOffset := fs, 1 + base;
    PlacingStarts(fs, base);
    for i := 0 to |fs|
      invariant Placing(fs, fields, base, i)
      invariant fieldOffset == 1 + base + FieldWords(fs, i)
    {
      PlacingStep(fs, fields, base, i);
      NextWords(fs, i);
      var fb := fields[i];
      if !fb.isStatic {
        fields := fields[i := WithOffset(fb, fieldOffset)];
        if fb.typ == "J" || fb.typ == "D" {
          fieldOffset := fieldOffset + 2;
        } else {
          fieldOffset := fieldOffset + 1;
        }
      }
    }
  }

  ghost predicate OnlyFieldsChanged(cs: seq<ClassBlock>, cs': seq<ClassBlock>, c: nat) {
    && c < |cs| == |cs'|
    && cs' == cs[c := cs[c].(fields := cs'[c].fields, objSize := cs'[c].objSize)]
  }

  lemma {:induction false} PlacedFields(cs: seq<ClassBlock>, cs': seq<ClassBlock>, c: nat)
    requires Ordered(cs) && OnlyFieldsChanged(cs, cs', c)
    requires Placing(cs[c].fields, cs'[c].fields, SuperWords(cs, c), |cs[c].fields|)
    requires cs'[c].objSize == SuperWords(cs, c) + FieldWords(cs[c].fields, |cs[c].fields|)
    ensures Ordered(cs') && FieldsPlaced(cs', c)
  {
    var fs, now := cs[c].fields, cs'[c].fields;
    hide FieldWords, Width;
    forall k | 0 <= k <= |fs|
      ensures FieldWords(now, k) == FieldWords(fs, k)
    {
      SameWords(fs, now, SuperWords(cs, c), |fs|, k);
    }
  }

  /** `prepareField` */
  method PrepareField(area: MethodArea, c: nat)
    requires Ordered(area.classes) && c < |area.classes|
    modifies area`classes
    ensures OnlyFieldsChanged(old(area.classes), area.classes, c)
    ensures var fs := old(area.classes)[c].fields;
            Placing(fs, area.classes[c].fields, SuperWords(old(area.classes), c), |fs|)
    ensures Ordered(area.classes) && FieldsPlaced(area.classes, c)
  {
    hide Placing, FieldsPlaced, FieldWords;
    var cs := area.classes;
    var fields, fieldOffset := PlaceFields(cs[c].fields, SuperWords(cs, c));
    area.classes := cs[c := cs[c].(fields := fields, objSize := fieldOffset - 1)];
    PlacedFields(cs, area.classes, c);
  }

  lemma {:induction false} AgreePlaced(cs: seq<ClassBlock>, cs': seq<ClassBlock>, c: nat)
    requires Ordered(cs) && Ordered(cs') && c < |cs| && c < |cs'| && FieldsPlaced(cs, c)
    requires forall a :: 0 <= a < c ==> cs[a] == cs'[a]
    requires cs'[c].fields == cs[c].fields && cs'[c].objSize == cs[c].objSize && cs'[c].super == cs[c].super
    ensures FieldsPlaced(cs', c)
  {
    hide FieldWords;
  }

  // ----- the layout along a chain -----

  ghost predicate LaidOut(cs: seq<ClassBlock>, c: nat)
    requires Ordered(cs) && c < |cs|
    decreases c
  {
    FieldsPlaced(cs, c) && (cs[c].super.Some? ==> LaidOut(cs, cs[c].super.value))
  }

  /** An instance field that objects of class c have. */
  ghost predicate Visible(cs: seq<ClassBlock>, c: nat, p: FieldPtr)
    requires Ordered(cs) && c < |cs|
  {
    && p.cls < |cs| && p.slot < |cs[p.cls].fields| && !cs[p.cls].fields[p.slot].isStatic
    && Ancestor(cs, c, p.cls)
  }

  function FieldAt(cs: seq<ClassBlock>, p: FieldPtr): FieldBlock
    requires p.cls < |cs| && p.slot < |cs[p.cls].fields|
  {
    cs[p.cls].fields[p.slot]
  }

  /** The first word of a field inside an object. */
  function Start(f: FieldBlock): int {
    f.offset - 1
  }

  lemma {:induction false} FieldWordsGrow(fs: seq<FieldBlock>, i: nat, n: nat)
    requires i <= n <= |fs|
    ensures FieldWords(fs, i) <= FieldWords(fs, n)
    ensures i < n && !fs[i].isStatic ==> FieldWords(fs, i) + Width(fs[i]) <= FieldWords(fs, n)
    decreases n - i
  {
    if i < n {
      FieldWordsGrow(fs, i + 1, n);
    }
  }

  /** A field of an ancestor lies behind the words of that ancestor's superclass and inside
      the words of every class below. */
  lemma {:induction false} FieldInside(cs: seq<ClassBlock>, c: nat, p: FieldPtr)
    requires Ordered(cs) && c < |cs| && LaidOut(cs, c) && Visible(cs, c, p)
    ensures SuperWords(cs, p.cls) <= Start(FieldAt(cs, p))
    ensures Start(FieldAt(cs, p)) + Width(FieldAt(cs, p)) <= cs[p.cls].objSize <= cs[c].objSize
    decreases c
  {
    FieldWordsGrow(cs[c].fields, 0, |cs[c].fields|);
    if p.cls == c {
      FieldWordsGrow(cs[c].fields, p.slot, |cs[c].fields|);
    } else {
      FieldInside(cs, cs[c].super.value, p);
    }
  }

  /** Two different instance fields of an object never share a word. */
  lemma {:induction false} FieldsDisjoint(cs: seq<ClassBlock>, c: nat, p: FieldPtr, q: FieldPtr)
    requires Ordered(cs) && c < |cs| && LaidOut(cs, c) && Visible(cs, c, p) && Visible(cs, c, q) && p != q
    ensures var f, g := FieldAt(cs, p), FieldAt(cs, q);
            Start(f) + Width(f) <= Start(g) || Start(g) + Width(g) <= Start(f)
    decreases c
  {
    var fs := cs[c].fields;
    if p.cls == c && q.cls == c {
      if p.slot < q.slot {
        FieldWordsGrow(fs, p.slot, q.slot);
      } else {
        FieldWordsGrow(fs, q.slot, p.slot);
      }
    } else if p.cls == c {
      FieldInside(cs, c, p);
      FieldInside(cs, cs[c].super.value, q);
    } else if q.cls == c {
      FieldInside(cs, c, q);
      FieldInside(cs, cs[c].super.value, p);
    } else {
      FieldsDisjoint(cs, cs[c].super.value, p, q);
    }
  }

  /** Every word of an object belongs to an instance field. */
  lemma {:induction false} WordHasField(cs: seq<ClassBlock>, c: nat, w: nat) returns (p: FieldPtr)
    requires Ordered(cs) && c < |cs| && LaidOut(cs, c) && w < cs[c].objSize
    ensures Visible(cs, c, p) && Start(FieldAt(cs, p)) <= w < Start(FieldAt(cs, p)) + Width(FieldAt(cs, p))
    decreases c
  {
    if w < SuperWords(cs, c) {
      p := WordHasField(cs, cs[c].super.value, w);
    } else {
      var i := WordInClass(cs[c].fields, |cs[c].fields|, w - SuperWords(cs, c));
      p := FieldPtr(c, i);
    }
  }

  lemma {:induction false} WordInClass(fs: seq<FieldBlock>, n: nat, w: nat) returns (i: nat)
    requires n <= |fs| && w < FieldWords(fs, n)
    ensures i < n && !fs[i].isStatic && FieldWords(fs, i) <= w < FieldWords(fs, i) + Width(fs[i])
  {
    if w < FieldWords(fs, n - 1) {
      i := WordInClass(fs, n - 1, w);
    } else {
      i := n - 1;
    }
  }

  // ----- field lookup -----

  function FindFieldInCurrent(fs: seq<FieldBlock>, name: string, typ: string): (r: Option<nat>)
    ensures r.Some? ==>
              && r.value < |fs| && fs[r.value].name == name && fs[r.value].typ == typ
              && forall i :: 0 <= i < r.value ==> !(fs[i].name == name && fs[i].typ == typ)
    ensures r == None ==> forall i :: 0 <= i < |fs| ==> !(fs[i].name == name && fs[i].typ == typ)
  {
    if fs == [] then None
    else if fs[0].name == name && fs[0].typ == typ then Some(0)
    else
      var r := FindFieldInCurrent(fs[1..], name, typ);
      assert forall i :: 1 <= i < |fs| ==> fs[i] == fs[1..][i - 1];
      if r.Some? then Some(r.value + 1) else None
  }

  function FindField(cs: seq<ClassBlock>, c: nat, name: string, typ: string): (r: Option<FieldPtr>)
    requires Ordered(cs) && c < |cs|
    ensures r.Some? ==> r.value.cls < |cs| && r.value.slot < |cs[r.value.cls].fields| && Ancestor(cs, c, r.value.cls)
    decreases c
  {
    var here := FindFieldInCurrent(cs[c].fields, name, typ);
    if here.Some? then Some(FieldPtr(c, here.value))
    else if cs[c].super == None then None
    else FindField(cs, cs[c].super.value, name, typ)
  }

  /** `findField` with its search loop `findFieldinCurrent`. */
  method FindFieldFrom(cs: seq<ClassBlock>, c: nat, name: string, typ: string) returns (r: Option<FieldPtr>)
    requires Ordered(cs) && c < |cs|
    ensures r == FindField(cs, c, name, typ)
    decreases c
  {
    for i := 0 to |cs[c].fields|
      invariant forall j :: 0 <= j < i ==> !(cs[c].fields[j].name == name && cs[c].fields[j].typ == typ)
    {
      if cs[c].fields[i].name == name && cs[c].fields[i].typ == typ {
        return Some(FieldPtr(c, i));
      }
    }
    if cs[c].super == None {
      return None;
    }
    r := FindFieldFrom(cs, cs[c].super.value, name, typ);
  }

  /** Class a declares a field of this name and type. */
  ghost predicate DeclaresField(cs: seq<ClassBlock>, a: nat, name: string, typ: string)
    requires a < |cs|
  {
    exists i :: 0 <= i < |cs[a].fields| && cs[a].fields[i].name == name && cs[a].fields[i].typ == typ
  }

  /** What is found is the first declaration in its class and hides all those further up: no class
      below it on the chain declares one. Nothing is found exactly when no class does. */
  lemma {:induction false} FoundIsNearest(cs: seq<ClassBlock>, c: nat, name: string, typ: string)
    requires Ordered(cs) && c < |cs|
    ensures var r := FindField(cs, c, name, typ);
            r.Some? ==>
              && Ancestor(cs, c, r.value.cls)
              && FieldAt(cs, r.value).name == name && FieldAt(cs, r.value).typ == typ
              && (forall i :: 0 <= i < r.value.slot ==>
                    cs[r.value.cls].fields[i].name != name || cs[r.value.cls].fields[i].typ != typ)
              && (forall a: nat :: Ancestor(cs, c, a) && r.value.cls < a ==> !DeclaresField(cs, a, name, typ))
    ensures FindField(cs, c, name, typ) == None <==>
              forall a: nat :: Ancestor(cs, c, a) ==> !DeclaresField(cs, a, name, typ)
    decreases c
  {
    var here := FindFieldInCurrent(cs[c].fields, name, typ);
    if here.Some? {
      assert Ancestor(cs, c, c) && DeclaresField(cs, c, name, typ);
    } else if cs[c].super.Some? {
      FoundIsNearest(cs, cs[c].super.value, name, typ);
      forall a: nat | Ancestor(cs, cs[c].super.value, a)
        ensures Ancestor(cs, c, a)
      {
      }
    }
  }

  // ----- objects -----

  ghost predicate Fits(f: FieldBlock, v: Value) {
    v.Double? <==> Width(f) == 2
  }

  predicate InBounds(data: seq<Word>, f: FieldBlock) {
    0 <= Start(f) && Start(f) + Width(f) <= |data|
  }

  function Load(data: seq<Word>, f: FieldBlock): Value
    requires InBounds(data, f)
  {
    if Width(f) == 2 then Double(Join(data[Start(f)], data[Start(f) + 1])) else Single(data[Start(f)])
  }

  function Store(data: seq<Word>, f: FieldBlock, v: Value): (r: seq<Word>)
    requires InBounds(data, f) && Fits(f, v)
    ensures |r| == |data|
    ensures forall i :: 0 <= i < |data| && !(Start(f) <= i < Start(f) + Width(f)) ==> r[i] == data[i]
  {
    match v
    case Single(w) => data[Start(f) := w]
    case Double(x) => data[Start(f) := Low(x)][Start(f) + 1 := High(x)]
  }

  /** An object of a class: `allocObject` gives it as many zero words as the class asks for. */
  method AllocObject(cs: seq<ClassBlock>, c: nat) returns (data: array<Word>)
    requires c < |cs|
    ensures fresh(data) && data[..] == seq(cs[c].objSize, _ => 0)
  {
    data := new Word[cs[c].objSize](_ => 0);
  }

  /** `putfield` on the words of an object. */
  method PutField(data: array<Word>, fb: FieldBlock, v: Value)
    requires InBounds(data[..], fb) && Fits(fb, v)
    modifies data
    ensures data[..] == Store(old(data[..]), fb, v)
  {
    var offset := fb.offset;
    match v
    case Single(w) =>
      data[offset - 1] := w;
    case Double(x) =>
      data[offset - 1] := Low(x);
      data[offset] := High(x);
  }

  /** `getfield` on the words of an object. */
  method GetField(data: array<Word>, fb: FieldBlock) returns (v: Value)
    requires InBounds(data[..], fb)
    ensures v == Load(data[..], fb)
  {
    var offset := fb.offset;
    if fb.typ == "J" || fb.typ == "D" {
      v := Double(Join(data[offset - 1], data[offset]));
    } else {
      v := Single(data[offset - 1]);
    }
  }

  /** On an object of any class that has field p: the access is inside the object, a read after
      a write gives the value written, and every other field keeps its value, including one of
      the same name that p hides. */
  lemma {:induction false} ReadAfterWrite(cs: seq<ClassBlock>, c: nat, data: seq<Word>, p: FieldPtr, v: Value)
    requires Ordered(cs) && c < |cs| && LaidOut(cs, c) && |data| == cs[c].objSize
    requires Visible(cs, c, p) && Fits(FieldAt(cs, p), v)
    ensures InBounds(data, FieldAt(cs, p))
    ensures Load(Store(data, FieldAt(cs, p), v), FieldAt(cs, p)) == v
    ensures forall q :: Visible(cs, c, q) && q != p ==>
              && InBounds(data, FieldAt(cs, q))
              && Load(Store(data, FieldAt(cs, p), v), FieldAt(cs, q)) == Load(data, FieldAt(cs, q))
  {
    FieldInside(cs, c, p);
    if v.Double? {
      JoinSplit(v.v);
    }
    forall q | Visible(cs, c, q) && q != p
      ensures InBounds(data, FieldAt(cs, q))
      ensures Load(Store(data, FieldAt(cs, p), v), FieldAt(cs, q)) == Load(data, FieldAt(cs, q))
    {
      FieldInside(cs, c, q);
      FieldsDisjoint(cs, c, p, q);
    }
  }
}
