/**
 `executeStaticMain` of `src/interp/execute.c` on a verified program: the safety of the machine's
 runs carried over to the interpreter.
*/
module Execution {
  import opened Options
  import opened Words
  import opened Classes
  import opened Frames
  import opened Machine
  import opened Typing
  import opened TypeSafety
  import opened Interpreter
  import ClassFiles
  import Dispatch
  import Loader

  /** A class that the loader left behind, on a chain on which no signature changes kind, may be
      instantiated: objects of it have the layout and the dispatch that safety asks for. */
  lemma {:induction false} LoadedClassIsInstantiable(p: Program, files: ClassFiles.Files, c: nat)
    requires Loader.Intact(files, p.classes) && c < |p.classes|
    requires Loader.ClassChain(p.classes, c) && Dispatch.Uniform(p.classes, c)
    ensures Instantiable(p, c)
    ensures forall k :: 0 <= k < |p.classes[c].table| ==>
              p.classes[c].table[k].Some? && IsMethod(p.classes, p.classes[c].table[k].value)
  {
    hide Dispatch.Ready, Dispatch.Uniform, Loader.ClassChain, Loader.Finished, Loader.Matches;
    Loader.LoadedChainIsReady(files, p.classes, c);
    Dispatch.TableSizes(p.classes, c);
    forall k | 0 <= k < |p.classes[c].table|
      ensures p.classes[c].table[k].Some? && IsMethod(p.classes, p.classes[c].table[k].value)
    {
      Dispatch.EntryIsFound(p.classes, c, k);
    }
  }

  /** Runs main in a fresh virtual machine for at most the given number of instructions. In a
      program whose methods have consistent frame types it ends, or is cut off, or leaves by a
      null reference, a bad division, exhausted memory or a method without a body; it never
      reports a stack error and never leaves its memory. */
  method ExecuteStaticMain(p: Program, ghost t: Typed, m: MethodPtr, args: Word, fuel: nat) returns (r: Turn, left: nat)
    requires WellTyped(p, t)
    requires m in p.code && p.code[m].bytes != [] && p.code[m].maxLocals >= 1
    requires AllTyped(p.classes, [], [args], ArgTypes(p, t, m))
    ensures r.Ended? || r.Broke? || (r.Paused? && left == 0)
    ensures r.Broke? ==> Allowed(r.fault)
  {
    hide Sound, MethodTyped, AllTyped, ArgTypes, Shaped, StateTyped, Run, VM.Valid;
    EntryIsTyped(p, t, m, [args]);
    var vm := new VM(p, m, args);
    ghost var s := vm.st;
    vm.ValidFacts();
    r, left := vm.ExecuteJava(null, vm.current, fuel);
    RunIsSafe(p, t, s, fuel - left);
  }
}
