/** The shared coroutine stack of core/coroutines.c: swapping, backing up and restoring contexts. */
module Coroutines {
  import opened Handlers
  import opened Options

  /** `struct cr_context_t`: the stack pointer as an index into the shared stack, the saved part of the
      stack if there is one, the status. */
  datatype Context = Context(sp: nat, stack: Option<seq<int>>, status: Status)

  /** What a caller can see of a coroutine, wherever its stack is kept. */
  datatype Logical = Logical(sp: nat, bytes: seq<int>, status: Status)

  class Stacks {
    /** `shared_stack`. */
    const shared: array<int>
    /** `cr_in_stack`. */
    var inStack: Option<nat>
    /** The current context of every coroutine, by its identity. */
    var contexts: map<nat, Context>

    /** A coroutine that is not in the shared stack has its whole stack saved; one that never ran has none. */
    ghost predicate Valid()
      reads this
    {
      && shared.Length < 16384
      && (inStack.Some? ==> inStack.value in contexts)
      && (forall c :: c in contexts ==> contexts[c].sp <= shared.Length)
      && (forall c :: c in contexts && inStack != Some(c) ==>
            |SavedBytes(contexts[c])| == shared.Length - contexts[c].sp)
    }

    static function SavedBytes(c: Context): seq<int> {
      if c.stack.Some? then c.stack.value else []
    }

    /** The stack of coroutine c: in the shared stack if it is there, else in its own buffer. */
    function Of(c: nat): Logical
      requires c in contexts && contexts[c].sp <= shared.Length
      reads this, shared
    {
      var x := contexts[c];
      Logical(x.sp, if inStack == Some(c) then shared[x.sp..] else SavedBytes(x), x.status)
    }

    /** All coroutines but `except` look as they did. */
    twostate predicate OthersUnchanged(except: Option<nat>)
      reads this, shared
    {
      && old(Valid()) && Valid() && contexts.Keys == old(contexts.Keys)
      && forall c :: c in contexts && except != Some(c) ==> Of(c) == old(Of(c))
    }

    constructor (stackSize: nat)
      requires stackSize < 16384
      ensures Valid() && contexts == map[] && inStack == None && shared.Length == stackSize && fresh(shared)
    {
      shared := new int[stackSize];
      inStack, contexts := None, map[];
    }

    /** `cr_init`: an empty stack, its pointer at the end of the shared stack. */
    method Init(c: nat)
      requires Valid() && c !in contexts
      modifies this`contexts
      ensures Valid() && contexts == old(contexts)[c := Context(shared.Length, None, Ready)]
      ensures Of(c) == Logical(shared.Length, [], Ready)
      ensures forall d :: d in old(contexts) ==> Of(d) == old(Of(d))
    {
      contexts := contexts[c := Context(shared.Length, None, Ready)];
    }

    /** `memcpy` of a saved stack to its place at the end of the shared stack. */
    method CopyIn(sp: nat, bytes: seq<int>)
      requires sp + |bytes| == shared.Length
      modifies shared
      ensures shared[sp..] == bytes
    {
      var i := 0;
      while i < |bytes|
        invariant 0 <= i <= |bytes|
        invariant shared[sp..sp + i] == bytes[..i]
      {
        shared[sp + i] := bytes[i];
        i := i + 1;
      }
      assert shared[sp..] == shared[sp..sp + i] && bytes[..i] == bytes;
    }

    /** Every coroutine has its whole stack in its own buffer; how it looks there. */
    ghost predicate AllSaved()
      reads this`contexts
    {
      forall c :: c in contexts ==> contexts[c].sp + |SavedBytes(contexts[c])| == shared.Length
    }

    function Saved(c: nat): Logical
      requires c in contexts
      reads this`contexts
    {
      Logical(contexts[c].sp, SavedBytes(contexts[c]), contexts[c].status)
    }

    /** The first half of `cr_prepare`: a copy of the stack in use, in a buffer of the exact size. */
    method SaveOut(o: nat)
      requires Valid() && inStack == Some(o)
      modifies this`contexts
      ensures AllSaved() && contexts.Keys == old(contexts.Keys)
      ensures forall d :: d in contexts ==> Saved(d) == old(Of(d))
    {
      contexts := contexts[o := contexts[o].(stack := Some(shared[contexts[o].sp..]))];
    }

    /** The second half: the saved stack goes to the end of the shared one, its buffer is freed. */
    method BringIn(c: nat)
      requires AllSaved() && shared.Length < 16384 && c in contexts
      modifies this, shared
      ensures Valid() && inStack == Some(c) && contexts.Keys == old(contexts.Keys)
      ensures forall d :: d in contexts ==> Of(d) == old(Saved(d))
    {
      var x := contexts[c];
      if x.stack.Some? {
        CopyIn(x.sp, x.stack.value);
        contexts := contexts[c := x.(stack := None)];
      }
      inStack := Some(c);
    }

    /** `cr_prepare`: bring coroutine c into the shared stack, saving the one that is there. No coroutine
        looks any different afterwards, not even if the allocation fails. */
    method Prepare(c: nat, allocOk: bool) returns (ok: bool)
      requires Valid() && c in contexts
      modifies this, shared
      ensures Valid() && OthersUnchanged(None)
      ensures ok <==> old(inStack) == None || old(inStack) == Some(c) || allocOk
      ensures inStack == if ok then Some(c) else old(inStack)
    {
      if inStack == Some(c) { return true; }
      if inStack.Some? {
        var o := inStack.value;
        if !allocOk {
          contexts := contexts[o := contexts[o].(stack := None)];
          return false;
        }
        SaveOut(o);
      }
      BringIn(c);
      ok := true;
    }

    /** The coroutine in the shared stack runs: it may leave any stack of its own, and any garbage below it. */
    method Run(c: nat, sp: nat, memory: seq<int>, status: Status)
      requires Valid() && inStack == Some(c) && sp <= |memory| == shared.Length
      modifies this`contexts, shared
      ensures Valid() && OthersUnchanged(Some(c)) && inStack == Some(c)
      ensures Of(c) == Logical(sp, memory[sp..], status)
    {
      CopyIn(0, memory);
      assert shared[0..] == shared[..] == memory;
      contexts := contexts[c := contexts[c].(sp := sp, status := status)];
    }

    /** `context_backup`: a copy of the context with its own copy of the stack; nothing is allocated for an
        empty stack. */
    method Backup(c: nat, contextOk: bool, stackOk: bool) returns (saved: Option<Context>)
      requires Valid() && inStack == Some(c)
      ensures saved.Some? <==> contextOk && (contexts[c].sp == shared.Length || stackOk)
      ensures saved.Some? ==>
                Logical(saved.value.sp, SavedBytes(saved.value), saved.value.status) == Of(c) && saved.value.sp <= shared.Length
    {
      var x := contexts[c];
      if !contextOk { return None; }
      if shared.Length - x.sp != 0 {
        if !stackOk { return None; }
        saved := Some(x.(stack := Some(shared[x.sp..])));
      } else {
        saved := Some(x.(stack := None));
        assert shared[x.sp..] == [];
      }
    }

    /** `context_restore` of a backed-up context. */
    method Restore(c: nat, saved: Context)
      requires Valid() && inStack == Some(c)
      requires saved.sp + |SavedBytes(saved)| == shared.Length
      modifies this`contexts, shared
      ensures Valid() && OthersUnchanged(Some(c)) && inStack == Some(c)
      ensures Of(c) == Logical(saved.sp, SavedBytes(saved), saved.status)
    {
      contexts := contexts[c := saved];
      if saved.stack.Some? { CopyIn(saved.sp, saved.stack.value); }
    }

    /** Whatever runs between them, restoring a backed-up context brings back the stack pointer, the stack
        bytes and the status of the moment of the backup. */
    method RestoreAfter(c: nat, script: seq<Op>)
      requires Valid() && inStack == Some(c)
      modifies this, shared
      ensures Valid() && contexts.Keys == old(contexts.Keys)
      ensures inStack == Some(c) && Of(c) == old(Of(c))
    {
      var saved := Backup(c, true, true);
      ghost var before := Of(c);
      for i := 0 to |script|
        invariant Valid() && contexts.Keys == old(contexts.Keys)
      {
        match script[i]
        case Bring(d, allocOk) =>
          if d in contexts { var _ := Prepare(d, allocOk); }
        case Execute(sp, memory, status) =>
          if inStack.Some? && sp <= |memory| == shared.Length { Run(inStack.value, sp, memory, status); }
      }
      var _ := Prepare(c, true);
      Restore(c, saved.value);
      assert before == old(Of(c));
    }
  }

  /** What may happen between a backup and a restore: any coroutine is brought in, or the one that is in runs. */
  datatype Op = Bring(c: nat, allocOk: bool) | Execute(sp: nat, memory: seq<int>, status: Status)
}
