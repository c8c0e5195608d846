/** The link between the stacks of `Coroutines` and the handler positions of `Replay`: an in-flight entry's context is
    the position its saved stack stands for, when it is recorded and when it is restored. */
module HandlerStacks {
  import opened Handlers
  import opened Options
  import opened Http
  import Coroutines
  import Replay

  /** What a stack means for the protocol: the handler is deterministic, so this is a function of the stack. */
  type Meaning = Coroutines.Logical -> Replay.Context

  /** `struct in_flight_infos_t` with the context it points to. */
  datatype Saved = Saved(seqno: nat, header: ServiceHeader, context: Coroutines.Context)

  function LogicalOf(c: Coroutines.Context): Coroutines.Logical {
    Coroutines.Logical(c.sp, Coroutines.Stacks.SavedBytes(c), c.status)
  }

  /** The entries of the protocol that a list of saved contexts stands for. */
  ghost function Entries(meaning: Meaning, l: seq<Saved>): (es: seq<Replay.Entry>)
    ensures |es| == |l|
    decreases |l|
  {
    if l == [] then [] else [Replay.Entry(l[0].seqno, l[0].header, meaning(LogicalOf(l[0].context)))] + Entries(meaning, l[1..])
  }

  ghost predicate Whole(size: nat, l: seq<Saved>) {
    forall i :: 0 <= i < |l| ==> l[i].context.sp + |Coroutines.Stacks.SavedBytes(l[i].context)| == size
  }

  lemma {:induction false} SelectAt(meaning: Meaning, l: seq<Saved>, seqno: nat, i: nat)
    requires i <= |l| && forall j :: 0 <= j < i ==> l[j].seqno != seqno
    requires i < |l| ==> l[i].seqno == seqno
    ensures Replay.Select(Entries(meaning, l), seqno)
              == if i == |l| then None else Some(Replay.Entry(seqno, l[i].header, meaning(LogicalOf(l[i].context))))
    decreases |l|
  {
    if l != [] {
      assert Entries(meaning, l)[1..] == Entries(meaning, l[1..]);
      if i > 0 { SelectAt(meaning, l[1..], seqno, i - 1); }
    }
  }

  /** `context_backup`: the new entry's context is what the stack stands for now. */
  method ContextBackup(stacks: Coroutines.Stacks, c: nat, l: seq<Saved>, seqno: nat, header: ServiceHeader,
                       contextOk: bool, stackOk: bool, ghost meaning: Meaning)
    returns (ok: bool, l': seq<Saved>)
    requires stacks.Valid() && stacks.inStack == Some(c) && Whole(stacks.shared.Length, l)
    ensures Whole(stacks.shared.Length, l')
    ensures ok <==> contextOk && (stacks.contexts[c].sp == stacks.shared.Length || stackOk)
    ensures Entries(meaning, l') ==
              if ok then [Replay.Entry(seqno, header, meaning(stacks.Of(c)))] + Entries(meaning, l) else Entries(meaning, l)
  {
    var saved := stacks.Backup(c, contextOk, stackOk);
    ok, l' := saved.Some?, l;
    if ok {
      l' := [Saved(seqno, header, saved.value)] + l;
      assert l'[1..] == l;
      assert LogicalOf(saved.value) == stacks.Of(c);
      assert saved.value.sp + |Coroutines.Stacks.SavedBytes(saved.value)| == stacks.shared.Length;
    }
  }

  /** `context_restore`: the entry found is the one the protocol selects, and afterwards the stack stands for its
      context; without one nothing changes. Other coroutines never notice. */
  method ContextRestore(stacks: Coroutines.Stacks, c: nat, l: seq<Saved>, seqno: nat, ghost meaning: Meaning)
    returns (found: Option<Saved>)
    requires stacks.Valid() && stacks.inStack == Some(c) && Whole(stacks.shared.Length, l)
    modifies stacks, stacks.shared
    ensures stacks.Valid() && stacks.OthersUnchanged(Some(c)) && stacks.inStack == Some(c)
    ensures var e := Replay.Select(Entries(meaning, l), seqno);
            && (found.Some? <==> e.Some?)
            && (e.Some? ==> found.value.header == e.value.header && meaning(stacks.Of(c)) == e.value.context)
            && (e == None ==> stacks.Of(c) == old(stacks.Of(c)))
  {
    var i := 0;
    while i < |l| && l[i].seqno != seqno
      invariant 0 <= i <= |l| && forall j :: 0 <= j < i ==> l[j].seqno != seqno
    {
      i := i + 1;
    }
    SelectAt(meaning, l, seqno, i);
    if i == |l| { return None; }
    stacks.Restore(c, l[i].context);
    found := Some(l[i]);
  }
}
