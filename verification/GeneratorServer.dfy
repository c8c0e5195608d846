/** The server side of a generated response as the source runs it: fields updated in place, blocks
    allocated and freed. Every method is shown to do what the step machine of `Replay` says, and to own
    exactly the blocks that are allocated. */
module GeneratorServer {
  import opened Handlers
  import opened Options
  import opened Http
  import opened Response
  import opened Replay

  /** An in-flight record with the blocks it owns: itself, its context, its copy of the stack. */
  datatype Record = Record(entry: Entry, self: nat, context: nat, stack: Option<nat>)

  function EntriesOf(rs: seq<Record>): (es: seq<Entry>)
    ensures |es| == |rs| && forall i :: 0 <= i < |rs| ==> es[i] == rs[i].entry
  {
    if rs == [] then [] else [rs[0].entry] + EntriesOf(rs[1..])
  }

  function BlocksOfOne(r: Record): multiset<nat> {
    multiset{r.self} + multiset{r.context} + if r.stack == None then multiset{} else multiset{r.stack.value}
  }

  function BlocksOf(rs: seq<Record>): multiset<nat> {
    if rs == [] then multiset{} else BlocksOfOne(rs[0]) + BlocksOf(rs[1..])
  }

  lemma {:induction false} BlocksSplit(rs: seq<Record>, i: nat)
    requires i <= |rs|
    ensures BlocksOf(rs) == BlocksOf(rs[..i]) + BlocksOf(rs[i..])
    decreases i
  {
    hide BlocksOfOne;
    if i == 0 {
      assert rs[..0] == [] && rs[0..] == rs;
    } else {
      BlocksSplit(rs[1..], i - 1);
      assert rs[1..][..i - 1] == rs[1..i] == rs[..i][1..];
      assert rs[1..][i - 1..] == rs[i..];
    }
  }

  lemma CutIsFilter(rs: seq<Record>, i: nat, inack: nat)
    requires Descending(EntriesOf(rs)) && i <= |rs| && EntriesOf(rs)[..i] == Prune(EntriesOf(rs), inack)
    ensures forall j :: 0 <= j < |rs| ==> (j < i <==> rs[j].entry.seqno >= inack)
  {
    hide Prune, Descending;
    PruneIsFilter(EntriesOf(rs), inack);
    assert |Prune(EntriesOf(rs), inack)| == i;
    forall j | 0 <= j < |rs| ensures j < i <==> rs[j].entry.seqno >= inack { assert EntriesOf(rs)[j] == rs[j].entry; }
  }

  lemma {:induction false} EntriesSplit(rs: seq<Record>, i: nat)
    requires i <= |rs|
    ensures EntriesOf(rs[..i]) == EntriesOf(rs)[..i]
  {
  }

  /** The global `curr_output`: the segment under construction. */
  class CurrOutput {
    var buffer: string
    var maxBytes: nat

    constructor (maxBytes: nat)
      ensures buffer == "" && this.maxBytes == maxBytes
    {
      buffer, this.maxBytes := "", maxBytes;
    }

    /** `out_c`: store one byte, unless the segment is full; then the coroutine yields with the byte pending. */
    method OutC(c: char) returns (stored: bool)
      modifies this`buffer
      ensures stored <==> |old(buffer)| != maxBytes
      ensures buffer == if stored then old(buffer) + [c] else old(buffer)
    {
      if |buffer| == maxBytes { return false; }
      buffer := buffer + [c];
      stored := true;
    }

    /** `cr_run`: the handler writes its bytes one by one until it is made to yield or returns. */
    method Run(body: string, ctx: Context) returns (ctx': Context)
      requires ctx.pos <= |body| && buffer == ""
      modifies this`buffer
      ensures (buffer, ctx') == Resume(body, ctx, maxBytes)
    {
      var pos := ctx.pos;
      while pos < |body|
        invariant ctx.pos <= pos <= |body| && pos - ctx.pos <= maxBytes
        invariant buffer == body[ctx.pos..pos]
      {
        var stored := OutC(body[pos]);
        if !stored {
          return Context(pos, Active);
        }
        pos := pos + 1;
      }
      ctx' := Context(pos, Terminated);
    }
  }

  class Server {
    const p: Params
    var next: nat
    var final: nat
    var inflight: nat
    var cwnd: nat
    var handler: bool
    /** The block of the generator service, and its fields. */
    var service: Option<nat>
    var currSeq: nat
    var context: Context
    var header: ServiceHeader
    var records: seq<Record>
    /** The blocks allocated from the heap and not freed yet. */
    var live: multiset<nat>

    /** The connection as the step machine sees it. */
    function View(): Conn
      reads this
    {
      Conn(next, final, inflight, cwnd, handler,
           if service == None then None else Some(Service(currSeq, context, EntriesOf(records), header)))
    }

    /** Every allocated block has exactly one owner. */
    ghost predicate Owned()
      reads this`service, this`records, this`live
    {
      live == if service == None then multiset{} else multiset{service.value} + BlocksOf(records)
    }

    /** The contexts of the service and of all records lie within the body. */
    ghost predicate InBody()
      reads this`context, this`records
    {
      context.pos <= |p.body| && forall e :: e in EntriesOf(records) ==> e.context.pos <= |p.body|
    }

    /** Blocks and contexts are right. */
    ghost predicate Sound()
      reads this`service, this`records, this`live, this`context
    {
      && p.chunkSize > 0 && MaxOut(p) > 80
      && Owned()
      && (service != None ==> InBody())
    }

    /** And the in-flight list strictly decreases in sequence number, all of it below what was sent. */
    ghost predicate Valid()
      reads this
    {
      Sound() && ListsOk(View())
    }

    constructor (p: Params, next: nat)
      requires p.chunkSize > 0 && MaxOut(p) > 80
      ensures Valid() && this.p == p && View() == Conn(next, Before(next), 0, 0, true, None)
    {
      this.p, this.next, final, inflight, cwnd, handler := p, next, Before(next), 0, 0, true;
      service, currSeq, context, header, records, live := None, 0, Context(0, Ready), HeaderStandard, [], multiset{};
    }

    /** `mem_alloc`, as seen from here: a block that is not allocated, if the request succeeds. */
    method MemAlloc(ok: bool) returns (b: Option<nat>)
      modifies this`live
      ensures (b == None) <==> !ok
      ensures live == if ok then old(live) + multiset{b.value} else old(live)
      ensures ok ==> b.value !in old(live)
    {
      if !ok { return None; }
      var n := 0;
      ghost var seen := multiset{};
      while n in live
        invariant live == old(live)
        invariant forall i: nat :: i < n ==> i in live
        invariant |seen| == n && seen <= live
        invariant forall i :: i in seen ==> i < n
        decreases |live| - n
      {
        seen := seen + multiset{n};
        SubBag(seen, live);
        n := n + 1;
      }
      live := live + multiset{n};
      b := Some(n);
    }

    /** `mem_free` of an allocated block. */
    method MemFree(b: nat)
      requires b in live
      modifies this`live
      ensures live == old(live) - multiset{b}
    {
      live := live - multiset{b};
    }

    /** The walk of `clean_service` to the first record below the acknowledgement. */
    method FindCut(inack: nat) returns (i: nat)
      ensures i <= |records| && EntriesOf(records)[..i] == Prune(EntriesOf(records), inack)
    {
      hide BlocksOf, EntriesOf;
      ghost var es := EntriesOf(records);
      i := 0;
      assert es[..0] == [] && es[0..] == es;
      while i < |records| && records[i].entry.seqno >= inack
        invariant 0 <= i <= |records|
        invariant Prune(es, inack) == es[..i] + Prune(es[i..], inack)
      {
        PruneStep(es, i, inack);
        i := i + 1;
      }
      PruneStops(es, i, inack);
    }

    /** Free a record's stack, context and the record. */
    method FreeRecord(r: Record, ghost others: multiset<nat>)
      requires live == others + BlocksOfOne(r)
      modifies this`live
      ensures live == others
    {
      ghost var a, b := others + multiset{r.self}, others + multiset{r.self} + multiset{r.context};
      if r.stack != None {
        Regroup(others, multiset{r.self}, multiset{r.context}, multiset{r.stack.value});
        PutAndTake(b, r.stack.value);
        MemFree(r.stack.value);
      } else {
        Regroup(others, multiset{r.self}, multiset{r.context}, multiset{});
        assert live == b;
      }
      PutAndTake(a, r.context);
      MemFree(r.context);
      PutAndTake(others, r.self);
      MemFree(r.self);
    }

    /** Free everything the given records own. */
    method FreeRecords(rs: seq<Record>, ghost others: multiset<nat>)
      requires live == others + BlocksOf(rs)
      modifies this`live
      ensures live == others
    {
      hide BlocksOfOne;
      var rest := rs;
      while rest != []
        invariant live == others + BlocksOf(rest)
        decreases |rest|
      {
        FreeRecord(rest[0], others + BlocksOf(rest[1..]));
        rest := rest[1..];
      }
    }

    /** `clean_service`: cut the sorted list at the acknowledgement (at its head without one), which keeps exactly
        the records not below it, and free exactly what the cut records own. */
    method CleanService(inack: Option<nat>)
      requires service != None && Owned() && Descending(EntriesOf(records))
      modifies this`records, this`live
      ensures Owned() && records <= old(records)
      ensures forall i :: 0 <= i < |old(records)| ==>
                (i < |records| <==> inack.Some? && old(records)[i].entry.seqno >= inack.value)
      ensures EntriesOf(records) == if inack == None then [] else Prune(old(EntriesOf(records)), inack.value)
    {
      hide BlocksOf, EntriesOf, Prune, Descending;
      var i := 0;
      if inack != None {
        i := FindCut(inack.value);
        CutIsFilter(records, i, inack.value);
      }
      EntriesSplit(records, i);
      BlocksSplit(records, i);
      var rest := records[i..];
      records := records[..i];
      FreeRecords(rest, multiset{service.value} + BlocksOf(records));
    }

    /** `if_select`. */
    method IfSelect(seqno: nat) returns (found: Option<Entry>)
      ensures found == Select(EntriesOf(records), seqno)
      ensures found.Some? ==> found.value in EntriesOf(records)
    {
      ghost var es := EntriesOf(records);
      var i := 0;
      while i < |records| && records[i].entry.seqno != seqno
        invariant 0 <= i <= |records|
        invariant Select(es, seqno) == Select(es[i..], seqno)
      {
        assert es[i..][1..] == es[i + 1..];
        i := i + 1;
      }
      if i == |records| { return None; }
      assert es[i] in es && es[i..][0] == es[i];
      found := Some(records[i].entry);
    }

    /** `context_backup`: record the current context, with a copy of the stack if there is one. On failure
        nothing stays allocated. */
    method ContextBackup(record: nat, h: ServiceHeader, al: Allocs) returns (ok: bool)
      modifies this`records, this`live
      ensures ok <==> al.context && (context.status == Active ==> al.stack)
      ensures !ok ==> live == old(live) && records == old(records)
      ensures ok ==> |records| > 0 && records[1..] == old(records) && records[0].self == record
                     && records[0].entry == Entry(next, h, context)
                     && live + multiset{record} == old(live) + BlocksOfOne(records[0])
    {
      var c := MemAlloc(al.context);
      if c == None { return false; }
      var stack: Option<nat> := None;
      if context.status == Active {
        stack := MemAlloc(al.stack);
        if stack == None {
          PutAndTake(old(live), c.value);
          MemFree(c.value);
          return false;
        }
      }
      var r := Record(Entry(next, h, context), record, c.value, stack);
      BackupBlocks(old(live), r);
      records := [r] + records;
      ok := true;
    }

    /** `smews_send_packet` for a generator, and the updates after it. */
    method SendPacket(h: ServiceHeader, content: string, retransmit: bool) returns (g: Segment)
      requires service != None
      modifies this`next, this`inflight, this`final, this`currSeq, this`header
      ensures (View(), Some(g)) == Transmit(old(View()), old(View()).service.value, h, content, retransmit)
    {
      hide EntriesOf;
      var size := |content| + HeadersSize(h);
      g := Segment(next, h, content);
      next := next + size;
      inflight := (inflight + size) % 65536;
      if h == HeaderStandard || content == "" { final := next; }
      if !retransmit {
        header := h;
        currSeq := next;
      }
    }

    /** Creation and initialization of the generator service in block b. */
    method InitService(b: nat)
      requires service == None && live == multiset{b} && p.chunkSize > 0 && MaxOut(p) > 80
      modifies this`service, this`currSeq, this`context, this`header, this`records, this`final
      ensures Sound() && service != None && View() == Opened(old(View()))
    {
      hide MaxOut;
      assert BlocksOf([]) == multiset{} && EntriesOf([]) == [];
      service, currSeq, context, header, records := Some(b), next, Context(0, Ready), HeaderStandard, [];
      final := Before(next);
    }

    method OpenService(ok: bool) returns (created: bool)
      requires Sound() && service == None
      modifies this
      ensures created == ok && Sound()
      ensures View() == if ok then Opened(old(View())) else old(View())
      ensures ok ==> service != None
    {
      hide BlocksOf, EntriesOf, MaxOut;
      var b := MemAlloc(ok);
      if b == None { return false; }
      assert live == multiset{b.value};
      InitService(b.value);
      created := true;
    }

    /** Undo the allocations of a send that fails, or of one that is over. */
    method Release(block: Option<nat>, ghost others: multiset<nat>)
      requires live == if block == None then others else others + multiset{block.value}
      modifies this`live
      ensures live == others
    {
      if block != None {
        PutAndTake(others, block.value);
        MemFree(block.value);
      }
    }

    /** Record, context and stack for a segment sent for the first time; all of them or none. */
    method BackupNew(h: ServiceHeader, al: Allocs, ghost others: multiset<nat>) returns (ok: bool)
      requires service != None && InBody() && live == others + BlocksOf(records)
      modifies this`records, this`live
      ensures ok <==> al.record && al.context && (context.status == Active ==> al.stack)
      ensures live == others + BlocksOf(records) && InBody()
      ensures EntriesOf(records) == if ok then [Entry(next, h, context)] + old(EntriesOf(records)) else old(EntriesOf(records))
    {
      hide BlocksOfOne;
      ghost var before := live;
      var record := MemAlloc(al.record);
      if record == None { return false; }
      ok := ContextBackup(record.value, h, al);
      if !ok {
        Release(record, before);
      } else {
        assert records == [records[0]] + records[1..];
        TakeOne(live, record.value, before, BlocksOfOne(records[0]));
        RegroupBlocks(others, BlocksOf(records[1..]), BlocksOfOne(records[0]));
      }
    }

    /** The header for this segment; on a retransmission also the restored context. */
    method Restore() returns (retransmit: bool, h: ServiceHeader)
      requires Sound() && service != None
      modifies this`context
      ensures Sound()
      ensures var s := old(View()).service.value;
              var found := if retransmit then Select(s.inFlight, next) else None;
              && retransmit == (next != s.currSeq)
              && h == (if !retransmit then s.header else if found.Some? then found.value.header else HeaderNone)
              && View() == old(View()).(service := Some(s.(context := if found.Some? then found.value.context else s.context)))
    {
      hide Select, EntriesOf, BlocksOf, MaxOut;
      retransmit, h := next != currSeq, header;
      if retransmit {
        var found := IfSelect(next);
        if found.Some? {
          context := found.value.context;
          h := found.value.header;
        } else {
          h := HeaderNone;
        }
      }
    }

    /** A first transmission backs the context up; a retransmission has it already. */
    method Backup(h: ServiceHeader, retransmit: bool, al: Allocs, ghost others: multiset<nat>) returns (ok: bool)
      requires service != None && InBody() && live == others + BlocksOf(records)
      modifies this`records, this`live
      ensures ok <==> retransmit || (al.record && al.context && (context.status == Active ==> al.stack))
      ensures live == others + BlocksOf(records) && InBody()
      ensures EntriesOf(records) == if ok && !retransmit then [Entry(next, h, context)] + old(EntriesOf(records))
                                    else old(EntriesOf(records))
    {
      hide EntriesOf, BlocksOf;
      ok := true;
      if !retransmit { ok := BackupNew(h, al, others); }
    }

    /** Resume the coroutine into an empty segment. */
    method RunCoroutine(max: nat) returns (content: string)
      requires context.pos <= |p.body|
      modifies this`context
      ensures (content, context) == Resume(p.body, old(context), max) && context.pos <= |p.body|
    {
      var output := new CurrOutput(max);
      ResumeInBody(p.body, context, max);
      context := output.Run(p.body, context);
      content := output.buffer;
    }

    /** Allocate the generation buffer and back the context up; both or none. */
    method Prepare(h: ServiceHeader, retransmit: bool, al: Allocs) returns (buffer: Option<nat>)
      requires service != None && InBody() && live == multiset{service.value} + BlocksOf(records)
      modifies this`records, this`live
      ensures buffer.Some? <==> al.buffer && (retransmit || (al.record && al.context && (context.status == Active ==> al.stack)))
      ensures InBody() && live == multiset{service.value} + BlocksOf(records) + if buffer == None then multiset{} else multiset{buffer.value}
      ensures EntriesOf(records) == if buffer == None || retransmit then old(EntriesOf(records))
                                    else [Entry(next, h, context)] + old(EntriesOf(records))
    {
      hide EntriesOf, BlocksOf;
      ghost var others := multiset{service.value};
      buffer := MemAlloc(al.buffer);
      if buffer == None { return None; }
      Swap(others, BlocksOf(records), buffer.value);
      var ok := Backup(h, retransmit, al, others + multiset{buffer.value});
      Swap(others, BlocksOf(records), buffer.value);
      if !ok {
        Release(buffer, others + BlocksOf(records));
        return None;
      }
    }

    /** Generate one segment: buffer, backup, run of the coroutine. */
    method RunSegment(h: ServiceHeader, retransmit: bool, max: nat, al: Allocs) returns (out: Option<(nat, string)>)
      requires service != None && InBody() && live == multiset{service.value} + BlocksOf(records)
      modifies this`context, this`records, this`live
      ensures out.Some? <==> al.buffer && (retransmit || (al.record && al.context && (old(context).status == Active ==> al.stack)))
      ensures InBody() && live == multiset{service.value} + BlocksOf(records) + if out == None then multiset{} else multiset{out.value.0}
      ensures out == None ==> context == old(context) && EntriesOf(records) == old(EntriesOf(records))
      ensures out.Some? ==>
                && (out.value.1, context) == Resume(p.body, old(context), max)
                && EntriesOf(records) == if retransmit then old(EntriesOf(records))
                                         else [Entry(next, h, old(context))] + old(EntriesOf(records))
    {
      hide EntriesOf, BlocksOf, Resume;
      var buffer := Prepare(h, retransmit, al);
      if buffer == None { return None; }
      var content := RunCoroutine(max);
      out := Some((buffer.value, content));
    }

    /** The generator case of `smews_send`, once the coroutine is in the shared stack. */
    method SendSegment(max: nat, al: Allocs) returns (g: Option<Segment>)
      requires Sound() && service != None
      modifies this
      ensures Sound() && service != None
      ensures (View(), g) == Generate(p, old(View()), old(View()).service.value, max, al)
    {
      hide Select, EntriesOf, BlocksOf, Resume, Transmit, MaxOut, FinalHeader;
      ghost var c0 := View();
      var retransmit, h := Restore();
      GenerateIs(p, c0, c0.service.value, max, al, h, context);
      hide Generate;
      var ended := context.status == Terminated;
      if ended {
        ghost var s1 := View().service.value;
        g := SendAs(c0, s1, h, "", retransmit, None);
      } else {
        g := SendRun(c0, h, retransmit, max, al);
      }
    }

    /** Run the coroutine and send what it wrote. */
    method SendRun(ghost c0: Conn, h: ServiceHeader, retransmit: bool, max: nat, al: Allocs) returns (g: Option<Segment>)
      requires Sound() && service != None && context.status != Terminated
      requires View() == c0.(service := Some(View().service.value))
      modifies this
      ensures Sound() && service != None
      ensures var (s, ctx) := (old(View()).service.value, old(context));
              (View(), g) ==
                if !al.buffer || (!retransmit && (!al.record || !al.context || (ctx.status == Active && !al.stack)))
                then (old(View()), None)
                else
                  var (content, ctx') := Resume(p.body, ctx, max);
                  var inFlight := if retransmit then s.inFlight else [Entry(c0.next, h, ctx)] + s.inFlight;
                  Transmit(c0, s.(context := ctx', inFlight := inFlight), FinalHeader(h, ctx'.status == Terminated), content, retransmit)
    {
      hide Select, EntriesOf, BlocksOf, Resume, Transmit, MaxOut, FinalHeader;
      var out := RunSegment(h, retransmit, max, al);
      if out == None { return None; }
      ghost var s2 := View().service.value;
      g := SendAs(c0, s2, h, out.value.1, retransmit, Some(out.value.0));
    }

    /** Select the header kind, send, and free the generation buffer. */
    method SendAs(ghost c0: Conn, ghost s: Service, h: ServiceHeader, content: string, retransmit: bool, buffer: Option<nat>)
      returns (g: Option<Segment>)
      requires service != None && View() == c0.(service := Some(s)) && InBody() && p.chunkSize > 0 && MaxOut(p) > 80
      requires live == multiset{service.value} + BlocksOf(records) + if buffer == None then multiset{} else multiset{buffer.value}
      modifies this
      ensures Sound() && service != None
      ensures (View(), g) == Transmit(c0, s, FinalHeader(h, context.status == Terminated), content, retransmit)
      ensures context == old(context)
    {
      hide EntriesOf, BlocksOf, MaxOut, Transmit;
      var final := FinalHeader(h, context.status == Terminated);
      TransmitIgnoresService(c0, Some(s), s, final, content, retransmit);
      var segment := SendPacket(final, content, retransmit);
      Release(buffer, multiset{service.value} + BlocksOf(records));
      g := Some(segment);
    }

    /** `smews_send` selecting this connection: the state and the segment are those of the step machine, and
        whichever allocations fail, no block is left without an owner. */
    method SmewsSend(al: Allocs) returns (g: Option<Segment>)
      requires Valid()
      modifies this
      ensures Valid()
      ensures (View(), g) == Send(p, old(View()), al)
    {
      hide EntriesOf, BlocksOf, Generate, Opened, ListsOk;
      SendKeepsList(p, View(), al);
      if !Able(p, View()) { return None; }
      var max := Later(p);
      if service == None {
        max := First(p);
        var created := OpenService(al.service);
        if !created { return None; }
      }
      if !al.prepare { return None; }
      g := SendSegment(max, al);
    }

    /** Duplicate-ack test and ack management: roll back on a duplicate, shorten what is in flight, free what
        is acknowledged. */
    method TakeAck(inack: nat)
      requires Sound() && ListsOk(View())
      modifies this`next, this`inflight, this`records, this`live
      ensures Sound() && ListsOk(View()) && View() == Acked(old(View()), inack)
    {
      hide BlocksOf, MaxOut, Prune, EntriesOf, Sound, Owned, InBody;
      if next == inflight + inack { next := inack; }
      if inack != 0 && inack <= next {
        inflight := (next - inack) % 65536;
        CleanBelow(inack);
      }
    }

    /** `clean_service` if there is a service. */
    method CleanBelow(inack: nat)
      requires Sound() && ListsOk(View())
      modifies this`records, this`live
      ensures Sound() && ListsOk(View())
      ensures View().service == if service == None then None
                                else Some(old(View()).service.value.(inFlight := Prune(old(View()).service.value.inFlight, inack)))
    {
      hide BlocksOf, MaxOut, Prune, EntriesOf;
      if service != None {
        PrunedInBody(EntriesOf(records), inack);
        PruneIsPrefix(EntriesOf(records), inack);
        CleanService(Some(inack));
      }
    }

    /** The acknowledgement handling of `smews_receive`; the service is freed once nothing is left to send
        or to acknowledge. */
    method HandleAck(inack: nat, window: nat)
      requires Valid()
      modifies this
      ensures Valid()
      ensures View() == Ack(old(View()), inack, window)
    {
      hide BlocksOf, MaxOut, EntriesOf, Acked, InBody, Owned, ListsOk;
      AckKeepsList(View(), inack, window);
      AckIs(View(), inack, window);
      TakeAck(inack);
      RecordsDescend();
      cwnd := window;
      if handler && inflight == 0 && next == final {
        handler := false;
        if service != None { CloseService(); }
        assert Sound() by { ClosedIsValid(); }
      }
    }

    lemma RecordsDescend()
      requires ListsOk(View())
      ensures service != None ==> Descending(EntriesOf(records))
    {
    }

    lemma ClosedIsValid()
      requires p.chunkSize > 0 && MaxOut(p) > 80 && service == None && (live == multiset{} || Owned())
      ensures Sound()
    {
    }

    /** Free the records that are left and the service. (The source frees the live context's stack as well;
        the coroutine's own stack is the subject of `Coroutines`.) */
    method CloseService()
      requires service != None && Owned() && Descending(EntriesOf(records))
      modifies this`service, this`records, this`live
      ensures service == None && live == multiset{}
    {
      CleanService(None);
      assert records == [];
      assert live == multiset{} + multiset{service.value};
      PutAndTake(multiset{}, service.value);
      MemFree(service.value);
      service := None;
    }

    /** `smews_retransmit` for this connection, once its timer has expired. */
    method Retransmit()
      requires Valid()
      modifies this
      ensures Valid()
      ensures View() == Timeout(old(View()))
    {
      hide BlocksOf, MaxOut, EntriesOf;
      if handler && inflight > 0 {
        next := Back(next, inflight);
        inflight := 0;
      }
    }
  }

  /** An acknowledgement without its window and without the end of the response. */
  function Acked(c: Conn, inack: nat): Conn {
    var next := if c.next == c.inflight + inack then inack else c.next;
    if inack != 0 && inack <= next then
      c.(next := next, inflight := (next - inack) % 65536,
         service := if c.service == None then None
                    else Some(c.service.value.(inFlight := Prune(c.service.value.inFlight, inack))))
    else c.(next := next)
  }

  lemma AckIs(c: Conn, inack: nat, cwnd: nat)
    ensures var a := Acked(c, inack).(cwnd := cwnd);
            Ack(c, inack, cwnd) == if a.handler && a.inflight == 0 && a.next == a.final then a.(handler := false, service := None) else a
  {
    hide Prune;
  }

  lemma {:induction false} PrunedInBody(es: seq<Entry>, inack: nat)
    ensures forall e :: e in Prune(es, inack) ==> e in es
  {
    if es != [] && es[0].seqno >= inack { PrunedInBody(es[1..], inack); }
  }

  lemma ResumeInBody(body: string, ctx: Context, max: nat)
    requires ctx.pos <= |body|
    ensures Resume(body, ctx, max).1.pos <= |body|
  {
  }

  /** `Generate` by cases. */
  lemma GenerateIs(p: Params, c: Conn, s: Service, max: nat, al: Allocs, h: ServiceHeader, ctx: Context)
    requires ctx.pos <= |p.body|
    requires var retransmit := c.next != s.currSeq;
             var found := if retransmit then Select(s.inFlight, c.next) else None;
             && h == (if !retransmit then s.header else if found.Some? then found.value.header else HeaderNone)
             && ctx == if found.Some? then found.value.context else s.context
    ensures var retransmit := c.next != s.currSeq;
            Generate(p, c, s, max, al) ==
              if ctx.status == Terminated then Transmit(c, s.(context := ctx), FinalHeader(h, true), "", retransmit)
              else if !al.buffer || (!retransmit && (!al.record || !al.context || (ctx.status == Active && !al.stack)))
              then (c.(service := Some(s.(context := ctx))), None)
              else
                var (content, ctx') := Resume(p.body, ctx, max);
                var inFlight := if retransmit then s.inFlight else [Entry(c.next, h, ctx)] + s.inFlight;
                Transmit(c, s.(context := ctx', inFlight := inFlight), FinalHeader(h, ctx'.status == Terminated), content, retransmit)
  {
    hide Select, Transmit, Resume, FinalHeader;
  }

  lemma TransmitIgnoresService(c: Conn, x: Option<Service>, s: Service, h: ServiceHeader, content: string, retransmit: bool)
    ensures Transmit(c.(service := x), s, h, content, retransmit) == Transmit(c, s, h, content, retransmit)
  {
  }

  lemma Swap(o: multiset<nat>, a: multiset<nat>, x: nat)
    ensures (o + a) + multiset{x} == (o + multiset{x}) + a
  {
  }

  lemma TakeOne(live: multiset<nat>, x: nat, before: multiset<nat>, one: multiset<nat>)
    requires live + multiset{x} == (before + multiset{x}) + one
    ensures live == before + one
  {
    forall y ensures live[y] == (before + one)[y] {
      assert (live + multiset{x})[y] == ((before + multiset{x}) + one)[y];
    }
  }

  lemma RegroupBlocks(o: multiset<nat>, a: multiset<nat>, b: multiset<nat>)
    ensures (o + a) + b == o + (b + a)
  {
  }

  lemma BackupBlocks(live: multiset<nat>, r: Record)
    ensures (if r.stack == None then live + multiset{r.context} else live + multiset{r.context} + multiset{r.stack.value}) + multiset{r.self}
              == live + BlocksOfOne(r)
  {
  }

  lemma PutAndTake(b: multiset<nat>, x: nat)
    ensures (b + multiset{x}) - multiset{x} == b && x in b + multiset{x}
  {
  }

  lemma Regroup(o: multiset<nat>, a: multiset<nat>, b: multiset<nat>, c: multiset<nat>)
    ensures o + (a + b + c) == o + a + b + c
  {
  }

  lemma PruneStops(es: seq<Entry>, i: nat, inack: nat)
    requires i <= |es| && (i < |es| ==> es[i].seqno < inack)
    ensures es[..i] + Prune(es[i..], inack) == es[..i]
  {
  }

  lemma SubBag(a: multiset<nat>, b: multiset<nat>)
    requires a <= b
    ensures |a| <= |b|
  {
    assert b == a + (b - a);
  }

  lemma PruneStep(es: seq<Entry>, i: nat, inack: nat)
    requires i < |es| && es[i].seqno >= inack
    ensures es[..i] + Prune(es[i..], inack) == es[..i + 1] + Prune(es[i + 1..], inack)
  {
    assert es[i..][1..] == es[i + 1..];
  }
}
