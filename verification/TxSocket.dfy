/** The transmit socket as the program has it: mutable fields, rings and memory in place, 32-bit indices.

    The kernel is a second agent.  `Interfere` lets it take any number of steps; it is called wherever the program
    makes a shared access, so that every method is verified against every interleaving.  A ghost trace records the
    steps taken: the state of the object is always the state that the machine of TxMachine reaches on that trace. */
module TxSocket {
  import opened Words
  import opened Slices
  import opened Umem
  import opened Rings
  import opened TxMachine
  import opened TxInvariant
  import opened TxWrap
  import opened TxReclaim

  function HeaderBytes(header: Option<seq<byte>>): seq<byte> {
    if header.Some? then header.value else []
  }

  /** The kernel's private side of the two rings. */
  class Kernel {
    var next: u32
    var done: u32
    var held: seq<Held>
    ghost var taken: seq<Packet>

    constructor ()
      ensures next == 0 && done == 0 && held == [] && taken == []
    {
      next, done, held, taken := 0, 0, [], [];
    }
  }

  class TxSocket {
    const xRing: Ring<XdpDesc>
    const uRing: Ring<nat>
    const frames: array<byte>
    const kernel: Kernel
    var available: u32
    var producer: u32
    var consumer: u32
    const base: nat // the first frame of the pool; only the other owners of frames look at it
    ghost const start: Tx
    ghost var pc: TxPc
    ghost var sent: seq<Packet>
    ghost var trace: seq<TxLabel>

    ghost function Repr(): set<object> {
      {this, xRing, xRing.desc, uRing, uRing.desc, frames, kernel}
    }

    ghost function State(): Tx
      reads Repr()
    {
      Tx(xRing.len, base, false, available, producer, consumer, pc,
         xRing.producer, xRing.consumer, xRing.desc[..], uRing.producer, uRing.consumer, uRing.desc[..],
         kernel.next, kernel.done, kernel.held, frames[..], sent, kernel.taken)
    }

    ghost predicate Separate() {
      && xRing as object != uRing
      && xRing.desc as object != uRing.desc && xRing.desc as object != frames && uRing.desc as object != frames
      && xRing.Valid() && uRing.Valid() && xRing.len == uRing.len && PowerOfTwo(xRing.len)
      && frames.Length == UMEM_SIZE && base + xRing.len <= FRAME_COUNT
    }

    ghost predicate Valid()
      reads Repr()
      ensures Valid() ==> Shape(start)
    {
      && Separate()
      && Shape(start) && Counts(start) && Addressed(start) && Narrow(start) == start
      && State() == Run(U32, start, trace)
    }

    /** The same state in unbounded counters. */
    ghost function Twin(): Tx
      reads this`trace
      requires Shape(start)
    {
      Run(Wide, start, trace)
    }

    /** Every store of reclaim so far was made with nothing available. */
    ghost predicate Spared()
      reads this`trace
      requires Shape(start)
    {
      AllSparing(start, trace)
    }

    lemma TwinFacts()
      requires Valid()
      ensures Counts(Twin()) && Addressed(Twin()) && State() == Narrow(Twin())
    {
      hide Run, Step;
      RunSimulates(start, trace);
      TxCounting(start, trace);
    }

    lemma RingFacts()
      requires Valid()
      ensures Twin().n == xRing.len <= FRAME_COUNT && PowerOfTwo(xRing.len)
    {
    }

    /** `Socket::new` over the rings that `create_socket` has mapped and filled. */
    constructor (xRing: Ring<XdpDesc>, uRing: Ring<nat>, frames: array<byte>, base: nat)
      requires xRing.Valid() && uRing.Valid() && xRing.len == uRing.len && PowerOfTwo(xRing.len)
      requires xRing as object != uRing && xRing.desc as object != uRing.desc
      requires xRing.desc as object != frames && uRing.desc as object != frames
      requires frames.Length == UMEM_SIZE && base + xRing.len <= FRAME_COUNT
      requires xRing.producer == xRing.consumer == uRing.producer == uRing.consumer == 0
      requires xRing.desc[..] == FilledDescs(base, xRing.len)
      ensures Valid() && trace == []
      ensures this.xRing == xRing && this.uRing == uRing && this.frames == frames && this.base == base && fresh(kernel)
      ensures start == Init(xRing.len, base, false, uRing.desc[..], frames[..])
    {
      this.xRing, this.uRing, this.frames, this.base := xRing, uRing, frames, base;
      available, producer, consumer := xRing.len, 0, 0;
      kernel := new Kernel();
      pc, sent, trace := Idle, [], [];
      start := Init(xRing.len, base, false, uRing.desc[..], frames[..]);
      new;
      InitSafe(xRing.len, base, false, uRing.desc[..], frames[..]);
    }

    /** Records a step that the code has just made. */
    ghost method Did(l: TxLabel, before: Tx)
      requires Separate() && Counts(start) && Addressed(start) && Narrow(start) == start
      requires before == Run(U32, start, trace) && State() == Step(U32, before, l)
      modifies this`trace
      ensures Valid() && trace == old(trace) + [l]
      ensures State() == old(State()) && Twin() == Step(Wide, old(Twin()), l)
      ensures Spared() == (old(Spared()) && Sparing(old(Twin()), l))
    {
      hide Run, Step, Sparing;
      assert (trace + [l])[..|trace|] == trace;
      RunSnoc(U32, start, trace, l);
      RunSnoc(Wide, start, trace, l);
      trace := trace + [l];
    }

    // --------------------------------------------------------------------------------------------------------------
    // The kernel
    // --------------------------------------------------------------------------------------------------------------

    /** The frames of the pool hold what they held. */
    twostate predicate OwnBytesKept()
      reads frames
    {
      forall k | base * FRAME_SIZE <= k < (base + xRing.len) * FRAME_SIZE && k < frames.Length ::
        frames[k] == old(frames[k])
    }

    /** The frames of the pool hold what they held, but for `n` bytes from address `a` on. */
    twostate predicate OnlyWritten(a: nat, n: nat)
      reads frames
    {
      forall k | base * FRAME_SIZE <= k < (base + xRing.len) * FRAME_SIZE && k < frames.Length && !(a <= k < a + n) ::
        frames[k] == old(frames[k])
    }

    /** Between two states only the kernel has moved. */
    twostate predicate KernelOnly()
      reads Repr()
      requires Shape(start)
    {
      && old(trace) <= trace && Spared() == old(Spared())
      && (forall i | |old(trace)| <= i < |trace| :: IsKernel(trace[i]))
      && SocketSide(State()) == old(SocketSide(State())) && SocketSide(Twin()) == old(SocketSide(Twin()))
      && old(Twin()).cProd <= Twin().cProd
      && OwnBytesKept()
    }

    method TakeNext()
      requires Separate() && kernel.next != xRing.producer
      modifies kernel
      ensures State() == Step(U32, old(State()), KTake)
    {
      SlotIsMasked(xRing.len, kernel.next);
      hide Slot, BitAnd, Wrap;
      var d := xRing.desc[BitAnd(kernel.next, xRing.modMask)];
      var packet := if d.addr + d.len <= frames.Length then frames[d.addr..d.addr + d.len] else [];
      kernel.held := kernel.held + [Held(d.addr, d.len, packet)];
      kernel.taken := kernel.taken + [packet];
      kernel.next := Add(U32, kernel.next, 1);
      assert State() == Take(U32, old(State()));
    }

    method CompleteOne(j: nat)
      requires Separate() && j < |kernel.held|
      modifies kernel, uRing.desc
      ensures State() == Step(U32, old(State()), KComplete(j))
    {
      SlotIsMasked(uRing.len, kernel.done);
      hide Slot, BitAnd, Wrap;
      uRing.desc[BitAnd(kernel.done, uRing.modMask)] := kernel.held[j].addr;
      kernel.done := Add(U32, kernel.done, 1);
      kernel.held := Without(kernel.held, j);
      assert State() == Complete(U32, old(State()), j);
    }

    method KernelTakes()
      requires Valid()
      modifies Repr()
      ensures Valid() && KernelOnly()
    {
      hide Run, Step, Counts, Addressed, Narrow;
      if kernel.next != xRing.producer {
        ghost var before, twin := State(), Twin();
        TwinFacts();
        TakeNext();
        KernelDid(KTake, before, twin);
      }
    }

    method KernelCompletes(j: nat)
      requires Valid()
      modifies Repr()
      ensures Valid() && KernelOnly()
    {
      hide Run, Step, Counts, Addressed, Narrow;
      if j < |kernel.held| {
        ghost var before, twin := State(), Twin();
        TwinFacts();
        CompleteOne(j);
        KernelDid(KComplete(j), before, twin);
      }
    }

    method KernelReleases()
      requires Valid()
      modifies Repr()
      ensures Valid() && KernelOnly()
    {
      hide Run, Counts, Addressed, Narrow;
      ghost var before, twin := State(), Twin();
      TwinFacts();
      xRing.UpdateConsumer(kernel.next);
      assert State() == Step(U32, before, KRelease);
      hide Step;
      KernelDid(KRelease, before, twin);
    }

    method KernelSubmits()
      requires Valid()
      modifies Repr()
      ensures Valid() && KernelOnly()
    {
      hide Run, Counts, Addressed, Narrow;
      ghost var before, twin := State(), Twin();
      TwinFacts();
      uRing.UpdateProducer(kernel.done);
      assert State() == Step(U32, before, KSubmit);
      hide Step;
      KernelDid(KSubmit, before, twin);
    }

    /** Another owner of UMEM frames writes a byte of his. */
    method OthersWrite(k: nat, b: byte)
      requires Valid()
      modifies Repr()
      ensures Valid() && KernelOnly()
    {
      hide Run, Counts, Addressed, Narrow;
      if k < frames.Length && !(base * FRAME_SIZE <= k < (base + xRing.len) * FRAME_SIZE) {
        ghost var before, twin := State(), Twin();
        TwinFacts();
        frames[k] := b;
        ByteOutside(before.umem, k, b, base, xRing.len);
        assert frames[..] == before.umem[k := b];
        hide Step;
        OthersMoved(before, twin);
      }
    }

    /** Records that other owners have written frames of theirs, such as another socket over the same memory. */
    ghost method OthersMoved(before: Tx, twin: Tx)
      requires Separate() && Counts(start) && Addressed(start) && Narrow(start) == start
      requires before == Run(U32, start, trace) && State() == before.(umem := frames[..])
      requires OwnRegionKept(base, xRing.len, before.umem, frames[..])
      requires twin == Twin() && Counts(twin)
      modifies this`trace
      ensures Valid() && trace == old(trace) + [External(frames[..])] && State() == old(State())
      ensures Spared() == old(Spared())
      ensures SocketSide(State()) == SocketSide(before) && SocketSide(Twin()) == SocketSide(twin)
      ensures twin.cProd <= Twin().cProd
    {
      hide Run, Counts, Addressed, Narrow, OwnRegionKept;
      assert State() == Step(U32, before, External(frames[..]));
      hide Step;
      KernelDid(External(frames[..]), before, twin);
    }

    /** Records a kernel step; the socket's side stays as it was, on words and on counters. */
    ghost method KernelDid(l: TxLabel, before: Tx, twin: Tx)
      requires Separate() && Counts(start) && Addressed(start) && Narrow(start) == start && IsKernel(l)
      requires before == Run(U32, start, trace) && State() == Step(U32, before, l)
      requires twin == Twin() && Counts(twin)
      modifies this`trace
      ensures Valid() && trace == old(trace) + [l] && State() == old(State()) && Spared() == old(Spared())
      ensures SocketSide(State()) == SocketSide(before) && SocketSide(Twin()) == SocketSide(twin)
      ensures twin.cProd <= Twin().cProd
    {
      hide Run, Addressed, Narrow, Valid;
      KernelKeepsSide(U32, before, l);
      KernelKeepsSide(Wide, twin, l);
      assert twin.cProd <= Step(Wide, twin, l).cProd;
      hide Step;
      Did(l, before);
    }

    /** The kernel, and the owners of other frames, take any number of steps. */
    method Interfere()
      requires Valid()
      modifies Repr()
      ensures Valid() && KernelOnly()
    {
      hide Valid, Run, Step;
      var steps: nat := *;
      while steps > 0
        invariant Valid() && KernelOnly()
        decreases steps
      {
        var j: nat := *;
        var b: byte := *;
        if {
          case true => KernelTakes();
          case true => KernelReleases();
          case true => KernelCompletes(j);
          case true => KernelSubmits();
          case true => OthersWrite(j, b);
        }
        steps := steps - 1;
      }
    }

    // --------------------------------------------------------------------------------------------------------------
    // seek
    // --------------------------------------------------------------------------------------------------------------

    /** Completions that are published and not reclaimed. */
    ghost function Pending(): int
      requires Shape(start)
      reads this`trace
    {
      Twin().cProd - Twin().cons
    }

    /** The trace has grown, and not by a store over an available descriptor. */
    twostate predicate Grew()
      requires Shape(start)
      reads this`trace
    {
      old(trace) <= trace && Spared() == old(Spared())
    }

    /** The trace has grown by steps of a running `seek_` and of the kernel. */
    twostate predicate GrewWithin()
      reads this`trace
    {
      old(trace) <= trace && forall i | |old(trace)| <= i < |trace| :: WithinCall(trace[i])
    }

    /** Three accesses of the `seek_` loop: load a completion, release its slot, store the descriptor. */
    method LoadCompletion() returns (addr: nat)
      requires Separate() && pc.Polling?
      modifies this`consumer, this`pc
      ensures State() == Step(U32, old(State()), SeekRead)
      ensures pc == Claimed(old(pc).count, old(pc).snap, addr)
    {
      SlotIsMasked(uRing.len, consumer);
      hide Slot, BitAnd, Wrap;
      addr := uRing.desc[BitAnd(consumer, uRing.modMask)];
      consumer := Add(U32, consumer, 1);
      pc := Claimed(pc.count, pc.snap, addr);
      assert State() == Claim(U32, old(State()));
    }

    method ReleaseCompletion()
      requires Separate() && pc.Claimed?
      modifies this`pc, uRing`consumer
      ensures State() == Step(U32, old(State()), SeekRelease)
      ensures pc == Released(old(pc).count, old(pc).snap, old(pc).addr)
    {
      uRing.UpdateConsumer(consumer);
      pc := Released(pc.count, pc.snap, pc.addr);
    }

    method StoreReclaimed(addr: nat)
      requires Separate() && pc.Released? && pc.addr == addr && available < FRAME_COUNT
      modifies this`available, this`pc, xRing.desc
      ensures State() == Step(U32, old(State()), SeekStore)
    {
      SlotIsMasked(xRing.len, producer);
      hide Slot, BitAnd, Wrap;
      xRing.desc[BitAnd(producer, xRing.modMask)] := XdpDesc(addr, 0, 0);
      available := available + 1;
      pc := if available >= pc.count || pc.snap == consumer then Idle else Polling(pc.count, pc.snap);
      assert State() == Store(U32, old(State()));
    }

    /** The kernel may run, then a completion is loaded. */
    method ClaimNext() returns (addr: nat)
      requires Valid() && pc.Polling?
      modifies Repr()
      ensures Valid() && pc.Claimed? && pc.addr == addr && Grew() && GrewWithin() && OwnBytesKept()
      ensures var t, o := Twin(), old(Twin());
              && o.pc.Polling? && t.pc.Claimed? && t.pc.count == o.pc.count && t.pc.snap == o.pc.snap
              && t.avail == o.avail && t.cons == o.cons + 1 && t.prod == o.prod && t.sent == o.sent
    {
      hide Run, Step, Addressed, Counts;
      TwinFacts();
      hide Narrow;
      PcAgrees(Twin());
      Interfere();
      ghost var before, twin := State(), Twin();
      addr := LoadCompletion();
      Did(SeekRead, before);
      ClaimSide(twin);
    }

    method ReleaseNext()
      requires Valid() && pc.Claimed?
      modifies Repr()
      ensures Valid() && pc.Released? && pc.addr == old(pc).addr && Grew() && GrewWithin() && OwnBytesKept()
      ensures var t, o := Twin(), old(Twin());
              && o.pc.Claimed? && t.pc.Released? && t.pc.count == o.pc.count && t.pc.snap == o.pc.snap
              && t.avail == o.avail && t.cons == o.cons && t.prod == o.prod && t.sent == o.sent
    {
      hide Run, Step, Addressed, Counts;
      TwinFacts();
      hide Narrow;
      PcAgrees(Twin());
      Interfere();
      ghost var before, twin := State(), Twin();
      ReleaseCompletion();
      Did(SeekRelease, before);
      ReleaseSide(twin);
    }

    method StoreNext(addr: nat)
      requires Valid() && pc.Released? && pc.addr == addr
      modifies Repr()
      ensures Valid() && GrewWithin() && OwnBytesKept() && Spared() == (old(Spared()) && old(Twin()).avail == 0)
      ensures var t, o := Twin(), old(Twin());
              && o.pc.Released?
              && t.avail == o.avail + 1 && t.cons == o.cons && t.prod == o.prod && t.sent == o.sent
              && t.pc == (if t.avail >= o.pc.count || o.pc.snap == t.cons then Idle
                          else Polling(o.pc.count, o.pc.snap))
    {
      hide Run, Step, Addressed, Counts;
      Interfere();
      ghost var before, twin := State(), Twin();
      TwinFacts();
      PcAgrees(Twin());
      RoomToStore(twin);
      hide Narrow;
      StoreReclaimed(addr);
      Did(SeekStore, before);
      StoreSide(twin);
    }

    /** One turn of the loop. */
    method Reclaim()
      requires Valid() && pc.Polling?
      modifies Repr()
      ensures Valid() && GrewWithin() && OwnBytesKept() && Spared() == (old(Spared()) && old(Twin()).avail == 0)
      ensures var t, o := Twin(), old(Twin());
              && t.avail == o.avail + 1 && t.cons == o.cons + 1 && t.prod == o.prod && t.sent == o.sent
              && o.pc.Polling? && t.pc == (if t.avail >= o.pc.count || o.pc.snap == t.cons then Idle else o.pc)
    {
      hide Run, Step, Valid;
      var addr := ClaimNext();
      ReleaseNext();
      StoreNext(addr);
    }

    lemma PcAgrees(t: Tx)
      ensures Narrow(t).pc.Polling? <==> t.pc.Polling?
      ensures Narrow(t).pc.Idle? <==> t.pc.Idle?
      ensures Narrow(t).pc.Claimed? <==> t.pc.Claimed?
      ensures Narrow(t).pc.Released? <==> t.pc.Released?
    {
    }

    lemma ClaimSide(t: Tx)
      requires Shape(t) && t.pc.Polling?
      ensures var r := Step(Wide, t, SeekRead);
              && r.pc.Claimed? && r.pc.count == t.pc.count && r.pc.snap == t.pc.snap
              && r.cons == t.cons + 1 && r.avail == t.avail && r.prod == t.prod && r.sent == t.sent
    {
    }

    lemma ReleaseSide(t: Tx)
      requires Shape(t) && t.pc.Claimed?
      ensures var r := Step(Wide, t, SeekRelease);
              && r.pc == Released(t.pc.count, t.pc.snap, t.pc.addr)
              && r.cons == t.cons && r.avail == t.avail && r.prod == t.prod && r.sent == t.sent
    {
    }

    lemma StoreSide(t: Tx)
      requires Shape(t) && t.pc.Released?
      ensures var r := Step(Wide, t, SeekStore);
              && r.cons == t.cons && r.avail == t.avail + 1 && r.prod == t.prod && r.sent == t.sent
              && r.pc == (if r.avail >= t.pc.count || t.pc.snap == r.cons then Idle else Polling(t.pc.count, t.pc.snap))
    {
    }

    lemma RoomToStore(t: Tx)
      requires Counts(t) && t.pc.Released?
      ensures Narrow(t).avail == t.avail < FRAME_COUNT
    {
    }

    /** The state that the machine had reached when the `at`-th step was made. */
    ghost function TwinAt(at: nat): Tx
      reads this`trace
      requires Shape(start) && at <= |trace|
    {
      Run(Wide, start, trace[..at])
    }

    /** The `at`-th step is the load of a call of `seek_(count)`, after nothing but kernel steps, and `pending`
        completions are published and not reclaimed at that moment. */
    twostate predicate LoadedAt(at: nat, count: nat, pending: int)
      reads this`trace
      requires Shape(start)
    {
      && old(trace) <= trace && |old(trace)| <= at < |trace| && trace[at] == SeekStart(count)
      && (forall i | |old(trace)| <= i < at :: IsKernel(trace[i]))
      && Counts(TwinAt(at)) && SocketSide(TwinAt(at)) == old(SocketSide(Twin()))
      && pending == TwinAt(at).cProd - TwinAt(at).cons
    }

    /** The start of `seek_` when descriptors are missing: the Completion producer is loaded once. */
    method BeginSeek(count: nat) returns (cProducer: u32, ghost pending: nat, ghost at: nat)
      requires Valid() && pc.Idle? && available < count
      modifies Repr()
      ensures Valid() && Grew() && OwnBytesKept() && LoadedAt(at, count, pending) && at == |trace| - 1
      ensures old(Pending()) <= pending <= xRing.len - old(available)
      ensures pending == 0 <==> cProducer == consumer
      ensures cProducer == Wrap(Twin().cons + pending)
      ensures available == old(available)
      ensures var t, o := Twin(), old(Twin());
              && o.pc.Idle? && t.avail == o.avail == available
              && (if pending == 0 then t.pc.Idle? else t.pc == Polling(count, t.cons + pending))
    {
      hide Run, Addressed, Step, AllSparing;
      TwinFacts();
      PcAgrees(Twin());
      Interfere();
      ghost var before, twin := State(), Twin();
      TwinFacts();
      cProducer := uRing.producer;
      pending := twin.cProd - twin.cons;
      DistanceExact(twin.cProd, twin.cons);
      PcAgrees(twin);
      if cProducer != consumer {
        pc := Polling(count, cProducer);
      }
      StartSide(twin, count);
      StartSideWords(before, count);
      at := |trace|;
      Did(SeekStart(count), before);
      assert trace[..at] == trace[..|trace| - 1];
    }

    lemma StartSide(t: Tx, count: nat)
      requires Shape(t) && t.pc.Idle? && t.avail < count
      ensures Step(Wide, t, SeekStart(count)) == if t.cProd == t.cons then t else t.(pc := Polling(count, t.cProd))
    {
    }

    lemma StartSideWords(s: Tx, count: nat)
      requires Shape(s) && s.pc.Idle?
      ensures Step(U32, s, SeekStart(count))
              == if s.avail >= count || s.cProd == s.cons then s else s.(pc := Polling(count, s.cProd))
    {
    }

    /** The loop of `seek_`; it ends because the completions up to the loaded producer are finitely many. */
    method ReclaimLoop(count: nat, cProducer: u32, ghost pending: nat)
      requires Valid() && 0 < pending <= FRAME_COUNT && Twin().avail < count
      requires Twin().pc == Polling(count, Twin().cons + pending)
      requires cProducer == Wrap(Twin().cons + pending)
      modifies Repr()
      ensures Valid() && GrewWithin() && OwnBytesKept() && pc.Idle? && Twin().pc.Idle?
      ensures available == Min(count, old(Twin()).avail + pending)
      ensures Spared() == (old(Spared()) && old(Twin()).avail == 0 && available == 1)
    {
      hide Run, Addressed, Step, Counts, Narrow, AllSparing;
      ghost var a, c := Twin().avail, Twin().cons;
      while true
        invariant Valid() && GrewWithin() && OwnBytesKept()
        invariant 0 <= Twin().avail - a == Twin().cons - c < pending && Twin().avail < count
        invariant Twin().pc == Polling(count, c + pending)
        invariant Spared() == (old(Spared()) && (Twin().cons == c || (a == 0 && Twin().avail == 1)))
        decreases c + pending - Twin().cons
      {
        assert pc.Polling? && Twin().avail >= 0 by { TwinFacts(); PcAgrees(Twin()); NotNegative(Twin()); }
        Reclaim();
        TwinFacts();
        SeekDone(Twin(), State(), count, c + pending);
        if available >= count || cProducer == consumer {
          break;
        }
      }
    }

    lemma NotNegative(t: Tx)
      requires Counts(t)
      ensures t.avail >= 0
    {
    }

    /** `seek_`.  With `pending` the number of completions that are published and not reclaimed at the moment of the load,
        the call returns `min(count, available + pending)`, and it fails exactly when descriptors are missing and
        nothing is pending; then the socket is as before.  Otherwise it releases the completions it takes and stores one
        TX slot, which ends with the last address that it has reclaimed.  It stores over an available descriptor unless
        it reclaims nothing, or a single one when nothing is available. */
    method Seek_(count: nat) returns (r: Result<nat>, ghost pending: nat, ghost at: nat)
      requires Valid() && pc.Idle?
      modifies Repr()
      ensures Valid() && pc.Idle? && OwnBytesKept() && LoadedAt(at, count, pending)
      ensures old(Pending()) <= pending <= xRing.len - old(available)
      ensures r == if count <= old(available) then Ok(count)
                   else if pending == 0 then Err(RingFull)
                   else Ok(Min(count, old(available) + pending))
      ensures available == if count <= old(available) then old(available) else Min(count, old(available) + pending)
      ensures SocketSide(State()) == Reclaiming(old(State()), available - old(available), TwinAt(at))
      ensures Spared() == (old(Spared())
                           && (available == old(available) || (old(available) == 0 && available == 1)))
    {
      hide Run, Addressed, Step, Slot, Counts, Narrow, Valid, PowerOfTwo, AllSparing, Reclaimed, Reclaiming;
      ghost var o := Twin();
      TwinFacts();
      RingFacts();
      PcAgrees(o);
      if available >= count {
        pending, at := SeekNothing(count);
        return Ok(count), pending, at;
      }
      var cProducer;
      cProducer, pending, at := BeginSeek(count);
      ghost var loaded := trace;
      if cProducer == consumer {
        TwinFacts();
        PcAgrees(Twin());
        r := Err(RingFull);
      } else {
        ReclaimLoop(count, cProducer, pending);
        r := Ok(available);
      }
      assert trace[..at] == loaded[..at] && trace[..|loaded|] == loaded && loaded[at] == trace[at];
      assert SocketSide(TwinAt(at)).pc == o.pc;
      CallDone(o, at, count);
    }

    /** The call when nothing is missing: no shared access at all. */
    ghost method SeekNothing(count: nat) returns (pending: nat, at: nat)
      requires Valid() && pc.Idle? && count <= available
      modifies this`trace
      ensures Valid() && State() == old(State()) && Grew() && LoadedAt(at, count, pending)
      ensures pending == old(Pending()) <= xRing.len - available
      ensures SocketSide(State()) == Reclaiming(old(State()), 0, TwinAt(at))
    {
      hide Run, Addressed, Step, AllSparing;
      TwinFacts();
      pending, at := Pending(), |trace|;
      StartSideWords(State(), count);
      Did(SeekStart(count), State());
      assert trace[..at] == old(trace);
    }

    /** The socket's side of `s`, on words, after reclaiming `k` completions that stand in state `t`. */
    ghost function Reclaiming(s: Tx, k: int, t: Tx): (r: Side)
      requires Shape(s) && Shape(t)
      ensures |r.xDesc| == s.n
    {
      if k == 0 then SocketSide(s)
      else SocketSide(s.(avail := s.avail + k, cons := Wrap(s.cons + k), cCons := Wrap(s.cons + k),
                         xDesc := s.xDesc[Slot(U32, s.n, s.prod) := XdpDesc(At(t.cDesc, t.cons + k - 1), 0, 0)]))
    }

    /** From the load of a call to its end, in state `t`, on words. */
    lemma ReclaimedWords(o: Tx, s: Tx, t: Tx, k: nat)
      requires Counts(o) && Counts(s) && Counts(t) && o.n == s.n == t.n && PowerOfTwo(s.n) && s.pc.Idle?
      requires SocketSide(s) == SocketSide(o) && k <= s.kDone - s.cons && SocketSide(t) == SocketSide(Reclaimed(s, k))
      ensures SocketSide(Narrow(t)) == Reclaiming(Narrow(o), k, s)
    {
      hide Slot, PowerOfTwo, At, Wrap;
      SlotOfWord(o.n, o.prod);
      WrapAdd(o.cons, k);
    }

    /** A call that has ended. */
    lemma CallDone(o: Tx, at: nat, count: nat)
      requires Valid() && at < |trace| && trace[at] == SeekStart(count)
      requires forall i | at < i < |trace| :: WithinCall(trace[i])
      requires Counts(o) && o.n == xRing.len && Counts(TwinAt(at)) && TwinAt(at).pc.Idle? && Twin().pc.Idle?
      requires SocketSide(TwinAt(at)) == SocketSide(o)
      ensures available == o.avail + Reclaims(TwinAt(at), count)
      ensures SocketSide(State()) == Reclaiming(Narrow(o), available - o.avail, TwinAt(at))
    {
      hide Run, Step, Slot, Addressed;
      TwinFacts();
      RingFacts();
      var s, ks := TwinAt(at), trace[at + 1..];
      assert trace == trace[..at] + ([SeekStart(count)] + ks);
      RunConcat(Wide, start, trace[..at], [SeekStart(count)] + ks);
      SeekOvertaken(s, count, ks);
      ReclaimedWords(o, s, Twin(), Reclaims(s, count));
    }

    lemma SeekDone(t: Tx, s: Tx, count: nat, snap: int)
      requires s == Narrow(t) && (t.pc.Idle? || t.pc == Polling(count, snap)) && t.cons <= snap <= t.cons + FRAME_COUNT
      ensures s.avail == t.avail && s.sent == t.sent && s.prod == Wrap(t.prod) && (s.pc.Idle? <==> t.pc.Idle?)
      ensures s.cons == Wrap(snap) <==> t.cons == snap
    {
      DistanceExact(snap, t.cons);
    }

    // --------------------------------------------------------------------------------------------------------------
    // peek
    // --------------------------------------------------------------------------------------------------------------

    /** The `i`-th available descriptor, and whether nothing but the length of one descriptor has changed. */
    ghost function Available(i: nat): XdpDesc
      reads Repr()
      requires xRing.Valid()
    {
      xRing.desc[Slot(U32, xRing.len, producer + i)]
    }

    twostate predicate OnlyResized(i: nat, len: u32)
      reads Repr()
      requires Separate()
    {
      && available == old(available) && producer == old(producer) && consumer == old(consumer)
      && pc == old(pc) && sent == old(sent) && xRing.producer == old(xRing.producer)
      && uRing.consumer == old(uRing.consumer)
      && xRing.desc[..] == old(xRing.desc[..])[Slot(U32, xRing.len, producer + i) := old(Available(i)).(len := len)]
    }

    /** The store of the length in the descriptor. */
    method StoreLength(i: nat, len: u32)
      requires Valid() && pc.Idle? && i < available && len <= FRAME_SIZE
      modifies Repr()
      ensures Valid() && Grew() && OnlyResized(i, len) && OwnBytesKept()
    {
      hide Run, Addressed, Counts, Narrow;
      ghost var before := State();
      var xHead := BitAnd(Add(U32, producer, i), xRing.modMask);
      var d := xRing.desc[xHead];
      xRing.desc[xHead] := d.(len := len);
      assert State() == Resized(U32, before, i, len);
      assert State() == Step(U32, before, SetLen(i, len));
      hide Step;
      Did(SetLen(i, len), before);
    }

    /** `peek_`.  It checks the index, then the length; a length of exactly one frame passes the check, and then fails the
        assertion of `mut_bytes_at` after the descriptor has been changed. */
    method Peek_(index: nat, len: nat) returns (r: Result<nat>)
      requires Valid() && pc.Idle?
      modifies Repr()
      ensures Valid() && Grew() && OwnBytesKept()
      ensures index >= old(available) ==> r == Err(InvalidIndex)
      ensures index < old(available) && len > FRAME_SIZE ==> r == Err(InvalidLength)
      ensures index < old(available) && len == FRAME_SIZE ==> r == Panicked
      ensures index < old(available) && len < FRAME_SIZE ==> r == Ok(old(Available(index)).addr)
      ensures r.Err? ==> SocketSide(State()) == old(SocketSide(State()))
      ensures !r.Err? ==> OnlyResized(index, len)
    {
      hide Run, Step, Counts, Addressed, Narrow, Slot;
      if index >= available {
        return Err(InvalidIndex);
      }
      if len > FRAME_SIZE {
        return Err(InvalidLength);
      }
      Interfere();
      AvailableInPool(index);
      StoreLength(index, len);
      r := TakeSlice(index, len);
    }

    /** The call of `mut_bytes_at`, which stores the length once more. */
    method TakeSlice(i: nat, len: nat) returns (r: Result<nat>)
      requires Valid() && len <= FRAME_SIZE && Available(i).len == len && Available(i).addr + FRAME_SIZE <= UMEM_SIZE
      modifies Repr()
      ensures Valid() && Grew() && OwnBytesKept() && SocketSide(State()) == old(SocketSide(State()))
      ensures r == if len == FRAME_SIZE then Panicked else Ok(Available(i).addr)
    {
      hide Run, Step, Counts, Addressed, Narrow;
      Interfere();
      var xHead := BitAnd(Add(U32, producer, i), xRing.modMask);
      ghost var before := State();
      r := MutBytesAt(xRing, xHead, len);
      assert xRing.desc[..] == before.xDesc;
      assert State() == before;
    }

    /** An available descriptor names a frame of the pool. */
    lemma AvailableInPool(i: nat)
      requires Valid() && i < available
      ensures IsFrame(base, xRing.len, Available(i).addr) && Available(i).addr + FRAME_SIZE <= UMEM_SIZE
    {
      hide Run, Step, Counts;
      TwinFacts();
      assert State().xDesc == Twin().xDesc;
    }

    /** The socket's side with the length of the first available descriptor set. */
    ghost function WithLength(side: Side, n: nat, len: u32): Side
      requires |side.xDesc| == n > 0
    {
      var slot := Slot(U32, n, side.prod);
      side.(xDesc := side.xDesc[slot := side.xDesc[slot].(len := len)])
    }

    /** `seek_and_peek`: an error of either call is passed on.  What `seek_` changes is changed, and when its slice is cut
        the length of the first available descriptor is set, and nothing else. */
    method SeekAndPeek(len: nat) returns (r: Result<nat>, ghost pending: nat, ghost at: nat)
      requires Valid() && pc.Idle?
      modifies Repr()
      ensures Valid() && Grew() && OwnBytesKept() && LoadedAt(at, 1, pending)
      ensures old(Pending()) <= pending <= xRing.len - old(available)
      ensures available == if old(available) > 0 then old(available) else Min(1, pending)
      ensures available == 0 ==> r == Err(RingFull)
      ensures available > 0 ==>
                && (len > FRAME_SIZE ==> r == Err(InvalidLength))
                && (len == FRAME_SIZE ==> r == Panicked)
                && (len < FRAME_SIZE ==> r == Ok(Available(0).addr) && IsFrame(base, xRing.len, Available(0).addr))
      ensures var side := Reclaiming(old(State()), available - old(available), TwinAt(at));
              SocketSide(State()) == if r.Err? then side else WithLength(side, xRing.len, len)
    {
      hide Run, Step, Counts, Addressed, Narrow, IsFrame, Slot, Reclaiming, AllSparing;
      var s;
      s, pending, at := Seek_(1);
      if s.Err? {
        return Err(s.error), pending, at;
      }
      ghost var sought, before := trace, SocketSide(State());
      AvailableInPool(0);
      r := Peek_(0, len);
      assert trace[..at] == sought[..at] && trace[..|sought|] == sought;
      assert r.Err? || SocketSide(State()) == WithLength(before, xRing.len, len);
    }

    // --------------------------------------------------------------------------------------------------------------
    // commit and send
    // --------------------------------------------------------------------------------------------------------------

    /** `commit_`: publishes the first `count as u32` available descriptors, or none. */
    method Commit_(count: nat) returns (r: Result<()>)
      requires Valid() && pc.Idle?
      modifies this, xRing`producer
      ensures Valid() && Grew() && pc.Idle?
      ensures r == if old(available) < Wrap(count) then Err(NotAvailable) else Ok(())
      ensures r.Err? ==> State() == old(State())
      ensures r.Ok? ==> State() == Committed(U32, old(State()), Wrap(count))
      ensures r.Ok? ==>
                && available == old(available) - Wrap(count) && consumer == old(consumer)
                && producer == xRing.producer == Wrap(old(producer) + Wrap(count))
                && |sent| == |old(sent)| + Wrap(count) && old(sent) <= sent
                && forall i | 0 <= i < Wrap(count) ::
                     sent[|old(sent)| + i] == PacketOf(frames[..], old(Available(i)))
    {
      hide Run, Addressed, Counts, Narrow, PacketOf, Slot, Committing, Step, Committed;
      if available < Wrap(count) {
        return Err(NotAvailable);
      }
      ghost var before := State();
      CommittedWords(before, count);
      CommitAvailable(count);
      r := Ok(());
      hide Valid;
      forall i | 0 <= i < Wrap(count)
        ensures sent[|old(sent)| + i] == PacketOf(frames[..], old(Available(i)))
      {
        assert before.xDesc[AvailSlot(U32, before, i)] == old(Available(i));
      }
    }

    /** The call when as many are available. */
    method CommitAvailable(count: nat)
      requires Valid() && pc.Idle? && Wrap(count) <= available
      modifies this, xRing`producer
      ensures Valid() && Grew() && State() == Committed(U32, old(State()), Wrap(count))
    {
      hide Run, Addressed, Counts, Narrow, PacketOf, Slot, Committing;
      ghost var before := State();
      available := available - Wrap(count);
      producer := Add(U32, producer, Wrap(count));
      xRing.UpdateProducer(producer);
      sent := sent + Committing(U32, before, Wrap(count));
      assert State() == Step(U32, before, Commit(count));
      hide Step;
      Did(Commit(count), before);
    }

    lemma CommittedWords(s: Tx, count: nat)
      requires Shape(s) && s.pc.Idle? && Wrap(count) <= s.avail
      ensures var r, c := Committed(U32, s, Wrap(count)), Wrap(count);
              && r == s.(avail := s.avail - c, prod := Wrap(s.prod + c), xProd := Wrap(s.prod + c), sent := r.sent)
              && r.sent == s.sent + Committing(U32, s, c)
              && forall i | 0 <= i < c :: r.sent[|s.sent| + i] == PacketOf(s.umem, s.xDesc[AvailSlot(U32, s, i)])
    {
      hide Slot, PacketOf;
    }

    /** `copy_from_slice` into the frame of the first available descriptor, byte by byte. */
    method CopyIn(a: nat, off: nat, bytes: seq<byte>)
      requires Valid() && pc.Idle? && available > 0 && Available(0).addr == a
      requires off + |bytes| <= Available(0).len <= FRAME_SIZE
      modifies Repr()
      ensures Valid() && Grew() && SocketSide(State()) == old(SocketSide(State()))
      ensures a + FRAME_SIZE <= UMEM_SIZE
      ensures frames[a + off..a + off + |bytes|] == bytes
      ensures OnlyWritten(a + off, |bytes|)
    {
      hide Run, Step, Counts, Addressed, Narrow;
      AvailableInPool(0);
      for i := 0 to |bytes|
        invariant Valid() && Grew() && SocketSide(State()) == old(SocketSide(State()))
        invariant forall k | 0 <= k < i :: frames[a + off + k] == bytes[k]
        invariant OnlyWritten(a + off, i)
      {
        Interfere();
        CopyByte(a, off + i, bytes[i]);
      }
    }

    method CopyByte(a: nat, off: nat, b: byte)
      requires Valid() && pc.Idle? && available > 0 && Available(0).addr == a
      requires off < Available(0).len && a + Available(0).len <= UMEM_SIZE
      modifies this`trace, frames
      ensures Valid() && Grew() && SocketSide(State()) == old(SocketSide(State()))
      ensures frames[..] == old(frames[..])[a + off := b]
    {
      hide Run, Counts, Addressed, Narrow;
      ghost var before := State();
      frames[a + off] := b;
      assert frames[..] == Overwrite(before.umem, a + off, [b]);
      assert State() == Step(U32, before, Write(0, off, [b]));
      hide Step;
      Did(Write(0, off, [b]), before);
    }

    /** The copy of the header, if there is one. */
    method CopyHeader(a: nat, header: Option<seq<byte>>)
      requires Valid() && pc.Idle? && available > 0 && Available(0).addr == a
      requires |HeaderBytes(header)| <= Available(0).len < FRAME_SIZE
      modifies Repr()
      ensures Valid() && Grew() && SocketSide(State()) == old(SocketSide(State()))
      ensures a + FRAME_SIZE <= UMEM_SIZE
      ensures frames[a..a + |HeaderBytes(header)|] == HeaderBytes(header)
      ensures OnlyWritten(a, |HeaderBytes(header)|)
    {
      hide Run, Step, Counts, Addressed, Narrow, Slot;
      AvailableInPool(0);
      if header.Some? {
        CopyIn(a, 0, header.value);
      }
    }

    /** The copy of the data, behind what stands at the start of the frame. */
    method CopyData(a: nat, x: seq<byte>, data: seq<byte>)
      requires Valid() && pc.Idle? && available > 0 && Available(0).addr == a
      requires |x| + |data| <= Available(0).len <= FRAME_SIZE && a + FRAME_SIZE <= UMEM_SIZE && frames[a..a + |x|] == x
      modifies Repr()
      ensures Valid() && Grew() && SocketSide(State()) == old(SocketSide(State()))
      ensures frames[a..a + |x| + |data|] == x + data && OnlyWritten(a + |x|, |data|)
    {
      hide Run, Step, Counts, Addressed, Narrow, Slot;
      AvailableInPool(0);
      ghost var u := frames[..];
      CopyIn(a, |x|, data);
      hide SocketSide, Valid;
      BytesJoin(u, frames[..], a, x, data);
    }

    /** Both copies of `send`. */
    method CopyPacket(a: nat, header: Option<seq<byte>>, data: seq<byte>)
      requires Valid() && pc.Idle? && available > 0 && Available(0).addr == a
      requires |HeaderBytes(header)| + |data| == Available(0).len < FRAME_SIZE
      modifies Repr()
      ensures Valid() && Grew() && SocketSide(State()) == old(SocketSide(State()))
      ensures a + FRAME_SIZE <= UMEM_SIZE
      ensures frames[a..a + |HeaderBytes(header)| + |data|] == HeaderBytes(header) + data
      ensures OnlyWritten(a, |HeaderBytes(header)| + |data|)
    {
      hide Run, Step, Counts, Addressed, Narrow, Slot;
      CopyHeader(a, header);
      CopyData(a, HeaderBytes(header), data);
    }

    /** `send` of an optional header followed by the data.

        It fails, with the socket as before, exactly when nothing is available or the packet is longer than a frame; it
        panics exactly when the packet fills a frame.  Otherwise it publishes one descriptor, whose bytes at that moment
        are the header and the data, and changes no other byte of the pool. */
    method Send(data: seq<byte>, header: Option<seq<byte>>) returns (r: Result<()>)
      requires Valid() && pc.Idle?
      modifies Repr()
      ensures Valid() && Grew()
      ensures var total := (if header.Some? then |header.value| else 0) + |data|;
              r == if old(available) == 0 then Err(InvalidIndex)
                   else if total > FRAME_SIZE then Err(InvalidLength)
                   else if total == FRAME_SIZE then Panicked
                   else Ok(())
      ensures r.Err? ==> SocketSide(State()) == old(SocketSide(State())) && OwnBytesKept()
      ensures r.Panicked? ==> OnlyResized(0, FRAME_SIZE) && OwnBytesKept()
      ensures r.Ok? ==> Published(if header.Some? then header.value + data else data)
    {
      hide Run, Step, Counts, Addressed, Narrow, Slot;
      var total := |HeaderBytes(header)| + |data|;
      var buf := Peek_(0, total);
      if buf.Err? {
        return Err(buf.error);
      }
      if buf.Panicked? {
        return Panicked;
      }
      assert xRing.desc[..]
          == old(xRing.desc[..])[Slot(U32, xRing.len, old(producer) + 0) := old(Available(0)).(len := total)];
      r := SendInto(buf.value, header, data);
      assert HeaderBytes(header) + data == if header.Some? then header.value + data else data;
    }

    /** `send` from the copies on, with the slice at `a`. */
    method SendInto(a: nat, header: Option<seq<byte>>, data: seq<byte>) returns (r: Result<()>)
      requires Valid() && pc.Idle? && available > 0 && Available(0).addr == a
      requires |HeaderBytes(header)| + |data| == Available(0).len < FRAME_SIZE
      modifies Repr()
      ensures Valid() && Grew() && r == Ok(()) && Published(HeaderBytes(header) + data)
    {
      hide Run, Step, Counts, Addressed, Narrow, Slot;
      CopyPacket(a, header, data);
      StaysWritten(a, HeaderBytes(header) + data);
      r := CommitOne(a, HeaderBytes(header) + data);
    }

    /** The kernel may run while a packet stands in its frame. */
    method StaysWritten(a: nat, packet: Packet)
      requires Valid() && available > 0 && Available(0).addr == a
      requires |packet| <= FRAME_SIZE && a + FRAME_SIZE <= UMEM_SIZE && frames[a..a + |packet|] == packet
      modifies Repr()
      ensures Valid() && Grew() && SocketSide(State()) == old(SocketSide(State())) && OwnBytesKept()
      ensures frames[a..a + |packet|] == packet
    {
      hide Run, Step, Counts, Addressed, Narrow, Slot;
      AvailableInPool(0);
      Interfere();
      forall i | 0 <= i < |packet|
        ensures frames[a + i] == packet[i]
      {
        assert old(frames[a..a + |packet|])[i] == packet[i];
      }
    }

    /** One packet has been published, in the frame of the descriptor that was the first available one. */
    twostate predicate Published(packet: Packet)
      reads Repr()
      requires Separate()
    {
      && |packet| <= FRAME_SIZE
      && var d := old(Available(0)).(len := |packet|);
      && available == old(available) - 1 && producer == xRing.producer == Wrap(old(producer) + 1)
      && consumer == old(consumer) && pc.Idle?
      && xRing.desc[..] == old(xRing.desc[..])[Slot(U32, xRing.len, old(producer)) := d]
      && sent == old(sent) + [packet]
      && d.addr + |packet| <= frames.Length && frames[d.addr..d.addr + |packet|] == packet
      && OnlyWritten(d.addr, d.len)
    }

    /** The commit of a packet that stands in its frame. */
    method CommitOne(a: nat, packet: Packet) returns (r: Result<()>)
      requires Valid() && pc.Idle? && available > 0 && a + |packet| <= UMEM_SIZE
      requires Available(0).addr == a && Available(0).len == |packet| && frames[a..a + |packet|] == packet
      modifies this, xRing`producer
      ensures Valid() && Grew() && pc.Idle? && r == Ok(())
      ensures available == old(available) - 1 && producer == xRing.producer == Wrap(old(producer) + 1)
      ensures consumer == old(consumer) && sent == old(sent) + [packet]
    {
      hide Run, Step, Counts, Addressed, Narrow;
      OnePacket(State(), a, |packet|, packet);
      hide Slot, Committing;
      r := Commit_(1);
    }

    lemma OnePacket(s: Tx, a: nat, len: nat, packet: Packet)
      requires Shape(s) && a + len <= |s.umem| && s.umem[a..a + len] == packet
      requires s.xDesc[AvailSlot(U32, s, 0)].addr == a && s.xDesc[AvailSlot(U32, s, 0)].len == len
      ensures Committing(U32, s, 1) == [packet]
    {
    }

    /** If every store so far was made with nothing available, all promises of TxInvariant hold of the object: what the
        kernel has read is a prefix of what was committed, what it has in flight is as it was read, and each frame has one
        owner. */
    lemma ObjectSafe()
      requires Valid() && TxInvariant.Safe(start) && Spared()
      ensures TxInvariant.Safe(Twin()) && State() == Narrow(Twin())
      ensures kernel.taken <= sent
      ensures forall i | 0 <= i < |kernel.held| ::
                Bytes(frames[..], kernel.held[i].addr, kernel.held[i].len) == kernel.held[i].packet
      ensures Owned(Twin()) == multiset(FrameAddrs(start.base, start.n))
    {
      hide Run, Step;
      TwinFacts();
      TxSafety(start, trace);
    }
  }
}
