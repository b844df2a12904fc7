/** The receive socket as the program has it: mutable fields, rings and memory in place, 32-bit indices, and the kernel
    as a second agent.  The conventions are those of TxSocket.

    `Socket::new` leaves the object in a state from which the protocol does not work (RxStart); `Valid` describes objects
    that were given a well-formed start. */
module RxSocket {
  import opened Words
  import opened Slices
  import opened Umem
  import opened Rings
  import opened RxMachine
  import opened RxInvariant
  import opened RxWrap
  import opened RxTheorems
  import opened RxCommit

  /** The kernel's private side of the two rings. */
  class Kernel {
    var filled: u32
    var next: u32
    var held: seq<nat>
    ghost var delivered: seq<Packet>

    constructor ()
      ensures filled == 0 && next == 0 && held == [] && delivered == []
    {
      filled, next, held, delivered := 0, 0, [], [];
    }
  }

  class RxSocket {
    const xRing: Ring<XdpDesc>
    const uRing: Ring<nat>
    const frames: array<byte>
    const kernel: Kernel
    var available: u32
    var producer: u32
    var consumer: u32
    const base: nat // the first frame of the pool; only the other owners of frames look at it
    ghost const start: Rx
    ghost var pc: RxPc
    ghost var trace: seq<RxLabel>

    ghost function Repr(): set<object> {
      {this, xRing, xRing.desc, uRing, uRing.desc, frames, kernel}
    }

    ghost function State(): Rx
      reads Repr()
    {
      Rx(xRing.len, base, available, producer, consumer, pc,
         xRing.producer, xRing.consumer, xRing.desc[..], uRing.producer, uRing.consumer, uRing.desc[..],
         kernel.filled, kernel.next, kernel.held, frames[..], kernel.delivered)
    }

    ghost predicate Separate() {
      && xRing as object != uRing
      && xRing.desc as object != uRing.desc && xRing.desc as object != frames && uRing.desc as object != frames
      && xRing.Valid() && uRing.Valid() && xRing.len == uRing.len && PowerOfTwo(xRing.len)
      && frames.Length == UMEM_SIZE && base + xRing.len <= FRAME_COUNT
    }

    ghost predicate GoodStart() {
      Shape(start) && Safe(start) && Narrow(start) == start
    }

    ghost predicate Valid()
      reads Repr()
      ensures Valid() ==> Shape(start)
    {
      Separate() && GoodStart() && State() == Run(U32, start, trace)
    }

    /** The same state in unbounded counters. */
    ghost function Twin(): Rx
      reads this`trace
      requires Shape(start)
    {
      Run(Wide, start, trace)
    }

    lemma TwinFacts()
      requires Valid()
      ensures Safe(Twin()) && State() == Narrow(Twin())
    {
      hide Run, Step, Conserved, Faithful;
      RunSimulates(start, trace);
      RxSafety(start, trace);
    }

    /** `Socket::new`, which treats the receive socket like a transmit socket. */
    constructor (xRing: Ring<XdpDesc>, uRing: Ring<nat>, frames: array<byte>, base: nat)
      requires xRing.Valid() && uRing.Valid() && xRing.len == uRing.len
      requires xRing.producer == xRing.consumer == uRing.consumer == 0 && uRing.producer == uRing.len
      requires uRing.desc[..] == FrameAddrs(base, uRing.len)
      ensures this.xRing == xRing && this.uRing == uRing && this.frames == frames && this.base == base && fresh(kernel)
      ensures State() == AsBuilt(xRing.len, base, xRing.desc[..], frames[..])
    {
      this.xRing, this.uRing, this.frames, this.base := xRing, uRing, frames, base;
      available, producer, consumer := xRing.len, 0, 0;
      kernel := new Kernel();
      pc, trace := Idle, [];
      start := AsBuilt(xRing.len, base, xRing.desc[..], frames[..]);
    }

    /** The start that the protocol needs; not in the program. */
    constructor WellStarted(xRing: Ring<XdpDesc>, uRing: Ring<nat>, frames: array<byte>, base: nat)
      requires xRing.Valid() && uRing.Valid() && xRing.len == uRing.len && PowerOfTwo(xRing.len)
      requires xRing as object != uRing && xRing.desc as object != uRing.desc
      requires xRing.desc as object != frames && uRing.desc as object != frames
      requires frames.Length == UMEM_SIZE && base + xRing.len <= FRAME_COUNT
      requires xRing.producer == xRing.consumer == uRing.consumer == 0 && uRing.producer == uRing.len
      requires uRing.desc[..] == FrameAddrs(base, uRing.len)
      ensures Valid() && trace == [] && fresh(kernel)
      ensures this.xRing == xRing && this.uRing == uRing && this.frames == frames && this.base == base
      ensures start == WellFormed(xRing.len, base, xRing.desc[..], frames[..])
    {
      this.xRing, this.uRing, this.frames, this.base := xRing, uRing, frames, base;
      available, producer, consumer := 0, xRing.len, 0;
      kernel := new Kernel();
      pc, trace := Idle, [];
      start := WellFormed(xRing.len, base, xRing.desc[..], frames[..]);
      new;
      StartSafe(xRing.len, base, xRing.desc[..], frames[..]);
      StartIsNarrow(xRing.len, base, xRing.desc[..], frames[..]);
    }

    /** Records a step that the code has just made. */
    ghost method Did(l: RxLabel, before: Rx)
      requires Separate() && GoodStart()
      requires before == Run(U32, start, trace) && State() == Step(U32, before, l)
      modifies this`trace
      ensures Valid() && trace == old(trace) + [l]
      ensures State() == old(State()) && Twin() == Step(Wide, old(Twin()), l)
    {
      hide Run, Step, Safe, Narrow;
      RunSnoc(U32, start, trace, l);
      RunSnoc(Wide, start, trace, l);
      trace := trace + [l];
    }

    // --------------------------------------------------------------------------------------------------------------
    // The kernel
    // --------------------------------------------------------------------------------------------------------------

    /** Between two states only the kernel has moved: the socket's side is as it was, and every packet that was delivered
        and not given back has its descriptor. */
    twostate predicate KernelOnly()
      reads Repr()
      requires Shape(start)
    {
      && SocketSide(State()) == old(SocketSide(State())) && SocketSide(Twin()) == old(SocketSide(Twin()))
      && old(Twin()).xProd <= Twin().xProd && old(Twin()).kRx <= Twin().kRx
      && old(kernel.delivered) <= kernel.delivered
      && old(Twin()).delivered <= Twin().delivered
      && (forall k | old(Twin()).cons <= k < old(Twin()).kRx :: At(Twin().xDesc, k) == At(old(Twin()).xDesc, k))
    }

    method TakeNext()
      requires Separate() && kernel.filled != uRing.producer
      modifies kernel
      ensures State() == Step(U32, old(State()), KTake)
    {
      SlotIsMasked(uRing.len, kernel.filled);
      hide Slot, BitAnd, Wrap;
      kernel.held := kernel.held + [uRing.desc[BitAnd(kernel.filled, uRing.modMask)] / FRAME_SIZE];
      kernel.filled := Add(U32, kernel.filled, 1);
      assert State() == Take(U32, old(State()));
    }

    method Deliver(j: nat, off: nat, len: nat)
      requires Separate() && j < |kernel.held| && off < FRAME_SIZE && off + len <= FRAME_SIZE
      modifies kernel, xRing.desc
      ensures State() == Step(U32, old(State()), KDeliver(j, off, len))
    {
      SlotIsMasked(xRing.len, kernel.next);
      hide Slot, BitAnd, Wrap;
      var d := XdpDesc(kernel.held[j] * FRAME_SIZE + off, len, 0);
      xRing.desc[BitAnd(kernel.next, xRing.modMask)] := d;
      kernel.delivered := kernel.delivered + [PacketOf(frames[..], d)];
      kernel.next := Add(U32, kernel.next, 1);
      kernel.held := Without(kernel.held, j);
      assert State() == Delivered(U32, old(State()), j, off, len);
    }

    method WriteByte(j: nat, off: nat, b: byte)
      requires Separate() && j < |kernel.held| && off < FRAME_SIZE
      requires kernel.held[j] * FRAME_SIZE + FRAME_SIZE <= UMEM_SIZE
      modifies frames
      ensures State() == Step(U32, old(State()), KWrite(j, off, [b]))
    {
      frames[kernel.held[j] * FRAME_SIZE + off] := b;
      assert frames[..] == Overwrite(old(frames[..]), kernel.held[j] * FRAME_SIZE + off, [b]);
      assert State() == KernelWrote(old(State()), j, off, [b]);
    }

    method KernelTakes()
      requires Valid()
      modifies Repr()
      ensures Valid() && KernelOnly()
    {
      hide Run, Step, Safe, Narrow;
      if kernel.filled != uRing.producer {
        ghost var before, twin := State(), Twin();
        TwinFacts();
        TakeNext();
        KernelDid(KTake, before, twin);
      }
    }

    method KernelDelivers(j: nat, off: nat, len: nat)
      requires Valid()
      modifies Repr()
      ensures Valid() && KernelOnly()
    {
      hide Run, Step, Safe, Narrow;
      if j < |kernel.held| && off < FRAME_SIZE && off + len <= FRAME_SIZE {
        ghost var before, twin := State(), Twin();
        TwinFacts();
        Deliver(j, off, len);
        KernelDid(KDeliver(j, off, len), before, twin);
      }
    }

    method KernelWrites(j: nat, off: nat, b: byte)
      requires Valid()
      modifies Repr()
      ensures Valid() && KernelOnly()
    {
      hide Run, Step, Narrow;
      if j < |kernel.held| && off < FRAME_SIZE {
        ghost var before, twin := State(), Twin();
        TwinFacts();
        assert twin.held == kernel.held by { assert before == Narrow(twin); HeldAsWords(twin, before); }
        HeldIsOwn(twin, j);
        hide Safe;
        WriteByte(j, off, b);
        KernelDid(KWrite(j, off, [b]), before, twin);
      }
    }

    lemma HeldAsWords(t: Rx, s: Rx)
      requires s == Narrow(t)
      ensures s.held == t.held && s.base == t.base && s.n == t.n && s.umem == t.umem && s.delivered == t.delivered
      ensures s.xDesc == t.xDesc && s.avail == t.avail && s.pc == t.pc
      ensures s.cons == Wrap(t.cons) && s.xProd == Wrap(t.xProd) && s.prod == Wrap(t.prod)
    {
    }

    method KernelReleases()
      requires Valid()
      modifies Repr()
      ensures Valid() && KernelOnly()
    {
      hide Run, Safe, Narrow;
      ghost var before, twin := State(), Twin();
      TwinFacts();
      uRing.UpdateConsumer(kernel.filled);
      assert State() == Step(U32, before, KRelease);
      hide Step;
      KernelDid(KRelease, before, twin);
    }

    method KernelSubmits()
      requires Valid()
      modifies Repr()
      ensures Valid() && KernelOnly()
    {
      hide Run, Safe, Narrow;
      ghost var before, twin := State(), Twin();
      TwinFacts();
      xRing.UpdateProducer(kernel.next);
      assert State() == Step(U32, before, KSubmit);
      hide Step;
      KernelDid(KSubmit, before, twin);
    }

    /** Another owner of UMEM frames writes a byte of his. */
    method OthersWrite(k: nat, b: byte)
      requires Valid()
      modifies Repr()
      ensures Valid() && KernelOnly()
    {
      hide Run, Safe, Narrow;
      if k < frames.Length && !(base * FRAME_SIZE <= k < (base + xRing.len) * FRAME_SIZE) {
        ghost var before, twin := State(), Twin();
        TwinFacts();
        frames[k] := b;
        ByteOutside(before.umem, k, b, base, xRing.len);
        assert frames[..] == before.umem[k := b];
        hide Step;
        OthersMoved(before, twin);
      }
    }

    /** Records that other owners have written frames of theirs, such as another socket over the same memory. */
    ghost method OthersMoved(before: Rx, twin: Rx)
      requires Separate() && GoodStart()
      requires before == Run(U32, start, trace) && State() == before.(umem := frames[..])
      requires OwnRegionKept(base, xRing.len, before.umem, frames[..])
      requires twin == Twin() && Safe(twin)
      modifies this`trace
      ensures Valid() && State() == old(State())
      ensures SocketSide(State()) == SocketSide(before) && SocketSide(Twin()) == SocketSide(twin)
      ensures twin.xProd <= Twin().xProd && twin.kRx <= Twin().kRx
      ensures before.delivered <= State().delivered && twin.delivered <= Twin().delivered
      ensures forall k | twin.cons <= k < twin.kRx :: At(Twin().xDesc, k) == At(twin.xDesc, k)
    {
      hide Run, Safe, Narrow, OwnRegionKept;
      assert State() == Step(U32, before, External(frames[..]));
      hide Step;
      KernelDid(External(frames[..]), before, twin);
    }

    /** Records a kernel step; the socket's side stays as it was, on words and on counters. */
    ghost method KernelDid(l: RxLabel, before: Rx, twin: Rx)
      requires Separate() && GoodStart() && IsKernel(l)
      requires before == Run(U32, start, trace) && State() == Step(U32, before, l)
      requires twin == Twin() && Safe(twin)
      modifies this`trace
      ensures Valid() && State() == old(State())
      ensures SocketSide(State()) == SocketSide(before) && SocketSide(Twin()) == SocketSide(twin)
      ensures twin.xProd <= Twin().xProd && twin.kRx <= Twin().kRx
      ensures before.delivered <= State().delivered && twin.delivered <= Twin().delivered
      ensures forall k | twin.cons <= k < twin.kRx :: At(Twin().xDesc, k) == At(twin.xDesc, k)
    {
      hide Run, Narrow, Valid, GoodStart, Conserved, Faithful;
      KernelKeepsSide(U32, before, l);
      KernelKeepsSide(Wide, twin, l);
      DeliveredKept(twin, l);
      hide Step, Counts;
      Did(l, before);
    }

    lemma DeliveredKept(t: Rx, l: RxLabel)
      requires Counts(t) && IsKernel(l)
      ensures var r := Step(Wide, t, l);
              && t.xProd <= r.xProd && t.kRx <= r.kRx
              && forall k | t.cons <= k < t.kRx :: At(r.xDesc, k) == At(t.xDesc, k)
    {
      hide Slot, PacketOf, Overwrite, OwnRegionKept;
      if l.KDeliver? && Enabled(Wide, t, l) {
        forall k | t.cons <= k < t.kRx
          ensures At(Step(Wide, t, l).xDesc, k) == At(t.xDesc, k)
        {
          SlotsApart(t.n, k, t.kRx);
        }
      }
    }

    /** The kernel, and the owners of other frames, take any number of steps. */
    method Interfere()
      requires Valid()
      modifies Repr()
      ensures Valid() && KernelOnly()
    {
      hide Valid, Run, Step, Slot;
      var steps: nat := *;
      while steps > 0
        invariant Valid() && KernelOnly()
        decreases steps
      {
        var j: nat, off: nat, len: nat := *, *, *;
        var b: byte := *;
        if {
          case true => KernelTakes();
          case true => KernelReleases();
          case true => KernelWrites(j, off, b);
          case true => KernelDelivers(j, off, len);
          case true => KernelSubmits();
          case true => OthersWrite(j, b);
        }
        steps := steps - 1;
      }
    }

    // --------------------------------------------------------------------------------------------------------------
    // seek and peek
    // --------------------------------------------------------------------------------------------------------------

    /** Packets that are published and not given back. */
    ghost function Published(): int
      requires Shape(start)
      reads this`trace
    {
      Twin().xProd - Twin().cons
    }

    /** `seek_`.  With `published` the number of packets that are published and not given back at the moment of the load,
        the call returns `min(count, published)`, and it fails exactly when packets are missing and none is published;
        then the socket is as before.  A count of 2^32 or more is truncated in the result. */
    method Seek_(count: nat) returns (r: Result<nat>, ghost published: nat)
      requires Valid() && pc.Idle?
      modifies Repr()
      ensures Valid() && pc.Idle?
      ensures old(Published()) <= published == Published() <= xRing.len && old(available) <= published
      ensures r == if count <= old(available) then Ok(count)
                   else if published == 0 then Err(RingEmpty)
                   else Ok(Min(published, Wrap(count)))
      ensures available == if count <= old(available) then old(available) else published
      ensures SocketSide(State()) == old(SocketSide(State())).(avail := available)
    {
      hide Run, Step, Conserved, Faithful;
      TwinFacts();
      if available >= count {
        ghost var before := State();
        SoughtWords(before, count);
        SoughtWide(Twin(), before, count);
        Did(Seek(count), before);
        published := Published();
        return Ok(count), published;
      }
      Interfere();
      ghost var before, twin := State(), Twin();
      TwinFacts();
      var xProducer := xRing.producer;
      SoughtWords(before, count);
      SoughtWide(twin, before, count);
      published := twin.xProd - twin.cons;
      if xProducer == consumer {
        Did(Seek(count), before);
        return Err(RingEmpty), published;
      }
      available := Sub(U32, xProducer, consumer);
      Did(Seek(count), before);
      r := Ok(Min(available, Wrap(count)));
    }

    lemma SoughtWords(s: Rx, count: nat)
      requires Shape(s) && s.pc.Idle?
      ensures Step(U32, s, Seek(count)) == Sought(U32, s, count)
    {
    }

    lemma SoughtWide(t: Rx, s: Rx, count: nat)
      requires Counts(t) && s == Narrow(t) && s.pc.Idle?
      ensures Step(Wide, t, Seek(count)) == Sought(Wide, t, count)
      ensures s.xProd == s.cons <==> t.xProd == t.cons
      ensures Sub(U32, s.xProd, s.cons) == t.xProd - t.cons <= t.n && s.avail == t.avail <= t.xProd - t.cons
    {
      DistanceExact(t.xProd, t.cons);
    }

    /** `peek_`: the bytes of the `index`-th packet that was delivered and not given back.  The kernel may run between the
        load of the descriptor and the use of it in `mut_bytes_at`. */
    method Peek_(index: nat) returns (r: Result<Packet>)
      requires Valid() && pc.Idle?
      modifies Repr()
      ensures Valid() && KernelOnly()
      ensures index >= old(available) ==> r == Err(InvalidIndex)
      ensures index < old(available) ==>
                var o := old(Twin());
                && 0 <= o.cons && o.cons + index < |o.delivered|
                && r == (if Trips(At(o.xDesc, o.cons + index)) then Panicked else Ok(o.delivered[o.cons + index]))
    {
      hide Run, Step, Conserved;
      if index >= available {
        return Err(InvalidIndex);
      }
      ghost var o := Twin();
      TwinFacts();
      HeldAsWords(o, State());
      Interfere();
      DescriptorThere(o, index);
      var xHead := BitAnd(Add(U32, consumer, index), xRing.modMask);
      var len := xRing.desc[xHead].len;
      Interfere();
      DescriptorThere(o, index);
      r := PeekBytes(index, xHead, len);
    }

    /** The descriptor of a packet that was available in state `o`, as the ring shows it now. */
    lemma DescriptorThere(o: Rx, index: nat)
      requires Valid() && pc.Idle? && Counts(o) && Shape(Twin()) && SocketSide(Twin()) == SocketSide(o)
      requires o.pc.Idle? && index < o.avail && o.n == xRing.len && o.delivered <= Twin().delivered
      requires forall k | o.cons <= k < o.kRx :: At(Twin().xDesc, k) == At(o.xDesc, k)
      ensures var slot := BitAnd(Add(U32, consumer, index), xRing.modMask);
              && slot < xRing.len && xRing.desc[slot] == At(o.xDesc, o.cons + index)
              && InFrame(xRing.desc[slot])
              && PacketOf(frames[..], xRing.desc[slot]) == o.delivered[o.cons + index]
    {
      hide Run, Step, Slot, Conserved, PacketOf, InFrame;
      TwinFacts();
      HeldAsWords(Twin(), State());
      SameAvailSlot(Twin(), index);
      AvailableSlot(index);
      var d := At(Twin().xDesc, o.cons + index);
      assert InFrame(d) && PacketOf(Twin().umem, d) == Twin().delivered[o.cons + index];
    }

    lemma AvailableSlot(index: nat)
      requires Separate()
      ensures BitAnd(Add(U32, consumer, index), xRing.modMask) == Slot(U32, xRing.len, consumer + index) < xRing.len
    {
    }

    /** `mut_bytes_at` on a descriptor with its own length. */
    method PeekBytes(index: nat, xHead: nat, len: nat) returns (r: Result<Packet>)
      requires Valid() && pc.Idle? && xHead < xRing.len && xRing.desc[xHead].len == len && InFrame(xRing.desc[xHead])
      modifies xRing.desc
      ensures Valid() && State() == old(State())
      ensures r == (if Trips(xRing.desc[xHead]) then Panicked else Ok(PacketOf(frames[..], xRing.desc[xHead])))
    {
      hide Run, Step, Safe, Narrow;
      ghost var before := State();
      var b := MutBytesAt(xRing, xHead, len);
      assert xRing.desc[..] == before.xDesc;
      assert State() == before;
      if !b.Ok? {
        return Panicked;
      }
      r := Ok(frames[b.value..b.value + len]);
    }

    /** `seek_and_peek`: an error of either call is passed on; otherwise the oldest packet not given back. */
    method SeekAndPeek() returns (r: Result<Packet>, ghost published: nat)
      requires Valid() && pc.Idle?
      modifies Repr()
      ensures Valid() && pc.Idle? && SocketSide(State()) == old(SocketSide(State())).(avail := available)
      ensures old(Published()) <= published <= xRing.len && old(available) <= published
      ensures available == if 0 < old(available) then old(available) else published
      ensures available == 0 ==> r == Err(RingEmpty)
      ensures available > 0 ==>
                var t := Twin();
                && 0 <= t.cons < |t.delivered|
                && r == (if Trips(At(t.xDesc, t.cons)) then Panicked else Ok(t.delivered[t.cons]))
    {
      hide Run, Step, Safe, Narrow;
      var s;
      s, published := Seek_(1);
      if s.Err? {
        return Err(s.error), published;
      }
      ghost var o := Twin();
      FrontThere();
      r := Peek_(0);
      assert At(Twin().xDesc, o.cons + 0) == At(o.xDesc, o.cons + 0);
    }

    lemma FrontThere()
      requires Valid() && pc.Idle? && available > 0
      ensures Counts(Twin()) && Twin().cons < Twin().kRx == |Twin().delivered|
    {
      hide Run, Step, Conserved, Faithful;
      TwinFacts();
      HeldAsWords(Twin(), State());
    }

    // --------------------------------------------------------------------------------------------------------------
    // commit
    // --------------------------------------------------------------------------------------------------------------

    method LoadAddress() returns (addr: nat)
      requires Separate() && pc.Moving?
      modifies this`pc
      ensures State() == Step(U32, old(State()), CommitRead)
      ensures pc == Carrying(old(pc).count, old(pc).left, addr)
    {
      SlotIsMasked(xRing.len, consumer);
      hide Slot, BitAnd, Wrap;
      addr := xRing.desc[BitAnd(consumer, xRing.modMask)].addr;
      pc := Carrying(pc.count, pc.left, addr);
      assert State() == Read(U32, old(State()));
    }

    method StoreAddress(addr: nat)
      requires Separate() && pc.Carrying? && pc.addr == addr && pc.left > 0
      modifies this`pc, this`consumer, this`producer, uRing.desc
      ensures State() == Step(U32, old(State()), CommitWrite)
    {
      SlotIsMasked(xRing.len, producer);
      hide Slot, BitAnd, Wrap;
      uRing.desc[BitAnd(producer, xRing.modMask)] := addr;
      consumer := Add(U32, consumer, 1);
      producer := Add(U32, producer, 1);
      pc := if pc.left == 1 then Releasing(pc.count) else Moving(pc.count, pc.left - 1);
      assert State() == Moved(U32, old(State()));
    }

    /** The waiting packets of state `o` that are still waiting have their descriptors. */
    ghost predicate WaitingKept(o: Rx, t: Rx) {
      Shape(o) && Shape(t) && o.n == t.n && o.kRx <= t.kRx
      && forall k | o.cons <= t.cons <= k < o.kRx :: At(t.xDesc, k) == At(o.xDesc, k)
    }

    method LoadNext() returns (addr: nat)
      requires Valid() && pc.Moving?
      modifies Repr()
      ensures Valid() && pc.Carrying? && pc.addr == addr
      ensures var o, t := old(Twin()), Twin();
              o.pc.Moving? && SocketSide(t) == SocketSide(Read(Wide, o)) && WaitingKept(o, t)
    {
      hide Run, Step, Conserved, Faithful, Slot;
      ghost var o := Twin();
      TwinFacts();
      HeldAsWords(o, State());
      Interfere();
      ghost var before, twin := State(), Twin();
      TwinFacts();
      addr := LoadAddress();
      Did(CommitRead, before);
      ReadSide(o, twin);
    }

    lemma ReadSide(o: Rx, t: Rx)
      requires Counts(o) && Counts(t) && o.pc.Moving? && SocketSide(t) == SocketSide(o) && o.n == t.n
      requires o.kRx <= t.kRx && forall k | o.cons <= k < o.kRx :: At(t.xDesc, k) == At(o.xDesc, k)
      ensures SocketSide(Step(Wide, t, CommitRead)) == SocketSide(Read(Wide, o))
      ensures WaitingKept(o, Step(Wide, t, CommitRead))
    {
      hide Slot;
      assert At(t.xDesc, o.cons) == At(o.xDesc, o.cons);
    }

    method StoreNext(addr: nat)
      requires Valid() && pc.Carrying? && pc.addr == addr
      modifies Repr()
      ensures Valid()
      ensures var o, t := old(Twin()), Twin();
              o.pc.Carrying? && o.pc.left > 0 && SocketSide(t) == SocketSide(Moved(Wide, o)) && WaitingKept(o, t)
    {
      hide Run, Step, Conserved, Faithful, Slot;
      ghost var o := Twin();
      TwinFacts();
      HeldAsWords(o, State());
      Interfere();
      ghost var before, twin := State(), Twin();
      StoreAddress(addr);
      Did(CommitWrite, before);
      MovedSide(o, twin);
    }

    lemma MovedSide(o: Rx, t: Rx)
      requires Shape(o) && Shape(t) && o.pc.Carrying? && o.pc.left > 0 && SocketSide(t) == SocketSide(o) && o.n == t.n
      requires o.kRx <= t.kRx && forall k | o.cons <= k < o.kRx :: At(t.xDesc, k) == At(o.xDesc, k)
      ensures SocketSide(Step(Wide, t, CommitWrite)) == SocketSide(Moved(Wide, o))
      ensures WaitingKept(o, Step(Wide, t, CommitWrite))
    {
      hide Slot;
    }

    /** One turn of the loop, with the kernel free to run before each access. */
    method MoveOne()
      requires Valid() && pc.Moving?
      modifies Repr()
      ensures Valid()
      ensures var o, t := old(Twin()), Twin();
              && o.pc.Moving? && o.pc.left > 0
              && SocketSide(t) == SocketSide(Moved(Wide, Read(Wide, o))) && WaitingKept(o, t)
    {
      hide Run, Step, Valid, Slot;
      ghost var o := Twin();
      var addr := LoadNext();
      ghost var m := Twin();
      StoreNext(addr);
      SameMove(Read(Wide, o), m);
    }

    lemma SameMove(p: Rx, q: Rx)
      requires Shape(p) && Shape(q) && p.n == q.n && SocketSide(p) == SocketSide(q) && p.pc.Carrying? && p.pc.left > 0
      ensures SocketSide(Moved(Wide, p)) == SocketSide(Moved(Wide, q))
    {
    }

    /** A turn from the middle of the loop leads to the next middle, whatever the kernel has delivered meanwhile. */
    lemma NextMidway(o: Rx, c: nat, j: nat, t: Rx, r: Rx)
      requires Counts(o) && j < c <= o.avail && o.cons + o.avail <= o.xProd && t.pc.Moving? && t.pc.left > 0
      requires WaitingKept(o, t) && SocketSide(t) == SocketSide(Midway(Wide, o, c, j))
      requires WaitingKept(t, r) && SocketSide(r) == SocketSide(Moved(Wide, Read(Wide, t)))
      ensures WaitingKept(o, r) && SocketSide(r) == SocketSide(Midway(Wide, o, c, j + 1))
    {
      hide Slot;
      TurnsKeep(Wide, o, j);
      MidwayNext(Wide, o, c, j + 1);
      assert At(t.xDesc, t.cons) == At(o.xDesc, o.cons + j);
      SameMove(Read(Wide, t), Read(Wide, Midway(Wide, o, c, j)));
    }

    /** The loop of `commit_`. */
    method MoveAll(c: nat, ghost o: Rx)
      requires Valid() && Counts(o) && o.pc.Idle? && c <= o.avail
      requires WaitingKept(o, Twin()) && SocketSide(Twin()) == SocketSide(Midway(Wide, o, c, 0))
      modifies Repr()
      ensures Valid() && WaitingKept(o, Twin()) && SocketSide(Twin()) == SocketSide(Midway(Wide, o, c, c))
      ensures pc == Releasing(c)
    {
      hide Run, Step, Turns, Moved, Read, Slot, Conserved, Faithful;
      for j := 0 to c
        invariant Valid() && WaitingKept(o, Twin()) && SocketSide(Twin()) == SocketSide(Midway(Wide, o, c, j))
      {
        ghost var t := Twin();
        TwinFacts();
        HeldAsWords(t, State());
        assert pc.Moving?;
        MoveOne();
        NextMidway(o, c, j, t, Twin());
      }
      TwinFacts();
      HeldAsWords(Twin(), State());
    }

    method ReleaseAll(c: nat)
      requires Valid() && pc == Releasing(c)
      modifies Repr()
      ensures Valid() && pc.Refilling?
      ensures var o, t := old(Twin()), Twin();
              o.pc.Releasing? && SocketSide(t) == SocketSide(o.(avail := o.avail - c, xCons := o.cons, pc := Refilling))
    {
      hide Run, Step, Conserved, Faithful, Slot;
      ghost var o := Twin();
      TwinFacts();
      HeldAsWords(o, State());
      Interfere();
      ghost var before, twin := State(), Twin();
      TwinFacts();
      HeldAsWords(twin, before);
      assert c <= available;
      available := available - c;
      xRing.UpdateConsumer(consumer);
      pc := Refilling;
      FinishWords(before);
      FinishWords(twin);
      Did(StoreConsumer, before);
    }

    method PublishAll()
      requires Valid() && pc.Refilling?
      modifies Repr()
      ensures Valid() && pc.Idle?
      ensures var o, t := old(Twin()), Twin();
              o.pc.Refilling? && SocketSide(t) == SocketSide(o.(fProd := o.prod, pc := Idle))
    {
      hide Run, Step, Conserved, Faithful, Slot;
      ghost var o := Twin();
      TwinFacts();
      HeldAsWords(o, State());
      Interfere();
      ghost var before, twin := State(), Twin();
      uRing.UpdateProducer(producer);
      pc := Idle;
      FinishWords(before);
      FinishWords(twin);
      Did(StoreProducer, before);
    }

    lemma FinishWords(s: Rx)
      requires Shape(s)
      ensures forall m :: s.pc.Releasing? ==>
                Step(m, s, StoreConsumer) == s.(avail := s.avail - s.pc.count, xCons := s.cons, pc := Refilling)
      ensures forall m :: s.pc.Refilling? ==> Step(m, s, StoreProducer) == s.(fProd := s.prod, pc := Idle)
    {
    }

    /** `commit_`.  On success the socket's side, the Fill ring included, is what `count as u32` undisturbed turns make of
        the state at the call, although the kernel may take, fill and deliver frames at every access. */
    method Commit_(count: nat) returns (r: Result<()>)
      requires Valid() && pc.Idle?
      modifies Repr()
      ensures Valid() && pc.Idle?
      ensures r == if old(available) < Wrap(count) then Err(NotAvailable) else Ok(())
      ensures r.Err? ==> State() == old(State()) && trace == old(trace)
      ensures r.Ok? ==> SocketSide(Twin()) == SocketSide(GivenBack(Wide, old(Twin()), Wrap(count)))
    {
      hide Run, Step, Conserved, Faithful, Slot, Turns;
      if available < Wrap(count) {
        return Err(NotAvailable);
      }
      ghost var o := Twin();
      TwinFacts();
      HeldAsWords(o, State());
      var c := Wrap(count);
      ghost var before := State();
      pc := if c == 0 then Releasing(0) else Moving(c, c);
      StartedStep(before, count);
      StartedStep(o, count);
      Did(CommitStart(count), before);
      MidwayStarts(o, c);
      MoveAll(c, o);
      ReleaseAll(c);
      PublishAll();
      TurnsKeep(Wide, o, c);
      r := Ok(());
    }

    lemma StartedStep(s: Rx, count: nat)
      requires Shape(s) && s.pc.Idle? && Wrap(count) <= s.avail
      ensures forall m :: Step(m, s, CommitStart(count)) == Started(s, Wrap(count))
    {
    }

    lemma MidwayStarts(o: Rx, c: nat)
      requires Shape(o)
      ensures Started(o, c) == Midway(Wide, o, c, 0) && WaitingKept(o, Started(o, c))
    {
    }
  }
}
