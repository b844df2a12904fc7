/** The promises of the receive socket, as consequences of the invariants of its runs. */
module RxTheorems {
  import opened Words
  import opened Slices
  import opened Umem
  import opened Rings
  import opened RxMachine
  import opened RxInvariant
  import opened RxWrap

  /** The length and address assertions of `mut_bytes_at`. */
  predicate Trips(d: XdpDesc) {
    d.len >= FRAME_SIZE || d.addr + d.len >= UMEM_SIZE
  }

  /** The outcome of `peek_at(i)`. */
  function Peeked(m: Mode, s: Rx, i: nat): Result<Packet>
    requires Shape(s)
  {
    var d := s.xDesc[AvailSlot(m, s, i)];
    if i >= s.avail then Err(InvalidIndex)
    else if Trips(d) then Panicked
    else Ok(PacketOf(s.umem, d))
  }

  /** A packet that fills a frame, or that ends where the UMEM ends. */
  predicate Unpeekable(d: XdpDesc) {
    d.len == FRAME_SIZE || d.addr + d.len == UMEM_SIZE
  }

  /** The whole of it for the state that the program holds.  After any run from the well-formed start on 32-bit
      indices, with the kernel interleaved at will, every frame of the pool has exactly one owner, and the socket is a
      queue: the packets it has given back are a prefix of those delivered, and `peek_at(i)` returns the `i`-th
      delivered packet after them if there is one available, unless that packet is one that `mut_bytes_at` refuses. */
  lemma {:induction false} RxMain(n: nat, base: nat, stale: seq<XdpDesc>, umem: seq<byte>, tr: seq<RxLabel>)
    requires Pooled(n, base, stale, umem) && PowerOfTwo(n)
    ensures var s := WellFormed(n, base, stale, umem);
            var r, w := Run(U32, s, tr), Run(Wide, s, tr);
            && r == Narrow(w) && Counts(w)
            && Owned(w) == multiset(FrameNumbers(base, n))
            && (r.pc.Idle? ==> w.cons + r.avail <= |r.delivered|)
            && (r.pc.Idle? ==>
                  forall i: nat :: Peeked(U32, r, i)
                    == if i >= r.avail then Err(InvalidIndex)
                       else if Unpeekable(At(w.xDesc, w.cons + i)) then Panicked
                       else Ok(r.delivered[w.cons + i]))
  {
    hide Step, Run, PowerOfTwo, Wrap, Slot, Owned, FrameNumbers, PacketOf;
    var s := WellFormed(n, base, stale, umem);
    StartSafe(n, base, stale, umem);
    StartIsNarrow(n, base, stale, umem);
    RunSimulates(s, tr);
    RxSafety(s, tr);
    var r, w := Run(U32, s, tr), Run(Wide, s, tr);
    if r.pc.Idle? {
      forall i: nat | i < r.avail
        ensures Peeked(U32, r, i)
                == if Unpeekable(At(w.xDesc, w.cons + i)) then Panicked else Ok(r.delivered[w.cons + i])
      {
        SameAvailSlot(w, i);
        PeekPanicsExactly(w, i);
        assert PacketOf(w.umem, At(w.xDesc, w.cons + i)) == w.delivered[w.cons + i];
      }
    }
  }

  lemma StartIsNarrow(n: nat, base: nat, stale: seq<XdpDesc>, umem: seq<byte>)
    requires Pooled(n, base, stale, umem)
    ensures Narrow(WellFormed(n, base, stale, umem)) == WellFormed(n, base, stale, umem)
  {
  }

  // ----------------------------------------------------------------------------------------------------------------
  // Peek
  // ----------------------------------------------------------------------------------------------------------------

  /** Peeking at a delivered packet panics exactly when the packet fills a whole frame, or ends where the UMEM ends. */
  lemma {:induction false} PeekPanicsExactly(s: Rx, i: nat)
    requires Safe(s) && s.pc.Idle? && i < s.avail
    ensures var d := s.xDesc[AvailSlot(Wide, s, i)];
            && AvailSlot(Wide, s, i) < FRAME_COUNT
            && d.addr + d.len <= UMEM_SIZE
            && (Trips(d) <==> Unpeekable(d))
  {
    hide Slot, Conserved, PacketOf;
    var d := At(s.xDesc, s.cons + i);
    DeliveredIsPrivate(s, s.cons + i);
    assert InFrame(d) && d.addr == (d.addr / FRAME_SIZE) * FRAME_SIZE + d.addr % FRAME_SIZE;
  }

  function Takes(k: nat): (r: seq<RxLabel>)
    ensures forall i | 0 <= i < |r| :: r[i] == KTake
  {
    if k == 0 then [] else Takes(k - 1) + [KTake]
  }

  /** The start after the kernel has taken the first `k` Fill entries. */
  function Taken(s: Rx, k: nat): (r: Rx)
    requires Shape(s)
    ensures Shape(r) && r.n == s.n
  {
    s.(kFill := k, held := FrameNumbers(s.base, k))
  }

  lemma NextTaken(s: Rx, k: nat)
    requires Shape(s) && k < s.n == s.fProd && s.fDesc == FrameAddrs(s.base, s.n)
    ensures Step(Wide, Taken(s, k), KTake) == Taken(s, k + 1)
  {
    ModUnique(k, s.n, 0, k);
    var f := FrameAddrs(s.base, s.n)[k] / FRAME_SIZE;
    assert f == s.base + k;
    assert FrameNumbers(s.base, k + 1) == FrameNumbers(s.base, k) + [f];
  }

  lemma {:induction false} TakesRun(s: Rx, k: nat)
    requires Shape(s) && k <= s.n == s.fProd && s.fDesc == FrameAddrs(s.base, s.n) && s == Taken(s, 0)
    ensures Run(Wide, s, Takes(k)) == Taken(s, k)
  {
    hide Step, Taken;
    if k > 0 {
      TakesRun(s, k - 1);
      RunSnoc(Wide, s, Takes(k - 1), KTake);
      NextTaken(s, k - 1);
    }
  }

  /** The kernel may deliver any packet in any frame of the pool as the first one; so both kinds of packet that cannot be
      peeked do occur, and each other packet can be read as it was written. */
  lemma {:induction false} AnyDeliveryHappens(n: nat, base: nat, stale: seq<XdpDesc>, umem: seq<byte>,
                                              j: nat, off: nat, packet: Packet)
    requires Pooled(n, base, stale, umem) && j < n && off < FRAME_SIZE && off + |packet| <= FRAME_SIZE
    ensures var r := Run(Wide, WellFormed(n, base, stale, umem),
                         Takes(n) + [KWrite(j, off, packet)] + [KDeliver(j, off, |packet|)] + [KSubmit] + [Seek(1)]);
            && r.pc.Idle? && r.avail == 1 && r.cons == 0 && r.delivered == [packet]
            && Peeked(Wide, r, 0)
               == if |packet| == FRAME_SIZE || (base + j) * FRAME_SIZE + off + |packet| == UMEM_SIZE then Panicked
                  else Ok(packet)
  {
    var s := WellFormed(n, base, stale, umem);
    TakesRun(s, n);
    var a := Takes(n);
    var b := a + [KWrite(j, off, packet)];
    var c := b + [KDeliver(j, off, |packet|)];
    RunSnoc(Wide, s, a, KWrite(j, off, packet));
    RunSnoc(Wide, s, b, KDeliver(j, off, |packet|));
    RunSnoc(Wide, s, c, KSubmit);
    RunSnoc(Wide, s, c + [KSubmit], Seek(1));
    hide Run, Takes, AsBuilt, WellFormed;
    DeliveryFrom(Taken(s, n), j, off, packet);
  }

  lemma DeliveryFrom(t: Rx, j: nat, off: nat, packet: Packet)
    requires Shape(t) && t.pc.Idle? && t.held == FrameNumbers(t.base, t.n) && t.delivered == []
    requires t.kRx == t.xProd == t.cons == 0 && t.avail == 0 && |t.umem| == UMEM_SIZE && t.base + t.n <= FRAME_COUNT
    requires j < t.n && off < FRAME_SIZE && off + |packet| <= FRAME_SIZE
    ensures var u := Step(Wide, Step(Wide, t, KWrite(j, off, packet)), KDeliver(j, off, |packet|));
            var r := Step(Wide, Step(Wide, u, KSubmit), Seek(1));
            && r.pc.Idle? && r.avail == 1 && r.cons == 0 && r.delivered == [packet]
            && Peeked(Wide, r, 0)
               == if |packet| == FRAME_SIZE || (t.base + j) * FRAME_SIZE + off + |packet| == UMEM_SIZE then Panicked
                  else Ok(packet)
  {
    hide PacketOf, Overwrite;
    assert Slot(Wide, t.n, 0) == 0;
    var d := XdpDesc((t.base + j) * FRAME_SIZE + off, |packet|, 0);
    assert t.held[j] == t.base + j;
    OverwriteThere(t.umem, d, packet);
  }

  /** Two peeked packets do not overlap, nor do they overlap a frame the kernel may write. */
  lemma RxSliceSafety(s: Rx, i: nat)
    requires Safe(s) && s.pc.Idle? && i < s.avail
    ensures var d := s.xDesc[AvailSlot(Wide, s, i)];
            && (forall k | s.cons <= k < s.kRx && k != s.cons + i ::
                  Disjoint(d.addr, d.len, At(s.xDesc, k).addr, At(s.xDesc, k).len))
            && (forall j | 0 <= j < |s.held| :: Disjoint(d.addr, d.len, s.held[j] * FRAME_SIZE, FRAME_SIZE))
  {
    hide Slot, Conserved, PacketOf;
    var d := At(s.xDesc, s.cons + i);
    DeliveredIsPrivate(s, s.cons + i);
    assert InFrame(d);
    forall k | s.cons <= k < s.kRx && k != s.cons + i
      ensures Disjoint(d.addr, d.len, At(s.xDesc, k).addr, At(s.xDesc, k).len)
    {
      assert InFrame(At(s.xDesc, k));
    }
  }

  // ----------------------------------------------------------------------------------------------------------------
  // Interleaving
  // ----------------------------------------------------------------------------------------------------------------

  datatype Place = RxSlot(slot: nat) | FillSlot(slot: nat) | Frame(number: nat)

  function Reads(s: Rx, l: RxLabel): set<Place>
    requires Shape(s) && Enabled(Wide, s, l)
  {
    match l
    case Peek(i) => {RxSlot(AvailSlot(Wide, s, i)), Frame(s.xDesc[AvailSlot(Wide, s, i)].addr / FRAME_SIZE)}
    case CommitRead => {RxSlot(Slot(Wide, s.n, s.cons))}
    case KTake => {FillSlot(Slot(Wide, s.n, s.kFill))}
    case _ => {}
  }

  function Writes(s: Rx, l: RxLabel): set<Place>
    requires Shape(s) && Enabled(Wide, s, l)
  {
    match l
    case Peek(i) => {RxSlot(AvailSlot(Wide, s, i))}
    case CommitWrite => {FillSlot(Slot(Wide, s.n, s.prod))}
    case KWrite(j, _, _) => {Frame(s.held[j])}
    case KDeliver(_, _, _) => {RxSlot(Slot(Wide, s.n, s.kRx))}
    case _ => {}
  }

  /** Whenever the socket and the kernel could both move, neither writes a place that the other reads or writes: a Fill
      entry is not overwritten before the kernel has taken it, an RX entry not before it was given back, and the bytes
      of a packet not while it can be peeked. */
  lemma {:induction false} RxRaceFree(s: Rx, l: RxLabel, k: RxLabel)
    requires Safe(s) && !IsKernel(l) && IsKernel(k) && Enabled(Wide, s, l) && Enabled(Wide, s, k)
    ensures Writes(s, l) !! Reads(s, k) + Writes(s, k)
    ensures Writes(s, k) !! Reads(s, l)
  {
    hide Slot, Owned, Faithful;
    match l
    case Peek(i) =>
      if k.KDeliver? {
        SlotsApart(s.n, s.cons + i, s.kRx);
      }
      DeliveredIsPrivate(s, s.cons + i);
    case CommitRead =>
      if k.KDeliver? {
        SlotsApart(s.n, s.cons, s.kRx);
      }
    case CommitWrite =>
      if k.KTake? {
        SlotsApart(s.n, s.kFill, s.prod);
      }
    case _ =>
  }

  /** The one pair of accesses that meet: the store and the load of the RX producer. */
  predicate Meet(l: RxLabel, k: RxLabel) {
    l.Seek? && k.KSubmit?
  }

  /** The two accesses lead to the same state in either order, and neither takes the other away. */
  predicate Commute(s: Rx, l: RxLabel, k: RxLabel)
    requires Shape(s)
  {
    && Step(Wide, Step(Wide, s, l), k) == Step(Wide, Step(Wide, s, k), l)
    && Enabled(Wide, Step(Wide, s, l), k) && Enabled(Wide, Step(Wide, s, k), l)
  }

  /** Any other two accesses that the socket and the kernel could make next commute. */
  lemma {:induction false} RxCommutes(s: Rx, l: RxLabel, k: RxLabel)
    requires Safe(s) && !IsKernel(l) && IsKernel(k) && !Meet(l, k)
    requires Enabled(Wide, s, l) && Enabled(Wide, s, k)
    ensures Commute(s, l, k)
  {
    hide Conserved, Faithful;
    match l
    case Peek(i) =>
      PeekIsSilent(s, i);
      PeekIsSilent(Step(Wide, s, k), i);
      KernelKeepsSide(Wide, s, k);
      hide Step, Slot;
    case CommitRead => LoadCommutes(s, k);
    case CommitWrite => FillCommutes(s, k);
    case _ => OtherCommutes(s, l, k);
  }

  lemma PeekIsSilent(s: Rx, i: nat)
    requires Shape(s)
    ensures Step(Wide, s, Peek(i)) == s
  {
    hide Slot;
    if Enabled(Wide, s, Peek(i)) {
      assert Step(Wide, s, Peek(i)).xDesc == s.xDesc;
    }
  }

  lemma LoadCommutes(s: Rx, k: RxLabel)
    requires Counts(s) && IsKernel(k) && Enabled(Wide, s, CommitRead) && Enabled(Wide, s, k)
    ensures Commute(s, CommitRead, k)
  {
    hide Slot, PacketOf, Overwrite, OwnRegionKept, Without;
    if k.KDeliver? {
      SlotsApart(s.n, s.cons, s.kRx);
    }
  }

  lemma FillCommutes(s: Rx, k: RxLabel)
    requires Counts(s) && IsKernel(k) && Enabled(Wide, s, CommitWrite) && Enabled(Wide, s, k)
    ensures Commute(s, CommitWrite, k)
  {
    hide Slot, PacketOf, Overwrite, OwnRegionKept, Without;
    if k.KTake? {
      SlotsApart(s.n, s.kFill, s.prod);
    }
  }

  lemma OtherCommutes(s: Rx, l: RxLabel, k: RxLabel)
    requires Counts(s) && (l.Seek? || l.CommitStart? || l.StoreConsumer? || l.StoreProducer?) && IsKernel(k)
    requires !Meet(l, k) && Enabled(Wide, s, l) && Enabled(Wide, s, k)
    ensures Commute(s, l, k)
  {
    hide Slot, PacketOf, Overwrite, OwnRegionKept, Without;
  }

  /** Nothing that the kernel or another owner of frames does changes the outcome of peeking at an available packet. */
  lemma {:induction false} PeekStable(s: Rx, k: RxLabel, i: nat)
    requires Safe(s) && s.pc.Idle? && i < s.avail && IsKernel(k)
    ensures Peeked(Wide, Step(Wide, s, k), i) == Peeked(Wide, s, i)
  {
    hide Slot, Conserved, PacketOf, OwnRegionKept, Overwrite, InFrame;
    assert PacketOf(s.umem, At(s.xDesc, s.cons + i)) == s.delivered[s.cons + i];
    DescriptorKept(s, k, s.cons + i);
    SafeStep(s, k);
    KernelKeepsSide(Wide, s, k);
    var r := Step(Wide, s, k);
    assert PacketOf(r.umem, At(r.xDesc, r.cons + i)) == r.delivered[r.cons + i];
  }

  lemma DescriptorKept(s: Rx, k: RxLabel, j: int)
    requires Counts(s) && IsKernel(k) && s.cons <= j < s.kRx
    ensures At(Step(Wide, s, k).xDesc, j) == At(s.xDesc, j)
  {
    hide Slot, PacketOf, Overwrite, OwnRegionKept;
    if k.KDeliver? && Enabled(Wide, s, k) {
      SlotsApart(s.n, j, s.kRx);
    }
  }

  /** The kernel never runs out of RX slots: with a frame to deliver, fewer than `n` entries are unread. */
  lemma KernelHasRoom(s: Rx)
    requires Counts(s) && s.held != []
    ensures Sub(U32, Narrow(s).kRx, Narrow(s).xCons) == s.kRx - s.xCons < s.n
  {
    DistanceExact(s.kRx, s.xCons);
  }
}
