/** What every run of the receive protocol from its well-formed start keeps, in unbounded counters. */
module RxInvariant {
  import opened Words
  import opened Slices
  import opened Umem
  import opened RxMachine

  // ----------------------------------------------------------------------------------------------------------------
  // Counting
  // ----------------------------------------------------------------------------------------------------------------

  /** How many descriptors the running `commit_` has moved. */
  function MovedSoFar(s: Rx): int {
    match s.pc
    case Moving(count, left) => count - left
    case Carrying(count, left, _) => count - left
    case Releasing(count) => count
    case _ => 0
  }

  /** The order of all indices; the private Fill producer stays one whole ring ahead of the RX consumer. */
  predicate Counts(s: Rx) {
    && Shape(s) && s.n <= FRAME_COUNT
    && 0 <= s.xCons <= s.cons <= s.xProd <= s.kRx <= s.kFill <= s.fProd <= s.prod == s.cons + s.n
    && 0 <= s.fCons <= s.kFill
    && |s.held| == s.kFill - s.kRx && |s.delivered| == s.kRx
    && 0 <= s.avail && s.cons - MovedSoFar(s) + s.avail <= s.xProd
    && s.fProd <= s.xCons + s.n
    && (s.pc.Moving? || s.pc.Carrying? ==> 0 < s.pc.left <= s.pc.count <= s.avail)
    && (s.pc.Releasing? ==> s.pc.count <= s.avail)
    && (s.pc.Idle? ==> s.xCons == s.cons && s.fProd == s.prod)
    && (s.pc.Refilling? ==> s.xCons == s.cons)
    && (s.pc.Carrying? ==> s.pc.addr == At(s.xDesc, s.cons).addr)
  }

  lemma StepCounts(s: Rx, l: RxLabel)
    requires Counts(s)
    ensures Counts(Step(Wide, s, l))
  {
    hide Slot, Overwrite, OwnRegionKept, PacketOf;
    if l.KDeliver? && s.pc.Carrying? && Enabled(Wide, s, l) {
      SlotsApart(s.n, s.cons, s.kRx);
    }
  }

  // ----------------------------------------------------------------------------------------------------------------
  // Conservation: every frame has exactly one owner
  // ----------------------------------------------------------------------------------------------------------------

  function DescFrames(d: seq<XdpDesc>): (r: seq<nat>)
    ensures |r| == |d|
  {
    seq(|d|, i requires 0 <= i < |d| => d[i].addr / FRAME_SIZE)
  }

  function AddrFrames(d: seq<nat>): (r: seq<nat>)
    ensures |r| == |d|
  {
    seq(|d|, i requires 0 <= i < |d| => d[i] / FRAME_SIZE)
  }

  /** The Fill entries that the kernel has not taken, published or not. */
  function FillWindow(s: Rx): seq<nat>
    requires Counts(s)
  {
    Slice(AddrFrames(s.fDesc), s.kFill, s.prod - s.kFill)
  }

  /** The packets delivered and not yet given back, published or not. */
  function RxWindow(s: Rx): seq<nat>
    requires Counts(s)
  {
    Slice(DescFrames(s.xDesc), s.cons, s.kRx - s.cons)
  }

  /** All frames that some party owns: in the Fill ring, in the kernel's hands, and in the RX ring. */
  function Owned(s: Rx): multiset<nat>
    requires Counts(s)
  {
    Pool(FillWindow(s), [], s.held, RxWindow(s))
  }

  predicate Conserved(s: Rx)
    requires Counts(s)
  {
    Owned(s) == multiset(FrameNumbers(s.base, s.n))
  }

  lemma TakeMoves(s: Rx)
    requires Counts(s) && s.kFill < s.fProd && Counts(Take(Wide, s))
    ensures Owned(Take(Wide, s)) == Owned(s)
  {
    hide Pool, Slot;
    var f := At(AddrFrames(s.fDesc), s.kFill);
    SliceHead(AddrFrames(s.fDesc), s.kFill, s.prod - s.kFill);
    PoolKeeps(FillWindow(Take(Wide, s)), [], s.held, RxWindow(s), f);
  }

  lemma DeliverMoves(s: Rx, j: nat, off: nat, len: nat)
    requires Counts(s) && j < |s.held| && off + len <= FRAME_SIZE && off < FRAME_SIZE
    requires Counts(Delivered(Wide, s, j, off, len))
    ensures Owned(Delivered(Wide, s, j, off, len)) == Owned(s)
  {
    hide Pool, Slot;
    var s' := Delivered(Wide, s, j, off, len);
    SlicePush(DescFrames(s.xDesc), s.cons, s.kRx - s.cons, s.held[j]);
    assert (s.held[j] * FRAME_SIZE + off) / FRAME_SIZE == s.held[j];
    assert DescFrames(s'.xDesc) == DescFrames(s.xDesc)[Slot(Wide, s.n, s.kRx) := s.held[j]];
    PoolKeepsAny(FillWindow(s), [], s.held, RxWindow(s), j);
  }

  lemma MoveMoves(s: Rx)
    requires Counts(s) && s.pc.Carrying? && Counts(Moved(Wide, s))
    ensures Owned(Moved(Wide, s)) == Owned(s)
  {
    hide Pool, Slot;
    var s' := Moved(Wide, s);
    var f := At(DescFrames(s.xDesc), s.cons);
    SliceHead(DescFrames(s.xDesc), s.cons, s.kRx - s.cons);
    SlicePush(AddrFrames(s.fDesc), s.kFill, s.prod - s.kFill, f);
    assert AddrFrames(s'.fDesc) == AddrFrames(s.fDesc)[Slot(Wide, s.n, s.prod) := f];
    assert [] + [f] == [f];
    PoolKeeps(FillWindow(s), [], s.held, RxWindow(s'), f);
  }

  lemma StepConserved(s: Rx, l: RxLabel)
    requires Counts(s)
    ensures Counts(Step(Wide, s, l)) && Owned(Step(Wide, s, l)) == Owned(s)
  {
    hide Pool, Slot, Overwrite, OwnRegionKept, PacketOf;
    StepCounts(s, l);
    if Enabled(Wide, s, l) {
      match l
      case CommitWrite => MoveMoves(s);
      case KTake => TakeMoves(s);
      case KDeliver(j, off, len) => DeliverMoves(s, j, off, len);
      case Peek(i) => assert Step(Wide, s, l).xDesc == s.xDesc;
      case _ =>
    }
  }

  function Owners(s: Rx): seq<nat>
    requires Counts(s)
  {
    FillWindow(s) + [] + s.held + RxWindow(s)
  }

  lemma OwnersDiffer(s: Rx)
    requires Counts(s) && Conserved(s)
    ensures NoDuplicates(Owners(s)) && |Owners(s)| == s.n
    ensures forall f | f in Owners(s) :: s.base <= f < s.base + s.n
  {
    forall f: nat
      ensures Owned(s)[f] <= 1 && (f in Owners(s) ==> s.base <= f < s.base + s.n)
    {
      NumberListedOnce(s.base, s.n, f);
      assert f in Owners(s) ==> f in Owned(s);
    }
    PoolDistinct(FillWindow(s), [], s.held, RxWindow(s));
  }

  lemma RxOwner(s: Rx, k: int)
    requires Counts(s) && s.cons <= k < s.kRx
    ensures Owners(s)[|FillWindow(s)| + |s.held| + (k - s.cons)] == At(s.xDesc, k).addr / FRAME_SIZE
  {
    hide Slot, FillWindow;
    var w := RxWindow(s);
    assert w[k - s.cons] == At(DescFrames(s.xDesc), k);
  }

  lemma KernelOwner(s: Rx, j: nat)
    requires Counts(s) && j < |s.held|
    ensures Owners(s)[|FillWindow(s)| + j] == s.held[j]
  {
  }

  /** A delivered packet lies in a frame of the pool that the kernel does not hold any more. */
  lemma DeliveredIsPrivate(s: Rx, k: int)
    requires Counts(s) && Conserved(s) && s.cons <= k < s.kRx
    ensures s.base <= At(s.xDesc, k).addr / FRAME_SIZE < s.base + s.n
    ensures forall j | 0 <= j < |s.held| :: s.held[j] != At(s.xDesc, k).addr / FRAME_SIZE
    ensures forall i | s.cons <= i < s.kRx && i != k ::
              At(s.xDesc, i).addr / FRAME_SIZE != At(s.xDesc, k).addr / FRAME_SIZE
  {
    hide Slot, Conserved;
    OwnersDiffer(s);
    RxOwner(s, k);
    assert Owners(s)[|FillWindow(s)| + |s.held| + (k - s.cons)] in Owners(s);
    forall j | 0 <= j < |s.held|
      ensures s.held[j] != At(s.xDesc, k).addr / FRAME_SIZE
    {
      KernelOwner(s, j);
    }
    forall i | s.cons <= i < s.kRx && i != k
      ensures At(s.xDesc, i).addr / FRAME_SIZE != At(s.xDesc, k).addr / FRAME_SIZE
    {
      RxOwner(s, i);
    }
  }

  lemma HeldIsOwn(s: Rx, j: nat)
    requires Counts(s) && Conserved(s) && j < |s.held|
    ensures s.base <= s.held[j] < s.base + s.n
  {
    OwnersDiffer(s);
    KernelOwner(s, j);
    assert Owners(s)[|FillWindow(s)| + j] in Owners(s);
  }

  // ----------------------------------------------------------------------------------------------------------------
  // Packets: delivered bytes stay as they were delivered until their frame is given back
  // ----------------------------------------------------------------------------------------------------------------

  predicate InFrame(d: XdpDesc) {
    d.addr % FRAME_SIZE + d.len <= FRAME_SIZE
  }

  predicate Faithful(s: Rx)
    requires Counts(s)
  {
    && |s.umem| == UMEM_SIZE && s.base + s.n <= FRAME_COUNT
    && forall k | s.cons <= k < s.kRx :: InFrame(At(s.xDesc, k)) && PacketOf(s.umem, At(s.xDesc, k)) == s.delivered[k]
  }

  /** Bytes written in one frame leave a packet in another frame alone. */
  lemma OtherFrameKept(u: seq<byte>, f: nat, off: nat, bytes: seq<byte>, d: XdpDesc)
    requires f * FRAME_SIZE + FRAME_SIZE <= |u| && off + |bytes| <= FRAME_SIZE
    requires InFrame(d) && d.addr / FRAME_SIZE != f
    ensures PacketOf(Overwrite(u, f * FRAME_SIZE + off, bytes), d) == PacketOf(u, d)
  {
    var g, r := d.addr / FRAME_SIZE, d.addr % FRAME_SIZE;
    assert d.addr == g * FRAME_SIZE + r;
    hide InFrame;
    OverwriteElsewhere(u, f * FRAME_SIZE + off, bytes, d.addr, d.len);
  }

  lemma KernelWriteFaithful(s: Rx, j: nat, off: nat, bytes: seq<byte>)
    requires Counts(s) && Conserved(s) && Faithful(s)
    requires j < |s.held| && off + |bytes| <= FRAME_SIZE && s.held[j] * FRAME_SIZE + FRAME_SIZE <= |s.umem|
    ensures Faithful(KernelWrote(s, j, off, bytes))
  {
    hide Slot, Conserved, InFrame, PacketOf, Overwrite;
    var s' := KernelWrote(s, j, off, bytes);
    forall k | s.cons <= k < s.kRx
      ensures PacketOf(s'.umem, At(s.xDesc, k)) == s.delivered[k]
    {
      DeliveredIsPrivate(s, k);
      OtherFrameKept(s.umem, s.held[j], off, bytes, At(s.xDesc, k));
    }
  }

  lemma ExternalFaithful(s: Rx, u: seq<byte>)
    requires Counts(s) && Conserved(s) && Faithful(s) && OwnRegionKept(s.base, s.n, s.umem, u)
    ensures Faithful(s.(umem := u))
  {
    hide Slot, Conserved, Bytes;
    forall k | s.cons <= k < s.kRx
      ensures PacketOf(u, At(s.xDesc, k)) == s.delivered[k]
    {
      DeliveredIsPrivate(s, k);
      var d := At(s.xDesc, k);
      BytesAgree(s.umem, u, s.base * FRAME_SIZE, (s.base + s.n) * FRAME_SIZE, d.addr, d.len);
    }
  }

  lemma DeliverFaithful(s: Rx, j: nat, off: nat, len: nat)
    requires Counts(s) && Conserved(s) && Faithful(s) && j < |s.held| && off + len <= FRAME_SIZE && off < FRAME_SIZE
    requires Counts(Delivered(Wide, s, j, off, len))
    ensures Faithful(Delivered(Wide, s, j, off, len))
  {
    hide Slot, Conserved, PacketOf;
    var s' := Delivered(Wide, s, j, off, len);
    forall k | s.cons <= k < s'.kRx
      ensures InFrame(At(s'.xDesc, k)) && PacketOf(s'.umem, At(s'.xDesc, k)) == s'.delivered[k]
    {
      if k < s.kRx {
        SlotsApart(s.n, k, s.kRx);
        assert At(s'.xDesc, k) == At(s.xDesc, k) && InFrame(At(s.xDesc, k));
      } else {
        assert At(s'.xDesc, k) == XdpDesc(s.held[j] * FRAME_SIZE + off, len, 0);
        assert (s.held[j] * FRAME_SIZE + off) % FRAME_SIZE == off;
      }
    }
  }

  lemma StepFaithful(s: Rx, l: RxLabel)
    requires Counts(s) && Conserved(s) && Faithful(s)
    ensures Counts(Step(Wide, s, l)) && Faithful(Step(Wide, s, l))
  {
    hide Slot, Conserved, PacketOf, InFrame, Overwrite, OwnRegionKept;
    StepCounts(s, l);
    if Enabled(Wide, s, l) {
      match l
      case KWrite(j, off, bytes) => KernelWriteFaithful(s, j, off, bytes);
      case KDeliver(j, off, len) => DeliverFaithful(s, j, off, len);
      case External(u) => ExternalFaithful(s, u);
      case Peek(i) => assert Step(Wide, s, l).xDesc == s.xDesc;
      case _ =>
    }
  }

  // ----------------------------------------------------------------------------------------------------------------
  // Whole runs
  // ----------------------------------------------------------------------------------------------------------------

  predicate Pooled(n: nat, base: nat, stale: seq<XdpDesc>, umem: seq<byte>) {
    n > 0 && |stale| == n && base + n <= FRAME_COUNT && |umem| == UMEM_SIZE
  }

  predicate Safe(s: Rx) {
    Counts(s) && Conserved(s) && Faithful(s)
  }

  lemma StartSafe(n: nat, base: nat, stale: seq<XdpDesc>, umem: seq<byte>)
    requires Pooled(n, base, stale, umem)
    ensures Safe(WellFormed(n, base, stale, umem))
  {
    hide Conserved;
    StartConserved(n, base, stale, umem);
  }

  lemma StartConserved(n: nat, base: nat, stale: seq<XdpDesc>, umem: seq<byte>)
    requires Pooled(n, base, stale, umem)
    ensures Conserved(WellFormed(n, base, stale, umem))
  {
    hide Slot, At;
    var s := WellFormed(n, base, stale, umem);
    SliceWhole(FrameNumbers(base, n));
    forall i | 0 <= i < n
      ensures AddrFrames(s.fDesc)[i] == FrameNumbers(base, n)[i]
    {
      assert FrameAddrs(base, n)[i] == (base + i) * FRAME_SIZE;
    }
    assert AddrFrames(s.fDesc) == FrameNumbers(base, n);
    assert RxWindow(s) == [];
  }

  /** In every run from a safe state, such as the well-formed start, and every interleaving of the kernel, all frames
      keep exactly one owner and every packet that is delivered and not given back keeps its bytes. */
  lemma {:induction false} RxSafety(s: Rx, tr: seq<RxLabel>)
    requires Safe(s)
    ensures Safe(Run(Wide, s, tr)) && Owned(Run(Wide, s, tr)) == Owned(s)
    decreases |tr|
  {
    hide Step, Conserved, Faithful;
    if tr != [] {
      var r := Run(Wide, s, tr[..|tr| - 1]);
      RxSafety(s, tr[..|tr| - 1]);
      SafeStep(r, tr[|tr| - 1]);
    }
  }

  lemma SafeStep(s: Rx, l: RxLabel)
    requires Safe(s)
    ensures Safe(Step(Wide, s, l)) && Owned(Step(Wide, s, l)) == Owned(s)
  {
    hide Owned, Faithful, Counts;
    StepConserved(s, l);
    StepFaithful(s, l);
  }
}
