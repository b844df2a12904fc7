/** What every run of the transmit protocol keeps, in unbounded counters. */
module TxInvariant {
  import opened Words
  import opened Slices
  import opened Umem
  import opened TxMachine

  // ----------------------------------------------------------------------------------------------------------------
  // Counting: true of every run, whatever counts the calls use
  // ----------------------------------------------------------------------------------------------------------------

  predicate InTransit(s: Tx) {
    s.pc.Claimed? || s.pc.Released?
  }

  /** The order of all indices, and `producer - consumer == n - available` up to the frame that reclaim has in hand. */
  predicate Counts(s: Tx) {
    && Shape(s) && s.n <= FRAME_COUNT
    && 0 <= s.cCons <= s.cons <= s.cProd <= s.kDone <= s.kTaken <= s.xProd == s.prod
    && 0 <= s.xCons <= s.kTaken
    && |s.held| == s.kTaken - s.kDone
    && |s.sent| == s.prod && |s.taken| == s.kTaken
    && 0 <= s.avail
    && s.prod + s.avail + (if InTransit(s) then 1 else 0) == s.cons + s.n
    && s.cCons == (if s.pc.Claimed? then s.cons - 1 else s.cons)
    && (!s.pc.Idle? ==> s.avail < s.pc.count && s.cons <= s.pc.snap <= s.cProd)
    && (s.pc.Polling? ==> s.cons < s.pc.snap)
  }

  lemma StepCounts(s: Tx, l: TxLabel)
    requires Counts(s)
    ensures Counts(Step(Wide, s, l))
  {
    hide Slot, Overwrite, OwnRegionKept, PacketOf;
  }

  // ----------------------------------------------------------------------------------------------------------------
  // Addresses: every descriptor of the socket names a frame of its own pool, whatever counts the calls use
  // ----------------------------------------------------------------------------------------------------------------

  /** The completions that the kernel has written and the socket has not read. */
  function CompletionWindow(s: Tx): seq<nat>
    requires Counts(s)
  {
    Slice(s.cDesc, s.cons, s.kDone - s.cons)
  }

  predicate Addressed(s: Tx)
    requires Counts(s)
  {
    && |s.umem| == UMEM_SIZE && s.base + s.n <= FRAME_COUNT
    && (forall i | 0 <= i < s.n :: IsFrame(s.base, s.n, s.xDesc[i].addr) && s.xDesc[i].len <= FRAME_SIZE)
    && (forall i | 0 <= i < |s.held| :: IsFrame(s.base, s.n, s.held[i].addr) && s.held[i].len <= FRAME_SIZE)
    && (forall k | s.cons <= k < s.kDone :: IsFrame(s.base, s.n, At(s.cDesc, k)))
    && (InTransit(s) ==> IsFrame(s.base, s.n, s.pc.addr))
  }

  lemma StepAddressed(s: Tx, l: TxLabel)
    requires Counts(s) && Addressed(s)
    ensures Counts(Step(Wide, s, l)) && Addressed(Step(Wide, s, l))
  {
    hide IsFrame, Slot, Committing, Overwrite, PacketOf;
    StepCounts(s, l);
    if Enabled(Wide, s, l) {
      match l
      case KComplete(j) =>
        forall k | s.cons <= k < s.kDone
          ensures At(Complete(Wide, s, j).cDesc, k) == At(s.cDesc, k)
        {
          SlotsApart(s.n, k, s.kDone);
        }
      case SeekRead => assert IsFrame(s.base, s.n, At(s.cDesc, s.cons));
      case _ =>
    }
  }

  // ----------------------------------------------------------------------------------------------------------------
  // Conservation: every frame has exactly one owner
  // ----------------------------------------------------------------------------------------------------------------

  function Addrs(d: seq<XdpDesc>): (r: seq<nat>)
    ensures |r| == |d|
  {
    seq(|d|, i requires 0 <= i < |d| => d[i].addr)
  }

  function HeldAddrs(h: seq<Held>): (r: seq<nat>)
    ensures |r| == |h|
  {
    seq(|h|, i requires 0 <= i < |h| => h[i].addr)
  }

  /** The TX slots in use: first the committed ones that the kernel has not taken, then the available ones. */
  function TxWindow(s: Tx): seq<nat>
    requires Counts(s)
  {
    Slice(Addrs(s.xDesc), s.kTaken, s.prod + s.avail - s.kTaken)
  }

  /** All frames that some party owns: committed or available in the TX ring, in the hand of `seek_`, in flight in the
      kernel, and completed but not reclaimed. */
  function Owned(s: Tx): multiset<nat>
    requires Counts(s)
  {
    Pool(TxWindow(s), Hand(s), HeldAddrs(s.held), CompletionWindow(s))
  }

  function Hand(s: Tx): seq<nat> {
    if InTransit(s) then [s.pc.addr] else []
  }

  predicate Conserved(s: Tx)
    requires Counts(s)
  {
    Owned(s) == multiset(FrameAddrs(s.base, s.n))
  }

  /** Reclaim does not store over an available descriptor: it stores when nothing is available, or it is repaired. */
  predicate Sparing(s: Tx, l: TxLabel) {
    l.SeekStore? && s.pc.Released? && !s.repaired ==> s.avail == 0
  }

  lemma TakeMoves(s: Tx)
    requires Counts(s) && s.kTaken < s.xProd && Counts(Take(Wide, s))
    ensures Owned(Take(Wide, s)) == Owned(s)
  {
    hide Pool;
    var s' := Take(Wide, s);
    var a := At(Addrs(s.xDesc), s.kTaken);
    SliceHead(Addrs(s.xDesc), s.kTaken, s.prod + s.avail - s.kTaken);
    assert HeldAddrs(s'.held) == HeldAddrs(s.held) + [a];
    PoolKeeps(TxWindow(s'), Hand(s), HeldAddrs(s.held), CompletionWindow(s), a);
  }

  lemma CompleteMoves(s: Tx, j: nat)
    requires Counts(s) && j < |s.held| && Counts(Complete(Wide, s, j))
    ensures Owned(Complete(Wide, s, j)) == Owned(s)
  {
    hide Pool;
    var s' := Complete(Wide, s, j);
    SlicePush(s.cDesc, s.cons, s.kDone - s.cons, s.held[j].addr);
    assert HeldAddrs(s'.held) == Without(HeldAddrs(s.held), j);
    PoolKeepsAny(TxWindow(s), Hand(s), HeldAddrs(s.held), CompletionWindow(s), j);
  }

  lemma ReadMoves(s: Tx)
    requires Counts(s) && s.pc.Polling? && Counts(Claim(Wide, s))
    ensures Owned(Claim(Wide, s)) == Owned(s)
  {
    hide Pool;
    var a := At(s.cDesc, s.cons);
    SliceHead(s.cDesc, s.cons, s.kDone - s.cons);
    assert Hand(Claim(Wide, s)) == [] + [a];
    PoolKeeps(TxWindow(s), [], HeldAddrs(s.held), CompletionWindow(Claim(Wide, s)), a);
  }

  /** The reclaimed frame comes back as the last available descriptor, provided reclaim writes that slot. */
  lemma StoreMoves(s: Tx)
    requires Counts(s) && s.pc.Released? && Counts(Store(Wide, s))
    requires s.repaired || s.avail == 0
    ensures Owned(Store(Wide, s)) == Owned(s)
  {
    hide Pool;
    var s' := Store(Wide, s);
    var len := s.prod + s.avail - s.kTaken;
    SlicePush(Addrs(s.xDesc), s.kTaken, len, s.pc.addr);
    assert Addrs(s'.xDesc) == Addrs(s.xDesc)[Slot(Wide, s.n, s.kTaken + len) := s.pc.addr];
    PoolKeeps(TxWindow(s), [], HeldAddrs(s.held), CompletionWindow(s), s.pc.addr);
  }

  lemma StepConserved(s: Tx, l: TxLabel)
    requires Counts(s) && Sparing(s, l)
    ensures Counts(Step(Wide, s, l))
    ensures Owned(Step(Wide, s, l)) == Owned(s)
  {
    hide Pool, Slot, Overwrite, OwnRegionKept, PacketOf;
    StepCounts(s, l);
    if Enabled(Wide, s, l) {
      match l
      case SeekRead => ReadMoves(s);
      case SeekStore => StoreMoves(s);
      case KTake => TakeMoves(s);
      case KComplete(j) => CompleteMoves(s, j);
      case SetLen(i, len) => assert Addrs(Resized(Wide, s, i, len).xDesc) == Addrs(s.xDesc);
      case _ =>
    }
  }

  /** Every owned frame, listed owner by owner: TX slots, the hand of `seek_`, the kernel, completions. */
  function Owners(s: Tx): seq<nat>
    requires Counts(s)
  {
    TxWindow(s) + Hand(s) + HeldAddrs(s.held) + CompletionWindow(s)
  }

  lemma OwnersDiffer(s: Tx)
    requires Counts(s) && Conserved(s)
    ensures NoDuplicates(Owners(s)) && |Owners(s)| == s.n
    ensures forall a | a in Owners(s) :: IsFrame(s.base, s.n, a)
  {
    forall a
      ensures Owned(s)[a] <= 1 && (a in Owners(s) ==> IsFrame(s.base, s.n, a))
    {
      FrameListedOnce(s.base, s.n, a);
      assert a in Owners(s) ==> a in Owned(s);
    }
    PoolDistinct(TxWindow(s), Hand(s), HeldAddrs(s.held), CompletionWindow(s));
  }

  // ----------------------------------------------------------------------------------------------------------------
  // Packets: committed bytes stay as they were committed until the kernel completes them
  // ----------------------------------------------------------------------------------------------------------------

  predicate Faithful(s: Tx)
    requires Counts(s)
  {
    && (forall k | s.kTaken <= k < s.prod :: PacketOf(s.umem, At(s.xDesc, k)) == s.sent[k])
    && (forall i | 0 <= i < |s.held| :: Bytes(s.umem, s.held[i].addr, s.held[i].len) == s.held[i].packet)
    && s.taken == s.sent[..s.kTaken]
  }

  /** A store to a slot outside the committed window changes no committed descriptor. */
  lemma CommittedSlotKept(s: Tx, k: int, j: int, d: XdpDesc)
    requires Counts(s) && s.kTaken <= k < s.prod <= j < s.kTaken + s.n
    ensures At(s.xDesc[Slot(Wide, s.n, j) := d], k) == At(s.xDesc, k)
  {
    SlotsApart(s.n, k, j);
  }

  lemma CommitFaithful(s: Tx, c: nat)
    requires Counts(s) && Faithful(s) && c <= s.avail && Counts(Committed(Wide, s, c))
    ensures Faithful(Committed(Wide, s, c))
  {
    var s' := Committed(Wide, s, c);
    forall k | s.kTaken <= k < s'.prod
      ensures PacketOf(s.umem, At(s.xDesc, k)) == s'.sent[k]
    {
      if s.prod <= k {
        assert s'.sent[k] == Committing(Wide, s, c)[k - s.prod];
      }
    }
  }

  /** The frame of an available descriptor is nobody else's. */
  lemma {:induction false} AvailableIsPrivate(s: Tx, i: nat)
    requires Counts(s) && Addressed(s) && Conserved(s) && i < s.avail
    ensures forall k | s.kTaken <= k < s.prod + s.avail && k != s.prod + i ::
              At(s.xDesc, k).addr != At(s.xDesc, s.prod + i).addr
    ensures forall j | 0 <= j < |s.held| :: s.held[j].addr != At(s.xDesc, s.prod + i).addr
    ensures forall k | s.cons <= k < s.kDone :: At(s.cDesc, k) != At(s.xDesc, s.prod + i).addr
  {
    OwnersDiffer(s);
    var o, p, w := Owners(s), s.prod + i - s.kTaken, |TxWindow(s)| + |Hand(s)|;
    TxOwner(s, s.prod + i);
    forall k | s.kTaken <= k < s.prod + s.avail && k != s.prod + i
      ensures At(s.xDesc, k).addr != At(s.xDesc, s.prod + i).addr
    {
      TxOwner(s, k);
    }
    forall j | 0 <= j < |s.held|
      ensures s.held[j].addr != At(s.xDesc, s.prod + i).addr
    {
      KernelOwner(s, j);
    }
    forall k | s.cons <= k < s.kDone
      ensures At(s.cDesc, k) != At(s.xDesc, s.prod + i).addr
    {
      CompletionOwner(s, k);
    }
  }

  lemma TxOwner(s: Tx, k: int)
    requires Counts(s) && s.kTaken <= k < s.prod + s.avail
    ensures Owners(s)[k - s.kTaken] == At(s.xDesc, k).addr
  {
    var w := TxWindow(s);
    assert w[k - s.kTaken] == At(Addrs(s.xDesc), k);
    hide TxWindow;
  }

  lemma KernelOwner(s: Tx, j: nat)
    requires Counts(s) && j < |s.held|
    ensures Owners(s)[|TxWindow(s)| + |Hand(s)| + j] == s.held[j].addr
  {
  }

  lemma CompletionOwner(s: Tx, k: int)
    requires Counts(s) && s.cons <= k < s.kDone
    ensures Owners(s)[|TxWindow(s)| + |Hand(s)| + |s.held| + k - s.cons] == At(s.cDesc, k)
  {
    assert CompletionWindow(s)[k - s.cons] == At(s.cDesc, k);
  }

  lemma WriteFaithful(s: Tx, i: nat, off: nat, bytes: seq<byte>)
    requires Counts(s) && Addressed(s) && Conserved(s) && Faithful(s)
    requires i < s.avail && off + |bytes| <= At(s.xDesc, s.prod + i).len
    requires At(s.xDesc, s.prod + i).addr + off + |bytes| <= |s.umem|
    ensures Faithful(Written(Wide, s, i, off, bytes))
  {
    hide Slot, Bytes, Overwrite;
    var a := At(s.xDesc, s.prod + i).addr;
    AvailableIsPrivate(s, i);
    hide Conserved, IsFrame;
    forall k | s.kTaken <= k < s.prod
      ensures PacketOf(Overwrite(s.umem, a + off, bytes), At(s.xDesc, k)) == s.sent[k]
    {
      FrameUntouched(s, a, off, bytes, At(s.xDesc, k).addr, At(s.xDesc, k).len);
    }
    forall j | 0 <= j < |s.held|
      ensures Bytes(Overwrite(s.umem, a + off, bytes), s.held[j].addr, s.held[j].len) == s.held[j].packet
    {
      FrameUntouched(s, a, off, bytes, s.held[j].addr, s.held[j].len);
    }
  }

  lemma FrameUntouched(s: Tx, a: nat, off: nat, bytes: seq<byte>, b: nat, len: nat)
    requires IsFrame(s.base, s.n, a) && IsFrame(s.base, s.n, b) && a != b
    requires a + off + |bytes| <= |s.umem| && off + |bytes| <= FRAME_SIZE && len <= FRAME_SIZE
    ensures Bytes(Overwrite(s.umem, a + off, bytes), b, len) == Bytes(s.umem, b, len)
  {
    FramesApart(s.base, s.n, a, b);
    OverwriteElsewhere(s.umem, a + off, bytes, b, len);
  }

  lemma ExternalFaithful(s: Tx, u: seq<byte>)
    requires Counts(s) && Addressed(s) && Faithful(s) && OwnRegionKept(s.base, s.n, s.umem, u)
    ensures Counts(s.(umem := u)) && Faithful(s.(umem := u))
  {
    hide Slot, Bytes, IsFrame, OwnRegionKept;
    forall k | s.kTaken <= k < s.prod
      ensures PacketOf(u, At(s.xDesc, k)) == s.sent[k]
    {
      FrameAgrees(s.base, s.n, s.umem, u, At(s.xDesc, k).addr, At(s.xDesc, k).len);
    }
    forall j | 0 <= j < |s.held|
      ensures Bytes(u, s.held[j].addr, s.held[j].len) == s.held[j].packet
    {
      FrameAgrees(s.base, s.n, s.umem, u, s.held[j].addr, s.held[j].len);
    }
  }

  lemma DescriptorFaithful(s: Tx, j: int, d: XdpDesc)
    requires Counts(s) && Faithful(s) && s.prod <= j < s.kTaken + s.n
    ensures forall k | s.kTaken <= k < s.prod ::
              PacketOf(s.umem, At(s.xDesc[Slot(Wide, s.n, j) := d], k)) == s.sent[k]
  {
    forall k | s.kTaken <= k < s.prod
      ensures PacketOf(s.umem, At(s.xDesc[Slot(Wide, s.n, j) := d], k)) == s.sent[k]
    {
      CommittedSlotKept(s, k, j, d);
    }
  }

  lemma TakeFaithful(s: Tx)
    requires Counts(s) && Faithful(s) && s.kTaken < s.xProd && Counts(Take(Wide, s))
    ensures Faithful(Take(Wide, s))
  {
    assert PacketOf(s.umem, At(s.xDesc, s.kTaken)) == s.sent[s.kTaken];
    assert s.sent[..s.kTaken + 1] == s.sent[..s.kTaken] + [s.sent[s.kTaken]];
  }

  lemma CompleteFaithful(s: Tx, j: nat)
    requires Counts(s) && Faithful(s) && j < |s.held| && Counts(Complete(Wide, s, j))
    ensures Faithful(Complete(Wide, s, j))
  {
    hide Slot, Bytes;
  }

  lemma StepFaithful(s: Tx, l: TxLabel)
    requires Counts(s) && Addressed(s) && Conserved(s) && Faithful(s)
    ensures Counts(Step(Wide, s, l)) && Faithful(Step(Wide, s, l))
  {
    hide Conserved, Addressed, Slot, OwnRegionKept, Overwrite, Bytes, Without;
    StepCounts(s, l);
    if Enabled(Wide, s, l) {
      match l
      case SeekStore => DescriptorFaithful(s, s.prod + if s.repaired then s.avail else 0, XdpDesc(s.pc.addr, 0, 0));
      case SetLen(i, len) => DescriptorFaithful(s, s.prod + i, At(s.xDesc, s.prod + i).(len := len));
      case Write(i, off, bytes) => WriteFaithful(s, i, off, bytes);
      case Commit(count) => CommitFaithful(s, Wrap(count));
      case KTake => TakeFaithful(s);
      case KComplete(j) => CompleteFaithful(s, j);
      case External(u) => ExternalFaithful(s, u);
      case _ =>
    }
  }

  // ----------------------------------------------------------------------------------------------------------------
  // Whole runs
  // ----------------------------------------------------------------------------------------------------------------

  /** A pool that `create_socket` can set up, and the memory around it. */
  predicate Pooled(n: nat, base: nat, stale: seq<nat>, umem: seq<byte>) {
    n > 0 && |stale| == n && base + n <= FRAME_COUNT && |umem| == UMEM_SIZE
  }

  predicate Safe(s: Tx) {
    Counts(s) && Addressed(s) && Conserved(s) && Faithful(s)
  }

  lemma InitConserved(n: nat, base: nat, repaired: bool, stale: seq<nat>, umem: seq<byte>)
    requires Pooled(n, base, stale, umem)
    ensures Conserved(Init(n, base, repaired, stale, umem))
  {
    hide Slot, At;
    var s := Init(n, base, repaired, stale, umem);
    SliceWhole(FrameAddrs(base, n));
    assert Addrs(s.xDesc) == FrameAddrs(base, n);
    assert Hand(s) == [] && HeldAddrs(s.held) == [] && CompletionWindow(s) == [];
  }

  lemma InitSafe(n: nat, base: nat, repaired: bool, stale: seq<nat>, umem: seq<byte>)
    requires Pooled(n, base, stale, umem)
    ensures Safe(Init(n, base, repaired, stale, umem))
    ensures forall i | 0 <= i < n ::
              Init(n, base, repaired, stale, umem).xDesc[i] == XdpDesc((base + i) * FRAME_SIZE, 0, 0)
  {
    InitConserved(n, base, repaired, stale, umem);
    hide Conserved;
  }

  /** Counting, in every run whatever counts the calls use: `producer - consumer == n - available` up to the frame in
      hand, at most `n` available, completions that wait never exceed the frames away, and the indices the kernel sees
      are the private ones between calls. */
  lemma {:induction false} TxCounting(s: Tx, tr: seq<TxLabel>)
    requires Counts(s) && Addressed(s)
    ensures Counts(Run(Wide, s, tr)) && Addressed(Run(Wide, s, tr))
  {
    if tr != [] {
      TxCounting(s, tr[..|tr| - 1]);
      StepAddressed(Run(Wide, s, tr[..|tr| - 1]), tr[|tr| - 1]);
    }
  }

  /** Every store that reclaim makes in the run spares the available descriptors. */
  predicate AllSparing(s: Tx, tr: seq<TxLabel>)
    requires Shape(s)
    decreases |tr|
  {
    tr == [] || (AllSparing(s, tr[..|tr| - 1]) && Sparing(Run(Wide, s, tr[..|tr| - 1]), tr[|tr| - 1]))
  }

  /** Conservation and packet refinement, in every run that stores only when nothing is available, whatever counts the
      calls use, and in every interleaving of the kernel. */
  lemma {:induction false} TxSafety(s: Tx, tr: seq<TxLabel>)
    requires Safe(s) && AllSparing(s, tr)
    ensures Safe(Run(Wide, s, tr))
    decreases |tr|
  {
    hide Step, Conserved, Faithful, Addressed;
    if tr != [] {
      TxSafety(s, tr[..|tr| - 1]);
      SafeStep(Run(Wide, s, tr[..|tr| - 1]), tr[|tr| - 1]);
    }
  }

  lemma SafeStep(s: Tx, l: TxLabel)
    requires Safe(s) && Sparing(s, l)
    ensures Safe(Step(Wide, s, l))
  {
    hide Owned, Faithful, Addressed, Counts, Step;
    StepAddressed(s, l);
    StepConserved(s, l);
    StepFaithful(s, l);
  }

  // ----------------------------------------------------------------------------------------------------------------
  // What a caller can check
  // ----------------------------------------------------------------------------------------------------------------

  /** A call that asks for at most one descriptor, or for no more than there are; or any call of the repaired program. */
  predicate Gentle(s: Tx, l: TxLabel) {
    l.SeekStart? && !s.repaired ==> l.count <= 1 || l.count <= s.avail
  }

  predicate AllGentle(s: Tx, tr: seq<TxLabel>)
    requires Shape(s)
    decreases |tr|
  {
    tr == [] || (AllGentle(s, tr[..|tr| - 1]) && Gentle(Run(Wide, s, tr[..|tr| - 1]), tr[|tr| - 1]))
  }

  predicate GentlePc(s: Tx) {
    !s.pc.Idle? && !s.repaired ==> s.pc.count <= 1
  }

  lemma GentleStep(s: Tx, l: TxLabel)
    requires Counts(s) && GentlePc(s) && Gentle(s, l)
    ensures Counts(Step(Wide, s, l)) && GentlePc(Step(Wide, s, l)) && Sparing(s, l)
  {
    StepCounts(s, l);
    hide Slot, Overwrite, OwnRegionKept, PacketOf;
  }

  /** Gentle calls store only when nothing is available, wherever the kernel runs. */
  lemma {:induction false} GentleSpares(s: Tx, tr: seq<TxLabel>)
    requires Counts(s) && GentlePc(s) && AllGentle(s, tr)
    ensures Counts(Run(Wide, s, tr)) && GentlePc(Run(Wide, s, tr)) && AllSparing(s, tr)
    decreases |tr|
  {
    assert Shape(s);
    hide Step, Counts, GentlePc, Sparing, Gentle;
    if tr != [] {
      GentleSpares(s, tr[..|tr| - 1]);
      GentleStep(Run(Wide, s, tr[..|tr| - 1]), tr[|tr| - 1]);
    }
  }
}
