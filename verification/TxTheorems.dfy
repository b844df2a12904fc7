/** The promises of the transmit socket, as consequences of the invariants of its runs. */
module TxTheorems {
  import opened Words
  import opened Slices
  import opened Umem
  import opened TxMachine
  import opened TxInvariant
  import opened TxWrap

  /** The whole of it for the state that the program holds.  After any run on 32-bit indices that stores only when nothing
      is available, with the kernel interleaved at will and completing in any order, every frame of the pool has exactly
      one owner, and what the kernel has read is exactly the committed packets, in order, up to the descriptor it has
      reached; what it has in flight still has the bytes that were committed. */
  lemma {:induction false} TxMain(n: nat, base: nat, stale: seq<nat>, umem: seq<byte>, tr: seq<TxLabel>)
    requires Pooled(n, base, stale, umem) && PowerOfTwo(n)
    requires AllSparing(Init(n, base, false, stale, umem), tr)
    ensures var s := Init(n, base, false, stale, umem);
            var r, w := Run(U32, s, tr), Run(Wide, s, tr);
            && r == Narrow(w) && Counts(w)
            && Owned(w) == multiset(FrameAddrs(base, n))
            && r.taken <= r.sent
            && (forall i | 0 <= i < |r.held| :: Bytes(r.umem, r.held[i].addr, r.held[i].len) == r.held[i].packet)
  {
    var s := Init(n, base, false, stale, umem);
    InitSafe(n, base, false, stale, umem);
    assert Narrow(s) == s;
    RunSimulates(s, tr);
    TxSafety(s, tr);
  }

  /** The same for gentle calls: each asks for at most one descriptor, or for no more than there are. */
  lemma {:induction false} TxGentle(n: nat, base: nat, stale: seq<nat>, umem: seq<byte>, tr: seq<TxLabel>)
    requires Pooled(n, base, stale, umem) && PowerOfTwo(n)
    requires AllGentle(Init(n, base, false, stale, umem), tr)
    ensures var s := Init(n, base, false, stale, umem);
            var r, w := Run(U32, s, tr), Run(Wide, s, tr);
            && r == Narrow(w) && Counts(w)
            && Owned(w) == multiset(FrameAddrs(base, n))
            && r.taken <= r.sent
            && (forall i | 0 <= i < |r.held| :: Bytes(r.umem, r.held[i].addr, r.held[i].len) == r.held[i].packet)
  {
    InitSafe(n, base, false, stale, umem);
    GentleSpares(Init(n, base, false, stale, umem), tr);
    hide AllSparing, AllGentle, Run;
    TxMain(n, base, stale, umem, tr);
  }

  // ----------------------------------------------------------------------------------------------------------------
  // Slices
  // ----------------------------------------------------------------------------------------------------------------

  /** The first byte of the slice that `peek_at(i, _)` hands out. */
  function SliceStart(s: Tx, i: nat): nat
    requires Shape(s)
  {
    s.xDesc[AvailSlot(Wide, s, i)].addr
  }

  /** Peeked slices stay inside the UMEM and trip no assertion of `mut_bytes_at`, do not overlap each other, and do not
      overlap a packet that is committed, in flight or completed. */
  lemma {:induction false} SliceSafety(s: Tx, i: nat, len: nat)
    requires Safe(s) && s.pc.Idle? && i < s.avail && len < FRAME_SIZE
    ensures AvailSlot(Wide, s, i) < FRAME_COUNT && SliceStart(s, i) + len < UMEM_SIZE
    ensures forall j, lj | 0 <= j < s.avail && j != i && 0 <= lj < FRAME_SIZE ::
              Disjoint(SliceStart(s, i), len, SliceStart(s, j), lj)
    ensures forall k | s.kTaken <= k < s.prod ::
              Disjoint(SliceStart(s, i), len, At(s.xDesc, k).addr, At(s.xDesc, k).len)
    ensures forall j | 0 <= j < |s.held| :: Disjoint(SliceStart(s, i), len, s.held[j].addr, s.held[j].len)
    ensures forall k | s.cons <= k < s.kDone :: Disjoint(SliceStart(s, i), len, At(s.cDesc, k), FRAME_SIZE)
  {
    hide Slot, Conserved, Faithful;
    AvailableIsPrivate(s, i);
    var a := At(s.xDesc, s.prod + i).addr;
    forall j, lj | 0 <= j < s.avail && j != i && 0 <= lj < FRAME_SIZE
      ensures Disjoint(a, len, SliceStart(s, j), lj)
    {
      FramesApart(s.base, s.n, a, At(s.xDesc, s.prod + j).addr);
    }
    forall k | s.kTaken <= k < s.prod
      ensures Disjoint(a, len, At(s.xDesc, k).addr, At(s.xDesc, k).len)
    {
      FramesApart(s.base, s.n, a, At(s.xDesc, k).addr);
    }
    forall j | 0 <= j < |s.held|
      ensures Disjoint(a, len, s.held[j].addr, s.held[j].len)
    {
      FramesApart(s.base, s.n, a, s.held[j].addr);
    }
    forall k | s.cons <= k < s.kDone
      ensures Disjoint(a, len, At(s.cDesc, k), FRAME_SIZE)
    {
      FramesApart(s.base, s.n, a, At(s.cDesc, k));
    }
  }

  // ----------------------------------------------------------------------------------------------------------------
  // Interleaving
  // ----------------------------------------------------------------------------------------------------------------

  datatype Place = TxSlot(slot: nat) | CompletionSlot(slot: nat) | Frame(addr: nat)

  function Reads(s: Tx, l: TxLabel): set<Place>
    requires Shape(s) && Enabled(Wide, s, l)
  {
    match l
    case SeekRead => {CompletionSlot(Slot(Wide, s.n, s.cons))}
    case SetLen(i, _) => {TxSlot(AvailSlot(Wide, s, i))}
    case Write(i, _, _) => {TxSlot(AvailSlot(Wide, s, i))}
    case KTake => {TxSlot(Slot(Wide, s.n, s.kTaken)), Frame(At(s.xDesc, s.kTaken).addr)}
    case KTransmit(j) => {Frame(s.held[j].addr)}
    case _ => {}
  }

  function Writes(s: Tx, l: TxLabel): set<Place>
    requires Shape(s) && Enabled(Wide, s, l)
  {
    match l
    case SeekStore => {TxSlot(StoreSlot(Wide, s))}
    case SetLen(i, _) => {TxSlot(AvailSlot(Wide, s, i))}
    case Write(i, _, _) => {Frame(SliceStart(s, i))}
    case KComplete(_) => {CompletionSlot(Slot(Wide, s.n, s.kDone))}
    case _ => {}
  }

  /** Whenever the socket and the kernel could both move, neither writes a place that the other reads or writes. */
  lemma TxRaceFree(s: Tx, l: TxLabel, k: TxLabel)
    requires Safe(s) && !IsKernel(l) && IsKernel(k) && Enabled(Wide, s, l) && Enabled(Wide, s, k)
    ensures Writes(s, l) !! Reads(s, k) + Writes(s, k)
    ensures Writes(s, k) !! Reads(s, l)
  {
    hide Slot, IsFrame, Owned, Faithful;
    match l
    case SeekRead =>
      if k.KComplete? {
        SlotsApart(s.n, s.cons, s.kDone);
      }
    case SeekStore =>
      if k.KTake? {
        SlotsApart(s.n, s.kTaken, s.prod + if s.repaired then s.avail else 0);
      }
    case SetLen(i, _) =>
      if k.KTake? {
        SlotsApart(s.n, s.kTaken, s.prod + i);
      }
    case Write(i, _, _) => AvailableIsPrivate(s, i);
    case _ =>
  }

  /** The one pair of accesses that meet: the store and the load of the Completion producer. */
  predicate Meet(l: TxLabel, k: TxLabel) {
    l.SeekStart? && k.KSubmit?
  }

  /** The two accesses lead to the same state in either order, and neither takes the other away. */
  predicate Commute(s: Tx, l: TxLabel, k: TxLabel)
    requires Shape(s)
  {
    && Step(Wide, Step(Wide, s, l), k) == Step(Wide, Step(Wide, s, k), l)
    && Enabled(Wide, Step(Wide, s, l), k) && Enabled(Wide, Step(Wide, s, k), l)
  }

  /** Any other two accesses that the socket and the kernel could make next commute. */
  lemma {:induction false} TxCommutes(s: Tx, l: TxLabel, k: TxLabel)
    requires Safe(s) && !IsKernel(l) && IsKernel(k) && !k.External? && !Meet(l, k)
    requires Enabled(Wide, s, l) && Enabled(Wide, s, k)
    ensures Commute(s, l, k)
  {
    match l
    case SetLen(i, len) => ResizeCommutes(s, i, len, k);
    case Write(i, off, bytes) => WriteCommutes(s, i, off, bytes, k);
    case Commit(count) =>
      hide Slot, Step, Enabled, Conserved, Faithful;
      CommitLate(s, k, Wrap(count));
      CommitWraps(s, count);
      CommitWraps(Step(Wide, s, k), count);
    case SeekRead => ReadCommutes(s, k);
    case SeekStore => StoreCommutes(s, k);
    case _ => SeekCommutes(s, l, k);
  }

  lemma CommitWraps(s: Tx, count: nat)
    requires Shape(s) && s.pc.Idle? && Wrap(count) <= s.avail
    ensures Step(Wide, s, Commit(count)) == Step(Wide, s, Commit(Wrap(count))) && Enabled(Wide, s, Commit(count))
  {
    WrapWord(Wrap(count));
    hide Wrap;
  }

  lemma SeekCommutes(s: Tx, l: TxLabel, k: TxLabel)
    requires Counts(s) && (l.SeekStart? || l.SeekRelease?)
    requires IsKernel(k) && !k.External? && !Meet(l, k) && Enabled(Wide, s, l) && Enabled(Wide, s, k)
    ensures Commute(s, l, k)
  {
    hide Slot, PacketOf, Without;
  }

  lemma ReadCommutes(s: Tx, k: TxLabel)
    requires Counts(s) && IsKernel(k) && !k.External? && Enabled(Wide, s, SeekRead) && Enabled(Wide, s, k)
    ensures Commute(s, SeekRead, k)
  {
    hide Slot, PacketOf, Without;
    if k.KComplete? {
      SlotsApart(s.n, s.cons, s.kDone);
    }
  }

  lemma StoreCommutes(s: Tx, k: TxLabel)
    requires Counts(s) && IsKernel(k) && !k.External? && Enabled(Wide, s, SeekStore) && Enabled(Wide, s, k)
    ensures Commute(s, SeekStore, k)
  {
    hide Slot, PacketOf, Without;
    if k.KTake? {
      SlotsApart(s.n, s.kTaken, s.prod + if s.repaired then s.avail else 0);
    }
  }

  lemma ResizeCommutes(s: Tx, i: nat, len: u32, k: TxLabel)
    requires Counts(s) && IsKernel(k) && !k.External?
    requires Enabled(Wide, s, SetLen(i, len)) && Enabled(Wide, s, k)
    ensures Commute(s, SetLen(i, len), k)
  {
    hide Slot, PacketOf, Without;
    if k.KTake? {
      SlotsApart(s.n, s.kTaken, s.prod + i);
    }
  }

  lemma WriteCommutes(s: Tx, i: nat, off: nat, bytes: seq<byte>, k: TxLabel)
    requires Safe(s) && IsKernel(k) && !k.External?
    requires Enabled(Wide, s, Write(i, off, bytes)) && Enabled(Wide, s, k)
    ensures Commute(s, Write(i, off, bytes), k)
  {
    hide Slot, PacketOf, Overwrite, Without, Addressed, Conserved, Faithful;
    if k.KTake? {
      TakenUntouched(s, i, off, bytes);
    }
  }

  /** A write through a peeked slice does not change the packet that the kernel takes next. */
  lemma TakenUntouched(s: Tx, i: nat, off: nat, bytes: seq<byte>)
    requires Safe(s) && i < s.avail && s.kTaken < s.xProd
    requires off + |bytes| <= At(s.xDesc, s.prod + i).len && At(s.xDesc, s.prod + i).addr + off + |bytes| <= |s.umem|
    ensures PacketOf(Overwrite(s.umem, At(s.xDesc, s.prod + i).addr + off, bytes), At(s.xDesc, s.kTaken))
            == PacketOf(s.umem, At(s.xDesc, s.kTaken))
  {
    hide Slot, Bytes, Overwrite, Faithful;
    AvailableIsPrivate(s, i);
    hide Conserved, IsFrame;
    var d := At(s.xDesc, s.kTaken);
    FrameUntouched(s, At(s.xDesc, s.prod + i).addr, off, bytes, d.addr, d.len);
  }

  // ----------------------------------------------------------------------------------------------------------------
  // Capacity
  // ----------------------------------------------------------------------------------------------------------------

  /** `seek()` sees a full ring exactly when all `n` entries are committed, in the kernel's hands or completed without
      having been published. */
  lemma FullExactly(s: Tx)
    requires Counts(s) && s.pc.Idle?
    ensures s.avail == 0 && s.cProd == s.cons
            <==> (s.prod - s.kTaken) + |s.held| + (s.kDone - s.cProd) == s.n
  {
  }

  predicate Drained(s: Tx) {
    s.xCons == s.kTaken == s.xProd && s.held == [] && s.cProd == s.kDone
  }

  /** From every state the kernel can finish its work, and then every entry is available or waits to be reclaimed. */
  lemma {:induction false} CapacityReturns(s: Tx) returns (tr: seq<TxLabel>)
    requires Counts(s) && s.pc.Idle?
    ensures forall l | l in tr :: IsKernel(l) && Fifo(l)
    ensures var r := Run(Wide, s, tr);
            Counts(r) && Drained(r) && r.pc == s.pc && r.avail == s.avail && r.avail + (r.cProd - r.cons) == s.n
    decreases 2 * (s.xProd - s.kTaken) + |s.held|
  {
    if s.kTaken < s.xProd {
      tr := DrainAfter(s, KTake);
    } else if s.held != [] {
      tr := DrainAfter(s, KComplete(0));
    } else {
      tr := [KRelease] + [KSubmit];
      RunCons(Wide, s, KRelease, [KSubmit]);
      RunSnoc(Wide, Step(Wide, s, KRelease), [], KSubmit);
      assert [KSubmit] == [] + [KSubmit];
    }
  }

  lemma {:induction false} DrainAfter(s: Tx, l: TxLabel) returns (tr: seq<TxLabel>)
    requires Counts(s) && s.pc.Idle? && Enabled(Wide, s, l)
    requires l.KTake? || (l == KComplete(0) && s.kTaken == s.xProd)
    ensures forall l | l in tr :: IsKernel(l) && Fifo(l)
    ensures var r := Run(Wide, s, tr);
            Counts(r) && Drained(r) && r.pc == s.pc && r.avail == s.avail && r.avail + (r.cProd - r.cons) == s.n
    decreases 2 * (s.xProd - s.kTaken) + |s.held|, 0
  {
    StepCounts(s, l);
    var rest := CapacityReturns(Step(Wide, s, l));
    tr := [l] + rest;
    RunCons(Wide, s, l, rest);
  }

  // ----------------------------------------------------------------------------------------------------------------
  // Batches of commits
  // ----------------------------------------------------------------------------------------------------------------

  lemma CommittingSplits(s: Tx, a: nat, b: nat)
    requires Shape(s)
    ensures Committing(Wide, s, a + b) == Committing(Wide, s, a) + Committing(Wide, Committed(Wide, s, a), b)
  {
    forall i | 0 <= i < b
      ensures Committing(Wide, s, a + b)[a + i] == Committing(Wide, Committed(Wide, s, a), b)[i]
    {
      assert (s.prod + a) + i == s.prod + (a + i);
    }
  }

  lemma CommitIs(s: Tx, b: nat)
    requires Shape(s) && s.pc.Idle? && b <= s.avail <= FRAME_COUNT
    ensures Step(Wide, s, Commit(b)) == Committed(Wide, s, b)
  {
  }

  /** `commit_n(a + b)` is `commit_n(a)` followed by `commit_n(b)`. */
  lemma BatchCommit(s: Tx, a: nat, b: nat)
    requires Counts(s) && s.pc.Idle? && a + b <= s.avail
    ensures Step(Wide, Step(Wide, s, Commit(a)), Commit(b)) == Step(Wide, s, Commit(a + b))
  {
    CommittingSplits(s, a, b);
    CommitIs(s, a);
    CommitIs(s, a + b);
    CommitIs(Committed(Wide, s, a), b);
    hide Committing, Step, Counts;
    var x, y := Committing(Wide, s, a), Committing(Wide, Committed(Wide, s, a), b);
    assert (s.sent + x) + y == s.sent + (x + y);
    assert (s.prod + a) + b == s.prod + (a + b);
  }

  predicate AllEnabled(s: Tx, tr: seq<TxLabel>)
    requires Shape(s)
    decreases |tr|
  {
    tr == [] || (AllEnabled(s, tr[..|tr| - 1]) && Enabled(Wide, Run(Wide, s, tr[..|tr| - 1]), tr[|tr| - 1]))
  }

  lemma SamePacketsOutside(s: Tx, u: seq<byte>, b: nat)
    requires Counts(s) && Addressed(s) && OwnRegionKept(s.base, s.n, s.umem, u)
    ensures Committing(Wide, s.(umem := u), b) == Committing(Wide, s, b)
  {
    hide Slot, Bytes, IsFrame, OwnRegionKept;
    forall i | 0 <= i < b
      ensures PacketOf(u, s.xDesc[AvailSlot(Wide, s, i)]) == PacketOf(s.umem, s.xDesc[AvailSlot(Wide, s, i)])
    {
      var d := s.xDesc[AvailSlot(Wide, s, i)];
      FrameAgrees(s.base, s.n, s.umem, u, d.addr, d.len);
    }
  }

  /** What the kernel can do before a commit it can do after it, with the same outcome. */
  lemma CommitLate(s: Tx, k: TxLabel, b: nat)
    requires Counts(s) && Addressed(s) && s.pc.Idle? && b <= s.avail && IsKernel(k) && Enabled(Wide, s, k)
    ensures Step(Wide, Step(Wide, s, k), Commit(b)) == Step(Wide, Step(Wide, s, Commit(b)), k)
    ensures Step(Wide, s, k).pc.Idle? && b <= Step(Wide, s, k).avail
    ensures Enabled(Wide, Step(Wide, s, Commit(b)), k)
  {
    hide Slot, PacketOf, Addressed, Overwrite, OwnRegionKept, Without;
    if k.External? {
      SamePacketsOutside(s, k.umem, b);
    }
    var t := Step(Wide, s, k);
    assert Committing(Wide, t, b) == Committing(Wide, s, b);
    CommitIs(s, b);
    CommitIs(t, b);
    hide Committing, Counts;
    assert Enabled(Wide, Committed(Wide, s, b), k);
    assert Apply(Wide, Committed(Wide, s, b), k) == Committed(Wide, t, b);
  }

  /** A kernel that runs between the two smaller commits does only what it could do after the larger one: it sees a
      prefix of what that one publishes, and everything ends in the same state. */
  lemma {:induction false} BatchCommitOverlapped(s: Tx, a: nat, b: nat, ks: seq<TxLabel>)
    requires Counts(s) && Addressed(s) && s.pc.Idle? && a + b <= s.avail
    requires (forall i | 0 <= i < |ks| :: IsKernel(ks[i])) && AllEnabled(Step(Wide, s, Commit(a)), ks)
    ensures var small := Run(Wide, Step(Wide, s, Commit(a)), ks);
            && Counts(small) && Addressed(small) && small.pc.Idle? && b <= small.avail
            && AllEnabled(Step(Wide, s, Commit(a + b)), ks)
            && Step(Wide, small, Commit(b)) == Run(Wide, Step(Wide, s, Commit(a + b)), ks)
    decreases |ks|
  {
    StepAddressed(s, Commit(a));
    hide Step, Addressed, Slot;
    if ks == [] {
      BatchCommit(s, a, b);
    } else {
      var t, k := ks[..|ks| - 1], ks[|ks| - 1];
      BatchCommitOverlapped(s, a, b, t);
      var small := Run(Wide, Step(Wide, s, Commit(a)), t);
      CommitLate(small, k, b);
      StepAddressed(small, k);
    }
  }
}
