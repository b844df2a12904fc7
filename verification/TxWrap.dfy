/** The transmit protocol on wrapping 32-bit indices behaves as it does on unbounded counters. */
module TxWrap {
  import opened Words
  import opened Slices
  import opened Umem
  import opened TxMachine
  import opened TxInvariant

  function NarrowPc(pc: TxPc): TxPc {
    match pc
    case Idle => Idle
    case Polling(count, snap) => Polling(count, Wrap(snap))
    case Claimed(count, snap, addr) => Claimed(count, Wrap(snap), addr)
    case Released(count, snap, addr) => Released(count, Wrap(snap), addr)
  }

  /** The state as the program holds it: every index reduced to a 32-bit word. */
  function Narrow(s: Tx): (r: Tx)
    ensures Shape(s) <==> Shape(r)
  {
    s.(prod := Wrap(s.prod), cons := Wrap(s.cons), pc := NarrowPc(s.pc),
       xProd := Wrap(s.xProd), xCons := Wrap(s.xCons), cProd := Wrap(s.cProd), cCons := Wrap(s.cCons),
       kTaken := Wrap(s.kTaken), kDone := Wrap(s.kDone))
  }

  lemma SameSlots(s: Tx)
    requires Counts(s) && PowerOfTwo(s.n)
    ensures Slot(U32, s.n, Wrap(s.cons)) == Slot(Wide, s.n, s.cons)
    ensures Slot(U32, s.n, Wrap(s.kTaken)) == Slot(Wide, s.n, s.kTaken)
    ensures Slot(U32, s.n, Wrap(s.kDone)) == Slot(Wide, s.n, s.kDone)
    ensures StoreSlot(U32, Narrow(s)) == StoreSlot(Wide, s)
  {
    hide Slot, Wrap, PowerOfTwo;
    SlotOfWord(s.n, s.cons);
    SlotOfWord(s.n, s.kTaken);
    SlotOfWord(s.n, s.kDone);
    SlotOfSum(s.n, s.prod, if s.repaired then s.avail else 0);
  }

  lemma SameAvailSlot(s: Tx, i: nat)
    requires Shape(s) && s.n <= FRAME_COUNT && PowerOfTwo(s.n)
    ensures AvailSlot(U32, Narrow(s), i) == AvailSlot(Wide, s, i)
  {
    SlotOfSum(s.n, s.prod, i);
  }

  lemma SamePackets(s: Tx, c: nat)
    requires Shape(s) && s.n <= FRAME_COUNT && PowerOfTwo(s.n)
    ensures Committing(U32, Narrow(s), c) == Committing(Wide, s, c)
  {
    forall i | 0 <= i < c
      ensures Committing(U32, Narrow(s), c)[i] == Committing(Wide, s, c)[i]
    {
      SameAvailSlot(s, i);
    }
  }

  lemma SameEnabled(s: Tx, l: TxLabel)
    requires Counts(s) && PowerOfTwo(s.n)
    ensures Enabled(U32, Narrow(s), l) <==> Enabled(Wide, s, l)
  {
    hide Slot, Wrap, PowerOfTwo, OwnRegionKept;
    DistanceExact(s.xProd, s.kTaken);
    match l
    case Write(i, off, bytes) => SameAvailSlot(s, i);
    case _ =>
  }

  /** One step on words is the same step on counters. */
  lemma StepSimulates(s: Tx, l: TxLabel)
    requires Counts(s) && PowerOfTwo(s.n)
    ensures Step(U32, Narrow(s), l) == Narrow(Step(Wide, s, l))
  {
    hide Slot, Wrap, PowerOfTwo, OwnRegionKept, Overwrite, Committing, PacketOf, Without;
    SameEnabled(s, l);
    if Enabled(Wide, s, l) {
      SameSlots(s);
      match l
      case SeekStart(_) => DistanceExact(s.cProd, s.cons);
      case SeekRead => WrapAdd(s.cons, 1);
      case SeekStore => DistanceExact(s.pc.snap, s.cons);
      case SetLen(i, len) => SameAvailSlot(s, i);
      case Write(i, off, bytes) => SameAvailSlot(s, i);
      case Commit(count) =>
        SamePackets(s, Wrap(count));
        WrapAdd(s.prod, Wrap(count));
      case KTake => WrapAdd(s.kTaken, 1);
      case KComplete(_) => WrapAdd(s.kDone, 1);
      case _ =>
    }
  }

  /** A whole run on words is the run on counters, across any number of wraps, whatever counts the calls use. */
  lemma {:induction false} RunSimulates(s: Tx, tr: seq<TxLabel>)
    requires Counts(s) && Addressed(s) && PowerOfTwo(s.n)
    ensures Run(U32, Narrow(s), tr) == Narrow(Run(Wide, s, tr))
    decreases |tr|
  {
    if tr != [] {
      var shorter := tr[..|tr| - 1];
      RunSimulates(s, shorter);
      TxCounting(s, shorter);
      StepSimulates(Run(Wide, s, shorter), tr[|tr| - 1]);
    }
  }

  /** Every wrapped distance between two indices of the protocol is the true distance, and two indices are equal as
      words only when they are equal. */
  lemma TxDistances(s: Tx)
    requires Counts(s)
    ensures Sub(U32, Narrow(s).prod, Narrow(s).cons) == s.n - s.avail - (if InTransit(s) then 1 else 0)
    ensures Sub(U32, Narrow(s).cProd, Narrow(s).cons) == s.cProd - s.cons <= s.n - s.avail
    ensures Sub(U32, Narrow(s).xProd, Narrow(s).kTaken) == s.xProd - s.kTaken
    ensures Sub(U32, Narrow(s).kDone, Narrow(s).cCons) == s.kDone - s.cCons <= s.n
    ensures Narrow(s).cProd == Narrow(s).cons <==> s.cProd == s.cons
    ensures Narrow(s).kTaken == Narrow(s).xProd <==> s.kTaken == s.xProd
  {
    DistanceExact(s.prod, s.cons);
    DistanceExact(s.cProd, s.cons);
    DistanceExact(s.xProd, s.kTaken);
    DistanceExact(s.kDone, s.cCons);
  }
}
