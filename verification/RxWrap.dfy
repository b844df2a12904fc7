/** The receive protocol on wrapping 32-bit indices behaves as it does on unbounded counters. */
module RxWrap {
  import opened Words
  import opened Slices
  import opened Umem
  import opened RxMachine
  import opened RxInvariant

  /** The state as the program holds it: every index reduced to a 32-bit word. */
  function Narrow(s: Rx): (r: Rx)
    ensures Shape(s) <==> Shape(r)
  {
    s.(prod := Wrap(s.prod), cons := Wrap(s.cons), xProd := Wrap(s.xProd), xCons := Wrap(s.xCons),
       fProd := Wrap(s.fProd), fCons := Wrap(s.fCons), kFill := Wrap(s.kFill), kRx := Wrap(s.kRx))
  }

  lemma SameAvailSlot(s: Rx, i: nat)
    requires Shape(s) && s.n <= FRAME_COUNT && PowerOfTwo(s.n)
    ensures AvailSlot(U32, Narrow(s), i) == AvailSlot(Wide, s, i)
  {
    SlotOfSum(s.n, s.cons, i);
  }

  /** One step on words is the same step on counters. */
  lemma StepSimulates(s: Rx, l: RxLabel)
    requires Counts(s) && PowerOfTwo(s.n)
    ensures Step(U32, Narrow(s), l) == Narrow(Step(Wide, s, l))
  {
    hide Slot, Wrap, PowerOfTwo, OwnRegionKept, Overwrite, PacketOf, Without;
    DistanceExact(s.fProd, s.kFill);
    if Enabled(Wide, s, l) {
      match l
      case Seek(_) => DistanceExact(s.xProd, s.cons);
      case Peek(i) => SameAvailSlot(s, i);
      case CommitRead => SlotOfWord(s.n, s.cons);
      case CommitWrite =>
        SlotOfWord(s.n, s.prod);
        WrapAdd(s.cons, 1);
        WrapAdd(s.prod, 1);
      case KTake =>
        SlotOfWord(s.n, s.kFill);
        WrapAdd(s.kFill, 1);
      case KDeliver(_, _, _) =>
        SlotOfWord(s.n, s.kRx);
        WrapAdd(s.kRx, 1);
      case _ =>
    }
  }

  /** A whole run on words is the run on counters, across any number of wraps. */
  lemma {:induction false} RunSimulates(s: Rx, tr: seq<RxLabel>)
    requires Counts(s) && PowerOfTwo(s.n)
    ensures Run(U32, Narrow(s), tr) == Narrow(Run(Wide, s, tr)) && Counts(Run(Wide, s, tr))
    decreases |tr|
  {
    hide Step, PowerOfTwo;
    if tr != [] {
      var shorter := tr[..|tr| - 1];
      RunSimulates(s, shorter);
      StepSimulates(Run(Wide, s, shorter), tr[|tr| - 1]);
      StepCounts(Run(Wide, s, shorter), tr[|tr| - 1]);
    }
  }

  /** Every wrapped distance between two indices of the protocol is the true distance, and two indices are equal as
      words only when they are equal. */
  lemma RxDistances(s: Rx)
    requires Counts(s)
    ensures Sub(U32, Narrow(s).prod, Narrow(s).cons) == s.n
    ensures Sub(U32, Narrow(s).xProd, Narrow(s).cons) == s.xProd - s.cons <= s.n
    ensures Sub(U32, Narrow(s).fProd, Narrow(s).kFill) == s.fProd - s.kFill <= s.n
    ensures Sub(U32, Narrow(s).kRx, Narrow(s).xCons) == s.kRx - s.xCons <= s.n
    ensures Narrow(s).xProd == Narrow(s).cons <==> s.xProd == s.cons
    ensures Narrow(s).kFill == Narrow(s).fProd <==> s.kFill == s.fProd
  {
    DistanceExact(s.prod, s.cons);
    DistanceExact(s.xProd, s.cons);
    DistanceExact(s.fProd, s.kFill);
    DistanceExact(s.kRx, s.xCons);
  }
}
