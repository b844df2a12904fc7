/** What one call of the receive `commit_` does, and how batches of calls compose. */
module RxCommit {
  import opened Words
  import opened Slices
  import opened Umem
  import opened RxMachine
  import opened RxInvariant

  /** One turn of the loop: the address of the oldest packet goes to the Fill ring. */
  function Turn(m: Mode, s: Rx): (r: Rx)
    requires Shape(s)
    ensures Shape(r) && r.n == s.n
  {
    s.(fDesc := s.fDesc[Slot(m, s.n, s.prod) := s.xDesc[Slot(m, s.n, s.cons)].addr],
       cons := Add(m, s.cons, 1), prod := Add(m, s.prod, 1))
  }

  function Turns(m: Mode, s: Rx, c: nat): (r: Rx)
    requires Shape(s)
    ensures Shape(r) && r.n == s.n
  {
    if c == 0 then s else Turn(m, Turns(m, s, c - 1))
  }

  /** The state after giving back `c` packets. */
  function GivenBack(m: Mode, s: Rx, c: nat): (r: Rx)
    requires Shape(s)
    ensures Shape(r) && r.n == s.n
  {
    Published(Turns(m, s, c), s.avail - c)
  }

  function Published(s: Rx, avail: int): Rx {
    s.(avail := avail, xCons := s.cons, fProd := s.prod)
  }

  /** The labels of `c` turns of the loop, and of a whole call. */
  function TurnLabels(c: nat): seq<RxLabel> {
    if c == 0 then [] else TurnLabels(c - 1) + [CommitRead] + [CommitWrite]
  }

  function CallLabels(count: nat): seq<RxLabel> {
    [CommitStart(count)] + TurnLabels(Wrap(count)) + [StoreConsumer] + [StoreProducer]
  }

  /** Between two turns: `j` of `c` packets have been moved. */
  function Midway(m: Mode, s: Rx, c: nat, j: nat): Rx
    requires Shape(s) && j <= c
  {
    Turns(m, s, j).(pc := if j == c then Releasing(c) else Moving(c, c - j))
  }

  lemma {:induction false} TurnsKeep(m: Mode, s: Rx, c: nat)
    requires Shape(s)
    ensures var r := Turns(m, s, c);
            && r == s.(fDesc := r.fDesc, cons := r.cons, prod := r.prod)
            && (m.Wide? ==> r.cons == s.cons + c && r.prod == s.prod + c)
            && (m.U32? && s.cons == Wrap(s.cons) && s.prod == Wrap(s.prod)
                ==> r.cons == Wrap(s.cons + c) && r.prod == Wrap(s.prod + c))
  {
    hide Slot, Wrap;
    if c > 0 {
      TurnsKeep(m, s, c - 1);
      WrapAdd(s.cons + (c - 1), 1);
      WrapAdd(s.prod + (c - 1), 1);
    }
  }

  lemma MidwayNext(m: Mode, s: Rx, c: nat, j: nat)
    requires Shape(s) && 0 < j <= c
    ensures Midway(m, s, c, j - 1).pc.Moving?
    ensures Moved(m, Read(m, Midway(m, s, c, j - 1))) == Midway(m, s, c, j)
  {
    hide Slot, Wrap;
    TurnsKeep(m, s, j - 1);
  }

  lemma TurnRuns(m: Mode, s: Rx, tr: seq<RxLabel>)
    requires Shape(s) && Run(m, s, tr).pc.Moving? && Run(m, s, tr).pc.left > 0
    ensures Run(m, s, tr + [CommitRead] + [CommitWrite]) == Moved(m, Read(m, Run(m, s, tr)))
  {
    hide Slot, Wrap;
    RunSnoc(m, s, tr, CommitRead);
    RunSnoc(m, s, tr + [CommitRead], CommitWrite);
  }

  lemma {:induction false} LoopRuns(m: Mode, s: Rx, c: nat, j: nat)
    requires Shape(s) && j <= c
    ensures Run(m, Midway(m, s, c, 0), TurnLabels(j)) == Midway(m, s, c, j)
  {
    hide Step, Moved, Read, Turns, Turn;
    if j > 0 {
      LoopRuns(m, s, c, j - 1);
      MidwayNext(m, s, c, j);
      TurnRuns(m, Midway(m, s, c, 0), TurnLabels(j - 1));
    }
  }

  /** A call that the kernel does not overtake.  `count` is truncated to 32 bits, as in the program. */
  lemma CommitCall(m: Mode, s: Rx, count: nat)
    requires Shape(s) && s.pc.Idle? && Wrap(count) <= s.avail
    ensures Run(m, s, CallLabels(count)) == GivenBack(m, s, Wrap(count))
  {
    hide Slot, Wrap;
    var c := Wrap(count);
    var a := [CommitStart(count)] + TurnLabels(c);
    RunSnoc(m, s, a, StoreConsumer);
    RunSnoc(m, s, a + [StoreConsumer], StoreProducer);
    RunCons(m, s, CommitStart(count), TurnLabels(c));
    assert Step(m, s, CommitStart(count)) == Midway(m, s, c, 0);
    LoopRuns(m, s, c, c);
    TurnsKeep(m, s, c);
    hide Run;
  }

  /** Where the addresses end up: Fill entry `prod + j` is the address of packet `cons + j`; nothing else changes. */
  lemma {:induction false} TurnsFill(s: Rx, c: nat, k: int)
    requires Shape(s) && s.prod + c <= k + s.n && k < s.prod + s.n
    ensures At(Turns(Wide, s, c).fDesc, k)
            == if s.prod <= k < s.prod + c then At(s.xDesc, s.cons + (k - s.prod)).addr else At(s.fDesc, k)
  {
    hide Slot;
    if c > 0 {
      TurnsFill(s, c - 1, k);
      TurnsKeep(Wide, s, c - 1);
      if k != s.prod + (c - 1) {
        SlotsApart(s.n, k, s.prod + (c - 1));
      }
    }
  }

  /** What a call gives back: the frames of the oldest packets, in order, behind the Fill entries there are. */
  lemma CommitRefills(o: Rx, c: nat)
    requires Counts(o) && o.pc.Idle? && c <= o.avail
    ensures var r := GivenBack(Wide, o, c);
            && r.cons == o.cons + c && r.avail == o.avail - c && r.xCons == r.cons && r.fProd == r.prod == o.prod + c
            && forall k | o.prod + c - o.n <= k < o.prod + o.n ::
                 At(r.fDesc, k) == if o.prod <= k < o.prod + c then At(o.xDesc, o.cons + (k - o.prod)).addr
                                   else At(o.fDesc, k)
  {
    hide Slot, Turns;
    TurnsKeep(Wide, o, c);
    forall k | o.prod + c - o.n <= k < o.prod + o.n
      ensures At(GivenBack(Wide, o, c).fDesc, k)
              == if o.prod <= k < o.prod + c then At(o.xDesc, o.cons + (k - o.prod)).addr else At(o.fDesc, k)
    {
      TurnsFill(o, c, k);
    }
  }

  // ----------------------------------------------------------------------------------------------------------------
  // Batches
  // ----------------------------------------------------------------------------------------------------------------

  lemma {:induction false} TurnsSplit(m: Mode, s: Rx, a: nat, b: nat)
    requires Shape(s)
    ensures Turns(m, s, a + b) == Turns(m, Turns(m, s, a), b)
  {
    hide Turn;
    if b > 0 {
      TurnsSplit(m, s, a, b - 1);
      assert a + b - 1 == a + (b - 1);
    }
  }

  /** The loop does not look at what the call publishes. */
  lemma {:induction false} TurnsAfterPublishing(m: Mode, s: Rx, c: nat, avail: int)
    requires Shape(s)
    ensures Turns(m, Published(s, avail), c)
            == Turns(m, s, c).(avail := avail, xCons := s.cons, fProd := s.prod)
  {
    hide Slot;
    if c > 0 {
      TurnsAfterPublishing(m, s, c - 1, avail);
    }
  }

  /** `commit_n(a + b)` is `commit_n(a)` followed by `commit_n(b)`, on words as on counters. */
  lemma BatchCommit(m: Mode, s: Rx, a: nat, b: nat)
    requires Shape(s) && s.pc.Idle? && a + b <= s.avail && a + b < TWO32
    ensures Run(m, Run(m, s, CallLabels(a)), CallLabels(b)) == Run(m, s, CallLabels(a + b))
  {
    hide Slot, Run, CallLabels, Turns;
    CommitCall(m, s, a);
    CommitCall(m, s, a + b);
    TurnsKeep(m, s, a);
    assert GivenBack(m, s, a).pc.Idle? && GivenBack(m, s, a).avail == s.avail - a;
    hide GivenBack;
    CommitCall(m, GivenBack(m, s, a), b);
    GiveBackTwice(m, s, a, b);
  }

  lemma GiveBackTwice(m: Mode, s: Rx, a: nat, b: nat)
    requires Shape(s)
    ensures GivenBack(m, GivenBack(m, s, a), b) == GivenBack(m, s, a + b)
  {
    hide Slot, Turns;
    TurnsSplit(m, s, a, b);
    TurnsAfterPublishing(m, Turns(m, s, a), b, s.avail - a);
    TurnsKeep(m, Turns(m, s, a), b);
  }

  /** A turn and a kernel step touch different slots. */
  lemma TurnLate(s: Rx, k: RxLabel)
    requires Shape(s) && IsKernel(k) && Enabled(Wide, s, k)
    requires s.prod == s.cons + s.n && s.cons < s.kRx <= s.kFill < s.prod + s.n
    requires k.KTake? ==> s.kFill < s.prod
    requires k.KDeliver? ==> s.kRx < s.prod
    ensures Enabled(Wide, Turn(Wide, s), k)
    ensures Step(Wide, Turn(Wide, s), k) == Turn(Wide, Step(Wide, s, k))
  {
    hide Slot, PacketOf, Overwrite, OwnRegionKept, Without;
    match k
    case KTake => SlotsApart(s.n, s.kFill, s.prod);
    case KDeliver(_, _, _) => SlotsApart(s.n, s.cons, s.kRx);
    case _ =>
  }

  lemma {:induction false} TurnsLate(s: Rx, k: RxLabel, c: nat)
    requires Shape(s) && IsKernel(k) && Enabled(Wide, s, k)
    requires s.prod == s.cons + s.n && s.cons + c <= s.kRx <= s.kFill <= s.prod
    requires k.KTake? || k.KDeliver? ==> s.kRx < s.prod && (k.KTake? ==> s.kFill < s.prod)
    ensures Enabled(Wide, Turns(Wide, s, c), k)
    ensures Step(Wide, Turns(Wide, s, c), k) == Turns(Wide, Step(Wide, s, k), c)
  {
    hide Step, Turn, Enabled;
    if c > 0 {
      TurnsLate(s, k, c - 1);
      TurnsKeep(Wide, s, c - 1);
      TurnLate(Turns(Wide, s, c - 1), k);
    }
  }

  /** What the kernel can do before a commit it can do after it, with the same outcome. */
  lemma CommitLate(s: Rx, k: RxLabel, b: nat)
    requires Counts(s) && s.pc.Idle? && b <= s.avail && IsKernel(k) && Enabled(Wide, s, k)
    ensures Step(Wide, s, k).pc.Idle? && b <= Step(Wide, s, k).avail
    ensures GivenBack(Wide, Step(Wide, s, k), b) == Step(Wide, GivenBack(Wide, s, b), k)
    ensures Enabled(Wide, GivenBack(Wide, s, b), k)
  {
    hide Slot, PacketOf, Overwrite, OwnRegionKept, Turns;
    TurnsLate(s, k, b);
    TurnsKeep(Wide, s, b);
    TurnsKeep(Wide, Step(Wide, s, k), b);
  }

  predicate AllEnabled(s: Rx, tr: seq<RxLabel>)
    requires Shape(s)
    decreases |tr|
  {
    tr == [] || (AllEnabled(s, tr[..|tr| - 1]) && Enabled(Wide, Run(Wide, s, tr[..|tr| - 1]), tr[|tr| - 1]))
  }

  /** A call keeps the invariant. */
  lemma {:induction false} CallCounts(s: Rx, tr: seq<RxLabel>)
    requires Counts(s)
    ensures Counts(Run(Wide, s, tr))
    decreases |tr|
  {
    hide Step;
    if tr != [] {
      CallCounts(s, tr[..|tr| - 1]);
      StepCounts(Run(Wide, s, tr[..|tr| - 1]), tr[|tr| - 1]);
    }
  }

  lemma GiveBackCounts(s: Rx, c: nat)
    requires Counts(s) && s.pc.Idle? && c <= s.avail
    ensures Counts(GivenBack(Wide, s, c)) && GivenBack(Wide, s, c).pc.Idle?
    ensures GivenBack(Wide, s, c).avail == s.avail - c
  {
    hide Slot, CallLabels, Run;
    CommitCall(Wide, s, c);
    CallCounts(s, CallLabels(c));
    TurnsKeep(Wide, s, c);
  }

  /** A kernel that runs between the two smaller commits does only what it could do after the larger one: it sees a
      prefix of what that one publishes, and everything ends in the same state. */
  lemma {:induction false} BatchCommitOverlapped(s: Rx, a: nat, b: nat, ks: seq<RxLabel>)
    requires Counts(s) && s.pc.Idle? && a + b <= s.avail
    requires (forall i | 0 <= i < |ks| :: IsKernel(ks[i])) && AllEnabled(GivenBack(Wide, s, a), ks)
    ensures var small := Run(Wide, GivenBack(Wide, s, a), ks);
            && Counts(small) && small.pc.Idle? && b <= small.avail
            && AllEnabled(GivenBack(Wide, s, a + b), ks)
            && GivenBack(Wide, small, b) == Run(Wide, GivenBack(Wide, s, a + b), ks)
    decreases |ks|
  {
    hide Step, GivenBack;
    GiveBackCounts(s, a);
    if ks == [] {
      GiveBackTwice(Wide, s, a, b);
    } else {
      var t, k := ks[..|ks| - 1], ks[|ks| - 1];
      BatchCommitOverlapped(s, a, b, t);
      var small := Run(Wide, GivenBack(Wide, s, a), t);
      CommitLate(small, k, b);
      StepCounts(small, k);
    }
  }
}
