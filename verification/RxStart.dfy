/** The start of a receive socket: `Socket::new` gives it the private fields of a transmit socket, which is not the
    start that the receive protocol needs. */
module RxStart {
  import opened Words
  import opened Slices
  import opened Umem
  import opened RxMachine
  import opened RxInvariant
  import opened RxWrap
  import opened RxCommit

  /** The start over the rings that `create_socket` fills and publishes, for a choice of the private fields. */
  function Chosen(n: nat, base: nat, stale: seq<XdpDesc>, umem: seq<byte>, avail: u32, prod: u32): (s: Rx)
    requires n > 0 && |stale| == n
    ensures Shape(s)
  {
    AsBuilt(n, base, stale, umem).(avail := avail, prod := prod)
  }

  /** What a user sees between calls: all available packets were delivered, and the frame of each packet given back is
      published to the kernel again, on top of the `n` it had at first. */
  predicate Kept(m: Mode, s: Rx) {
    s.pc.Idle? ==> s.avail <= Sub(m, |s.delivered|, s.cons) && s.fProd == Add(m, s.cons, s.n)
  }

  /** The choice keeps that promise in every run if and only if nothing is available and the Fill producer is at `n`, on
      words as on counters.  `Socket::new` chooses otherwise: `n` available and the Fill producer at 0. */
  lemma {:induction false} GoodStartsExactly(m: Mode, n: nat, base: nat, stale: seq<XdpDesc>, umem: seq<byte>,
                                             avail: u32, prod: u32)
    requires Pooled(n, base, stale, umem) && PowerOfTwo(n)
    ensures (forall tr: seq<RxLabel> :: Kept(m, Run(m, Chosen(n, base, stale, umem, avail, prod), tr)))
            <==> avail == 0 && prod == n
  {
    hide PowerOfTwo;
    var s := Chosen(n, base, stale, umem, avail, prod);
    if avail == 0 && prod == n {
      forall tr: seq<RxLabel>
        ensures Kept(m, Run(m, s, tr))
      {
        GoodStart(m, n, base, stale, umem, tr);
      }
    } else {
      var tr := BadStart(m, n, base, stale, umem, avail, prod);
      assert !Kept(m, Run(m, s, tr));
    }
  }

  /** With packets available the promise is broken at once, with another Fill producer by a commit of nothing. */
  lemma BadStart(m: Mode, n: nat, base: nat, stale: seq<XdpDesc>, umem: seq<byte>, avail: u32, prod: u32)
    returns (tr: seq<RxLabel>)
    requires Pooled(n, base, stale, umem) && !(avail == 0 && prod == n)
    ensures !Kept(m, Run(m, Chosen(n, base, stale, umem, avail, prod), tr))
  {
    if avail != 0 {
      tr := [];
    } else {
      tr := CallLabels(0);
      CommitCall(m, Chosen(n, base, stale, umem, avail, prod), 0);
    }
  }

  lemma GoodStart(m: Mode, n: nat, base: nat, stale: seq<XdpDesc>, umem: seq<byte>, tr: seq<RxLabel>)
    requires Pooled(n, base, stale, umem) && PowerOfTwo(n)
    ensures Kept(m, Run(m, WellFormed(n, base, stale, umem), tr))
  {
    hide PowerOfTwo, Run, Slot, Kept;
    var s := WellFormed(n, base, stale, umem);
    assert Counts(s) && Narrow(s) == s;
    RunSimulates(s, tr);
    KeptOnWords(Run(Wide, s, tr));
  }

  lemma KeptOnWords(w: Rx)
    requires Counts(w)
    ensures Kept(Wide, w) && Kept(U32, Narrow(w))
  {
    hide Slot, Wrap;
    WrapAdd(w.cons, w.n);
    CountLessWord(w.kRx, w.cons);
  }

  lemma CountLessWord(x: int, y: int)
    requires 0 <= x - y < TWO32
    ensures Sub(U32, x, Wrap(y)) == x - y
  {
  }

  /** From the state as built, the private Fill producer never gets ahead of the RX consumer, in any run on words. */
  lemma {:induction false} GapStays(n: nat, base: nat, stale: seq<XdpDesc>, umem: seq<byte>, tr: seq<RxLabel>)
    requires Pooled(n, base, stale, umem)
    ensures var r := Run(U32, AsBuilt(n, base, stale, umem), tr);
            r.prod == r.cons && 0 <= r.cons < TWO32 && (r.pc.Refilling? ==> r.xCons == r.cons)
    decreases |tr|
  {
    hide Slot, PacketOf, Overwrite, OwnRegionKept;
    if tr != [] {
      GapStays(n, base, stale, umem, tr[..|tr| - 1]);
    }
  }

  /** So whenever a `commit_` publishes the Fill producer, wherever the kernel ran in it, it is `n` entries short: it
      equals the RX consumer. */
  lemma CommitFallsShort(n: nat, base: nat, stale: seq<XdpDesc>, umem: seq<byte>, tr: seq<RxLabel>)
    requires Pooled(n, base, stale, umem)
    requires Run(U32, AsBuilt(n, base, stale, umem), tr).pc.Refilling?
    ensures var r := Run(U32, AsBuilt(n, base, stale, umem), tr + [StoreProducer]);
            r.pc.Idle? && r.fProd == r.cons == r.xCons
  {
    hide Slot, AsBuilt, Wrap;
    GapStays(n, base, stale, umem, tr);
    RunSnoc(U32, AsBuilt(n, base, stale, umem), tr, StoreProducer);
    hide Run;
  }

  predicate CommitsNothing(l: RxLabel) {
    IsKernel(l) || l.Seek? || l.Peek?
  }

  lemma {:induction false} UntouchedBeforeCommit(n: nat, base: nat, stale: seq<XdpDesc>, umem: seq<byte>,
                                                 tr: seq<RxLabel>)
    requires Pooled(n, base, stale, umem) && forall i | 0 <= i < |tr| :: CommitsNothing(tr[i])
    ensures var r := Run(U32, AsBuilt(n, base, stale, umem), tr);
            r.pc.Idle? && r.cons == 0 && r.prod == 0 && r.fProd == n
    decreases |tr|
  {
    hide Slot, PacketOf, Overwrite, OwnRegionKept;
    if tr != [] {
      UntouchedBeforeCommit(n, base, stale, umem, tr[..|tr| - 1]);
      assert CommitsNothing(tr[|tr| - 1]);
    }
  }

  /** Within the first `commit_` of `c` packets from the state as built, or after it. */
  predicate FirstCommit(n: nat, c: nat, r: Rx) {
    && r.prod == r.cons && c < TWO32
    && match r.pc
       case Idle => r.cons == c && r.fProd == c
       case Moving(count, left) => count == c && left <= c && r.cons == c - left && r.fProd == n
       case Carrying(count, left, _) => count == c && left <= c && r.cons == c - left && r.fProd == n
       case Releasing(count) => count == c && r.cons == c && r.fProd == n
       case Refilling => r.cons == c && r.fProd == n
  }

  lemma FirstCommitStep(n: nat, c: nat, r: Rx, l: RxLabel)
    requires Shape(r) && FirstCommit(n, c, r) && !l.CommitStart?
    ensures FirstCommit(n, c, Step(U32, r, l))
  {
    hide Slot, PacketOf, Overwrite, OwnRegionKept, Without;
  }

  lemma {:induction false} FirstCommitRuns(n: nat, c: nat, r: Rx, ks: seq<RxLabel>)
    requires Shape(r) && FirstCommit(n, c, r) && forall i | 0 <= i < |ks| :: !ks[i].CommitStart?
    ensures FirstCommit(n, c, Run(U32, r, ks))
    decreases |ks|
  {
    hide Step, FirstCommit;
    if ks != [] {
      FirstCommitRuns(n, c, r, ks[..|ks| - 1]);
      FirstCommitStep(n, c, Run(U32, r, ks[..|ks| - 1]), ks[|ks| - 1]);
    }
  }

  lemma {:induction false} NoCommitRuns(r: Rx, ks: seq<RxLabel>)
    requires Shape(r) && r.pc.Idle? && forall i | 0 <= i < |ks| :: !ks[i].CommitStart?
    ensures Run(U32, r, ks).pc.Idle? && Run(U32, r, ks).fProd == r.fProd
    decreases |ks|
  {
    hide Slot, PacketOf, Overwrite, OwnRegionKept, Without;
    if ks != [] {
      NoCommitRuns(r, ks[..|ks| - 1]);
      assert !ks[|ks| - 1].CommitStart?;
    }
  }

  /** Whatever is sought, peeked and received before, and wherever the kernel runs in the call: the first `commit_(count)`
      moves the published Fill producer back if and only if it is accepted and `count as u32` is less than `n`; then it
      ends at `count as u32`. */
  lemma {:induction false} FirstCommitGoesBack(n: nat, base: nat, stale: seq<XdpDesc>, umem: seq<byte>,
                                               tr: seq<RxLabel>, count: nat, ks: seq<RxLabel>)
    requires Pooled(n, base, stale, umem) && forall i | 0 <= i < |tr| :: CommitsNothing(tr[i])
    requires forall i | 0 <= i < |ks| :: !ks[i].CommitStart?
    ensures var r := Run(U32, AsBuilt(n, base, stale, umem), tr);
            var q := Run(U32, r, [CommitStart(count)] + ks);
            && r.pc.Idle? && r.fProd == n
            && (q.pc.Idle? ==> q.fProd == if Wrap(count) <= r.avail then Wrap(count) else n)
            && (q.pc.Idle? ==> (q.fProd < r.fProd <==> Wrap(count) <= r.avail && Wrap(count) < n))
  {
    hide AsBuilt, Run, Slot, Wrap;
    UntouchedBeforeCommit(n, base, stale, umem, tr);
    var r, c := Run(U32, AsBuilt(n, base, stale, umem), tr), Wrap(count);
    RunCons(U32, r, CommitStart(count), ks);
    if c <= r.avail {
      assert FirstCommit(n, c, Started(r, c));
      FirstCommitRuns(n, c, Started(r, c), ks);
    } else {
      NoCommitRuns(r, ks);
    }
  }

  /** Such a call does end: undisturbed, for one. */
  lemma FirstCommitEnds(n: nat, base: nat, stale: seq<XdpDesc>, umem: seq<byte>, count: nat)
    requires Pooled(n, base, stale, umem) && Wrap(count) <= n
    ensures Run(U32, AsBuilt(n, base, stale, umem), CallLabels(count)).pc.Idle?
    ensures Run(U32, AsBuilt(n, base, stale, umem), CallLabels(count)).fProd == Wrap(count)
  {
    hide Slot, Turns, Run, CallLabels, Wrap;
    var s := AsBuilt(n, base, stale, umem);
    CommitCall(U32, s, count);
    TurnsKeep(U32, s, Wrap(count));
    WrapWord(0);
    WrapWord(Wrap(count));
  }

  /** A commit right at the start succeeds although nothing was received, and replaces the frames in the Fill ring by
      whatever the RX ring held before. */
  lemma CommitAtStart(n: nat, base: nat, stale: seq<XdpDesc>, umem: seq<byte>, c: nat, k: nat)
    requires Pooled(n, base, stale, umem) && n <= FRAME_COUNT && k < c <= n
    ensures var r := Run(Wide, AsBuilt(n, base, stale, umem), CallLabels(c));
            && r.delivered == [] && r.pc.Idle? && r.avail == n - c
            && At(r.fDesc, k) == At(stale, k).addr
  {
    hide Slot, Turns, Run, CallLabels;
    var s := AsBuilt(n, base, stale, umem);
    CommitCall(Wide, s, c);
    TurnsKeep(Wide, s, c);
    TurnsFill(s, c, k);
  }

  /** From a well-formed start the published Fill producer never goes back. */
  lemma {:induction false} FillNeverGoesBack(s: Rx, tr: seq<RxLabel>)
    requires Counts(s)
    ensures Counts(Run(Wide, s, tr)) && s.fProd <= Run(Wide, s, tr).fProd
    decreases |tr|
  {
    if tr != [] {
      FillNeverGoesBack(s, tr[..|tr| - 1]);
      StepCounts(Run(Wide, s, tr[..|tr| - 1]), tr[|tr| - 1]);
    }
    hide Slot, PacketOf, Overwrite, OwnRegionKept;
  }
}
