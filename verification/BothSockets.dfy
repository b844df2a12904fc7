/** A transmit and a receive socket over one UMEM, as `Direction::Both` creates them.

    Each machine knows the other only through its `External` step, which may change any byte outside its own frames.
    Here the two share one memory, and the steps of each are shown to be nothing else to the other. */
module BothSockets {
  import opened Words
  import opened Slices
  import opened Umem
  import T = TxMachine
  import TI = TxInvariant
  import TW = TxWrap
  import TT = TxTheorems
  import R = RxMachine
  import RI = RxInvariant
  import RW = RxWrap

  datatype Both = Both(tx: T.Tx, rx: R.Rx)

  datatype BothLabel = OnTx(t: T.TxLabel) | OnRx(r: R.RxLabel)

  predicate Shape(b: Both) {
    T.Shape(b.tx) && R.Shape(b.rx)
  }

  /** One of the sockets, or its side of the kernel, moves; the memory is common. */
  function Step(m: Mode, b: Both, l: BothLabel): (r: Both)
    requires Shape(b)
    ensures Shape(r)
  {
    match l
    case OnTx(t) =>
      var tx := T.Step(m, b.tx, t);
      Both(tx, b.rx.(umem := tx.umem))
    case OnRx(r) =>
      var rx := R.Step(m, b.rx, r);
      Both(b.tx.(umem := rx.umem), rx)
  }

  function Run(m: Mode, b: Both, tr: seq<BothLabel>): (r: Both)
    requires Shape(b)
    ensures Shape(r)
    decreases |tr|
  {
    if tr == [] then b else Step(m, Run(m, b, tr[..|tr| - 1]), tr[|tr| - 1])
  }

  /** The label is a move of one of the two sockets or of the kernel, and reclaim spares the available descriptors. */
  predicate Inside(b: Both, l: BothLabel) {
    match l
    case OnTx(t) => !t.External? && TI.Sparing(b.tx, t)
    case OnRx(r) => !r.External?
  }

  predicate AllInside(b: Both, tr: seq<BothLabel>)
    requires Shape(b)
    decreases |tr|
  {
    tr == [] || (AllInside(b, tr[..|tr| - 1]) && Inside(Run(Wide, b, tr[..|tr| - 1]), tr[|tr| - 1]))
  }

  /** The label is a move of one of the two sockets or of the kernel, and a gentle call on the transmit side. */
  predicate Gentle(b: Both, l: BothLabel) {
    match l
    case OnTx(t) => !t.External? && TI.Gentle(b.tx, t)
    case OnRx(r) => !r.External?
  }

  predicate AllGentle(b: Both, tr: seq<BothLabel>)
    requires Shape(b)
    decreases |tr|
  {
    tr == [] || (AllGentle(b, tr[..|tr| - 1]) && Gentle(Run(Wide, b, tr[..|tr| - 1]), tr[|tr| - 1]))
  }

  lemma GentleStep(b: Both, l: BothLabel)
    requires Shape(b) && TI.Counts(b.tx) && TI.GentlePc(b.tx) && Gentle(b, l)
    ensures TI.Counts(Step(Wide, b, l).tx) && TI.GentlePc(Step(Wide, b, l).tx) && Inside(b, l)
  {
    hide T.Step, R.Step, Slot;
    if l.OnTx? {
      TI.GentleStep(b.tx, l.t);
    }
  }

  /** Gentle calls stay inside, wherever the kernel and the other socket run. */
  lemma {:induction false} GentleIsInside(b: Both, tr: seq<BothLabel>)
    requires Shape(b) && TI.Counts(b.tx) && TI.GentlePc(b.tx) && AllGentle(b, tr)
    ensures TI.Counts(Run(Wide, b, tr).tx) && TI.GentlePc(Run(Wide, b, tr).tx) && AllInside(b, tr)
    decreases |tr|
  {
    hide Step, TI.Counts, TI.GentlePc, Inside, Gentle;
    if tr != [] {
      GentleIsInside(b, tr[..|tr| - 1]);
      GentleStep(Run(Wide, b, tr[..|tr| - 1]), tr[|tr| - 1]);
    }
  }

  predicate PoolsApart(b: Both) {
    b.tx.base + b.tx.n <= b.rx.base || b.rx.base + b.rx.n <= b.tx.base
  }

  predicate Safe(b: Both) {
    && TI.Safe(b.tx) && RI.Safe(b.rx)
    && b.tx.umem == b.rx.umem && PoolsApart(b) && !b.tx.repaired
  }

  /** Writing inside one frame keeps every other pool of frames. */
  lemma OverwriteKeepsRegion(u: seq<byte>, at: nat, bytes: seq<byte>, base: nat, n: nat)
    requires at + |bytes| <= |u| && (base + n) * FRAME_SIZE <= |u|
    requires at + |bytes| <= base * FRAME_SIZE || (base + n) * FRAME_SIZE <= at
    ensures OwnRegionKept(base, n, u, Overwrite(u, at, bytes))
  {
    OverwriteElsewhere(u, at, bytes, base * FRAME_SIZE, n * FRAME_SIZE);
  }

  /** A step of the transmit side is an external step to a pool apart from its own. */
  lemma TxStaysInside(s: T.Tx, l: T.TxLabel, base: nat, n: nat)
    requires TI.Counts(s) && TI.Addressed(s) && !l.External?
    requires base + n <= FRAME_COUNT && (s.base + s.n <= base || base + n <= s.base)
    ensures OwnRegionKept(base, n, s.umem, T.Step(Wide, s, l).umem)
  {
    hide Slot, PacketOf, Overwrite, OwnRegionKept;
    if l.Write? && T.Enabled(Wide, s, l) {
      var a := s.xDesc[T.AvailSlot(Wide, s, l.i)].addr;
      OverwriteKeepsRegion(s.umem, a + l.off, l.bytes, base, n);
    } else {
      SameRegion(base, n, s.umem);
    }
  }

  lemma SameRegion(base: nat, n: nat, u: seq<byte>)
    requires (base + n) * FRAME_SIZE <= |u|
    ensures OwnRegionKept(base, n, u, u)
  {
  }

  /** A step of the receive side is an external step to a pool apart from its own. */
  lemma RxStaysInside(s: R.Rx, l: R.RxLabel, base: nat, n: nat)
    requires RI.Safe(s) && !l.External?
    requires base + n <= FRAME_COUNT && (s.base + s.n <= base || base + n <= s.base)
    ensures OwnRegionKept(base, n, s.umem, R.Step(Wide, s, l).umem)
  {
    hide Slot, PacketOf, Overwrite, OwnRegionKept, RI.Conserved;
    if l.KWrite? && R.Enabled(Wide, s, l) {
      RI.HeldIsOwn(s, l.j);
      OverwriteKeepsRegion(s.umem, s.held[l.j] * FRAME_SIZE + l.off, l.bytes, base, n);
    } else {
      SameRegion(base, n, s.umem);
    }
  }

  lemma TxExternal(s: T.Tx, u: seq<byte>)
    requires TI.Safe(s) && OwnRegionKept(s.base, s.n, s.umem, u)
    ensures TI.Safe(s.(umem := u))
  {
    assert T.Step(Wide, s, T.External(u)) == s.(umem := u);
    hide TI.Safe;
    TI.SafeStep(s, T.External(u));
  }

  lemma RxExternal(s: R.Rx, u: seq<byte>)
    requires RI.Safe(s) && OwnRegionKept(s.base, s.n, s.umem, u)
    ensures RI.Safe(s.(umem := u))
  {
    assert R.Step(Wide, s, R.External(u)) == s.(umem := u);
    hide RI.Safe;
    RI.SafeStep(s, R.External(u));
  }

  lemma StepSafe(b: Both, l: BothLabel)
    requires Safe(b) && Inside(b, l)
    ensures Safe(Step(Wide, b, l))
  {
    hide T.Step, R.Step, OwnRegionKept, TI.Owned, RI.Owned, TI.Faithful;
    match l
    case OnTx(t) =>
      TxStaysInside(b.tx, t, b.rx.base, b.rx.n);
      TI.SafeStep(b.tx, t);
      RxExternal(b.rx, T.Step(Wide, b.tx, t).umem);
    case OnRx(r) =>
      RxStaysInside(b.rx, r, b.tx.base, b.tx.n);
      RI.SafeStep(b.rx, r);
      TxExternal(b.tx, R.Step(Wide, b.rx, r).umem);
  }

  /** In every interleaving of transmit calls, receive calls and kernel steps over one memory in which reclaim spares the
      available descriptors, both sockets keep all their invariants: each pool is conserved and each packet keeps its
      bytes, whatever the other socket does. */
  lemma {:induction false} BothSafety(b: Both, tr: seq<BothLabel>)
    requires Safe(b) && AllInside(b, tr)
    ensures Safe(Run(Wide, b, tr)) && Run(Wide, b, tr).tx.repaired == b.tx.repaired
    decreases |tr|
  {
    assert Shape(b);
    hide TI.Safe, RI.Safe;
    if tr != [] {
      BothSafety(b, tr[..|tr| - 1]);
      StepSafe(Run(Wide, b, tr[..|tr| - 1]), tr[|tr| - 1]);
    }
  }

  // ----------------------------------------------------------------------------------------------------------------
  // What a run of the pair is to each of its halves
  // ----------------------------------------------------------------------------------------------------------------

  /** The run `tr` of the pair, seen by each half on its own: its own moves are as in `tr`, and each move of the other
      half is an external step to the memory that the other half has after it. */
  predicate Halves(m: Mode, tx: T.Tx, rx: R.Rx, tr: seq<BothLabel>, ts: seq<T.TxLabel>, rs: seq<R.RxLabel>)
    requires T.Shape(tx) && R.Shape(rx)
    decreases |tr|
  {
    && |ts| == |rs| == |tr|
    && (tr != [] ==>
          var i := |tr| - 1;
          && Halves(m, tx, rx, tr[..i], ts[..i], rs[..i])
          && match tr[i]
             case OnTx(t) => ts[i] == t && rs[i] == R.External(T.Run(m, tx, ts).umem)
             case OnRx(r) => rs[i] == r && ts[i] == T.External(R.Run(m, rx, rs).umem))
  }

  /** Both halves of a run of the pair are runs of the single machines, step by step: no move of a socket or of the kernel
      is lost or changed by the other socket. */
  lemma {:induction false} RunIsHalves(b: Both, tr: seq<BothLabel>)
    returns (ts: seq<T.TxLabel>, rs: seq<R.RxLabel>)
    requires Safe(b) && AllInside(b, tr)
    ensures Halves(Wide, b.tx, b.rx, tr, ts, rs)
    ensures Run(Wide, b, tr) == Both(T.Run(Wide, b.tx, ts), R.Run(Wide, b.rx, rs))
    decreases |tr|
  {
    assert Shape(b);
    if tr == [] {
      ts, rs := [], [];
    } else {
      var t, l := tr[..|tr| - 1], tr[|tr| - 1];
      assert AllInside(b, t) && Inside(Run(Wide, b, t), l);
      assert Run(Wide, b, tr) == Step(Wide, Run(Wide, b, t), l);
      hide Halves, Run, AllInside, Inside, Safe, Step, T.Run, R.Run, T.Step, R.Step;
      ts, rs := RunIsHalves(b, t);
      BothSafety(b, t);
      var tl, rl := HalfLabels(Run(Wide, b, t), l);
      HalvesSnoc(b.tx, b.rx, t, ts, rs, l, tl, rl);
      assert t + [l] == tr;
      ts, rs := ts + [tl], rs + [rl];
    }
  }

  lemma {:induction false} HalvesSnoc(tx: T.Tx, rx: R.Rx, tr: seq<BothLabel>, ts: seq<T.TxLabel>, rs: seq<R.RxLabel>,
                                      l: BothLabel, tl: T.TxLabel, rl: R.RxLabel)
    requires T.Shape(tx) && R.Shape(rx) && Halves(Wide, tx, rx, tr, ts, rs)
    requires match l
             case OnTx(t) => tl == t && rl == R.External(T.Step(Wide, T.Run(Wide, tx, ts), tl).umem)
             case OnRx(r) => rl == r && tl == T.External(R.Step(Wide, R.Run(Wide, rx, rs), rl).umem)
    ensures Halves(Wide, tx, rx, tr + [l], ts + [tl], rs + [rl])
    ensures T.Run(Wide, tx, ts + [tl]) == T.Step(Wide, T.Run(Wide, tx, ts), tl)
    ensures R.Run(Wide, rx, rs + [rl]) == R.Step(Wide, R.Run(Wide, rx, rs), rl)
  {
    hide T.Step, R.Step;
    T.RunSnoc(Wide, tx, ts, tl);
    R.RunSnoc(Wide, rx, rs, rl);
    assert (ts + [tl])[..|tr|] == ts && (rs + [rl])[..|tr|] == rs && (tr + [l])[..|tr|] == tr;
  }

  lemma HalfLabels(w: Both, l: BothLabel) returns (tl: T.TxLabel, rl: R.RxLabel)
    requires Safe(w) && Inside(w, l)
    ensures Step(Wide, w, l) == Both(T.Step(Wide, w.tx, tl), R.Step(Wide, w.rx, rl))
    ensures match l
            case OnTx(t) => tl == t && rl == R.External(T.Step(Wide, w.tx, tl).umem)
            case OnRx(r) => rl == r && tl == T.External(R.Step(Wide, w.rx, rl).umem)
  {
    match l
    case OnTx(t) =>
      tl, rl := t, R.External(T.Step(Wide, w.tx, t).umem);
      TxStaysInside(w.tx, t, w.rx.base, w.rx.n);
      hide T.Step, TI.Safe, RI.Safe, OwnRegionKept;
      assert R.Enabled(Wide, w.rx, rl);
    case OnRx(r) =>
      rl, tl := r, T.External(R.Step(Wide, w.rx, r).umem);
      RxStaysInside(w.rx, r, w.tx.base, w.tx.n);
      hide R.Step, TI.Safe, RI.Safe, OwnRegionKept;
      assert T.Enabled(Wide, w.tx, tl);
  }

  /** The same on words, with the same traces of the halves. */
  lemma {:induction false} HalvesOnWords(b: Both, tr: seq<BothLabel>, ts: seq<T.TxLabel>, rs: seq<R.RxLabel>)
    requires Safe(b) && AllInside(b, tr) && PowerOfTwo(b.tx.n) && PowerOfTwo(b.rx.n)
    requires Halves(Wide, b.tx, b.rx, tr, ts, rs)
    requires Run(Wide, b, tr) == Both(T.Run(Wide, b.tx, ts), R.Run(Wide, b.rx, rs))
    ensures var nt, nr := TW.Narrow(b.tx), RW.Narrow(b.rx);
            && Halves(U32, nt, nr, tr, ts, rs)
            && Run(U32, Both(nt, nr), tr) == Both(T.Run(U32, nt, ts), R.Run(U32, nr, rs))
    decreases |tr|
  {
    BothOnWords(b, tr);
    TW.RunSimulates(b.tx, ts);
    RW.RunSimulates(b.rx, rs);
    HalvesNarrow(b.tx, b.rx, tr, ts, rs);
  }

  lemma {:induction false} HalvesNarrow(tx: T.Tx, rx: R.Rx, tr: seq<BothLabel>, ts: seq<T.TxLabel>, rs: seq<R.RxLabel>)
    requires TI.Counts(tx) && TI.Addressed(tx) && RI.Counts(rx) && PowerOfTwo(tx.n) && PowerOfTwo(rx.n)
    requires Halves(Wide, tx, rx, tr, ts, rs)
    ensures Halves(U32, TW.Narrow(tx), RW.Narrow(rx), tr, ts, rs)
    decreases |tr|
  {
    assert T.Shape(tx) && R.Shape(rx);
    hide TI.Counts, TI.Addressed, RI.Counts, PowerOfTwo, T.Step, R.Step;
    if tr != [] {
      HalvesNarrow(tx, rx, tr[..|tr| - 1], ts[..|tr| - 1], rs[..|tr| - 1]);
      TW.RunSimulates(tx, ts);
      RW.RunSimulates(rx, rs);
    }
  }

  /** No frame of one socket is ever owned on the side of the other. */
  lemma {:induction false} NoFrameCrosses(b: Both)
    requires Safe(b)
    ensures forall a, f | a in TI.Owners(b.tx) && f in RI.Owners(b.rx) ::
              Disjoint(a, FRAME_SIZE, f * FRAME_SIZE, FRAME_SIZE)
  {
    hide TI.Conserved, RI.Conserved, TI.Faithful;
    TI.OwnersDiffer(b.tx);
    RI.OwnersDiffer(b.rx);
    hide TI.Owners, RI.Owners, NoDuplicates;
  }

  /** A slice peeked on the transmit side never overlaps a packet peeked on the receive side. */
  lemma {:induction false} SlicesNeverOverlap(b: Both, i: nat, len: nat, j: nat)
    requires Safe(b) && b.tx.pc.Idle? && b.rx.pc.Idle?
    requires i < b.tx.avail && len < FRAME_SIZE && j < b.rx.avail
    ensures var d := b.rx.xDesc[R.AvailSlot(Wide, b.rx, j)];
            Disjoint(TT.SliceStart(b.tx, i), len, d.addr, d.len)
  {
    hide Slot, TI.Conserved, RI.Conserved, TI.Faithful, PacketOf;
    RI.DeliveredIsPrivate(b.rx, b.rx.cons + j);
    var d := At(b.rx.xDesc, b.rx.cons + j);
    assert RI.InFrame(d) && d.addr == (d.addr / FRAME_SIZE) * FRAME_SIZE + d.addr % FRAME_SIZE;
  }

  /** Both machines on words do what they do on counters. */
  lemma {:induction false} BothOnWords(b: Both, tr: seq<BothLabel>)
    requires Safe(b) && AllInside(b, tr)
    requires PowerOfTwo(b.tx.n) && PowerOfTwo(b.rx.n)
    ensures var w := Run(Wide, b, tr);
            && Run(U32, Both(TW.Narrow(b.tx), RW.Narrow(b.rx)), tr) == Both(TW.Narrow(w.tx), RW.Narrow(w.rx))
            && w.tx.n == b.tx.n && w.rx.n == b.rx.n
    decreases |tr|
  {
    hide PowerOfTwo, T.Step, R.Step;
    if tr != [] {
      var t, l := tr[..|tr| - 1], tr[|tr| - 1];
      BothOnWords(b, t);
      BothSafety(b, t);
      var w := Run(Wide, b, t);
      match l
      case OnTx(x) => TW.StepSimulates(w.tx, x);
      case OnRx(x) => RW.StepSimulates(w.rx, x);
    }
  }
}
