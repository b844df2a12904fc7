/** The transmit half of the protocol as a state machine: a `TxSocket`, the two rings it shares with the kernel, the
    kernel's private side of those rings, and the UMEM.

    One step is one shared load or store (with the private updates next to it), so a run interleaves the socket and
    the kernel at every point where the program can be overtaken.  A label that is not enabled changes nothing, so
    every sequence of labels is a run.  Loads and stores are sequentially consistent. */
module TxMachine {
  import opened Words
  import opened Slices
  import opened Umem

  /** A descriptor that the kernel has taken and not completed yet; `packet` records what it read on taking it. */
  datatype Held = Held(addr: nat, len: nat, packet: Packet)

  /** Where the socket stands inside its `seek_` loop.  `snap` is the producer index loaded before the loop. */
  datatype TxPc =
    | Idle
    | Polling(count: nat, snap: int)
    | Claimed(count: nat, snap: int, addr: nat)
    | Released(count: nat, snap: int, addr: nat)

  datatype Tx = Tx(
    // fixed: ring length, first frame of the pool, and whether reclaim is repaired (see StoreSlot)
    n: nat, base: nat, repaired: bool,
    // the socket's private fields
    avail: int, prod: int, cons: int, pc: TxPc,
    // the shared TX ring
    xProd: int, xCons: int, xDesc: seq<XdpDesc>,
    // the shared Completion ring
    cProd: int, cCons: int, cDesc: seq<nat>,
    // the kernel's private side: next TX entry to take, next completion to write, descriptors in flight
    kTaken: int, kDone: int, held: seq<Held>,
    // memory, and the history of packets committed and taken
    umem: seq<byte>, sent: seq<Packet>, taken: seq<Packet>)

  datatype TxLabel =
    | SeekStart(count: nat)                     // `seek_` up to its loop: the load of the Completion producer
    | SeekRead                                  // load a Completion slot and advance the private consumer
    | SeekRelease                               // store the Completion consumer
    | SeekStore                                 // store the reclaimed descriptor in the TX ring
    | SetLen(i: nat, len: u32)                  // `peek_`: store a descriptor's length
    | Write(i: nat, off: nat, bytes: seq<byte>) // the application writes through a peeked slice
    | Commit(count: nat)                        // `commit_`: store the TX producer
    | KTake                                     // kernel: read the next TX descriptor
    | KRelease                                  // kernel: publish the TX consumer
    | KTransmit(j: nat)                         // kernel: read the bytes of a descriptor in flight
    | KComplete(j: nat)                         // kernel: write the completion of a descriptor in flight
    | KSubmit                                   // kernel: publish the Completion producer
    | External(umem: seq<byte>)                 // somebody else writes outside this socket's frames

  predicate IsKernel(l: TxLabel) {
    l.KTake? || l.KRelease? || l.KTransmit? || l.KComplete? || l.KSubmit? || l.External?
  }

  /** The kernel completes in the order in which it took. */
  predicate Fifo(l: TxLabel) {
    l.KComplete? ==> l.j == 0
  }

  predicate Shape(s: Tx) {
    s.n > 0 && |s.xDesc| == s.n && |s.cDesc| == s.n
  }

  /** The state that `create_socket` and `Socket::new` set up over a pool of `n` frames. */
  function Init(n: nat, base: nat, repaired: bool, stale: seq<nat>, umem: seq<byte>): (s: Tx)
    requires n > 0 && |stale| == n
    ensures Shape(s)
  {
    Tx(n, base, repaired, n, 0, 0, Idle,
       0, 0, FilledDescs(base, n),
       0, 0, stale, 0, 0, [], umem, [], [])
  }

  /** The TX slot that reclaim writes.  The program uses the slot of `producer` whatever is available; the repaired
      variant uses the first slot after the available ones. */
  function StoreSlot(m: Mode, s: Tx): (slot: nat)
    requires Shape(s)
    ensures slot < s.n
  {
    Slot(m, s.n, s.prod + if s.repaired then s.avail else 0)
  }

  /** The slot of the `i`-th available descriptor. */
  function AvailSlot(m: Mode, s: Tx, i: nat): (slot: nat)
    requires Shape(s)
    ensures slot < s.n
  {
    Slot(m, s.n, s.prod + i)
  }

  predicate Enabled(m: Mode, s: Tx, l: TxLabel)
    requires Shape(s)
  {
    match l
    case SeekStart(_) => s.pc.Idle?
    case SeekRead => s.pc.Polling?
    case SeekRelease => s.pc.Claimed?
    case SeekStore => s.pc.Released?
    case SetLen(i, len) => s.pc.Idle? && i < s.avail && len <= FRAME_SIZE
    case Write(i, off, bytes) =>
      && s.pc.Idle? && i < s.avail
      && var d := s.xDesc[AvailSlot(m, s, i)];
      off + |bytes| <= d.len && d.addr + d.len <= |s.umem|
    case Commit(count) => s.pc.Idle? && Wrap(count) <= s.avail
    case KTake => s.kTaken != s.xProd
    case KRelease => true
    case KTransmit(j) => j < |s.held|
    case KComplete(j) => j < |s.held|
    case KSubmit => true
    case External(u) => OwnRegionKept(s.base, s.n, s.umem, u)
  }

  function SeekStarted(s: Tx, count: nat): Tx {
    if s.avail >= count || s.cProd == s.cons then s else s.(pc := Polling(count, s.cProd))
  }

  function Claim(m: Mode, s: Tx): Tx
    requires Shape(s) && s.pc.Polling?
  {
    s.(cons := Add(m, s.cons, 1), pc := Claimed(s.pc.count, s.pc.snap, s.cDesc[Slot(m, s.n, s.cons)]))
  }

  function Release(s: Tx): Tx
    requires s.pc.Claimed?
  {
    s.(cCons := s.cons, pc := Released(s.pc.count, s.pc.snap, s.pc.addr))
  }

  function Store(m: Mode, s: Tx): Tx
    requires Shape(s) && s.pc.Released?
  {
    s.(xDesc := s.xDesc[StoreSlot(m, s) := XdpDesc(s.pc.addr, 0, 0)],
       avail := s.avail + 1,
       pc := if s.avail + 1 >= s.pc.count || s.pc.snap == s.cons then Idle else Polling(s.pc.count, s.pc.snap))
  }

  function Resized(m: Mode, s: Tx, i: nat, len: u32): Tx
    requires Shape(s)
  {
    var slot := AvailSlot(m, s, i);
    s.(xDesc := s.xDesc[slot := s.xDesc[slot].(len := len)])
  }

  function Written(m: Mode, s: Tx, i: nat, off: nat, bytes: seq<byte>): Tx
    requires Shape(s) && s.xDesc[AvailSlot(m, s, i)].addr + off + |bytes| <= |s.umem|
  {
    s.(umem := Overwrite(s.umem, s.xDesc[AvailSlot(m, s, i)].addr + off, bytes))
  }

  function Committed(m: Mode, s: Tx, c: nat): Tx
    requires Shape(s)
  {
    s.(avail := s.avail - c, prod := Add(m, s.prod, c), xProd := Add(m, s.prod, c),
       sent := s.sent + Committing(m, s, c))
  }

  function Take(m: Mode, s: Tx): Tx
    requires Shape(s)
  {
    var d := s.xDesc[Slot(m, s.n, s.kTaken)];
    var packet := PacketOf(s.umem, d);
    s.(kTaken := Add(m, s.kTaken, 1), held := s.held + [Held(d.addr, d.len, packet)], taken := s.taken + [packet])
  }

  function Complete(m: Mode, s: Tx, j: nat): Tx
    requires Shape(s) && j < |s.held|
  {
    s.(cDesc := s.cDesc[Slot(m, s.n, s.kDone) := s.held[j].addr], kDone := Add(m, s.kDone, 1),
       held := Without(s.held, j))
  }

  function Apply(m: Mode, s: Tx, l: TxLabel): (r: Tx)
    requires Shape(s) && Enabled(m, s, l)
    ensures Shape(r) && r.n == s.n && r.base == s.base && r.repaired == s.repaired
  {
    match l
    case SeekStart(count) => SeekStarted(s, count)
    case SeekRead => Claim(m, s)
    case SeekRelease => Release(s)
    case SeekStore => Store(m, s)
    case SetLen(i, len) => Resized(m, s, i, len)
    case Write(i, off, bytes) => Written(m, s, i, off, bytes)
    case Commit(count) => Committed(m, s, Wrap(count))
    case KTake => Take(m, s)
    case KRelease => s.(xCons := s.kTaken)
    case KTransmit(j) => s
    case KComplete(j) => Complete(m, s, j)
    case KSubmit => s.(cProd := s.kDone)
    case External(u) => s.(umem := u)
  }

  /** The packets that the first `c` available descriptors describe. */
  function Committing(m: Mode, s: Tx, c: nat): (r: seq<Packet>)
    requires Shape(s)
    ensures |r| == c
  {
    seq(c, i requires 0 <= i < c => PacketOf(s.umem, s.xDesc[AvailSlot(m, s, i)]))
  }

  function Step(m: Mode, s: Tx, l: TxLabel): (r: Tx)
    requires Shape(s)
    ensures Shape(r) && r.n == s.n && r.base == s.base && r.repaired == s.repaired
  {
    if Enabled(m, s, l) then Apply(m, s, l) else s
  }

  function Run(m: Mode, s: Tx, tr: seq<TxLabel>): (r: Tx)
    requires Shape(s)
    ensures Shape(r) && r.n == s.n && r.base == s.base && r.repaired == s.repaired
    decreases |tr|
  {
    if tr == [] then s else Step(m, Run(m, s, tr[..|tr| - 1]), tr[|tr| - 1])
  }

  lemma RunSnoc(m: Mode, s: Tx, tr: seq<TxLabel>, l: TxLabel)
    requires Shape(s)
    ensures Run(m, s, tr + [l]) == Step(m, Run(m, s, tr), l)
  {
    assert (tr + [l])[..|tr|] == tr;
  }

  lemma {:induction false} RunConcat(m: Mode, s: Tx, a: seq<TxLabel>, b: seq<TxLabel>)
    requires Shape(s)
    ensures Run(m, s, a + b) == Run(m, Run(m, s, a), b)
    decreases |b|
  {
    hide Step;
    if b == [] {
      assert a + b == a;
    } else {
      var c := b[..|b| - 1];
      RunConcat(m, s, a, c);
      assert a + b == (a + c) + [b[|b| - 1]];
      RunSnoc(m, s, a + c, b[|b| - 1]);
    }
  }

  lemma RunCons(m: Mode, s: Tx, l: TxLabel, tr: seq<TxLabel>)
    requires Shape(s)
    ensures Run(m, s, [l] + tr) == Run(m, Step(m, s, l), tr)
  {
    RunConcat(m, s, [l], tr);
    assert [l] == [] + [l];
    RunSnoc(m, s, [], l);
  }

  /** What only the socket writes. */
  datatype Side = Side(avail: int, prod: int, cons: int, pc: TxPc, xProd: int, cCons: int, xDesc: seq<XdpDesc>,
                       sent: seq<Packet>)

  function SocketSide(s: Tx): Side {
    Side(s.avail, s.prod, s.cons, s.pc, s.xProd, s.cCons, s.xDesc, s.sent)
  }

  lemma KernelKeepsSide(m: Mode, s: Tx, l: TxLabel)
    requires Shape(s) && IsKernel(l)
    ensures SocketSide(Step(m, s, l)) == SocketSide(s)
  {
  }
}
