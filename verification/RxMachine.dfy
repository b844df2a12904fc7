/** The receive half of the protocol as a state machine: an `RxSocket`, the RX and Fill rings it shares with the
    kernel, the kernel's private side of those rings, and the UMEM.  The conventions are those of TxMachine. */
module RxMachine {
  import opened Words
  import opened Slices
  import opened Umem

  /** Where the socket stands inside `commit_`: how many descriptors the call moves and how many are left. */
  datatype RxPc =
    | Idle
    | Moving(count: nat, left: nat)
    | Carrying(count: nat, left: nat, addr: nat)
    | Releasing(count: nat) // the loop is done, the RX consumer is to be stored
    | Refilling             // the Fill producer is to be stored

  datatype Rx = Rx(
    // fixed: ring length and first frame of the pool
    n: nat, base: nat,
    // the socket's private fields
    avail: int, prod: int, cons: int, pc: RxPc,
    // the shared RX ring
    xProd: int, xCons: int, xDesc: seq<XdpDesc>,
    // the shared Fill ring
    fProd: int, fCons: int, fDesc: seq<nat>,
    // the kernel's private side: next Fill entry to take, next RX entry to write, frame numbers in its hands
    kFill: int, kRx: int, held: seq<nat>,
    // memory, and the history of packets delivered
    umem: seq<byte>, delivered: seq<Packet>)

  datatype RxLabel =
    | Seek(count: nat)                           // `seek_`: the load of the RX producer
    | Peek(i: nat)                               // `peek_`: load a descriptor and store its length back
    | CommitStart(count: nat)                    // `commit_` up to its loop
    | CommitRead                                 // load an RX slot
    | CommitWrite                                // store its address in the Fill ring
    | StoreConsumer                              // count down the available ones and store the RX consumer
    | StoreProducer                              // store the Fill producer
    | KTake                                      // kernel: read the next Fill entry
    | KRelease                                   // kernel: publish the Fill consumer
    | KWrite(j: nat, off: nat, bytes: seq<byte>) // kernel: write into a frame it holds
    | KDeliver(j: nat, off: nat, len: nat)       // kernel: write an RX descriptor for a frame it holds
    | KSubmit                                    // kernel: publish the RX producer
    | External(umem: seq<byte>)                  // somebody else writes outside this socket's frames

  predicate IsKernel(l: RxLabel) {
    l.KTake? || l.KRelease? || l.KWrite? || l.KDeliver? || l.KSubmit? || l.External?
  }

  predicate Shape(s: Rx) {
    s.n > 0 && |s.xDesc| == s.n && |s.fDesc| == s.n
  }

  /** The state that `create_socket` and `Socket::new` set up: the Fill ring is filled and published, but the private
      fields are those of a transmit socket. */
  function AsBuilt(n: nat, base: nat, stale: seq<XdpDesc>, umem: seq<byte>): (s: Rx)
    requires n > 0 && |stale| == n
    ensures Shape(s)
  {
    Rx(n, base, n, 0, 0, Idle, 0, 0, stale, n, 0, FrameAddrs(base, n), 0, 0, [], umem, [])
  }

  /** The start the protocol needs: nothing received yet, and the Fill producer where it was published. */
  function WellFormed(n: nat, base: nat, stale: seq<XdpDesc>, umem: seq<byte>): (s: Rx)
    requires n > 0 && |stale| == n
    ensures Shape(s)
  {
    AsBuilt(n, base, stale, umem).(avail := 0, prod := n)
  }

  /** The slot of the `i`-th available descriptor. */
  function AvailSlot(m: Mode, s: Rx, i: nat): (slot: nat)
    requires Shape(s)
    ensures slot < s.n
  {
    Slot(m, s.n, s.cons + i)
  }

  predicate Enabled(m: Mode, s: Rx, l: RxLabel)
    requires Shape(s)
  {
    match l
    case Seek(_) => s.pc.Idle?
    case Peek(i) => s.pc.Idle? && i < s.avail
    case CommitStart(count) => s.pc.Idle? && Wrap(count) <= s.avail
    case CommitRead => s.pc.Moving?
    case CommitWrite => s.pc.Carrying? && s.pc.left > 0
    case StoreConsumer => s.pc.Releasing?
    case StoreProducer => s.pc.Refilling?
    case KTake => s.kFill != s.fProd
    case KRelease => true
    case KWrite(j, off, bytes) =>
      j < |s.held| && off + |bytes| <= FRAME_SIZE && s.held[j] * FRAME_SIZE + FRAME_SIZE <= |s.umem|
    case KDeliver(j, off, len) => j < |s.held| && off < FRAME_SIZE && off + len <= FRAME_SIZE
    case KSubmit => true
    case External(u) => OwnRegionKept(s.base, s.n, s.umem, u)
  }

  function Sought(m: Mode, s: Rx, count: nat): Rx {
    if s.avail >= count || s.xProd == s.cons then s else s.(avail := Sub(m, s.xProd, s.cons))
  }

  function Started(s: Rx, c: nat): Rx {
    s.(pc := if c == 0 then Releasing(0) else Moving(c, c))
  }

  function Read(m: Mode, s: Rx): Rx
    requires Shape(s) && s.pc.Moving?
  {
    s.(pc := Carrying(s.pc.count, s.pc.left, s.xDesc[Slot(m, s.n, s.cons)].addr))
  }

  function Moved(m: Mode, s: Rx): Rx
    requires Shape(s) && s.pc.Carrying? && s.pc.left > 0
  {
    s.(fDesc := s.fDesc[Slot(m, s.n, s.prod) := s.pc.addr],
       cons := Add(m, s.cons, 1), prod := Add(m, s.prod, 1),
       pc := if s.pc.left == 1 then Releasing(s.pc.count) else Moving(s.pc.count, s.pc.left - 1))
  }

  /** The Fill ring holds addresses; the kernel masks them down to the frame. */
  function Take(m: Mode, s: Rx): Rx
    requires Shape(s)
  {
    s.(kFill := Add(m, s.kFill, 1), held := s.held + [s.fDesc[Slot(m, s.n, s.kFill)] / FRAME_SIZE])
  }

  function KernelWrote(s: Rx, j: nat, off: nat, bytes: seq<byte>): Rx
    requires j < |s.held| && off + |bytes| <= FRAME_SIZE && s.held[j] * FRAME_SIZE + FRAME_SIZE <= |s.umem|
  {
    s.(umem := Overwrite(s.umem, s.held[j] * FRAME_SIZE + off, bytes))
  }

  function Delivered(m: Mode, s: Rx, j: nat, off: nat, len: nat): Rx
    requires Shape(s) && j < |s.held| && off + len <= FRAME_SIZE
  {
    var d := XdpDesc(s.held[j] * FRAME_SIZE + off, len, 0);
    s.(xDesc := s.xDesc[Slot(m, s.n, s.kRx) := d], kRx := Add(m, s.kRx, 1),
       held := Without(s.held, j), delivered := s.delivered + [PacketOf(s.umem, d)])
  }

  function Apply(m: Mode, s: Rx, l: RxLabel): (r: Rx)
    requires Shape(s) && Enabled(m, s, l)
    ensures Shape(r) && r.n == s.n && r.base == s.base
  {
    match l
    case Seek(count) => Sought(m, s, count)
    case Peek(i) =>
      var slot := AvailSlot(m, s, i);
      s.(xDesc := s.xDesc[slot := s.xDesc[slot].(len := s.xDesc[slot].len)])
    case CommitStart(count) => Started(s, Wrap(count))
    case CommitRead => Read(m, s)
    case CommitWrite => Moved(m, s)
    case StoreConsumer => s.(avail := s.avail - s.pc.count, xCons := s.cons, pc := Refilling)
    case StoreProducer => s.(fProd := s.prod, pc := Idle)
    case KTake => Take(m, s)
    case KRelease => s.(fCons := s.kFill)
    case KWrite(j, off, bytes) => KernelWrote(s, j, off, bytes)
    case KDeliver(j, off, len) => Delivered(m, s, j, off, len)
    case KSubmit => s.(xProd := s.kRx)
    case External(u) => s.(umem := u)
  }

  function Step(m: Mode, s: Rx, l: RxLabel): (r: Rx)
    requires Shape(s)
    ensures Shape(r) && r.n == s.n && r.base == s.base
  {
    if Enabled(m, s, l) then Apply(m, s, l) else s
  }

  function Run(m: Mode, s: Rx, tr: seq<RxLabel>): (r: Rx)
    requires Shape(s)
    ensures Shape(r) && r.n == s.n && r.base == s.base
    decreases |tr|
  {
    if tr == [] then s else Step(m, Run(m, s, tr[..|tr| - 1]), tr[|tr| - 1])
  }

  lemma RunSnoc(m: Mode, s: Rx, tr: seq<RxLabel>, l: RxLabel)
    requires Shape(s)
    ensures Run(m, s, tr + [l]) == Step(m, Run(m, s, tr), l)
  {
    assert (tr + [l])[..|tr|] == tr;
  }

  lemma {:induction false} RunConcat(m: Mode, s: Rx, a: seq<RxLabel>, b: seq<RxLabel>)
    requires Shape(s)
    ensures Run(m, s, a + b) == Run(m, Run(m, s, a), b)
    decreases |b|
  {
    hide Step;
    if b == [] {
      assert a + b == a;
    } else {
      var c := b[..|b| - 1];
      RunConcat(m, s, a, c);
      assert a + b == (a + c) + [b[|b| - 1]];
      RunSnoc(m, s, a + c, b[|b| - 1]);
    }
  }

  lemma RunCons(m: Mode, s: Rx, l: RxLabel, tr: seq<RxLabel>)
    requires Shape(s)
    ensures Run(m, s, [l] + tr) == Run(m, Step(m, s, l), tr)
  {
    hide Step;
    RunConcat(m, s, [l], tr);
    assert [l] == [] + [l];
    RunSnoc(m, s, [], l);
  }

  /** What only the socket writes. */
  datatype Side = Side(avail: int, prod: int, cons: int, pc: RxPc, xCons: int, fProd: int, fDesc: seq<nat>)

  function SocketSide(s: Rx): Side {
    Side(s.avail, s.prod, s.cons, s.pc, s.xCons, s.fProd, s.fDesc)
  }

  lemma KernelKeepsSide(m: Mode, s: Rx, l: RxLabel)
    requires Shape(s) && IsKernel(l)
    ensures SocketSide(Step(m, s, l)) == SocketSide(s)
    ensures s.delivered <= Step(m, s, l).delivered
  {
  }
}
