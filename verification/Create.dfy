/** The part of `create_socket` that sets up the protocol: ring sizes, the split of the UMEM, and the first contents of
    the rings. */
module Create {
  import opened Words
  import opened Slices
  import opened Umem
  import opened Rings
  import TxMachine
  import TxInvariant
  import RxMachine
  import RxInvariant
  import BothSockets
  import opened TxSocket
  import opened RxSocket

  datatype Direction = OnlyTx | OnlyRx | Bidirectional

  function RxRingSize(d: Direction): nat {
    match d
    case OnlyTx => 0
    case OnlyRx => FRAME_COUNT
    case Bidirectional => FRAME_COUNT / 2
  }

  function TxRingSize(d: Direction): nat {
    match d
    case OnlyTx => FRAME_COUNT
    case OnlyRx => 0
    case Bidirectional => FRAME_COUNT / 2
  }

  /** What `set_size` asks of the kernel for the Fill and the Completion ring. */
  function KernelSize(size: nat): nat {
    if size == 0 then 1 else size
  }

  /** In every direction the two pools are the two ends of the UMEM: they share no frame and miss none, and each ring
      has a size that masking works for. */
  lemma PoolsSplit(d: Direction)
    ensures multiset(FrameNumbers(0, TxRingSize(d))) + multiset(FrameNumbers(TxRingSize(d), RxRingSize(d)))
            == multiset(FrameNumbers(0, FRAME_COUNT))
    ensures (TxRingSize(d) == 0 <==> d == OnlyRx) && (RxRingSize(d) == 0 <==> d == OnlyTx)
    ensures d == Bidirectional ==> TxRingSize(d) == RxRingSize(d)
    ensures TxRingSize(d) > 0 ==> PowerOfTwo(TxRingSize(d))
    ensures RxRingSize(d) > 0 ==> PowerOfTwo(RxRingSize(d))
  {
    assert FrameNumbers(0, TxRingSize(d)) + FrameNumbers(TxRingSize(d), RxRingSize(d)) == FrameNumbers(0, FRAME_COUNT);
    TimesSixteen(1);
    TimesSixteen(0x10);
    Double(0x100);
    Double(0x200);
    Double(0x400);
    Double(0x800);
  }

  /** The Fill ring is sized after the transmit ring but mapped and filled after the receive ring; the two agree
      exactly for a bidirectional socket. */
  lemma FillSizesAgreeExactly(d: Direction)
    requires RxRingSize(d) > 0
    ensures KernelSize(TxRingSize(d)) == RxRingSize(d) <==> d == Bidirectional
    ensures d == OnlyRx ==> KernelSize(TxRingSize(d)) == 1
  {
  }

  /** A ring fresh from the kernel. */
  method MapDescriptors(size: nat) returns (ring: Ring<XdpDesc>)
    requires 0 < size <= FRAME_COUNT
    ensures ring.Valid() && ring.len == size && ring.producer == ring.consumer == 0
    ensures fresh(ring) && fresh(ring.desc)
  {
    var memory := new XdpDesc[size];
    ring := new Ring(memory);
  }

  method MapAddresses(size: nat) returns (ring: Ring<nat>)
    requires 0 < size <= FRAME_COUNT
    ensures ring.Valid() && ring.len == size && ring.producer == ring.consumer == 0
    ensures fresh(ring) && fresh(ring.desc)
  {
    var memory := new nat[size];
    ring := new Ring(memory);
  }

  method CreateTx(frames: array<byte>, size: nat) returns (tx: TxSocket)
    requires frames.Length == UMEM_SIZE && 0 < size <= FRAME_COUNT && PowerOfTwo(size)
    ensures tx.Valid() && tx.frames == frames && tx.trace == [] && tx.State() == tx.start
    ensures exists stale :: |stale| == size && tx.start == TxMachine.Init(size, 0, false, stale, frames[..])
    ensures tx.xRing.len == size && forall i | 0 <= i < size :: tx.xRing.desc[i] == XdpDesc(i * FRAME_SIZE, 0, 0)
    ensures fresh(tx.Repr() - {frames})
  {
    var cRing := MapAddresses(size);
    var txRing := MapDescriptors(size);
    FillDescriptors(txRing, 0);
    tx := new TxSocket(txRing, cRing, frames, 0);
    assert tx.State() == tx.start;
  }

  method CreateRx(frames: array<byte>, size: nat, startFrame: nat) returns (rx: RxSocket)
    requires frames.Length == UMEM_SIZE && 0 < size && startFrame + size <= FRAME_COUNT
    ensures rx.frames == frames && rx.Separate() == PowerOfTwo(size)
    ensures exists stale :: |stale| == size && rx.State() == RxMachine.AsBuilt(size, startFrame, stale, frames[..])
    ensures rx.uRing.len == size && forall i | 0 <= i < size :: rx.uRing.desc[i] == (startFrame + i) * FRAME_SIZE
    ensures fresh(rx.Repr() - {frames})
  {
    var rxRing := MapDescriptors(size);
    var fRing := MapAddresses(size);
    FillAddresses(fRing, startFrame);
    fRing.UpdateProducer(fRing.len);
    rx := new RxSocket(rxRing, fRing, frames, startFrame);
  }

  /** The rings and sockets that `create_socket` builds, over a UMEM that is already mapped. */
  method CreateSockets(d: Direction, frames: array<byte>) returns (tx: Option<TxSocket>, rx: Option<RxSocket>)
    requires frames.Length == UMEM_SIZE
    ensures tx.Some? <==> d != OnlyRx
    ensures rx.Some? <==> d != OnlyTx
    ensures tx.Some? ==>
              tx.value.Valid() && tx.value.frames == frames && tx.value.State() == tx.value.start
              && exists stale :: |stale| == TxRingSize(d)
                   && tx.value.start == TxMachine.Init(TxRingSize(d), 0, false, stale, frames[..])
    ensures rx.Some? ==>
              rx.value.frames == frames
              && exists stale :: |stale| == RxRingSize(d)
                   && rx.value.State() == RxMachine.AsBuilt(RxRingSize(d), TxRingSize(d), stale, frames[..])
  {
    tx, rx := None, None;
    PoolsSplit(d);
    if d != OnlyRx {
      var t := CreateTx(frames, TxRingSize(d));
      tx := Some(t);
    }
    if d != OnlyTx {
      var r := CreateRx(frames, RxRingSize(d), TxRingSize(d));
      rx := Some(r);
    }
  }

  /** A bidirectional pair at its start, with the receive socket given the start it needs. */
  function PairStart(staleC: seq<nat>, staleX: seq<XdpDesc>, umem: seq<byte>): (b: BothSockets.Both)
    requires |staleC| == TxRingSize(Bidirectional) && |staleX| == RxRingSize(Bidirectional)
    ensures BothSockets.Shape(b)
  {
    var t := TxRingSize(Bidirectional);
    BothSockets.Both(TxMachine.Init(t, 0, false, staleC, umem), RxMachine.WellFormed(t, t, staleX, umem))
  }

  lemma PairStartsSafe(staleC: seq<nat>, staleX: seq<XdpDesc>, umem: seq<byte>)
    requires |umem| == UMEM_SIZE
    requires |staleC| == TxRingSize(Bidirectional) && |staleX| == RxRingSize(Bidirectional)
    ensures BothSockets.Safe(PairStart(staleC, staleX, umem))
  {
    hide TxInvariant.Safe, RxInvariant.Safe;
    var t := TxRingSize(Bidirectional);
    TxInvariant.InitSafe(t, 0, false, staleC, umem);
    RxInvariant.StartSafe(t, t, staleX, umem);
  }

  lemma PairStartsGentle(staleC: seq<nat>, staleX: seq<XdpDesc>, umem: seq<byte>)
    requires |umem| == UMEM_SIZE
    requires |staleC| == TxRingSize(Bidirectional) && |staleX| == RxRingSize(Bidirectional)
    ensures TxInvariant.Counts(PairStart(staleC, staleX, umem).tx)
    ensures TxInvariant.GentlePc(PairStart(staleC, staleX, umem).tx)
  {
    TxInvariant.InitSafe(TxRingSize(Bidirectional), 0, false, staleC, umem);
  }

  /** It keeps all promises of both sockets in every run of gentle calls. */
  lemma {:induction false} PairIsSafe(staleC: seq<nat>, staleX: seq<XdpDesc>, umem: seq<byte>,
                                      tr: seq<BothSockets.BothLabel>)
    requires |umem| == UMEM_SIZE
    requires |staleC| == TxRingSize(Bidirectional) && |staleX| == RxRingSize(Bidirectional)
    requires BothSockets.AllGentle(PairStart(staleC, staleX, umem), tr)
    ensures BothSockets.Safe(BothSockets.Run(Wide, PairStart(staleC, staleX, umem), tr))
  {
    hide BothSockets.Safe, PairStart, BothSockets.Run;
    PairStartsSafe(staleC, staleX, umem);
    PairStartsGentle(staleC, staleX, umem);
    BothSockets.GentleIsInside(PairStart(staleC, staleX, umem), tr);
    BothSockets.BothSafety(PairStart(staleC, staleX, umem), tr);
  }
}
