/** The UMEM: one byte area cut into frames, the packet descriptors that point into it, and the frame pool of a
    socket. */
module Umem {
  import opened Words
  import opened Slices

  const FRAME_SIZE := 2048
  const FRAME_COUNT := 4096
  const UMEM_SIZE := FRAME_SIZE * FRAME_COUNT

  type Packet = seq<byte>

  /** A descriptor of the TX or RX ring. */
  datatype XdpDesc = XdpDesc(addr: nat, len: u32, options: u32)

  /** The `len` bytes at `addr`; empty when they reach outside the area. */
  function Bytes(umem: seq<byte>, addr: nat, len: nat): Packet {
    if addr + len <= |umem| then umem[addr..addr + len] else []
  }

  function PacketOf(umem: seq<byte>, d: XdpDesc): Packet {
    Bytes(umem, d.addr, d.len)
  }

  function Overwrite(umem: seq<byte>, at: nat, bytes: seq<byte>): (r: seq<byte>)
    requires at + |bytes| <= |umem|
    ensures |r| == |umem|
  {
    umem[..at] + bytes + umem[at + |bytes|..]
  }

  lemma OverwriteElsewhere(umem: seq<byte>, at: nat, bytes: seq<byte>, addr: nat, len: nat)
    requires at + |bytes| <= |umem|
    requires addr + len <= at || at + |bytes| <= addr
    ensures Bytes(Overwrite(umem, at, bytes), addr, len) == Bytes(umem, addr, len)
  {
    var r := Overwrite(umem, at, bytes);
    if addr + len <= |umem| {
      forall i | addr <= i < addr + len
        ensures r[i] == umem[i]
      {
        if at + |bytes| <= i {
          assert r[i] == umem[at + |bytes|..][i - at - |bytes|];
        }
      }
    }
  }

  /** A packet that was written where its descriptor says is read as it was written. */
  lemma OverwriteThere(umem: seq<byte>, d: XdpDesc, packet: Packet)
    requires d.len == |packet| && d.addr + |packet| <= |umem|
    ensures PacketOf(Overwrite(umem, d.addr, packet), d) == packet
  {
  }

  /** Bytes inside an area that two memories agree on. */
  lemma BytesAgree(u: seq<byte>, v: seq<byte>, lo: nat, hi: nat, addr: nat, len: nat)
    requires |u| == |v| && lo <= addr && addr + len <= hi <= |u|
    requires u[lo..hi] == v[lo..hi]
    ensures Bytes(u, addr, len) == Bytes(v, addr, len)
  {
    forall i | addr <= i < addr + len
      ensures u[i] == v[i]
    {
      assert u[lo..hi][i - lo] == v[lo..hi][i - lo];
    }
  }

  /** Bytes that stand in one memory, and bytes written behind them in the next. */
  lemma BytesJoin(u: seq<byte>, v: seq<byte>, at: nat, x: seq<byte>, y: seq<byte>)
    requires |u| == |v| && at + |x| + |y| <= |u|
    requires u[at..at + |x|] == x && v[at + |x|..at + |x| + |y|] == y
    requires forall k | at <= k < at + |x| :: v[k] == u[k]
    ensures v[at..at + |x| + |y|] == x + y
  {
    assert v[at..at + |x|] == u[at..at + |x|];
  }

  /** The addresses of the `n` frames from frame number `base` on. */
  function FrameAddrs(base: nat, n: nat): (r: seq<nat>)
    ensures |r| == n
  {
    seq(n, i requires 0 <= i < n => (base + i) * FRAME_SIZE)
  }

  /** The TX ring filled with one empty descriptor for each frame of a pool. */
  function FilledDescs(base: nat, n: nat): (r: seq<XdpDesc>)
    ensures |r| == n
  {
    seq(n, i requires 0 <= i < n => XdpDesc(FrameAddrs(base, n)[i], 0, 0))
  }

  predicate IsFrame(base: nat, n: nat, addr: nat) {
    addr % FRAME_SIZE == 0 && base * FRAME_SIZE <= addr < (base + n) * FRAME_SIZE
  }

  /** Each frame of the pool is listed once, and nothing else is. */
  lemma FrameListedOnce(base: nat, n: nat, addr: nat)
    ensures multiset(FrameAddrs(base, n))[addr] == if IsFrame(base, n, addr) then 1 else 0
  {
    var s := FrameAddrs(base, n);
    NoDuplicatesCount(s, addr);
    if IsFrame(base, n, addr) {
      assert s[addr / FRAME_SIZE - base] == addr;
      assert addr in s;
    } else {
      assert addr !in s;
    }
  }

  /** Different frames do not overlap. */
  lemma FramesApart(base: nat, n: nat, a: nat, b: nat)
    requires IsFrame(base, n, a) && IsFrame(base, n, b) && a != b
    ensures a + FRAME_SIZE <= b || b + FRAME_SIZE <= a
  {
  }

  /** Two memories agree on the `n` frames from frame `base` on. */
  predicate OwnRegionKept(base: nat, n: nat, u: seq<byte>, v: seq<byte>) {
    && |u| == |v|
    && (base + n) * FRAME_SIZE <= |u|
    && u[base * FRAME_SIZE..(base + n) * FRAME_SIZE] == v[base * FRAME_SIZE..(base + n) * FRAME_SIZE]
  }

  /** The numbers of the `n` frames from frame `base` on. */
  function FrameNumbers(base: nat, n: nat): (r: seq<nat>)
    ensures |r| == n
  {
    seq(n, i requires 0 <= i < n => base + i)
  }

  lemma NumberListedOnce(base: nat, n: nat, f: nat)
    ensures multiset(FrameNumbers(base, n))[f] == if base <= f < base + n then 1 else 0
  {
    var s := FrameNumbers(base, n);
    NoDuplicatesCount(s, f);
    if base <= f < base + n {
      assert s[f - base] == f;
      assert f in s;
    } else {
      assert f !in s;
    }
  }

  /** `la` bytes at `a` and `lb` bytes at `b` do not overlap. */
  predicate Disjoint(a: nat, la: nat, b: nat, lb: nat) {
    a + la <= b || b + lb <= a
  }

  /** A byte written outside a pool is none of its business. */
  lemma ByteOutside(u: seq<byte>, k: nat, b: byte, base: nat, n: nat)
    requires k < |u| && (base + n) * FRAME_SIZE <= |u|
    requires k < base * FRAME_SIZE || (base + n) * FRAME_SIZE <= k
    ensures OwnRegionKept(base, n, u, u[k := b])
  {
  }

  lemma FrameAgrees(base: nat, n: nat, u: seq<byte>, v: seq<byte>, addr: nat, len: nat)
    requires OwnRegionKept(base, n, u, v) && IsFrame(base, n, addr) && len <= FRAME_SIZE
    ensures Bytes(u, addr, len) == Bytes(v, addr, len)
  {
    hide Bytes;
    BytesAgree(u, v, base * FRAME_SIZE, (base + n) * FRAME_SIZE, addr, len);
  }
}
