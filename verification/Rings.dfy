/** The mapped rings and the results of the calls on them. */
module Rings {
  import opened Words
  import opened Slices
  import opened Umem

  datatype RingError = RingFull | RingEmpty | NotAvailable | InvalidIndex | InvalidLength

  /** The outcome of a call; `Panicked` is a failed run-time assertion. */
  datatype Result<T> = Ok(value: T) | Err(error: RingError) | Panicked

  datatype Option<T> = None | Some(value: T)

  class Ring<T> {
    // the shared memory: both indices and the descriptors
    var producer: u32
    var consumer: u32
    const desc: array<T>
    // the private description of the mapping
    const len: nat
    const modMask: u32

    ghost predicate Valid() {
      0 < len == desc.Length <= FRAME_COUNT && modMask == len - 1
    }

    /** A fresh mapping: the kernel hands it over with both indices zero and whatever is in its memory. */
    constructor (memory: array<T>)
      requires 0 < memory.Length <= FRAME_COUNT
      ensures Valid() && producer == 0 && consumer == 0 && desc == memory
    {
      producer, consumer, desc, len, modMask := 0, 0, memory, memory.Length, memory.Length - 1;
    }

    method UpdateProducer(value: u32)
      modifies this`producer
      ensures producer == value
    {
      producer := value;
    }

    method UpdateConsumer(value: u32)
      modifies this`consumer
      ensures consumer == value
    {
      consumer := value;
    }
  }

  /** `Ring<u64>::fill`: entry `i` is the address of frame `startFrame + i`. */
  method FillAddresses(ring: Ring<nat>, startFrame: u32)
    requires ring.Valid()
    modifies ring.desc
    ensures forall i | 0 <= i < ring.len :: ring.desc[i] == (startFrame + i) * FRAME_SIZE
    ensures ring.desc[..] == FrameAddrs(startFrame, ring.len)
  {
    for i := 0 to ring.len
      invariant forall k | 0 <= k < i :: ring.desc[k] == (startFrame + k) * FRAME_SIZE
    {
      ring.desc[i] := (i + startFrame) * FRAME_SIZE;
    }
  }

  /** `Ring<XdpDesc>::fill`: the same for descriptors of length 0. */
  method FillDescriptors(ring: Ring<XdpDesc>, startFrame: u32)
    requires ring.Valid()
    modifies ring.desc
    ensures forall i | 0 <= i < ring.len :: ring.desc[i] == XdpDesc((startFrame + i) * FRAME_SIZE, 0, 0)
    ensures ring.desc[..] == FilledDescs(startFrame, ring.len)
  {
    for i := 0 to ring.len
      invariant forall k | 0 <= k < i :: ring.desc[k] == XdpDesc((startFrame + k) * FRAME_SIZE, 0, 0)
    {
      ring.desc[i] := XdpDesc((i + startFrame) * FRAME_SIZE, 0, 0);
    }
    forall i | 0 <= i < ring.len
      ensures FilledDescs(startFrame, ring.len)[i] == ring.desc[i]
    {
      assert FrameAddrs(startFrame, ring.len)[i] == (startFrame + i) * FRAME_SIZE;
    }
  }

  /** `mut_bytes_at`: checks its assertions in order, stores the length in the descriptor, and returns where the slice
      starts. */
  method MutBytesAt(ring: Ring<XdpDesc>, index: nat, len: nat) returns (r: Result<nat>)
    requires ring.Valid() && index < ring.len
    modifies ring.desc
    ensures var d := old(ring.desc[index]);
            && r == (if Wrap(len) >= FRAME_SIZE || d.addr + len >= UMEM_SIZE then Panicked else Ok(d.addr))
            && ring.desc[..] == if r.Ok? then old(ring.desc[..])[index := d.(len := Wrap(len))] else old(ring.desc[..])
  {
    if !(index < FRAME_COUNT) || !(Wrap(len) < FRAME_SIZE) {
      return Panicked;
    }
    var d := ring.desc[index];
    if !(UMEM_SIZE > d.addr + len) {
      return Panicked;
    }
    ring.desc[index] := d.(len := Wrap(len));
    return Ok(d.addr);
  }
}
