/** The 42-byte sink that `write_udp_header_for` hands to the packet builder, and its use with `send`. */
module Header {
  import opened Words
  import opened Slices
  import opened Umem
  import opened Rings
  import opened TxMachine
  import opened TxSocket

  // Ethernet II, IPv4 without options (section 3.1 of RFC 791), UDP (RFC 768, section "Format")
  const HEADER_SIZE: nat := 14 + 20 + 8

  /** The chunks that a builder writes, taken together. */
  function Stream(chunks: seq<seq<byte>>): seq<byte> {
    if chunks == [] then [] else Stream(chunks[..|chunks| - 1]) + chunks[|chunks| - 1]
  }

  lemma StreamOfOne(c: seq<byte>)
    ensures Stream([c]) == c
  {
    assert [c][..0] == [];
  }

  /** The chunks stand in the stream in the order in which they were written. */
  lemma {:induction false} StreamOfBoth(a: seq<seq<byte>>, b: seq<seq<byte>>)
    ensures Stream(a + b) == Stream(a) + Stream(b)
    decreases |b|
  {
    if b == [] {
      assert a + b == a;
    } else {
      var c := b[..|b| - 1];
      StreamOfBoth(a, c);
      assert (a + b)[..|a + b| - 1] == a + c;
    }
  }

  class HdrWrite {
    const buffer: array<byte>
    var position: nat
    ghost const first: seq<byte>   // what the buffer held at first
    ghost var written: seq<byte>   // everything written so far

    ghost predicate Valid()
      reads this, buffer
    {
      && buffer.Length == |first| == HEADER_SIZE && position == |written|
      && forall k | 0 <= k < HEADER_SIZE :: buffer[k] == if k < |written| then written[k] else first[k]
    }

    constructor (buffer: array<byte>)
      requires buffer.Length == HEADER_SIZE
      ensures Valid() && this.buffer == buffer && first == buffer[..] && written == []
    {
      this.buffer, position := buffer, 0;
      first, written := buffer[..], [];
    }

    /** `write`: copies what still fits, counts everything, and never fails. */
    method Write(bytes: seq<byte>) returns (n: nat)
      requires Valid()
      modifies this, buffer
      ensures Valid() && n == |bytes| && written == old(written) + bytes
    {
      if position < HEADER_SIZE {
        var len := Min(|bytes|, HEADER_SIZE - position);
        for i := 0 to len
          invariant position == old(position) && written == old(written)
          invariant forall k | 0 <= k < HEADER_SIZE ::
                      buffer[k] == if k < position then written[k]
                                   else if k < position + i then bytes[k - position] else first[k]
        {
          buffer[position + i] := bytes[i];
        }
      }
      position := position + |bytes|;
      written := written + bytes;
      n := |bytes|;
    }
  }

  /** `write_udp_header_for`, for a builder that writes `chunks`: the header is the first 42 bytes of their stream, for
      every way of cutting it into chunks. */
  method WriteHeader(chunks: seq<seq<byte>>) returns (header: seq<byte>)
    ensures |header| == HEADER_SIZE
    ensures var n := Min(|Stream(chunks)|, HEADER_SIZE);
            header[..n] == Stream(chunks)[..n] && forall k | n <= k < HEADER_SIZE :: header[k] == 0
  {
    var hdr := new byte[HEADER_SIZE](_ => 0);
    assert hdr[..] == seq(HEADER_SIZE, _ => 0);
    var sink := new HdrWrite(hdr);
    for i := 0 to |chunks|
      invariant sink.Valid() && sink.written == Stream(chunks[..i])
    {
      var n := sink.Write(chunks[i]);
      assert chunks[..i + 1][..i] == chunks[..i];
    }
    assert chunks[..|chunks|] == chunks;
    header := hdr[..];
  }

  /** Sending data behind the header that a builder made for it: when the stream of the builder is a header of 42 bytes
      and the data, the packet published is that stream. */
  method SendBuilt(socket: TxSocket, chunks: seq<seq<byte>>, data: seq<byte>) returns (r: Result<()>)
    requires socket.Valid() && socket.pc.Idle?
    requires |Stream(chunks)| == HEADER_SIZE + |data| && Stream(chunks)[HEADER_SIZE..] == data
    modifies socket.Repr()
    ensures socket.Valid() && socket.Grew() && socket.pc.Idle?
    ensures r == if old(socket.available) == 0 then Err(InvalidIndex)
                 else if |Stream(chunks)| > FRAME_SIZE then Err(InvalidLength)
                 else if |Stream(chunks)| == FRAME_SIZE then Panicked
                 else Ok(())
    ensures r.Err? ==> SocketSide(socket.State()) == old(SocketSide(socket.State())) && socket.OwnBytesKept()
    ensures r.Panicked? ==> socket.OnlyResized(0, FRAME_SIZE) && socket.OwnBytesKept()
    ensures r.Ok? ==> socket.Published(Stream(chunks))
  {
    var header := WriteHeader(chunks);
    assert header + data == Stream(chunks);
    r := socket.Send(data, Some(header));
  }
}
