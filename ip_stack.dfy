/**
 * The IP layer's operations on frame buffers and on its own state: the
 * checksum loop, the header reservation, header build on transmit, header
 * validation and option stripping on receive, and the request handler.
 */
module IpStack {
  import opened Common
  import opened IpHeader

  /**
   * A frame buffer (`TCPIP_IO`): `buf` is the memory block, `offset` is where
   * the C pointer `io->buf` points into it and `size` counts the bytes from there.
   */
  class IoBuffer {
    var buf: array<byte>
    var offset: nat
    var size: nat

    ghost predicate Valid()
      reads this
    {
      offset + size <= buf.Length
    }

    /** The bytes of the frame. */
    ghost function Frame(): seq<byte>
      reads this, buf
      requires Valid()
    {
      buf[offset..offset + size]
    }

    constructor (buf: array<byte>, offset: nat, size: nat)
      requires offset + size <= buf.Length
      ensures Valid() && this.buf == buf && this.offset == offset && this.size == size
    {
      this.buf := buf;
      this.offset := offset;
      this.size := size;
    }
  }

  // ---------------------------------------------------------------------------
  // Checksum
  // ---------------------------------------------------------------------------

  /** The loop of `ip_checksum`: add up the `size >> 1` big-endian words in a 32-bit accumulator. */
  method SumWords(buf: array<byte>, off: nat, size: nat) returns (sum: u32)
    requires off + size <= buf.Length
    ensures sum == Sum32(buf[off..off + size])
  {
    ghost var s := buf[off..off + size];
    sum := 0;
    var i := 0;
    while i < size / 2
      invariant 0 <= i <= size / 2
      invariant sum == WordsSum(s, i) % U32_MODULUS
    {
      assert s[2 * i] == buf[off + 2 * i] && s[2 * i + 1] == buf[off + 2 * i + 1];
      assert WordsSum(s, i + 1) == WordsSum(s, i) + Word(s, i);
      AddMod32(WordsSum(s, i), Word(s, i));
      sum := (sum + (buf[off + 2 * i] as nat * 256 + buf[off + 2 * i + 1])) % U32_MODULUS;
      i := i + 1;
    }
  }

  /** `ip_checksum` as written: one fold of the carry, then the complement. */
  method IpChecksumAt(buf: array<byte>, off: nat, size: nat) returns (cs: nat)
    requires off + size <= buf.Length
    ensures cs == IpChecksum(buf[off..off + size])
  {
    var sum := SumWords(buf, off, size);
    sum := (sum % 0x10000 + sum / 0x10000) % 0x10000;
    cs := 0xffff - sum;
  }

  /** The corrected checksum: fold until no carry is left (RFC 1071), then complement. */
  method InternetChecksumAt(buf: array<byte>, off: nat, size: nat) returns (cs: nat)
    requires off + size <= buf.Length
    ensures cs == InternetChecksum(buf[off..off + size])
  {
    var sum: nat := SumWords(buf, off, size);
    ghost var total := sum;
    while sum >= 0x10000
      invariant FoldCarries(sum) == FoldCarries(total)
      decreases sum
    {
      sum := sum % 0x10000 + sum / 0x10000;
    }
    cs := 0xffff - sum;
  }

  // ---------------------------------------------------------------------------
  // Payload move
  // ---------------------------------------------------------------------------

  /** `memmove(buf + dst, buf + src, n)` for a move towards the start (`dst <= src`). */
  method MoveDown(buf: array<byte>, dst: nat, src: nat, n: nat)
    requires dst <= src && src + n <= buf.Length
    modifies buf
    ensures buf[dst..dst + n] == old(buf[src..src + n])
    ensures forall k :: 0 <= k < buf.Length && !(dst <= k < dst + n) ==> buf[k] == old(buf[k])
  {
    var i := 0;
    while i < n
      invariant 0 <= i <= n
      invariant forall k :: dst <= k < dst + i ==> buf[k] == old(buf[k - dst + src])
      invariant forall k :: 0 <= k < buf.Length && !(dst <= k < dst + i) ==> buf[k] == old(buf[k])
    {
      buf[dst + i] := buf[src + i];
      i := i + 1;
    }
  }

  // ---------------------------------------------------------------------------
  // The IP layer's state and operations
  // ---------------------------------------------------------------------------

  /** What a request to the IP layer asks for. */
  datatype IpRequest = IpSet(param1: u32) | IpGet(process: nat) | OtherRequest(cmd: nat)

  /** The message `ip_get_request` posts back: the address in `param2`. */
  datatype IpGetReply = IpGetReply(process: nat, param2: u32)

  /** Where a received frame goes. */
  datatype RxOutcome = Released | Delivered(src: Ip4, proto: byte)

  /** The IP layer's part of the stack state (`tcpip->ip`): the local address and the next identification. */
  class IpLayer {
    var ip: Ip4
    var id: nat

    constructor ()
      ensures ip == ANY_IP && id == 0
    {
      ip := ANY_IP;
      id := 0;
    }

    /** `ip_init`: no address yet (0.0.0.0) and identifications from 0. */
    method Init()
      modifies this
      ensures ip == ANY_IP && id == 0
    {
      ip := ANY_IP;
      id := 0;
    }

    /**
     * `ip_request`: `IP_SET` stores the address given as a `u32` and asks for
     * a reply; `IP_GET` posts the address back itself and asks for none;
     * other requests are ignored.
     */
    method Request(req: IpRequest) returns (needPost: bool, posted: Option<IpGetReply>)
      modifies this`ip
      ensures req.IpSet? ==> ip == U32ToIp(req.param1) && needPost && posted == None
      ensures req.IpGet? ==> ip == old(ip) && !needPost && posted == Some(IpGetReply(req.process, IpToU32(ip)))
      ensures req.OtherRequest? ==> ip == old(ip) && !needPost && posted == None
    {
      needPost := false;
      posted := None;
      match req {
        case IpSet(param1) =>
          ip := U32ToIp(param1);
          needPost := true;
        case IpGet(process) =>
          posted := Some(IpGetReply(process, IpToU32(ip)));
        case OtherRequest(_) =>
      }
    }

    /**
     * `ip_allocate_io`: when the stack's allocator granted a frame (`granted`,
     * with `io` as it left it), reserve room for the header by moving the
     * frame start past it. The requested `size` is not used.
     */
    method AllocateIo(io: IoBuffer, granted: bool, size: nat) returns (payload: Option<nat>)
      requires io.Valid()
      requires granted ==> io.offset + IP_HEADER_SIZE + io.size <= io.buf.Length
      modifies io
      ensures io.Valid() && io.buf == old(io.buf) && io.size == old(io.size)
      ensures granted ==> io.offset == old(io.offset) + IP_HEADER_SIZE && payload == Some(io.offset)
      ensures !granted ==> io.offset == old(io.offset) && payload == None
    {
      if !granted {
        return None;
      }
      io.offset := io.offset + IP_HEADER_SIZE;
      payload := Some(io.offset);
    }

    /**
     * `ip_tx`: move the frame start back over the reserved header, write the
     * header for identification `id` (then advance `id`), and checksum it
     * with `ip_checksum` as written, folding the carry once. Handing the frame
     * to the router is not part of the model.
     */
    method Tx(io: IoBuffer, dst: Ip4, proto: byte)
      requires io.Valid() && io.offset >= IP_HEADER_SIZE
      modifies this`id, io, io.buf
      ensures io.Valid() && io.buf == old(io.buf)
      ensures io.offset == old(io.offset) - IP_HEADER_SIZE && io.size == old(io.size) + IP_HEADER_SIZE
      ensures id == old(id) + 1 && ip == old(ip)
      ensures io.buf[io.offset..io.offset + IP_HEADER_SIZE] == TxHeaderAsWritten(old(io.size), old(id), proto, ip, dst)
      ensures io.buf[io.offset + IP_HEADER_SIZE..io.offset + io.size] == old(io.Frame())
      ensures forall k :: 0 <= k < io.buf.Length && !(io.offset <= k < io.offset + IP_HEADER_SIZE) ==>
        io.buf[k] == old(io.buf[k])
    {
      io.offset := io.offset - IP_HEADER_SIZE;
      io.size := io.size + IP_HEADER_SIZE;
      var o := io.offset;
      var b := io.buf;
      ghost var payload := b[o + IP_HEADER_SIZE..o + io.size];
      FillHeader(b, o, io.size, id, proto, ip, dst);
      id := id + 1;
      var cs := IpChecksumAt(b, o, IP_HEADER_SIZE);
      b[o + 10] := Hi(cs);
      b[o + 11] := Lo(cs);
      assert b[o..o + IP_HEADER_SIZE] == Header(io.size, old(id), proto, ip, dst, cs);
      assert b[o + IP_HEADER_SIZE..o + io.size] == payload;
    }

    /**
     * `ip_rx`: validate the header of the received frame; drop (release) it
     * unless it is a whole, unfragmented datagram for the local address with a
     * good checksum; otherwise move any options out of the way so that the
     * payload follows the first 20 header bytes, and deliver the payload.
     */
    method Rx(io: IoBuffer) returns (r: RxOutcome)
      requires io.Valid()
      modifies io, io.buf
      ensures io.Valid() && io.buf == old(io.buf)
      ensures var v := RxCheck(old(io.Frame()), ip);
        && (v.Drop? ==>
              && r == Released
              && io.offset == old(io.offset) && io.size == old(io.size)
              && io.buf[..] == old(io.buf[..]))
        && (v.Accept? ==>
              && r == Delivered(v.src, v.proto)
              && io.offset == old(io.offset) + IP_HEADER_SIZE
              && io.size == v.len - v.hdrSize
              && io.Frame() == old(io.Frame())[v.hdrSize..v.len]
              && (forall k :: 0 <= k < io.buf.Length && !(io.offset <= k < io.offset + io.size) ==>
                    io.buf[k] == old(io.buf[k])))
    {
      var frame := io.buf[io.offset..io.offset + io.size];
      var v := Check(io.buf, io.offset, frame);
      if v.Drop? {
        return Released;
      }
      StripHeader(io, v.hdrSize, v.len);
      r := Delivered(v.src, v.proto);
    }

    /**
     * The checks of `ip_rx` in their order, on the `|frame|` bytes at `o`;
     * the checksum is computed over the buffer itself.
     */
    method Check(b: array<byte>, o: nat, frame: seq<byte>) returns (v: RxVerdict)
      requires o + |frame| <= b.Length && b[o..o + |frame|] == frame
      ensures v == RxCheck(frame, ip)
    {
      if |frame| < IP_HEADER_SIZE {
        return Drop(Short);
      }
      var len := TotalLength(frame);
      var hdrSize := Ihl(frame) * 4;
      if Version(frame) != 4 || hdrSize < IP_HEADER_SIZE || len < IP_HEADER_SIZE || Ttl(frame) == 0 {
        return Drop(Malformed);
      }
      if len > |frame| {
        return Drop(Truncated);
      }
      if hdrSize > len {
        return Drop(HeaderPastLength);
      }
      if MoreFragments(frame) || FrameOffset(frame) != 0 {
        return Drop(Fragment);
      }
      if ip != DstIp(frame) {
        return Drop(NotLocal);
      }
      var cs := InternetChecksumAt(b, o, hdrSize);
      SliceOfSlice(b[..], o, o + |frame|, 0, hdrSize);
      assert b[o..o + hdrSize] == frame[..hdrSize];
      if cs != 0 {
        return Drop(BadChecksum);
      }
      return Accept(hdrSize, len, SrcIp(frame), Protocol(frame));
    }
  }

  /** `memset(b + o, 0, n)`. */
  method Clear(b: array<byte>, o: nat, n: nat)
    requires o + n <= b.Length
    modifies b
    ensures forall j :: o <= j < o + n ==> b[j] == 0
    ensures forall j :: 0 <= j < b.Length && !(o <= j < o + n) ==> b[j] == old(b[j])
  {
    for k := 0 to n
      invariant forall j :: o <= j < o + k ==> b[j] == 0
      invariant forall j :: 0 <= j < b.Length && !(o <= j < o + k) ==> b[j] == old(b[j])
    {
      b[o + k] := 0;
    }
  }

  /** `*(uint32_t*)(b + at) = ip.u32.ip`: the four octets in place. */
  method StoreIp(b: array<byte>, at: nat, ip: Ip4)
    requires at + 4 <= b.Length
    modifies b
    ensures b[at..at + 4] == ip
    ensures forall j :: 0 <= j < b.Length && !(at <= j < at + 4) ==> b[j] == old(b[j])
  {
    b[at], b[at + 1], b[at + 2], b[at + 3] := ip[0], ip[1], ip[2], ip[3];
    assert b[at..at + 4] == [ip[0], ip[1], ip[2], ip[3]];
  }

  /**
   * The header stores of `ip_tx` before its checksum: clear the 20 bytes at
   * `o`, then store version and IHL, total length, identification, TTL,
   * protocol and the two addresses.
   */
  method FillHeader(b: array<byte>, o: nat, totalLength: nat, id: nat, proto: byte, src: Ip4, dst: Ip4)
    requires o + IP_HEADER_SIZE <= b.Length
    modifies b
    ensures b[o..o + IP_HEADER_SIZE] == Header(totalLength, id, proto, src, dst, 0)
    ensures forall j :: 0 <= j < b.Length && !(o <= j < o + IP_HEADER_SIZE) ==> b[j] == old(b[j])
  {
    StoreFixedFields(b, o, totalLength, id, proto);
    ghost var fixed := b[o..o + 12];
    assert fixed == [0x45, 0, Hi(totalLength), Lo(totalLength), Hi(id), Lo(id), 0, 0, 0xff, proto, Hi(0), Lo(0)];
    StoreIp(b, o + 12, src);
    StoreIp(b, o + 16, dst);
    assert b[o..o + 12] == fixed;
    assert b[o..o + IP_HEADER_SIZE] == fixed + src + dst;
  }

  /** The clearing and the stores of `ip_tx` that fill header bytes 0-11. */
  method StoreFixedFields(b: array<byte>, o: nat, totalLength: nat, id: nat, proto: byte)
    requires o + IP_HEADER_SIZE <= b.Length
    modifies b
    ensures b[o] == 0x45 && b[o + 1] == 0 && b[o + 2] == Hi(totalLength) && b[o + 3] == Lo(totalLength)
    ensures b[o + 4] == Hi(id) && b[o + 5] == Lo(id) && b[o + 6] == 0 && b[o + 7] == 0
    ensures b[o + 8] == 0xff && b[o + 9] == proto && b[o + 10] == 0 && b[o + 11] == 0
    ensures forall j :: 0 <= j < b.Length && !(o <= j < o + IP_HEADER_SIZE) ==> b[j] == old(b[j])
  {
    Clear(b, o, IP_HEADER_SIZE);
    b[o] := 0x45;
    b[o + 2] := Hi(totalLength);
    b[o + 3] := Lo(totalLength);
    b[o + 4] := Hi(id);
    b[o + 5] := Lo(id);
    b[o + 8] := 0xff;
    b[o + 9] := proto;
  }

  /**
   * The end of `ip_rx` for an accepted frame: move the payload down over any
   * options, to just after the first 20 header bytes, and make it the frame.
   */
  method StripHeader(io: IoBuffer, hdrSize: nat, len: nat)
    requires io.Valid() && IP_HEADER_SIZE <= hdrSize <= len <= io.size
    modifies io, io.buf
    ensures io.Valid() && io.buf == old(io.buf)
    ensures io.offset == old(io.offset) + IP_HEADER_SIZE && io.size == len - hdrSize
    ensures io.Frame() == old(io.Frame())[hdrSize..len]
    ensures forall k :: 0 <= k < io.buf.Length && !(io.offset <= k < io.offset + io.size) ==>
      io.buf[k] == old(io.buf[k])
  {
    ghost var f := io.Frame();
    var o := io.offset;
    var b := io.buf;
    ghost var payload := b[o + hdrSize..o + len];
    SliceOfSlice(b[..], o, o + io.size, hdrSize, len);
    assert f[hdrSize..len] == payload;
    var n := len;
    if hdrSize != IP_HEADER_SIZE {
      MoveDown(b, o + IP_HEADER_SIZE, o + hdrSize, len - hdrSize);
      n := len - hdrSize + IP_HEADER_SIZE;
    }
    io.offset := o + IP_HEADER_SIZE;
    io.size := n - IP_HEADER_SIZE;
    assert b[io.offset..io.offset + io.size] == f[hdrSize..len];
  }
}
