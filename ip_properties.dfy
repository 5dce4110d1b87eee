/**
 * Properties of the IPv4 header model: the checksum (RFC 1071), the header
 * built for an outgoing frame, the acceptance rules for an incoming frame,
 * and how the code as written differs from the corrected rules.
 */
module IpProperties {
  import opened Common
  import opened IpHeader

  // ---------------------------------------------------------------------------
  // Arithmetic of the fold
  // ---------------------------------------------------------------------------

  /** Folding the carries keeps the value modulo 0xffff and maps only zero to zero. */
  lemma {:induction false} FoldCarriesCongruent(x: nat)
    ensures FoldCarries(x) % 0xffff == x % 0xffff
    ensures FoldCarries(x) == 0 <==> x == 0
    decreases x
  {
    if x >= 0x10000 {
      var q, r := x / 0x10000, x % 0x10000;
      var y := r + q;
      assert x == 0x10000 * q + r;
      assert x == 0xffff * q + y;
      assert x % 0xffff == y % 0xffff by { ModMultipleAdd(q, y); }
      assert y < x by { assert q >= 1; }
      FoldCarriesCongruent(y);
    }
  }

  lemma ModMultipleAdd(q: nat, y: nat)
    ensures (0xffff * q + y) % 0xffff == y % 0xffff
  {
  }

  /** The first `n` words sum to at most `n` times the largest word. */
  lemma {:induction false} WordsSumBound(s: seq<byte>, n: nat)
    requires 2 * n <= |s|
    ensures WordsSum(s, n) <= n * 0xffff
  {
    if n > 0 {
      WordsSumBound(s, n - 1);
    }
  }
  /**
   * The 32-bit accumulator of `ip_checksum` holds the exact word sum of any
   * buffer shorter than 128 KiB (at most 65535 words), so truncation never
   * changes it on an IP header or datagram.
   */
  lemma Sum32Exact(s: seq<byte>)
    requires |s| < 0x20000
    ensures Sum32(s) == WordsSum(s, |s| / 2)
  {
    var n := |s| / 2;
    WordsSumBound(s, n);
    assert n * 0xffff <= 0xffff * 0xffff;
  }


  /** The words summed depend only on the first `2 * n` bytes. */
  lemma {:induction false} WordsSumPrefix(s: seq<byte>, t: seq<byte>, n: nat)
    requires 2 * n <= |s| && 2 * n <= |t|
    requires s[..2 * n] == t[..2 * n]
    ensures WordsSum(s, n) == WordsSum(t, n)
  {
    if n > 0 {
      assert s[..2 * (n - 1)] == s[..2 * n][..2 * (n - 1)];
      assert t[..2 * (n - 1)] == t[..2 * n][..2 * (n - 1)];
      assert s[2 * n - 2] == s[..2 * n][2 * n - 2] && s[2 * n - 1] == s[..2 * n][2 * n - 1];
      assert t[2 * n - 2] == t[..2 * n][2 * n - 2] && t[2 * n - 1] == t[..2 * n][2 * n - 1];
      WordsSumPrefix(s, t, n - 1);
    }
  }

  /** Changing the two bytes of word `i` changes the sum by the difference of that word. */
  lemma {:induction false} WordsSumUpdate(s: seq<byte>, i: nat, hi: byte, lo: byte, n: nat)
    requires i < n && 2 * n <= |s|
    ensures WordsSum(s[2 * i := hi][2 * i + 1 := lo], n) == WordsSum(s, n) - Word(s, i) + (hi as nat * 256 + lo)
  {
    var t := s[2 * i := hi][2 * i + 1 := lo];
    if n - 1 == i {
      WordsSumPrefix(s, t, n - 1);
    } else {
      WordsSumUpdate(s, i, hi, lo, n - 1);
    }
  }

  /** `ip_checksum` ignores a trailing odd byte, and so does the RFC 1071 checksum. */
  lemma ChecksumIgnoresOddByte(s: seq<byte>, b: byte)
    requires |s| % 2 == 0
    ensures IpChecksum(s + [b]) == IpChecksum(s)
    ensures InternetChecksum(s + [b]) == InternetChecksum(s)
  {
    assert (s + [b])[..2 * (|s| / 2)] == s[..2 * (|s| / 2)];
    WordsSumPrefix(s + [b], s, |s| / 2);
  }

  /** Without a second carry, the single fold of the code equals the RFC 1071 fold. */
  lemma SingleFoldAgreesWithoutCarry(s: seq<byte>)
    requires Sum32(s) % 0x10000 + Sum32(s) / 0x10000 < 0x10000
    ensures IpChecksum(s) == InternetChecksum(s)
  {
    var x := Sum32(s);
    assert FoldCarries(x) == x % 0x10000 + x / 0x10000;
  }

  /**
   * On a header of at most 60 bytes, the single fold accepts (checksum zero)
   * exactly what the RFC 1071 checksum accepts.
   */
  lemma SingleFoldAgreesOnZero(s: seq<byte>)
    requires |s| <= IP_MAX_HEADER_SIZE
    ensures IpChecksum(s) == 0 <==> InternetChecksum(s) == 0
  {
    var x := WordsSum(s, |s| / 2);
    WordsSumBound(s, |s| / 2);
    assert x <= 30 * 0xffff;
    assert Sum32(s) == x;
    var q, r := x / 0x10000, x % 0x10000;
    assert q < 30;
    if q + r >= 0x10000 {
      // A second carry: the mask drops it, one below the RFC 1071 sum, and
      // neither sum can be all ones because the first carry is small.
      assert FoldOnce(x) == q + r - 0x10000;
      assert FoldCarries(x) == FoldOnce(x) + 1;
      assert FoldOnce(x) < 0xfffe;
    } else {
      assert FoldOnce(x) == q + r;
      if x >= 0x10000 {
        assert FoldCarries(x) == FoldCarries(q + r);
      }
      assert FoldCarries(x) == FoldOnce(x);
    }
  }

  /** `Hi` and `Lo` are the two bytes of the low 16 bits. */
  lemma HiLo(x: nat)
    ensures Hi(x) as nat * 256 + Lo(x) == x % 0x10000
  {
    var q := x / 0x10000;
    var m := x % 0x10000;
    assert x == 0x10000 * q + m;
    assert x / 256 == 256 * q + m / 256;
    assert Hi(x) == m / 256;
    assert Lo(x) == m % 256;
  }

  // ---------------------------------------------------------------------------
  // Outgoing header
  // ---------------------------------------------------------------------------

  /** The header `ip_tx` writes differs from its zero-checksum form only in bytes 10-11. */
  lemma HeaderChecksumBytes(totalLength: nat, id: nat, proto: byte, src: Ip4, dst: Ip4, c: nat)
    ensures Header(totalLength, id, proto, src, dst, c)
         == Header(totalLength, id, proto, src, dst, 0)[10 := Hi(c)][11 := Lo(c)]
  {
  }

  /**
   * Every field accessor reads back what `Header` was built from: version 4,
   * IHL 5, zero TOS, flags and fragment offset, TTL 255, the protocol and the
   * addresses, and the low 16 bits of the length, identification and checksum.
   */
  lemma HeaderReadsBack(totalLength: nat, id: nat, proto: byte, src: Ip4, dst: Ip4, c: nat)
    ensures var h := Header(totalLength, id, proto, src, dst, c);
      && Version(h) == 4 && Ihl(h) == 5 && h[1] == 0
      && TotalLength(h) == totalLength % 0x10000
      && Id(h) == id % 0x10000
      && Flags(h) == 0 && FrameOffset(h) == 0 && !MoreFragments(h)
      && Ttl(h) == 0xff && Protocol(h) == proto
      && HeaderChecksum(h) == c % 0x10000
      && SrcIp(h) == src && DstIp(h) == dst
  {
    HiLo(totalLength);
    HiLo(id);
    HiLo(c);
  }

  /**
   * The header `ip_tx` stores for a `size`-byte payload: the fields of
   * `HeaderReadsBack` with total length `size + 20`, and in bytes 10-11 the
   * single-fold checksum of the header taken while those bytes were zero. The
   * corrected header differs from it in bytes 10-11 only, where it holds the
   * RFC 1071 checksum instead.
   */
  lemma TxHeaderFields(size: nat, id: nat, proto: byte, src: Ip4, dst: Ip4)
    ensures var h := TxHeaderAsWritten(size, id, proto, src, dst);
      var h0 := Header(size + IP_HEADER_SIZE, id, proto, src, dst, 0);
      && Version(h) == 4 && Ihl(h) == 5 && h[1] == 0
      && TotalLength(h) == (size + IP_HEADER_SIZE) % 0x10000
      && Id(h) == id % 0x10000
      && Flags(h) == 0 && FrameOffset(h) == 0 && !MoreFragments(h)
      && Ttl(h) == 0xff && Protocol(h) == proto
      && HeaderChecksum(h) == IpChecksum(h0)
      && SrcIp(h) == src && DstIp(h) == dst
      && HeaderChecksum(TxHeader(size, id, proto, src, dst)) == InternetChecksum(h0)
      && TxHeader(size, id, proto, src, dst) == h[10 := Hi(InternetChecksum(h0))][11 := Lo(InternetChecksum(h0))]
  {
    var h0 := Header(size + IP_HEADER_SIZE, id, proto, src, dst, 0);
    HeaderReadsBack(size + IP_HEADER_SIZE, id, proto, src, dst, IpChecksum(h0));
    HeaderReadsBack(size + IP_HEADER_SIZE, id, proto, src, dst, InternetChecksum(h0));
    HeaderChecksumSwap(size + IP_HEADER_SIZE, id, proto, src, dst, IpChecksum(h0), InternetChecksum(h0));
  }

  /** Two headers that differ only in their checksum differ only in bytes 10-11. */
  lemma HeaderChecksumSwap(totalLength: nat, id: nat, proto: byte, src: Ip4, dst: Ip4, c1: nat, c2: nat)
    ensures Header(totalLength, id, proto, src, dst, c2)
         == Header(totalLength, id, proto, src, dst, c1)[10 := Hi(c2)][11 := Lo(c2)]
  {
    HeaderChecksumBytes(totalLength, id, proto, src, dst, c1);
    HeaderChecksumBytes(totalLength, id, proto, src, dst, c2);
  }

  /**
   * Adding the complement of the folded sum to a sum makes the one's
   * complement sum all ones (0xffff), the value a receiver checks for.
   */
  lemma ChecksumCompletesSum(w0: nat)
    ensures FoldCarries(w0 + (0xffff - FoldCarries(w0))) == 0xffff
  {
    var f0 := FoldCarries(w0);
    var w1 := w0 + (0xffff - f0);
    FoldCarriesCongruent(w0);
    ComplementIsMultiple(w0, f0);
    assert w1 > 0;
    FoldCarriesCongruent(w1);
  }

  /** Adding `0xffff - f` to a value congruent to `f` modulo 0xffff gives a multiple of 0xffff. */
  lemma ComplementIsMultiple(w: nat, f: nat)
    requires f <= 0xffff && f % 0xffff == w % 0xffff
    ensures (w + (0xffff - f)) % 0xffff == 0
  {
    var k, j := w / 0xffff, f / 0xffff;
    assert w == 0xffff * k + w % 0xffff;
    assert f == 0xffff * j + w % 0xffff;
    assert w + (0xffff - f) == 0xffff * (k - j + 1);
    ModMultipleAdd(k - j + 1, 0);
  }

  /** The word sum of the corrected header is that of its zero-checksum form plus its checksum. */
  lemma TxHeaderWordsSum(size: nat, id: nat, proto: byte, src: Ip4, dst: Ip4)
    ensures var h0 := Header(size + IP_HEADER_SIZE, id, proto, src, dst, 0);
      && WordsSum(TxHeader(size, id, proto, src, dst), 10) == WordsSum(h0, 10) + InternetChecksum(h0)
      && WordsSum(h0, 10) <= 10 * 0xffff
  {
    var h0 := Header(size + IP_HEADER_SIZE, id, proto, src, dst, 0);
    var cs := InternetChecksum(h0);
    HeaderChecksumBytes(size + IP_HEADER_SIZE, id, proto, src, dst, cs);
    WordsSumUpdate(h0, 5, Hi(cs), Lo(cs), 10);
    HiLo(cs);
    assert Word(h0, 5) == 0;
    WordsSumBound(h0, 10);
  }

  /** A header carrying its RFC 1071 checksum checks to zero, as a receiver requires. */
  lemma TxHeaderChecksumVerifies(size: nat, id: nat, proto: byte, src: Ip4, dst: Ip4)
    ensures InternetChecksum(TxHeader(size, id, proto, src, dst)) == 0
  {
    var h0 := Header(size + IP_HEADER_SIZE, id, proto, src, dst, 0);
    var h1 := TxHeader(size, id, proto, src, dst);
    TxHeaderWordsSum(size, id, proto, src, dst);
    var w0 := WordsSum(h0, 10);
    assert Sum32(h0) == w0;
    assert Sum32(h1) == w0 + InternetChecksum(h0);
    ChecksumCompletesSum(w0);
  }

  /** Header bytes of a frame are the header; the bytes after it are the payload. */
  lemma FramePrefix(h: seq<byte>, payload: seq<byte>)
    requires |h| == IP_HEADER_SIZE
    ensures (h + payload)[..IP_HEADER_SIZE] == h
    ensures (h + payload)[IP_HEADER_SIZE..IP_HEADER_SIZE + |payload|] == payload
  {
  }

  /**
   * Round trip: a frame with the corrected header for destination `dst` is
   * accepted by the receive path of the host whose address is `dst`, which
   * delivers the original payload with the sender's address and protocol.
   */
  lemma TxRxRoundTrip(payload: seq<byte>, id: nat, proto: byte, src: Ip4, dst: Ip4)
    requires |payload| + IP_HEADER_SIZE < 0x10000
    ensures var f := TxHeader(|payload|, id, proto, src, dst) + payload;
      && RxCheck(f, dst) == Accept(IP_HEADER_SIZE, |payload| + IP_HEADER_SIZE, src, proto)
      && f[IP_HEADER_SIZE..|payload| + IP_HEADER_SIZE] == payload
  {
    var h := TxHeader(|payload|, id, proto, src, dst);
    var h0 := Header(|payload| + IP_HEADER_SIZE, id, proto, src, dst, 0);
    HeaderReadsBack(|payload| + IP_HEADER_SIZE, id, proto, src, dst, InternetChecksum(h0));
    TxHeaderChecksumVerifies(|payload|, id, proto, src, dst);
    HeaderAccepted(h, payload);
  }

  /**
   * The header `ip_tx` stores is the corrected one, and so survives the round
   * trip, whenever folding the zero-checksum header's sum makes no second
   * carry; `AsWrittenRejectsOwnHeader` shows a header where it does.
   */
  lemma TxAsWrittenRoundTrip(payload: seq<byte>, id: nat, proto: byte, src: Ip4, dst: Ip4)
    requires |payload| + IP_HEADER_SIZE < 0x10000
    requires var x := Sum32(Header(|payload| + IP_HEADER_SIZE, id, proto, src, dst, 0));
      x % 0x10000 + x / 0x10000 < 0x10000
    ensures TxHeaderAsWritten(|payload|, id, proto, src, dst) == TxHeader(|payload|, id, proto, src, dst)
    ensures var f := TxHeaderAsWritten(|payload|, id, proto, src, dst) + payload;
      && RxCheck(f, dst) == Accept(IP_HEADER_SIZE, |payload| + IP_HEADER_SIZE, src, proto)
      && f[IP_HEADER_SIZE..|payload| + IP_HEADER_SIZE] == payload
  {
    SingleFoldAgreesWithoutCarry(Header(|payload| + IP_HEADER_SIZE, id, proto, src, dst, 0));
    TxRxRoundTrip(payload, id, proto, src, dst);
  }

  /** A frame whose first 20 bytes are a plain, checksummed header for the whole frame is accepted. */
  lemma HeaderAccepted(h: seq<byte>, payload: seq<byte>)
    requires |h| == IP_HEADER_SIZE && Version(h) == 4 && Ihl(h) == 5 && Ttl(h) != 0
    requires TotalLength(h) == |payload| + IP_HEADER_SIZE
    requires !MoreFragments(h) && FrameOffset(h) == 0 && InternetChecksum(h) == 0
    ensures RxCheck(h + payload, DstIp(h)) == Accept(IP_HEADER_SIZE, |payload| + IP_HEADER_SIZE, SrcIp(h), Protocol(h))
    ensures (h + payload)[IP_HEADER_SIZE..|payload| + IP_HEADER_SIZE] == payload
  {
    var f := h + payload;
    FramePrefix(h, payload);
    FrameFields(h, payload);
    assert f[..Ihl(f) * 4] == h;
  }

  /** The header fields of a frame are those of its first 20 bytes. */
  lemma FrameFields(h: seq<byte>, payload: seq<byte>)
    requires |h| == IP_HEADER_SIZE
    ensures var f := h + payload;
      && Version(f) == Version(h) && Ihl(f) == Ihl(h) && TotalLength(f) == TotalLength(h)
      && Flags(f) == Flags(h) && FrameOffset(f) == FrameOffset(h) && MoreFragments(f) == MoreFragments(h)
      && Ttl(f) == Ttl(h) && Protocol(f) == Protocol(h) && SrcIp(f) == SrcIp(h) && DstIp(f) == DstIp(h)
  {
    var f := h + payload;
    assert f[0] == h[0] && f[2] == h[2] && f[3] == h[3] && f[6] == h[6] && f[7] == h[7];
    assert f[8] == h[8] && f[9] == h[9];
    assert f[12..16] == h[12..16] && f[16..20] == h[16..20];
  }

  // ---------------------------------------------------------------------------
  // Incoming frame
  // ---------------------------------------------------------------------------

  /**
   * A frame is dropped exactly when one of the checks fails, and an accepted
   * frame's verdict carries the header's IHL, total length, source address
   * and protocol.
   */
  lemma RxCheckCharacterized(f: seq<byte>, local: Ip4)
    ensures RxCheck(f, local).Drop? <==>
      || |f| < IP_HEADER_SIZE
      || (&& |f| >= IP_HEADER_SIZE
          && var len, hdrSize := TotalLength(f), Ihl(f) * 4;
          || Version(f) != 4 || hdrSize < IP_HEADER_SIZE || len < IP_HEADER_SIZE || Ttl(f) == 0
          || len > |f| || hdrSize > len
          || MoreFragments(f) || FrameOffset(f) != 0
          || local != DstIp(f)
          || InternetChecksum(f[..hdrSize]) != 0)
    ensures RxCheck(f, local).Accept? ==>
      RxCheck(f, local) == Accept(Ihl(f) * 4, TotalLength(f), SrcIp(f), Protocol(f))
  {
  }

  /**
   * The corrected checks accept the same frames as the code, with the same
   * verdict; they drop every frame on which the code would checksum past the
   * received bytes or underflow the payload length.
   */
  lemma RxCorrectionConservative(f: seq<byte>, local: Ip4)
    ensures RxCheck(f, local).Accept? <==>
      (RxCheckAsWritten(f, local).Checked? && RxCheckAsWritten(f, local).v.Accept?)
    ensures RxCheck(f, local).Accept? ==> RxCheckAsWritten(f, local) == Checked(RxCheck(f, local))
    ensures !RxCheckAsWritten(f, local).Checked? ==> RxCheck(f, local) == Drop(HeaderPastLength)
  {
    if |f| >= IP_HEADER_SIZE {
      var hdrSize := Ihl(f) * 4;
      if hdrSize <= |f| {
        SingleFoldAgreesOnZero(f[..hdrSize]);
      }
    }
  }

  /**
   * A frame on which the code underflows `len - hdr_size`: IHL 6 (24 header
   * bytes) but total length 20, with a checksum that verifies over all 24
   * bytes. The corrected checks drop it.
   */
  lemma RxUnderflowExample(f: seq<byte>)
    requires f == [0x46, 0, 0, 20, 0, 0, 0, 0, 1, 0, 0xb8, 0xeb, 0, 0, 0, 0, 0, 0, 0, 0, 0, 0, 0, 0]
    ensures RxCheckAsWritten(f, ANY_IP) == LengthUnderflow
    ensures RxCheck(f, ANY_IP) == Drop(HeaderPastLength)
  {
    ExampleUnderflowSum(f);
    ExampleUnderflowFields(f);
    assert f[..24] == f;
    assert Sum32(f) == 0xffff;
    assert IpChecksum(f) == 0;
    HeaderPastLengthUnderflows(f, ANY_IP);
  }

  /**
   * As written, a frame whose IHL describes more bytes than its total length,
   * and that passes every other check, reaches the payload move with a
   * negative length; the corrected checks drop it.
   */
  lemma HeaderPastLengthUnderflows(f: seq<byte>, local: Ip4)
    requires |f| >= IP_HEADER_SIZE && Version(f) == 4 && Ttl(f) != 0
    requires IP_HEADER_SIZE <= TotalLength(f) < Ihl(f) * 4 <= |f|
    requires !MoreFragments(f) && FrameOffset(f) == 0 && DstIp(f) == local
    requires IpChecksum(f[..Ihl(f) * 4]) == 0
    ensures RxCheckAsWritten(f, local) == LengthUnderflow
    ensures RxCheck(f, local) == Drop(HeaderPastLength)
  {
  }

  /** The header fields of the frame of the example above. */
  lemma ExampleUnderflowFields(f: seq<byte>)
    requires f == [0x46, 0, 0, 20, 0, 0, 0, 0, 1, 0, 0xb8, 0xeb, 0, 0, 0, 0, 0, 0, 0, 0, 0, 0, 0, 0]
    ensures Version(f) == 4 && Ihl(f) == 6 && TotalLength(f) == 20 && Ttl(f) == 1
    ensures !MoreFragments(f) && FrameOffset(f) == 0 && DstIp(f) == ANY_IP
  {
    assert f[16..20] == [0, 0, 0, 0];
  }

  /** The word sum of the frame of the example above. */
  lemma ExampleUnderflowSum(f: seq<byte>)
    requires f == [0x46, 0, 0, 20, 0, 0, 0, 0, 1, 0, 0xb8, 0xeb, 0, 0, 0, 0, 0, 0, 0, 0, 0, 0, 0, 0]
    ensures WordsSum(f, 12) == 0xffff
  {
    assert WordsSum(f, 1) == 0x4600;
    assert WordsSum(f, 2) == 0x4614;
    assert WordsSum(f, 3) == 0x4614;
    assert WordsSum(f, 4) == 0x4614;
    assert WordsSum(f, 5) == 0x4714;
    assert WordsSum(f, 6) == 0xffff;
    assert WordsSum(f, 7) == 0xffff;
    assert WordsSum(f, 8) == 0xffff;
    assert WordsSum(f, 9) == 0xffff;
    assert WordsSum(f, 10) == 0xffff;
    assert WordsSum(f, 11) == 0xffff;
    assert WordsSum(f, 12) == 0xffff;
  }

  /** The zero-checksum header of the example below and its word sum. */
  lemma ExampleZeroedSum(h0: seq<byte>)
    requires h0 == [0x45, 0, 0, 20, 0, 0, 0, 0, 0xff, 1, 0, 0, 0, 0, 0, 0, 0, 0, 187, 234]
    ensures WordsSum(h0, 10) == 0x1ffff
  {
    assert WordsSum(h0, 1) == 0x4500;
    assert WordsSum(h0, 2) == 0x4514;
    assert WordsSum(h0, 3) == 0x4514;
    assert WordsSum(h0, 4) == 0x4514;
    assert WordsSum(h0, 5) == 0x14415;
    assert WordsSum(h0, 6) == 0x14415;
    assert WordsSum(h0, 7) == 0x14415;
    assert WordsSum(h0, 8) == 0x14415;
    assert WordsSum(h0, 9) == 0x14415;
    assert WordsSum(h0, 10) == 0x1ffff;
  }

  /** The example header with the checksum the code stores, and its word sum. */
  lemma ExampleWrittenSum(h: seq<byte>)
    requires h == [0x45, 0, 0, 20, 0, 0, 0, 0, 0xff, 1, 0xff, 0xff, 0, 0, 0, 0, 0, 0, 187, 234]
    ensures WordsSum(h, 10) == 0x2fffe
  {
    assert WordsSum(h, 1) == 0x4500;
    assert WordsSum(h, 2) == 0x4514;
    assert WordsSum(h, 3) == 0x4514;
    assert WordsSum(h, 4) == 0x4514;
    assert WordsSum(h, 5) == 0x14415;
    assert WordsSum(h, 6) == 0x24414;
    assert WordsSum(h, 7) == 0x24414;
    assert WordsSum(h, 8) == 0x24414;
    assert WordsSum(h, 9) == 0x24414;
    assert WordsSum(h, 10) == 0x2fffe;
  }

  /**
   * The code's own transmit and receive paths disagree: for this header
   * (payload 0 bytes, id 0, protocol 1, from 0.0.0.0 to 0.0.187.234) the word
   * sum is 0x1ffff, the single fold loses its carry, and the receive path as
   * written drops the frame the transmit path as written built for it.
   */
  lemma AsWrittenRejectsOwnHeader()
    ensures var h := TxHeaderAsWritten(0, 0, 1, ANY_IP, [0, 0, 187, 234]);
      && IpChecksum(h) != 0
      && RxCheckAsWritten(h, [0, 0, 187, 234]) == Checked(Drop(BadChecksum))
  {
    ExampleWrittenHeader();
    ExampleWrittenRejected([0x45, 0, 0, 20, 0, 0, 0, 0, 0xff, 1, 0xff, 0xff, 0, 0, 0, 0, 0, 0, 187, 234], [0, 0, 187, 234]);
  }

  /** The receive checks as written on the bytes of the example header. */
  lemma ExampleWrittenRejected(h: seq<byte>, dst: Ip4)
    requires h == [0x45, 0, 0, 20, 0, 0, 0, 0, 0xff, 1, 0xff, 0xff, 0, 0, 0, 0, 0, 0, 187, 234]
    requires dst == [0, 0, 187, 234]
    ensures IpChecksum(h) == 0xffff
    ensures RxCheckAsWritten(h, dst) == Checked(Drop(BadChecksum))
  {
    ExampleWrittenSum(h);
    assert Sum32(h) == 0x2fffe;
    assert FoldOnce(0x2fffe) == 0;
    assert h[..20] == h;
    assert Version(h) == 4 && Ihl(h) == 5 && TotalLength(h) == 20 && Ttl(h) == 0xff;
    assert !MoreFragments(h) && FrameOffset(h) == 0 && DstIp(h) == dst;
  }

  /** The header the code builds for the example above. */
  lemma ExampleWrittenHeader()
    ensures TxHeaderAsWritten(0, 0, 1, ANY_IP, [0, 0, 187, 234])
      == [0x45, 0, 0, 20, 0, 0, 0, 0, 0xff, 1, 0xff, 0xff, 0, 0, 0, 0, 0, 0, 187, 234]
  {
    var h0 := Header(20, 0, 1, ANY_IP, [0, 0, 187, 234], 0);
    assert h0 == [0x45, 0, 0, 20, 0, 0, 0, 0, 0xff, 1, 0, 0, 0, 0, 0, 0, 0, 0, 187, 234];
    ExampleZeroedSum(h0);
    assert IpChecksum(h0) == 0xffff;
  }

  /** The same header checksummed as RFC 1071 asks is accepted. */
  lemma CorrectedAcceptsExampleHeader()
    ensures RxCheck(TxHeader(0, 0, 1, ANY_IP, [0, 0, 187, 234]), [0, 0, 187, 234]) == Accept(20, 20, ANY_IP, 1)
  {
    var dst: Ip4 := [0, 0, 187, 234];
    TxRxRoundTrip([], 0, 1, ANY_IP, dst);
    assert TxHeader(0, 0, 1, ANY_IP, dst) + [] == TxHeader(0, 0, 1, ANY_IP, dst);
  }

  // ---------------------------------------------------------------------------
  // Address representation
  // ---------------------------------------------------------------------------

  /** The `u32` view and the octet view of an address are inverse to each other. */
  lemma IpU32RoundTrip(ip: Ip4, v: u32)
    ensures U32ToIp(IpToU32(ip)) == ip
    ensures IpToU32(U32ToIp(v)) == v
  {
    OctetsRoundTrip(ip);
    WordRoundTrip(v);
  }

  lemma OctetsRoundTrip(ip: Ip4)
    ensures U32ToIp(IpToU32(ip)) == ip
  {
    var w2 := ip[2] as nat + 0x100 * ip[3] as nat;
    var w1 := ip[1] as nat + 0x100 * w2;
    var w0 := ip[0] as nat + 0x100 * w1;
    DigitSplit(ip[0], w1);
    DigitSplit(ip[1], w2);
    DigitSplit(ip[2], ip[3]);
  }

  lemma WordRoundTrip(v: u32)
    ensures IpToU32(U32ToIp(v)) == v
  {
    DigitSplit(v % 0x100, v / 0x100);
    DigitSplit(v / 0x100 % 0x100, v / 0x100 / 0x100);
    DigitSplit(v / 0x100 / 0x100 % 0x100, v / 0x100 / 0x100 / 0x100);
  }

  /** One base-256 digit: the low digit and the rest of `lo + 256 * hi`. */
  lemma DigitSplit(lo: nat, hi: nat)
    requires lo < 0x100
    ensures (lo + 0x100 * hi) % 0x100 == lo && (lo + 0x100 * hi) / 0x100 == hi
  {
  }
}
