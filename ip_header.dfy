/**
 * The IPv4 header of the TCP/IP stack's IP layer: the header field accessors,
 * the header checksum, the header that is built for an outgoing frame and the
 * acceptance rules for an incoming frame (section 3.1 of RFC 791; the checksum
 * of RFC 1071).
 *
 * Two of the rules are given twice: as the code is written (`IpChecksum`,
 * `TxHeaderAsWritten`, `RxCheckAsWritten`) and corrected (`InternetChecksum`,
 * `TxHeader`, `RxCheck`). The transmit path of the rest of the model stores
 * the header as written; the receive path uses the corrected checks. The
 * lemmas of `IpProperties` relate the two.
 */
module IpHeader {
  import opened Common

  const IP_HEADER_SIZE: nat := 20
  /** Largest header IHL can describe: 15 words of 4 bytes. */
  const IP_MAX_HEADER_SIZE: nat := 60
  /** "More fragments" flag, bit 5 of header byte 6. */
  const IP_MF: nat := 0x20

  /** An IPv4 address as its four octets in network order (the `u8` view of `IP`). */
  type Ip4 = s: seq<byte> | |s| == 4 witness [0, 0, 0, 0]

  const ANY_IP: Ip4 := [0, 0, 0, 0]

  // ---------------------------------------------------------------------------
  // Header field accessors (the IP_HEADER_* macros). Each reads the first
  // IP_HEADER_SIZE bytes of a frame.
  // ---------------------------------------------------------------------------

  function Version(h: seq<byte>): (r: nat) requires |h| >= IP_HEADER_SIZE ensures r < 16 { h[0] / 16 }
  function Ihl(h: seq<byte>): (r: nat) requires |h| >= IP_HEADER_SIZE ensures r < 16 { h[0] % 16 }
  function TotalLength(h: seq<byte>): (r: nat) requires |h| >= IP_HEADER_SIZE ensures r < 0x10000 { h[2] as nat * 256 + h[3] }
  function Id(h: seq<byte>): (r: nat) requires |h| >= IP_HEADER_SIZE ensures r < 0x10000 { h[4] as nat * 256 + h[5] }
  /** The three flag bits, still in place: `buf[6] & 0xe0`. */
  function Flags(h: seq<byte>): (r: nat)
    requires |h| >= IP_HEADER_SIZE
    ensures r < 256 && r % 32 == 0
  {
    h[6] / 32 * 32
  }
  /** The 13-bit fragment offset: the low five bits of byte 6, then byte 7. */
  function FrameOffset(h: seq<byte>): (r: nat) requires |h| >= IP_HEADER_SIZE ensures r < 0x2000 { (h[6] % 32) as nat * 256 + h[7] }
  function Ttl(h: seq<byte>): byte requires |h| >= IP_HEADER_SIZE { h[8] }
  function Protocol(h: seq<byte>): byte requires |h| >= IP_HEADER_SIZE { h[9] }
  function HeaderChecksum(h: seq<byte>): (r: nat) requires |h| >= IP_HEADER_SIZE ensures r < 0x10000 { h[10] as nat * 256 + h[11] }
  function SrcIp(h: seq<byte>): Ip4 requires |h| >= IP_HEADER_SIZE { h[12..16] }
  function DstIp(h: seq<byte>): Ip4 requires |h| >= IP_HEADER_SIZE { h[16..20] }

  /** `IP_HEADER_FLAGS(buf) & IP_MF` is nonzero: bit 5 of byte 6 is set. */
  predicate MoreFragments(h: seq<byte>)
    requires |h| >= IP_HEADER_SIZE
    ensures MoreFragments(h) <==> h[6] / 32 % 2 == 1
  {
    Flags(h) / IP_MF % 2 == 1
  }

  /** `(x >> 8) & 0xff` and `x & 0xff`: the big-endian bytes of the low 16 bits. */
  function Hi(x: nat): byte { x / 256 % 256 }
  function Lo(x: nat): byte { x % 256 }

  // ---------------------------------------------------------------------------
  // Checksum
  // ---------------------------------------------------------------------------

  /** The `i`-th big-endian 16-bit word of `s`. */
  function Word(s: seq<byte>, i: nat): nat
    requires 2 * i + 1 < |s|
  {
    s[2 * i] as nat * 256 + s[2 * i + 1]
  }

  /** The sum, without any truncation, of the first `n` words of `s`. */
  function WordsSum(s: seq<byte>, n: nat): nat
    requires 2 * n <= |s|
  {
    if n == 0 then 0 else WordsSum(s, n - 1) + Word(s, n - 1)
  }

  /** The 32-bit accumulator of `ip_checksum` after its loop over the `|s| / 2` words. */
  function Sum32(s: seq<byte>): u32
  {
    WordsSum(s, |s| / 2) % U32_MODULUS
  }

  /** One fold followed by a mask, as the code does: `((x & 0xffff) + (x >> 16)) & 0xffff`. */
  function FoldOnce(x: nat): (r: nat)
    ensures r < 0x10000
    ensures x % 0x10000 + x / 0x10000 < 0x10000 ==> r == x % 0x10000 + x / 0x10000
    ensures x < U32_MODULUS && x % 0x10000 + x / 0x10000 >= 0x10000 ==> r == FoldCarries(x) - 1
  {
    var s := x % 0x10000 + x / 0x10000;
    assert x >= 0x10000 ==> FoldCarries(x) == FoldCarries(s);
    assert 0x10000 <= s <= 0x1fffe ==> FoldCarries(s) == s % 0x10000 + 1 by {
      if 0x10000 <= s <= 0x1fffe {
        assert s / 0x10000 == 1 && s % 0x10000 == s - 0x10000;
        assert FoldCarries(s) == FoldCarries(s % 0x10000 + 1);
        assert s % 0x10000 + 1 < 0x10000;
      }
    }
    s % 0x10000
  }

  /** The end-around-carry fold of RFC 1071: add the high half into the low half until no carry is left. */
  function FoldCarries(x: nat): (r: nat)
    ensures r < 0x10000
    decreases x
  {
    if x < 0x10000 then x
    else
      assert x / 0x10000 < x - x % 0x10000 by {
        assert x / 0x10000 * 0x10000 == x - x % 0x10000;
      }
      FoldCarries(x % 0x10000 + x / 0x10000)
  }

  /** `ip_checksum` as written: the complement of the once-folded, masked sum. */
  function IpChecksum(s: seq<byte>): (r: nat)
    ensures r < 0x10000
  {
    0xffff - FoldOnce(Sum32(s))
  }

  /** The Internet checksum of RFC 1071: the complement of the one's complement sum. */
  function InternetChecksum(s: seq<byte>): (r: nat)
    ensures r < 0x10000
  {
    0xffff - FoldCarries(Sum32(s))
  }

  // ---------------------------------------------------------------------------
  // Outgoing header
  // ---------------------------------------------------------------------------

  /** The 20 header bytes `ip_tx` stores, with `checksum` in bytes 10-11. */
  function Header(totalLength: nat, id: nat, proto: byte, src: Ip4, dst: Ip4, checksum: nat): (h: seq<byte>)
    ensures |h| == IP_HEADER_SIZE
  {
    [0x45, 0, Hi(totalLength), Lo(totalLength), Hi(id), Lo(id), 0, 0, 0xff, proto, Hi(checksum), Lo(checksum)]
    + src + dst
  }

  /** The header of an outgoing frame with a `size`-byte payload, checksummed as RFC 1071 asks. */
  function TxHeader(size: nat, id: nat, proto: byte, src: Ip4, dst: Ip4): (h: seq<byte>)
    ensures |h| == IP_HEADER_SIZE
  {
    var zeroed := Header(size + IP_HEADER_SIZE, id, proto, src, dst, 0);
    Header(size + IP_HEADER_SIZE, id, proto, src, dst, InternetChecksum(zeroed))
  }

  /** The same header checksummed with `ip_checksum` as written. */
  function TxHeaderAsWritten(size: nat, id: nat, proto: byte, src: Ip4, dst: Ip4): (h: seq<byte>)
    ensures |h| == IP_HEADER_SIZE
  {
    var zeroed := Header(size + IP_HEADER_SIZE, id, proto, src, dst, 0);
    Header(size + IP_HEADER_SIZE, id, proto, src, dst, IpChecksum(zeroed))
  }

  // ---------------------------------------------------------------------------
  // Incoming frame
  // ---------------------------------------------------------------------------

  datatype DropReason =
    | Short             // fewer bytes than a minimal header
    | Malformed         // version, IHL, total length or TTL out of range
    | Truncated         // total length beyond the received bytes
    | HeaderPastLength  // IHL describes more bytes than the total length
    | Fragment          // MF set or nonzero fragment offset
    | NotLocal          // destination is not the local address
    | BadChecksum

  datatype RxVerdict =
    | Drop(reason: DropReason)
    /** Deliver bytes `[hdrSize, len)` of the frame, from `src`, for protocol `proto`. */
    | Accept(hdrSize: nat, len: nat, src: Ip4, proto: byte)

  /** What `ip_rx` does with the received frame `f` when the local address is `local`. */
  function RxCheck(f: seq<byte>, local: Ip4): (v: RxVerdict)
    ensures v.Accept? ==> IP_HEADER_SIZE <= v.hdrSize <= v.len <= |f| && v.hdrSize <= IP_MAX_HEADER_SIZE
  {
    if |f| < IP_HEADER_SIZE then Drop(Short)
    else
      var len := TotalLength(f);
      var hdrSize := Ihl(f) * 4;
      if Version(f) != 4 || hdrSize < IP_HEADER_SIZE || len < IP_HEADER_SIZE || Ttl(f) == 0 then Drop(Malformed)
      else if len > |f| then Drop(Truncated)
      else if hdrSize > len then Drop(HeaderPastLength)
      else if MoreFragments(f) || FrameOffset(f) != 0 then Drop(Fragment)
      else if local != DstIp(f) then Drop(NotLocal)
      else if InternetChecksum(f[..hdrSize]) != 0 then Drop(BadChecksum)
      else Accept(hdrSize, len, SrcIp(f), Protocol(f))
  }

  /**
   * The checks of `ip_rx` as written. Two outcomes leave the model: the
   * checksum reading past the received bytes, and the payload move of
   * `len - hdr_size` bytes when that difference is negative (it wraps).
   */
  datatype RxAsWritten = Checked(v: RxVerdict) | ChecksumPastFrame | LengthUnderflow

  function RxCheckAsWritten(f: seq<byte>, local: Ip4): (r: RxAsWritten)
    ensures r.Checked? && r.v.Accept? ==>
      IP_HEADER_SIZE <= r.v.hdrSize <= r.v.len <= |f| && r.v.hdrSize == Ihl(f) * 4 && r.v.len == TotalLength(f)
      && DstIp(f) == local && IpChecksum(f[..r.v.hdrSize]) == 0
    ensures r == ChecksumPastFrame ==> |f| >= IP_HEADER_SIZE && TotalLength(f) <= |f| < Ihl(f) * 4
    ensures r == LengthUnderflow ==> |f| >= IP_HEADER_SIZE && TotalLength(f) < Ihl(f) * 4 <= |f|
  {
    if |f| < IP_HEADER_SIZE then Checked(Drop(Short))
    else
      var len := TotalLength(f);
      var hdrSize := Ihl(f) * 4;
      if Version(f) != 4 || hdrSize < IP_HEADER_SIZE || len < IP_HEADER_SIZE || Ttl(f) == 0 then Checked(Drop(Malformed))
      else if len > |f| then Checked(Drop(Truncated))
      else if MoreFragments(f) || FrameOffset(f) != 0 then Checked(Drop(Fragment))
      else if local != DstIp(f) then Checked(Drop(NotLocal))
      else if hdrSize > |f| then ChecksumPastFrame
      else if IpChecksum(f[..hdrSize]) != 0 then Checked(Drop(BadChecksum))
      else if hdrSize > len then LengthUnderflow
      else Checked(Accept(hdrSize, len, SrcIp(f), Protocol(f)))
  }

  // ---------------------------------------------------------------------------
  // The address as the `u32` member of the `IP` union (little-endian Cortex-M)
  // ---------------------------------------------------------------------------

  /** The octets read as one little-endian word: `ip[0] + (ip[1] << 8) + (ip[2] << 16) + (ip[3] << 24)`. */
  function IpToU32(ip: Ip4): u32
  {
    ip[0] as nat + 0x100 * (ip[1] as nat + 0x100 * (ip[2] as nat + 0x100 * ip[3] as nat))
  }

  /** The octets of a word, lowest first: `(v >> 8k) & 0xff` for k = 0 .. 3. */
  function U32ToIp(v: u32): Ip4
  {
    [v % 0x100, v / 0x100 % 0x100, v / 0x100 / 0x100 % 0x100, v / 0x100 / 0x100 / 0x100]
  }
}
