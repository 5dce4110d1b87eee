/** Shared value types: bytes, 32-bit unsigned values and an optional value. */
module Common {

  /** One octet of memory, as `uint8_t`. */
  type byte = x: int | 0 <= x < 256

  const U32_MODULUS: nat := 0x1_0000_0000

  /** A C `unsigned int` / `uint32_t` value. */
  type u32 = x: int | 0 <= x < U32_MODULUS

  datatype Option<+T> = None | Some(value: T)

  /** `s` with the bytes `b` written over positions `at .. at + |b|`, as `memcpy(s + at, b, |b|)`. */
  function Splice(s: seq<byte>, at: nat, b: seq<byte>): (r: seq<byte>)
    requires at + |b| <= |s|
    ensures |r| == |s|
    ensures r[at..at + |b|] == b
    ensures forall k :: 0 <= k < |s| && !(at <= k < at + |b|) ==> r[k] == s[k]
  {
    s[..at] + b + s[at + |b|..]
  }

  /** Reducing the accumulator before an addition does not change the 32-bit sum. */
  lemma AddMod32(a: nat, w: nat)
    ensures (a % U32_MODULUS + w) % U32_MODULUS == (a + w) % U32_MODULUS
  {
    var q := a / U32_MODULUS;
    assert a + w == U32_MODULUS * q + (a % U32_MODULUS + w);
  }

  /** Bytes `a .. b` of the slice `s[i..j]` are the slice `s[i + a..i + b]`. */
  lemma SliceOfSlice(s: seq<byte>, i: nat, j: nat, a: nat, b: nat)
    requires i <= j <= |s| && a <= b <= j - i
    ensures s[i..j][a..b] == s[i + a..i + b]
  {
    var t := s[i..j];
    assert |t[a..b]| == b - a == |s[i + a..i + b]|;
    forall k | 0 <= k < b - a
      ensures t[a..b][k] == s[i + a..i + b][k]
    {
      assert t[a..b][k] == t[a + k] == s[i + a + k];
    }
  }
}
