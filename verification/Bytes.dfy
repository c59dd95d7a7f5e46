/** Bytes, 32-bit arithmetic and the big-endian integers of the wire format. */
module Bytes {

  type byte = x: int | 0 <= x < 256

  const TWO_32: int := 0x1_0000_0000
  const INT_MAX: int := 0x7fff_ffff

  type uint32 = x: int | 0 <= x < 0x1_0000_0000

  /** Unsigned 32-bit arithmetic wraps around. */
  function Wrap32(x: int): uint32 { if 0 <= x < TWO_32 then x else x % TWO_32 }

  /** The value of an unsigned word once it is stored in an `int`. */
  function ToInt32(u: uint32): int { if u <= INT_MAX then u else u - TWO_32 }

  function Zeros(n: nat): (s: seq<byte>)
    ensures |s| == n && forall k :: 0 <= k < n ==> s[k] == 0
  {
    seq(n, _ => 0)
  }

  /** `htonl` followed by `memcpy`: the four bytes of a word, most significant first. */
  function NetBytes(n: uint32): (b: seq<byte>)
    ensures |b| == 4
  {
    seq(4, i requires 0 <= i < 4 => NetByte(n, i))
  }

  function NetByte(n: uint32, i: nat): byte
    requires i < 4
  {
    match i
    case 0 => n / 0x100_0000
    case 1 => n / 0x1_0000 % 0x100
    case 2 => n / 0x100 % 0x100
    case _ => n % 0x100
  }

  function Word(a: int, b: int, c: int, d: int): int { ((a * 0x100 + b) * 0x100 + c) * 0x100 + d }

  /** `memcpy` followed by `ntohl`. */
  function GetInt32FromNetByte(b: seq<byte>): uint32
    requires |b| == 4
  {
    Word(b[0], b[1], b[2], b[3])
  }

  lemma {:induction false} DivisionSteps(n: uint32)
    ensures n / 0x1_0000 == n / 0x100 / 0x100
    ensures n / 0x100_0000 == n / 0x100 / 0x100 / 0x100
  {
  }

  /** Network order: the most significant byte first. */
  lemma {:induction false} NetBytesAreBigEndian(n: uint32)
    ensures NetBytes(n) == [n / 0x100_0000, n / 0x1_0000 % 0x100, n / 0x100 % 0x100, n % 0x100]
    ensures var b: seq<int> := NetBytes(n);
            0x100_0000 * b[0] + 0x1_0000 * b[1] + 0x100 * b[2] + b[3] == n
  {
    var b := NetBytes(n);
    assert b[0] == NetByte(n, 0) && b[1] == NetByte(n, 1) && b[2] == NetByte(n, 2) && b[3] == NetByte(n, 3);
    DivisionSteps(n);
  }

  lemma {:induction false} NetRoundTrip(n: uint32)
    ensures GetInt32FromNetByte(NetBytes(n)) == n
  {
    DivisionSteps(n);
    var b := NetBytes(n);
    assert b[0] == NetByte(n, 0) && b[1] == NetByte(n, 1) && b[2] == NetByte(n, 2) && b[3] == NetByte(n, 3);
  }

  lemma {:induction false} NetBytesOfValue(b: seq<byte>)
    requires |b| == 4
    ensures NetBytes(GetInt32FromNetByte(b)) == b
  {
    var n := GetInt32FromNetByte(b);
    DivisionSteps(n);
    assert n / 0x100 == Word(0, b[0], b[1], b[2]);
    assert n / 0x100 / 0x100 == Word(0, 0, b[0], b[1]);
    assert forall i | 0 <= i < 4 :: NetByte(n, i) == b[i];
  }

  lemma {:induction false} SmallNetBytes(n: byte)
    ensures NetBytes(n) == [0, 0, 0, n]
  {
    assert NetByte(n, 0) == 0 && NetByte(n, 1) == 0 && NetByte(n, 2) == 0 && NetByte(n, 3) == n;
  }

  lemma {:induction false} SliceOfSlice(s: seq<byte>, a: nat, b: nat, i: nat, j: nat)
    requires i <= j && a + j <= b <= |s|
    ensures s[a..b][i..j] == s[a + i..a + j]
  {
    var whole, part := s[a + i..a + j], s[a..b][i..j];
    assert |whole| == |part| && forall k | 0 <= k < |part| :: part[k] == whole[k];
  }
}
