/** Big-endian byte order, exclusive or and 4-byte alignment: the wire
    conventions the STUN codec relies on (section 5 and section 14 of
    RFC 8489).  This is the part of Go's encoding/binary package and of its
    unsigned integer types the codec uses, with the unsigned types as bounded
    integers. */
module Binary {

  type byte = x: int | 0 <= x < 0x100
  type u16 = x: int | 0 <= x < 0x1_0000
  type u32 = x: int | 0 <= x < 0x1_0000_0000

  /** A 16-bit value as two bytes, most significant first (PutUint16). */
  function PutUint16(x: u16): (r: seq<byte>)
    ensures |r| == 2
  {
    [x / 0x100, x % 0x100]
  }

  /** Two bytes read as a big-endian 16-bit value (Uint16). */
  function Uint16(b: seq<byte>): u16
    requires |b| == 2
  {
    b[0] as int * 0x100 + b[1] as int
  }

  /** A 32-bit value as four bytes, most significant first (PutUint32). */
  function PutUint32(x: u32): (r: seq<byte>)
    ensures |r| == 4
  {
    PutUint16(x / 0x1_0000) + PutUint16(x % 0x1_0000)
  }

  /** Four bytes read as a big-endian 32-bit value (Uint32). */
  function Uint32(b: seq<byte>): u32
    requires |b| == 4
  {
    Uint16(b[..2]) as int * 0x1_0000 + Uint16(b[2..]) as int
  }

  lemma Uint16OfPut(x: u16)
    ensures Uint16(PutUint16(x)) == x
  {
  }

  lemma PutOfUint16(b: seq<byte>)
    requires |b| == 2
    ensures PutUint16(Uint16(b)) == b
  {
  }

  lemma Uint32OfPut(x: u32)
    ensures Uint32(PutUint32(x)) == x
  {
    var p := PutUint32(x);
    assert p[..2] == PutUint16(x / 0x1_0000) && p[2..] == PutUint16(x % 0x1_0000);
    Uint16OfPut(x / 0x1_0000);
    Uint16OfPut(x % 0x1_0000);
  }

  lemma PutOfUint32(b: seq<byte>)
    requires |b| == 4
    ensures PutUint32(Uint32(b)) == b
  {
    var n := Uint32(b);
    assert n / 0x1_0000 == Uint16(b[..2]) && n % 0x1_0000 == Uint16(b[2..]);
    PutOfUint16(b[..2]);
    PutOfUint16(b[2..]);
    assert b == b[..2] + b[2..];
  }

  // ---------------------------------------------------------------- exclusive or

  function Pow2(n: nat): (r: nat)
    ensures r >= 1
  {
    if n == 0 then 1 else 2 * Pow2(n - 1)
  }

  lemma {:induction false} Pow2Add(a: nat, b: nat)
    ensures Pow2(a + b) == Pow2(a) * Pow2(b)
  {
    if a > 0 {
      Pow2Add(a - 1, b);
    }
  }

  lemma Pow2Widths()
    ensures Pow2(8) == 0x100 && Pow2(16) == 0x1_0000 && Pow2(32) == 0x1_0000_0000
  {
    assert Pow2(4) == 16;
    Pow2Add(4, 4);
    Pow2Add(8, 8);
    Pow2Add(16, 16);
  }

  /** Bitwise exclusive or of the low `n` bits of `a` and `b`, bit by bit from
      the least significant one: Go's `^` on an `n`-bit unsigned type. */
  function Xor(a: nat, b: nat, n: nat): (r: nat)
    ensures r < Pow2(n)
  {
    if n == 0 then 0
    else (if a % 2 == b % 2 then 0 else 1) + 2 * Xor(a / 2, b / 2, n - 1)
  }

  /** Exclusive or with the same value twice gives the value back. */
  lemma {:induction false} XorInvolution(a: nat, b: nat, n: nat)
    requires a < Pow2(n)
    ensures Xor(Xor(a, b, n), b, n) == a
  {
    if n > 0 {
      var r := Xor(a, b, n);
      assert r % 2 == (if a % 2 == b % 2 then 0 else 1);
      assert r / 2 == Xor(a / 2, b / 2, n - 1);
      XorInvolution(a / 2, b / 2, n - 1);
    }
  }

  lemma {:induction false} XorCommutes(a: nat, b: nat, n: nat)
    ensures Xor(a, b, n) == Xor(b, a, n)
  {
    if n > 0 {
      XorCommutes(a / 2, b / 2, n - 1);
    }
  }

  function XorByte(a: byte, b: byte): byte {
    Pow2Widths();
    Xor(a, b, 8)
  }

  function XorUint16(a: u16, b: u16): u16 {
    Pow2Widths();
    Xor(a, b, 16)
  }

  function XorUint32(a: u32, b: u32): u32 {
    Pow2Widths();
    Xor(a, b, 32)
  }

  lemma XorByteInvolution(a: byte, b: byte)
    ensures XorByte(XorByte(a, b), b) == a
  {
    Pow2Widths();
    XorInvolution(a, b, 8);
  }

  lemma XorUint16Involution(a: u16, b: u16)
    ensures XorUint16(XorUint16(a, b), b) == a
  {
    Pow2Widths();
    XorInvolution(a, b, 16);
  }

  lemma XorUint32Involution(a: u32, b: u32)
    ensures XorUint32(XorUint32(a, b), b) == a
  {
    Pow2Widths();
    XorInvolution(a, b, 32);
  }

  // ---------------------------------------------------------------- padding

  /** `n` zero bytes, as `make([]byte, n)` gives them. */
  function Zeros(n: nat): (r: seq<byte>)
    ensures |r| == n && forall i :: 0 <= i < n ==> r[i] == 0
  {
    seq(n, _ => 0)
  }

  /** Number of padding bytes after a value of `len` bytes: the boundary (4)
      minus the remainder, or none when the value already ends on a boundary. */
  function Pad(len: nat): (p: nat)
    ensures p < 4 && (len + p) % 4 == 0
  {
    if len % 4 != 0 then 4 - len % 4 else 0
  }

  /** `len` rounded up to the next multiple of four. */
  function RoundUp4(len: nat): (r: nat)
    ensures r % 4 == 0 && len <= r < len + 4
  {
    len + Pad(len)
  }
}
