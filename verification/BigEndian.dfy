/** Fixed-width big-endian integers, as the binary input lanes carry them. */
module BigEndian {
  import opened Prelude

  type byte = x: int | 0 <= x < 256
  type U16 = x: int | 0 <= x <= 0xFFFF

  function Pow256(width: nat): (r: nat)
    ensures r > 0
  {
    if width == 0 then 1 else 256 * Pow256(width - 1)
  }

  function ToBytes(n: nat, width: nat): (r: seq<byte>)
    ensures |r| == width
  {
    if width == 0 then [] else ToBytes(n / 256, width - 1) + [n % 256]
  }

  function FromBytes(bytes: seq<byte>): nat {
    if bytes == [] then 0 else 256 * FromBytes(bytes[..|bytes| - 1]) + bytes[|bytes| - 1]
  }

  lemma {:induction false} FromBytesFits(bytes: seq<byte>)
    ensures FromBytes(bytes) < Pow256(|bytes|)
  {
    if bytes != [] {
      FromBytesFits(bytes[..|bytes| - 1]);
    }
  }

  lemma {:induction false} ReadWritten(n: nat, width: nat)
    requires n < Pow256(width)
    ensures FromBytes(ToBytes(n, width)) == n
  {
    if width > 0 {
      ReadWritten(n / 256, width - 1);
      var bytes := ToBytes(n, width);
      assert bytes[..|bytes| - 1] == ToBytes(n / 256, width - 1);
    }
  }

  lemma {:induction false} WriteRead(bytes: seq<byte>)
    ensures ToBytes(FromBytes(bytes), |bytes|) == bytes
  {
    if bytes != [] {
      var front, last := bytes[..|bytes| - 1], bytes[|bytes| - 1];
      WriteRead(front);
      assert (256 * FromBytes(front) + last) / 256 == FromBytes(front);
      assert bytes == front + [last];
    }
  }

  lemma AtLeast(k: int, d: nat)
    requires k >= 1
    ensures k * d >= d
  {
  }

  lemma QuotientIsUnique(n: nat, d: nat, q: nat, r: nat)
    requires d > 0 && r < d && n == q * d + r
    ensures n / d == q
  {
    var p, s := n / d, n % d;
    assert n == p * d + s;
    assert (q - p) * d == s - r;
    if q > p {
      AtLeast(q - p, d);
    } else if q < p {
      assert (p - q) * d == r - s;
      AtLeast(p - q, d);
    }
  }

  lemma DivideTwice(n: nat, d: nat)
    requires d > 0
    ensures n / 256 / d == n / (256 * d)
  {
    var q, r := n / 256 / d, n / 256 % d;
    assert n / 256 == q * d + r;
    Distribute(q, d, r);
    assert n == q * (256 * d) + (256 * r + n % 256);
    QuotientIsUnique(n, 256 * d, q, 256 * r + n % 256);
  }

  lemma Distribute(q: nat, d: nat, r: nat)
    ensures 256 * (q * d + r) == q * (256 * d) + 256 * r
  {
    assert 256 * (q * d) == q * (256 * d);
  }

  /** The byte at a position, the most significant one first. */
  function BigByte(n: nat, width: nat, i: nat): byte
    requires i < width
  {
    n / Pow256(width - 1 - i) % 256
  }

  lemma {:induction false} BytesAreBigEndian(n: nat, width: nat, i: nat)
    requires i < width
    ensures ToBytes(n, width)[i] == BigByte(n, width, i)
    decreases width
  {
    if i < width - 1 {
      BytesAreBigEndian(n / 256, width - 1, i);
      DivideTwice(n, Pow256(width - 2 - i));
    }
  }

  lemma Widths()
    ensures Pow256(2) == 0x1_0000
    ensures Pow256(8) == 0x1_0000_0000_0000_0000
  {
    assert Pow256(1) == 256;
    assert Pow256(3) == 256 * Pow256(2);
    assert Pow256(4) == 256 * Pow256(3);
    assert Pow256(5) == 256 * Pow256(4);
    assert Pow256(6) == 256 * Pow256(5);
    assert Pow256(7) == 256 * Pow256(6);
  }

  function WriteU64(n: U64): (r: seq<byte>)
    ensures |r| == 8 && ReadU64(r) == n
  {
    Widths();
    ReadWritten(n, 8);
    ToBytes(n, 8)
  }

  function ReadU64(bytes: seq<byte>): (n: U64)
    requires |bytes| == 8
  {
    Widths();
    FromBytesFits(bytes);
    FromBytes(bytes)
  }

  lemma RewriteU64(bytes: seq<byte>)
    requires |bytes| == 8
    ensures WriteU64(ReadU64(bytes)) == bytes
  {
    WriteRead(bytes);
  }

  function WriteU16(n: U16): (r: seq<byte>)
    ensures |r| == 2 && ReadU16(r) == n
  {
    Widths();
    ReadWritten(n, 2);
    ToBytes(n, 2)
  }

  function ReadU16(bytes: seq<byte>): (n: U16)
    requires |bytes| == 2
  {
    Widths();
    FromBytesFits(bytes);
    FromBytes(bytes)
  }

  lemma RewriteU16(bytes: seq<byte>)
    requires |bytes| == 2
    ensures WriteU16(ReadU16(bytes)) == bytes
  {
    WriteRead(bytes);
  }

  function U64At(bytes: seq<byte>, offset: nat): U64
    requires offset + 8 <= |bytes|
  {
    ReadU64(bytes[offset..offset + 8])
  }

  function U16At(bytes: seq<byte>, offset: nat): U16
    requires offset + 2 <= |bytes|
  {
    ReadU16(bytes[offset..offset + 2])
  }
}
