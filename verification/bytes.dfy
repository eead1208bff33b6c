/** Octets and little-endian fixed-width integers, the storage model of the
    ctypes structures and unions the library is built on. */
module Bytes {

  type byte = x: int | 0 <= x < 0x100
  type u16 = x: int | 0 <= x < 0x1_0000
  type u32 = x: int | 0 <= x < 0x1_0000_0000

  /** 256^n, the number of values an n-byte field can hold. */
  function Pow256(n: nat): (r: nat)
    ensures r >= 1
  {
    if n == 0 then 1 else 256 * Pow256(n - 1)
  }

  /** The ranges of the ctypes integer widths the library uses: c_uint8,
      c_uint16 and c_uint32. */
  lemma Pow256Widths()
    ensures Pow256(1) == 0x100 && Pow256(2) == 0x1_0000 && Pow256(4) == 0x1_0000_0000
  {
  }

  /** n zero bytes: the initial content of every ctypes instance. */
  function Zeros(n: nat): (r: seq<byte>)
    ensures |r| == n
    ensures forall i :: 0 <= i < n ==> r[i] == 0
  {
    seq(n, _ => 0)
  }

  /** Little-endian encoding of `v` in exactly `n` bytes, least significant first. */
  function ToLE(v: nat, n: nat): (r: seq<byte>)
    requires v < Pow256(n)
    ensures |r| == n
  {
    if n == 0 then [] else [v % 256] + ToLE(v / 256, n - 1)
  }

  /** The unsigned value of a little-endian byte string. */
  function FromLE(s: seq<byte>): (r: nat)
    ensures r < Pow256(|s|)
  {
    if |s| == 0 then 0 else s[0] + 256 * FromLE(s[1..])
  }

  lemma {:induction false} FromLEToLE(v: nat, n: nat)
    requires v < Pow256(n)
    ensures FromLE(ToLE(v, n)) == v
  {
    if n > 0 {
      FromLEToLE(v / 256, n - 1);
      assert ToLE(v, n)[1..] == ToLE(v / 256, n - 1);
    }
  }

  lemma {:induction false} ToLEFromLE(s: seq<byte>)
    ensures ToLE(FromLE(s), |s|) == s
  {
    if |s| > 0 {
      ToLEFromLE(s[1..]);
      assert FromLE(s) % 256 == s[0];
      assert FromLE(s) / 256 == FromLE(s[1..]);
    }
  }

  /** The two-byte case spelled out: low byte first. */
  lemma LE2(v: nat)
    requires v < 0x1_0000
    ensures ToLE(v, 2) == [v % 256, v / 256]
  {
    assert ToLE(v / 256, 1) == [v / 256 % 256] + ToLE(v / 256 / 256, 0);
  }

  lemma FromLE2(s: seq<byte>)
    requires |s| == 2
    ensures FromLE(s) == s[0] as int + 256 * s[1] as int
  {
    assert FromLE(s[1..]) == s[1] + 256 * FromLE(s[2..]);
  }

  /** The `n`-byte little-endian field at `off`. */
  function ReadLE(s: seq<byte>, off: nat, n: nat): (r: nat)
    requires off + n <= |s|
    ensures r < Pow256(n)
  {
    FromLE(s[off..off + n])
  }

  /** Stores `v` into the `n`-byte field at `off`, truncated to the field
      width as a ctypes assignment does (no overflow check). */
  function WriteLE(s: seq<byte>, off: nat, n: nat, v: int): (r: seq<byte>)
    requires off + n <= |s|
    ensures |r| == |s|
    ensures ReadLE(r, off, n) == v % Pow256(n)
    ensures forall i :: 0 <= i < |s| && !(off <= i < off + n) ==> r[i] == s[i]
  {
    var enc := ToLE(v % Pow256(n), n);
    FromLEToLE(v % Pow256(n), n);
    var r := s[..off] + enc + s[off + n..];
    assert r[off..off + n] == enc;
    r
  }

  /** Overwrites `s` from index `off` with `src`, leaving the rest as it was. */
  function Splice(s: seq<byte>, off: nat, src: seq<byte>): (r: seq<byte>)
    requires off + |src| <= |s|
    ensures |r| == |s|
    ensures r[off..off + |src|] == src
    ensures forall i :: 0 <= i < |s| && !(off <= i < off + |src|) ==> r[i] == s[i]
  {
    var r := s[..off] + src + s[off + |src|..];
    assert r[off..off + |src|] == src;
    r
  }

  /** Two's-complement reading of the 16-bit field at `off` (a c_int16). */
  function ReadI16(s: seq<byte>, off: nat): (r: int)
    requires off + 2 <= |s|
    ensures -0x8000 <= r < 0x8000
    ensures r % 0x1_0000 == ReadLE(s, off, 2)
  {
    var u := ReadLE(s, off, 2);
    if u >= 0x8000 then u - 0x1_0000 else u
  }

  /** The value a c_int16 holds after being assigned `v`: ctypes keeps the
      low 16 bits and reinterprets them as signed. */
  function WrapI16(v: int): (r: int)
    ensures -0x8000 <= r < 0x8000
    ensures (r - v) % 0x1_0000 == 0
  {
    (v + 0x8000) % 0x1_0000 - 0x8000
  }

  lemma ReadWriteI16(s: seq<byte>, off: nat, v: int)
    requires off + 2 <= |s|
    ensures ReadI16(WriteLE(s, off, 2, v), off) == WrapI16(v)
  {
    assert Pow256(2) == 0x1_0000;
  }
}
