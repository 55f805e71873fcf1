/**
 * Byte-level encodings used by the Node `Buffer` accessors behind the
 * cursor: unsigned big-endian integers of a given width, two's complement
 * signed integers, in-place overwriting of a byte range, and ASCII text.
 */
module Bytes {

  /** One octet of a buffer. */
  type Byte = b: int | 0 <= b < 256

  /** 256 to the power `n`: the number of values `n` bytes can hold. */
  function Pow256(n: nat): (r: nat)
    ensures r >= 1
    ensures n >= 1 ==> r % 256 == 0
  {
    if n == 0 then 1 else 256 * Pow256(n - 1)
  }

  /** The unsigned value of `s` read most significant byte first. */
  function BigEndian(s: seq<Byte>): (r: nat)
    ensures r < Pow256(|s|)
  {
    if s == [] then 0 else BigEndian(s[..|s| - 1]) * 256 + s[|s| - 1]
  }

  /** The `width` bytes that hold `v` most significant byte first. */
  function ToBigEndian(v: nat, width: nat): (r: seq<Byte>)
    requires v < Pow256(width)
    ensures |r| == width
  {
    if width == 0 then [] else ToBigEndian(v / 256, width - 1) + [v % 256]
  }

  /** Reading back what `ToBigEndian` wrote gives the value written. */
  lemma {:induction false} BigEndianOfToBigEndian(v: nat, width: nat)
    requires v < Pow256(width)
    ensures BigEndian(ToBigEndian(v, width)) == v
  {
    if width > 0 {
      var r := ToBigEndian(v, width);
      assert r[..width - 1] == ToBigEndian(v / 256, width - 1);
      BigEndianOfToBigEndian(v / 256, width - 1);
    }
  }

  /** Writing back the value read from `s` reproduces `s` byte for byte. */
  lemma {:induction false} ToBigEndianOfBigEndian(s: seq<Byte>)
    ensures ToBigEndian(BigEndian(s), |s|) == s
  {
    if s != [] {
      var init := s[..|s| - 1];
      var n := BigEndian(init);
      ToBigEndianOfBigEndian(init);
      assert (n * 256 + s[|s| - 1]) / 256 == n;
      assert (n * 256 + s[|s| - 1]) % 256 == s[|s| - 1];
      assert s == init + [s[|s| - 1]];
    }
  }

  /** The unsigned 16-bit big-endian value at `o`: high byte times 256 plus low byte. */
  function UInt16At(b: seq<Byte>, o: int): nat
    requires 0 <= o && o + 2 <= |b|
  {
    b[o] as int * 256 + b[o + 1] as int
  }

  /** The unsigned 32-bit big-endian value at `o`. */
  function UInt32At(b: seq<Byte>, o: int): nat
    requires 0 <= o && o + 4 <= |b|
  {
    b[o] as int * 16777216 + b[o + 1] as int * 65536 + b[o + 2] as int * 256 + b[o + 3] as int
  }

  /** The general big-endian reading agrees with the 16-bit formula. */
  lemma BigEndianTwo(s: seq<Byte>)
    requires |s| == 2
    ensures BigEndian(s) == UInt16At(s, 0)
  {
    assert s[..1][..0] == [];
  }

  /** The general big-endian reading agrees with the 32-bit formula. */
  lemma BigEndianFour(s: seq<Byte>)
    requires |s| == 4
    ensures BigEndian(s) == UInt32At(s, 0)
  {
    assert s[..3][..2] == s[..2];
    assert s[..2][..1] == s[..1];
    assert s[..1][..0] == [];
    assert BigEndian(s[..2]) == s[0] as int * 256 + s[1] as int;
    assert BigEndian(s[..3]) == BigEndian(s[..2]) * 256 + s[2] as int;
  }

  /** The two's complement value of an unsigned `width`-byte quantity. */
  function ToSigned(u: nat, width: nat): (r: int)
    requires 1 <= width && u < Pow256(width)
    ensures -(Pow256(width) / 2) <= r < Pow256(width) / 2
    ensures r >= 0 <==> u < Pow256(width) / 2
  {
    if u < Pow256(width) / 2 then u else u - Pow256(width)
  }

  /** The unsigned `width`-byte quantity that holds the signed value `v`. */
  function FromSigned(v: int, width: nat): (r: nat)
    requires 1 <= width && -(Pow256(width) / 2) <= v < Pow256(width) / 2
    ensures r < Pow256(width)
    ensures ToSigned(r, width) == v
  {
    if v < 0 then v + Pow256(width) else v
  }

  /** Reading a quantity as signed and storing it back gives the same bytes. */
  lemma FromSignedOfToSigned(u: nat, width: nat)
    requires 1 <= width && u < Pow256(width)
    ensures FromSigned(ToSigned(u, width), width) == u
  {
  }

  /** `s` with the bytes from `o` on overwritten by `x`. */
  function Splice(s: seq<Byte>, o: nat, x: seq<Byte>): (r: seq<Byte>)
    requires o + |x| <= |s|
    ensures |r| == |s|
    ensures r[o..o + |x|] == x
  {
    s[..o] + x + s[o + |x|..]
  }

  /** Overwriting a range changes no byte outside it. */
  lemma SpliceKeepsOthers(s: seq<Byte>, o: nat, x: seq<Byte>, i: nat)
    requires o + |x| <= |s| && i < |s| && !(o <= i < o + |x|)
    ensures Splice(s, o, x)[i] == s[i]
  {
    if i >= o + |x| {
      assert Splice(s, o, x)[i] == s[o + |x|..][i - o - |x|];
    }
  }

  /** `n` zero bytes, as a freshly allocated buffer holds. */
  function Zeros(n: nat): (r: seq<Byte>)
    ensures |r| == n && forall i :: 0 <= i < n ==> r[i] == 0
  {
    seq(n, _ => 0)
  }

  /** Text whose every character is in the 7-bit ASCII range. */
  predicate IsAscii(s: string)
  {
    forall i :: 0 <= i < |s| ==> s[i] as int < 128
  }

  /** The bytes of ASCII text, one per character. */
  function AsciiBytes(s: string): (r: seq<Byte>)
    requires IsAscii(s)
    ensures |r| == |s|
    ensures Chars(r) == s
  {
    seq(|s|, i requires 0 <= i < |s| => s[i] as int)
  }

  /** The text of a byte range, one character per byte. */
  function Chars(b: seq<Byte>): (r: string)
    ensures |r| == |b|
    ensures forall i :: 0 <= i < |b| ==> r[i] as int == b[i]
  {
    seq(|b|, i requires 0 <= i < |b| => b[i] as char)
  }

  /** Decoding bytes as text loses nothing: equal texts come from equal bytes. */
  lemma CharsInjective(a: seq<Byte>, b: seq<Byte>)
    requires Chars(a) == Chars(b)
    ensures a == b
  {
    assert |a| == |b|;
    forall i | 0 <= i < |a| ensures a[i] == b[i] {
      assert Chars(a)[i] == Chars(b)[i];
    }
  }
}
