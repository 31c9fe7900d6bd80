/**
 * Lower-case hexadecimal encoding of a byte block, as performed by the
 * standard `hex.Encode(dst, src)` that the worker calls on every refresh
 * (main.go:119): byte `src[i]` becomes the two characters
 * `dst[2i] = "0123456789abcdef"[src[i] >> 4]` and
 * `dst[2i+1] = "0123456789abcdef"[src[i] & 0x0f]`.
 * Characters are ASCII codes held in bytes.
 */
module Hex {

  newtype byte = x: int | 0 <= x < 256

  /** ASCII '0'..'9' and 'a'..'f'. */
  predicate IsLowerHexDigit(c: byte) {
    48 <= c <= 57 || 97 <= c <= 102
  }

  predicate AllLowerHex(s: seq<byte>) {
    forall i :: 0 <= i < |s| ==> IsLowerHexDigit(s[i])
  }

  /** The value of one lower-case hex character. */
  function DigitValue(c: byte): (v: nat)
    requires IsLowerHexDigit(c)
    ensures v < 16
  {
    if c <= 57 then (c - 48) as nat else (c - 87) as nat
  }

  /** The character for a nibble: the table lookup `hextable[v]`. */
  function HexDigit(v: nat): (c: byte)
    requires v < 16
    ensures IsLowerHexDigit(c) && DigitValue(c) == v
  {
    if v < 10 then (48 + v) as byte else (87 + v) as byte
  }

  /** `hex.Encode`: two characters per source byte, high nibble first. */
  function Encode(src: seq<byte>): (dst: seq<byte>)
    ensures |dst| == 2 * |src|
    ensures AllLowerHex(dst)
  {
    if src == [] then []
    else [HexDigit(src[0] as nat / 16), HexDigit(src[0] as nat % 16)] + Encode(src[1..])
  }

  /** Inverse of `Encode` on well-formed input. */
  function Decode(s: seq<byte>): (r: seq<byte>)
    requires |s| % 2 == 0 && AllLowerHex(s)
    ensures |r| == |s| / 2
  {
    if s == [] then []
    else [(DigitValue(s[0]) * 16 + DigitValue(s[1])) as byte] + Decode(s[2..])
  }

  /** Decoding what `Encode` produced gives the source block back. */
  lemma {:induction false} DecodeEncode(src: seq<byte>)
    ensures Decode(Encode(src)) == src
  {
    if src != [] {
      var e := Encode(src);
      assert e[2..] == Encode(src[1..]);
      DecodeEncode(src[1..]);
      var b := src[0] as nat;
      assert DigitValue(e[0]) * 16 + DigitValue(e[1]) == b;
    }
  }

  /** Position-wise view of `Encode`: characters 2i and 2i+1 come from byte i. */
  lemma {:induction false} EncodeAt(src: seq<byte>, i: nat)
    requires i < |src|
    ensures Encode(src)[2 * i] == HexDigit(src[i] as nat / 16)
    ensures Encode(src)[2 * i + 1] == HexDigit(src[i] as nat % 16)
  {
    if i > 0 {
      EncodeAt(src[1..], i - 1);
    }
  }

  /** `Encode` is the table lookup done one output character at a time. */
  lemma EncodeByTable(src: seq<byte>, dst: seq<byte>)
    requires |dst| == 2 * |src|
    requires forall i :: 0 <= i < |dst| ==>
               dst[i] == HexDigit(if i % 2 == 0 then src[i / 2] as nat / 16 else src[i / 2] as nat % 16)
    ensures dst == Encode(src)
  {
    forall i | 0 <= i < |dst|
      ensures dst[i] == Encode(src)[i]
    {
      var h := i / 2;
      EncodeAt(src, h);
      if i % 2 == 0 {
        assert i == 2 * h;
      } else {
        assert i == 2 * h + 1;
      }
    }
  }

  /** `Encode` works byte by byte, so it distributes over concatenation. */
  lemma {:induction false} EncodeAppend(s: seq<byte>, t: seq<byte>)
    ensures Encode(s + t) == Encode(s) + Encode(t)
  {
    if s != [] {
      assert (s + t)[1..] == s[1..] + t;
      EncodeAppend(s[1..], t);
    } else {
      assert s + t == t;
    }
  }

  /** Encoding a slice of the block gives the matching slice of the encoding. */
  lemma {:induction false} EncodeSlice(src: seq<byte>, a: nat, b: nat)
    requires a <= b <= |src|
    ensures Encode(src)[2 * a .. 2 * b] == Encode(src[a..b])
  {
    if a == 0 {
      assert src == src[..b] + src[b..];
      EncodeAppend(src[..b], src[b..]);
      assert src[a..b] == src[..b];
    } else {
      EncodeSlice(src[1..], a - 1, b - 1);
      assert src[1..][a - 1 .. b - 1] == src[a..b];
      assert Encode(src)[2 * a .. 2 * b] == Encode(src[1..])[2 * (a - 1) .. 2 * (b - 1)];
    }
  }
}
