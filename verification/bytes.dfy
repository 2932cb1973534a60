/** Byte strings and the fixed-width integers the loader reads from them. */
module Bytes {

  type byte = x: int | 0 <= x < 256

  function Pow256(n: nat): (p: nat)
    ensures p >= 1
  {
    if n == 0 then 1 else 256 * Pow256(n - 1)
  }

  /** Unsigned value of `s`, most significant byte first. */
  function BigEndian(s: seq<byte>): (v: nat)
    ensures v < Pow256(|s|)
  {
    if |s| == 0 then 0 else BigEndian(s[..|s| - 1]) * 256 + s[|s| - 1]
  }

  /** Unsigned value of `s`, least significant byte first (what
      `BitConverter` reads on a little-endian host). */
  function LittleEndian(s: seq<byte>): nat
  {
    if |s| == 0 then 0 else s[0] + 256 * LittleEndian(s[1..])
  }

  function Reverse(s: seq<byte>): (r: seq<byte>)
    ensures |r| == |s|
    ensures forall i :: 0 <= i < |s| ==> r[i] == s[|s| - 1 - i]
  {
    if |s| == 0 then [] else [s[|s| - 1]] + Reverse(s[..|s| - 1])
  }

  /** Two's-complement reading of an unsigned `n`-byte value. */
  function Signed(v: nat, n: nat): (x: int)
    requires v < Pow256(n)
    ensures 0 - Pow256(n) <= 2 * x < Pow256(n)
    ensures x == v || x == v - Pow256(n)
  {
    if 2 * v < Pow256(n) then v else v - Pow256(n)
  }

  /** The `n`-byte big-endian encoding of `v`. */
  function ToBigEndian(v: nat, n: nat): (s: seq<byte>)
    requires v < Pow256(n)
    ensures |s| == n
  {
    if n == 0 then [] else ToBigEndian(v / 256, n - 1) + [v % 256]
  }

  /** Reversing the bytes and reading them least significant first is the
      same as reading them most significant first. */
  lemma {:induction false} ReverseLittleIsBig(s: seq<byte>)
    ensures LittleEndian(Reverse(s)) == BigEndian(s)
  {
    if |s| > 0 {
      var init := s[..|s| - 1];
      var r := Reverse(s);
      assert r[1..] == Reverse(init);
      ReverseLittleIsBig(init);
    }
  }

  /** How `Load` reads a signed `n`-byte field on each host: on a
      little-endian host the bytes are reversed and read little-endian,
      otherwise they are read as they are, which on a big-endian host
      means most significant first. Either way the field is big-endian. */
  function HostRead(s: seq<byte>, littleEndianHost: bool): (x: int)
    ensures x == Signed(BigEndian(s), |s|)
  {
    ReverseLittleIsBig(s);
    if littleEndianHost then Signed(LittleEndian(Reverse(s)), |s|)
    else Signed(BigEndian(s), |s|)
  }

  lemma {:induction false} BigEndianRoundTrip(v: nat, n: nat)
    requires v < Pow256(n)
    ensures BigEndian(ToBigEndian(v, n)) == v
  {
    if n > 0 {
      var s := ToBigEndian(v, n);
      assert s[..n - 1] == ToBigEndian(v / 256, n - 1);
      BigEndianRoundTrip(v / 256, n - 1);
    }
  }

  lemma {:induction false} ToBigEndianOfBigEndian(s: seq<byte>)
    ensures ToBigEndian(BigEndian(s), |s|) == s
  {
    if |s| > 0 {
      var init := s[..|s| - 1];
      ToBigEndianOfBigEndian(init);
      assert BigEndian(s) / 256 == BigEndian(init);
      assert BigEndian(s) % 256 == s[|s| - 1];
    }
  }
}
