/** Delta times: the variable-length quantity of the Standard MIDI Files 1.0
    specification (seven value bits per byte, most significant group first,
    bit 7 set on every byte but the last). */
module Vlq {
  import opened Bytes
  import opened Results

  function Pow128(n: nat): (p: nat)
    ensures p >= 1
  {
    if n == 0 then 1 else 128 * Pow128(n - 1)
  }

  /** The decoding loop of `TrackDataAnalysis`. `shifted` is the value read
      so far, already moved up by seven bits; each byte contributes its low
      seven bits, and a byte with bit 7 clear ends the quantity. Returns the
      value and the position after its last byte. */
  function ReadDelta(data: seq<byte>, i: nat, shifted: nat): (r: Result<(nat, nat)>)
    ensures r.Ok? ==> i < r.value.1 <= |data|
    ensures r.Ok? ==> data[r.value.1 - 1] < 0x80
    ensures r.Ok? ==> forall k :: i <= k < r.value.1 - 1 ==> data[k] >= 0x80
    ensures r.Ok? ==> r.value.0 >= shifted
    ensures r.Err? ==> r.error == UnterminatedDelta
    ensures r.Err? ==> forall k :: i <= k < |data| ==> data[k] >= 0x80
    decreases |data| - i
  {
    if i >= |data| then Err(UnterminatedDelta)
    else
      var v := shifted + data[i] % 0x80;
      if data[i] < 0x80 then Ok((v, i + 1))
      else ReadDelta(data, i + 1, v * 128)
  }

  /** Continuation bytes for the groups above the lowest seven bits. */
  function EncodeHigh(w: nat): (s: seq<byte>)
    ensures forall k :: 0 <= k < |s| ==> s[k] >= 0x80
    decreases w
  {
    if w == 0 then [] else EncodeHigh(w / 128) + [0x80 + w % 128]
  }

  /** The standard encoding of a delta time. */
  function EncodeDelta(v: nat): (s: seq<byte>)
    ensures |s| >= 1 && s[|s| - 1] < 0x80
    ensures forall k :: 0 <= k < |s| - 1 ==> s[k] >= 0x80
  {
    EncodeHigh(v / 128) + [v % 128]
  }

  /** The partial value after reading continuation bytes `c` from `shifted`. */
  function Groups(shifted: nat, c: seq<byte>): nat
  {
    if |c| == 0 then shifted else (Groups(shifted, c[..|c| - 1]) + c[|c| - 1] % 0x80) * 128
  }

  /** A run of continuation bytes only accumulates their groups. */
  lemma {:induction false} ReadContinuations(data: seq<byte>, i: nat, shifted: nat, c: seq<byte>)
    requires i + |c| <= |data| && data[i..i + |c|] == c
    requires forall k :: 0 <= k < |c| ==> c[k] >= 0x80
    ensures ReadDelta(data, i, shifted) == ReadDelta(data, i + |c|, Groups(shifted, c))
  {
    if |c| > 0 {
      var n := |c| - 1;
      assert c == c[..n] + [c[n]];
      SplitLast(data, i, c[..n], c[n]);
      ReadContinuations(data, i, shifted, c[..n]);
    }
  }

  /** The continuation bytes of `w` carry `w`, one group up. */
  lemma {:induction false} GroupsOfHigh(w: nat)
    ensures Groups(0, EncodeHigh(w)) == w * 128
    decreases w
  {
    if w > 0 {
      var q, m := w / 128, w % 128;
      var h := EncodeHigh(q);
      var e := EncodeHigh(w);
      assert e == h + [0x80 + m];
      assert e[..|e| - 1] == h;
      GroupsOfHigh(q);
      assert (0x80 + m) % 0x80 == m;
      assert Groups(0, e) == (q * 128 + m) * 128;
      assert q * 128 + m == w;
    }
  }

  /** Decoding an encoded delta time, wherever it sits in a payload, gives
      the value back and stops right after its last byte. */
  lemma DeltaRoundTrip(prefix: seq<byte>, v: nat, rest: seq<byte>)
    ensures ReadDelta(prefix + EncodeDelta(v) + rest, |prefix|, 0)
         == Ok((v, |prefix| + |EncodeDelta(v)|))
  {
    var e := EncodeDelta(v);
    var data := prefix + e + rest;
    assert data[|prefix|..|prefix| + |e|] == e;
    DecodeAt(data, |prefix|, v);
  }

  /** The same, for a payload that holds the encoding at `i`. */
  lemma DecodeAt(data: seq<byte>, i: nat, v: nat)
    requires i + |EncodeDelta(v)| <= |data| && data[i..i + |EncodeDelta(v)|] == EncodeDelta(v)
    ensures ReadDelta(data, i, 0) == Ok((v, i + |EncodeDelta(v)|))
  {
    var w := v / 128;
    var h := EncodeHigh(w);
    assert w * 128 + v % 128 == v;
    GroupsOfHigh(w);
    DecodeGroups(data, i, h, v % 128);
  }

  /** Continuation bytes `h` and a last byte `b` read back the groups of `h`
      plus `b`, and the quantity ends right after `b`. */
  lemma DecodeGroups(data: seq<byte>, i: nat, h: seq<byte>, b: byte)
    requires b < 0x80 && forall k :: 0 <= k < |h| ==> h[k] >= 0x80
    requires i + |h| + 1 <= |data| && data[i..i + |h| + 1] == h + [b]
    ensures ReadDelta(data, i, 0) == Ok((Groups(0, h) + b, i + |h| + 1))
  {
    SplitLast(data, i, h, b);
    ReadContinuations(data, i, 0, h);
    ReadLast(data, i + |h|, Groups(0, h));
  }

  /** A slice that holds `h + [b]` holds `h` and then `b`. */
  lemma SplitLast(data: seq<byte>, i: nat, h: seq<byte>, b: byte)
    requires i + |h| + 1 <= |data| && data[i..i + |h| + 1] == h + [b]
    ensures data[i..i + |h|] == h && data[i + |h|] == b
  {
    assert data[i..i + |h|] == data[i..i + |h| + 1][..|h|];
    assert data[i + |h|] == data[i..i + |h| + 1][|h|];
  }

  /** A byte with bit 7 clear ends the quantity. */
  lemma ReadLast(data: seq<byte>, j: nat, shifted: nat)
    requires j < |data| && data[j] < 0x80
    ensures ReadDelta(data, j, shifted) == Ok((shifted + data[j], j + 1))
  {
  }

  lemma {:induction false} EncodeHighLength(w: nat, n: nat)
    requires w < Pow128(n)
    ensures |EncodeHigh(w)| <= n
    decreases w
  {
    if w > 0 {
      EncodeHighLength(w / 128, n - 1);
    }
  }

  /** Values below 2^28, the range the file format allows, take at most four bytes. */
  lemma DeltaLength(v: nat)
    requires v < 0x1000_0000
    ensures |EncodeDelta(v)| <= 4
  {
    assert Pow128(3) == 0x20_0000;
    EncodeHighLength(v / 128, 3);
  }

  /** The converse of `ReadDelta`'s failure clause: when every byte left in
      the payload has bit 7 set, no delta time can be read. It follows from
      where a successful read must end. */
  lemma UnterminatedDeltaFails(data: seq<byte>, i: nat, shifted: nat)
    requires forall k :: i <= k < |data| ==> data[k] >= 0x80
    ensures ReadDelta(data, i, shifted) == Err(UnterminatedDelta)
  {
  }
}
