/** `Load`: the chunk framing of a Standard MIDI File (section 2 of the
    Standard MIDI Files 1.0 specification: one header chunk "MThd", then
    track chunks "MTrk"), and the per-track analysis. */
module Loader {
  import opened Bytes
  import opened Results
  import opened MidiData
  import Track
  import Correction
  import Vlq

  const MThd: seq<byte> := [0x4D, 0x54, 0x68, 0x64]
  const MTrk: seq<byte> := [0x4D, 0x54, 0x72, 0x6B]

  /** The header chunk's fields. The declared length is read but not used:
      the loader always reads 14 header bytes. */
  datatype Header = Header(length: int, format: int, tracks: int, division: int)

  /** What a successful load hands back. */
  datatype LoadData = LoadData(division: int, notes: seq<Note>, soflans: seq<Soflan>, beats: seq<Beat>)

  /** The signed big-endian field of `n` bytes at `pos`. */
  function Field(file: seq<byte>, pos: nat, n: nat): int
    requires pos + n <= |file|
  {
    Signed(BigEndian(file[pos..pos + n]), n)
  }

  /** Tag, then length (4 bytes), format, track count and division (2
      bytes each), read through the host's byte order. */
  function ReadHeader(file: seq<byte>, littleEndianHost: bool): (r: Result<Header>)
    ensures r.Ok? <==> |file| >= 14 && file[..4] == MThd
    ensures r.Ok? ==> r.value.tracks == Field(file, 10, 2) && r.value.division == Field(file, 12, 2)
    ensures r.Ok? ==> r.value.length == Field(file, 4, 4) && r.value.format == Field(file, 8, 2)
  {
    if |file| < 4 || file[..4] != MThd then Err(BadHeaderTag)
    else if |file| < 14 then Err(TruncatedHeader)
    else
      Ok(Header(HostRead(file[4..8], littleEndianHost), HostRead(file[8..10], littleEndianHost),
                HostRead(file[10..12], littleEndianHost), HostRead(file[12..14], littleEndianHost)))
  }

  /** A track chunk's payload and where the next chunk starts. */
  datatype Chunk = Chunk(payload: seq<byte>, next: nat)

  function Smaller(a: int, b: int): int
  {
    if a <= b then a else b
  }

  /** The track chunk at `pos`. `ReadBytes` returns what is left when the
      file is shorter than the declared length, so a short payload is
      not an error; a negative length is. */
  function ReadChunk(file: seq<byte>, pos: nat, littleEndianHost: bool): (r: Result<Chunk>)
    ensures r.Ok? <==> pos + 8 <= |file| && file[pos..pos + 4] == MTrk && Field(file, pos + 4, 4) >= 0
    ensures r.Ok? ==> pos + 8 <= |file| && r.value.next == Smaller(pos + 8 + Field(file, pos + 4, 4), |file|)
    ensures r.Ok? ==> pos + 8 + |r.value.payload| == r.value.next <= |file|
    ensures r.Ok? ==> forall k :: 0 <= k < |r.value.payload| ==> r.value.payload[k] == file[pos + 8 + k]
  {
    if pos + 4 > |file| || file[pos..pos + 4] != MTrk then Err(BadTrackTag)
    else if pos + 8 > |file| then Err(TruncatedTrackHeader)
    else
      var len := HostRead(file[pos + 4..pos + 8], littleEndianHost);
      if len < 0 then Err(NegativeTrackLength)
      else
        var stop := if pos + 8 + len <= |file| then pos + 8 + len else |file|;
        Ok(Chunk(file[pos + 8..stop], stop))
  }

  /** `TrackDataAnalysis`: decode the payload, then correct its times. */
  function AnalyzeTrack(data: seq<byte>, division: int): (r: Result<TrackEvents>)
    ensures r.Ok? <==> Track.ParseTrack(data, division).Ok?
    ensures r.Ok? ==> r.value == Correction.ModifyEventTimes(Track.ParseTrack(data, division).value)
    ensures r.Ok? && division > 0 ==> Sorted(r.value)
  {
    var ev :- Track.ParseTrack(data, division);
    assert division > 0 ==> Correction.TicksNonNegative(ev.soflans);
    if division > 0 then
      Correction.CorrectionKeepsOrder(ev);
      Ok(Correction.ModifyEventTimes(ev))
    else Ok(Correction.ModifyEventTimes(ev))
  }

  /** The chunk layout from `pos` on, for `n` track chunks: each has the
      "MTrk" tag and a non-negative length, and the next starts after its
      (possibly cut short) payload. */
  predicate TracksFramed(file: seq<byte>, pos: nat, n: nat)
    decreases n
  {
    n == 0 ||
    (&& pos + 8 <= |file|
     && file[pos..pos + 4] == MTrk
     && Field(file, pos + 4, 4) >= 0
     && TracksFramed(file, Smaller(pos + 8 + Field(file, pos + 4, 4), |file|), n - 1))
  }

  /** Every one of `n` framed track chunks holds a payload that decodes. */
  predicate TracksDecode(file: seq<byte>, pos: nat, n: nat, division: int)
    requires TracksFramed(file, pos, n)
    decreases n
  {
    n == 0 ||
    (var next := Smaller(pos + 8 + Field(file, pos + 4, 4), |file|);
     && Track.ParseTrack(file[pos + 8..next], division).Ok?
     && TracksDecode(file, next, n - 1, division))
  }

  /** The payload of the last of `n` framed track chunks. */
  function LastPayload(file: seq<byte>, pos: nat, n: nat): seq<byte>
    requires n > 0 && TracksFramed(file, pos, n)
    decreases n
  {
    var next := Smaller(pos + 8 + Field(file, pos + 4, 4), |file|);
    if n == 1 then file[pos + 8..next] else LastPayload(file, next, n - 1)
  }

  /** The track loop. Every track is analysed and must succeed, but each
      one's lists replace the previous ones: the last track's are kept. */
  function ReadTracks(file: seq<byte>, pos: nat, n: nat, division: int, littleEndianHost: bool, last: TrackEvents)
    : (r: Result<TrackEvents>)
    ensures r.Ok? <==> TracksFramed(file, pos, n) && TracksDecode(file, pos, n, division)
    ensures r.Ok? && n > 0 ==> AnalyzeTrack(LastPayload(file, pos, n), division) == r
    ensures r.Ok? && n == 0 ==> r.value == last
    ensures r.Ok? && division > 0 && (n > 0 || Sorted(last)) ==> Sorted(r.value)
    decreases n
  {
    if n == 0 then Ok(last)
    else
      var c :- ReadChunk(file, pos, littleEndianHost);
      assert c.payload == file[pos + 8..c.next];
      var ev :- AnalyzeTrack(c.payload, division);
      ReadTracks(file, c.next, n - 1, division, littleEndianHost, ev)
  }

  /** What a file needs for `Load` to succeed: an "MThd" header, a positive
      track count, and that many framed track chunks whose payloads decode. */
  predicate LoadsAt(file: seq<byte>)
  {
    && |file| >= 14 && file[..4] == MThd && Field(file, 10, 2) > 0
    && TracksFramed(file, 14, Field(file, 10, 2))
    && TracksDecode(file, 14, Field(file, 10, 2), Field(file, 12, 2))
  }

  /** `Load` with each track given its own record. It succeeds exactly when
      the header is tagged "MThd", the track count is positive, every track
      chunk is tagged "MTrk" with a non-negative length and every payload
      decodes; the result holds the division and the last track's corrected
      lists. */
  function Load(file: seq<byte>, littleEndianHost: bool): (r: Result<LoadData>)
    ensures r.Ok? <==> LoadsAt(file)
    ensures r.Ok? ==> r.value.division == Field(file, 12, 2)
    ensures r.Ok? ==>
              AnalyzeTrack(LastPayload(file, 14, Field(file, 10, 2)), r.value.division)
              == Ok(TrackEvents(r.value.notes, r.value.soflans, r.value.beats))
    ensures r.Ok? && r.value.division > 0 ==> Sorted(TrackEvents(r.value.notes, r.value.soflans, r.value.beats))
  {
    var h :- ReadHeader(file, littleEndianHost);
    if h.tracks <= 0 then Err(NoTracks)
    else
      var ev :- ReadTracks(file, 14, h.tracks, h.division, littleEndianHost, NoEvents);
      Ok(LoadData(h.division, ev.notes, ev.soflans, ev.beats))
  }

  /** `Load` as written: `new TrackChunkData[n]` holds null references, so
      the first track tag is stored through a null record and the load
      fails on every file that gets that far. */
  function LoadAsWritten(file: seq<byte>, littleEndianHost: bool): (r: Result<LoadData>)
    ensures r.Err?
    ensures ReadHeader(file, littleEndianHost).Ok? && Field(file, 10, 2) > 0 ==> r == Err(NullTrackRecord)
  {
    var h :- ReadHeader(file, littleEndianHost);
    if h.tracks <= 0 then Err(NoTracks)
    else Err(NullTrackRecord)
  }

  /** A one-track file holding only End of Track. */
  const MinimalFile: seq<byte> :=
    MThd + [0, 0, 0, 6, 0, 0, 0, 1, 0x01, 0xE0] + MTrk + [0, 0, 0, 4, 0x00, 0xFF, 0x2F, 0x00]

  /** The file loads with its records created, and is rejected as written. */
  lemma MinimalFileLoads(host: bool)
    ensures Load(MinimalFile, host) == Ok(LoadData(480, [], [], []))
    ensures LoadAsWritten(MinimalFile, host) == Err(NullTrackRecord)
  {
    MinimalHeader(host);
    MinimalChunk(host);
    MinimalPayload();
    assert Correction.ModifyEventTimes(NoEvents) == NoEvents;
  }

  lemma MinimalHeader(host: bool)
    ensures ReadHeader(MinimalFile, host) == Ok(Header(6, 0, 1, 480))
  {
    var f := MinimalFile;
    assert f[..4] == MThd;
    assert Field(f, 4, 4) == 6 by {
      assert f[4..8] == [0, 0, 0, 6];
      var s: seq<byte> := [0, 0, 0, 6];
      assert s[..3] == [0, 0, 0] && s[..3][..2] == [0, 0] && s[..3][..2][..1] == [0];
      assert BigEndian([0]) == 0 && BigEndian([0, 0]) == 0 && BigEndian([0, 0, 0]) == 0;
    }
    assert Field(f, 8, 2) == 0 by {
      assert f[8..10] == [0, 0];
      assert BigEndian([0, 0]) == 0 by { assert [0, 0][..1] == [0]; }
    }
    assert Field(f, 10, 2) == 1 by {
      assert f[10..12] == [0, 1];
      assert BigEndian([0, 1]) == 1 by { assert [0, 1][..1] == [0]; }
    }
    assert Field(f, 12, 2) == 480 by {
      assert f[12..14] == [0x01, 0xE0];
      assert BigEndian([0x01, 0xE0]) == 480 by { assert [0x01, 0xE0][..1] == [0x01]; }
    }
  }

  lemma MinimalChunk(host: bool)
    ensures ReadChunk(MinimalFile, 14, host) == Ok(Chunk([0x00, 0xFF, 0x2F, 0x00], 26))
  {
    var f := MinimalFile;
    assert f[14..18] == MTrk;
    assert Field(f, 18, 4) == 4 by {
      assert f[18..22] == [0, 0, 0, 4];
      var s: seq<byte> := [0, 0, 0, 4];
      assert s[..3] == [0, 0, 0] && s[..3][..2] == [0, 0] && s[..3][..2][..1] == [0];
      assert BigEndian([0]) == 0 && BigEndian([0, 0]) == 0 && BigEndian([0, 0, 0]) == 0;
    }
    assert f[22..26] == [0x00, 0xFF, 0x2F, 0x00];
  }

  /** An End of Track event alone decodes to no events. */
  lemma MinimalPayload()
    ensures Track.ParseTrack([0x00, 0xFF, 0x2F, 0x00], 480) == Ok(NoEvents)
  {
    var payload: seq<byte> := [0x00, 0xFF, 0x2F, 0x00];
    assert Vlq.ReadDelta(payload, 0, 0) == Ok((0, 1));
    assert payload[2..] == [0x2F, 0x00];
    assert Track.Meta(payload[2..], 0, 480) == Ok(Track.Decoded(2, Track.Nothing));
    assert Track.Step(payload, 0, 0, 0, 480) == Ok(Track.StepOut(4, 0, 0xFF, Track.Nothing));
    assert Track.ParseFrom(payload, 4, 0, 0xFF, 480, NoEvents) == Ok(NoEvents);
  }
}
