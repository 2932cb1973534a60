# MIDI chart loader and replay notes

This project models the two pieces of the game-input replay tool that decide
what the player sees. The first is `MIDILoader`. It reads a Standard MIDI
File into three time-ordered lists:

- notes (Note On / Note Off);
- "soflan" tempo segments (Set Tempo);
- beats (Time Signature).

It then moves every event from MIDI ticks onto a millisecond display axis,
one tempo segment at a time. The second piece is the replay view's note
state machine: a normal note, plus the start and end of a long note. Each
note is processed at most once.

The modules, in dependency order:

- `Results`: the failure type. Every exception the loader can raise is one
  `LoadError`. The loader's own `catch` then turns any of them into a
  failed load.
- `Bytes`: big-endian and little-endian unsigned values, two's-complement
  fields, and the host byte-order branch of the header reader.
- `Vlq`: the delta-time loop (variable-length quantities of the Standard
  MIDI Files 1.0 specification), with its encoder as a partner.
- `MidiData`: the emitted records, the tempo → BPM → tick-factor
  arithmetic, and the time-signature denominator loop.
- `Track`: one `<delta-time><event>` step, running status, the channel,
  meta and system exclusive branches, and the main loop over a track
  payload.
- `TrackEncoding`: the writing side of a track payload, for the four
  events the loader keeps (Note On, Note Off, Set Tempo, Time Signature).
  It is the partner of the track parser: what a payload built from these
  events decodes to.
- `Correction`: `ModificationEventTimes`. It re-anchors the tempo segments,
  then assigns each note and beat to its segment and rescales its time.
- `Loader`: the header and track chunk framing, and `Load` itself.
- `ReplayNotes`: `NormalNote` and `LongNote` from the replay view.

The model follows the code where it departs from what a Standard MIDI File
reader would do:

- A file with several tracks keeps only the last track's lists.
- A track payload cut short by the end of the file is parsed as far as it
  goes.
- A negative 32-bit track length fails the load.
- The header's declared length is ignored, and the first track is read at
  byte 14.
- A meta event's length is one byte, not a variable-length quantity.
- End of Track does not stop the loop.
- Only statuses 0x70 and 0x7F reach the system exclusive branch. The parser
  never holds either value, so that branch is unreachable. A status from
  0xF0 to 0xFE (including a real SysEx start) is adopted but reads nothing.
- Running out of payload right after a delta time fails, because the
  status position is indexed unconditionally.

The float arithmetic of Set Tempo is modelled on exact values:

- BPM is kept in tenths, floored as `Mathf.Floor(bpm * 10) / 10` does.
- A tempo of 0 gives the infinite BPM. Its tick factor is 0, which is what
  IEEE division yields under a non-zero division.
- The tick factor is a `real`.
- Each `(int)` cast truncates toward zero (`Correction.Trunc`).

The host byte-order test `BitConverter.IsLittleEndian` is a parameter of
`Load`. The file's bytes replace the `FileStream`.

## Model

| member | source | states |
|---|---|---|
| Bytes.HostRead | Assets/Scripts/Data/MIDILoader.cs:100-130 | on a little-endian host (reverse, then read least significant first) and on a big-endian host alike, a header or length field is the signed big-endian value of its bytes |
| Bytes.Signed | Assets/Scripts/Data/MIDILoader.cs:106-118 | `ToInt32`/`ToInt16` read the bytes as two's complement: the result is the unsigned value or that value minus 256^n, and lies in the signed range of n bytes |
| Bytes.BigEndianRoundTrip | Assets/Scripts/Data/MIDILoader.cs:100-130 | every value below 256^n is read back from its n-byte big-endian encoding, so a field value determines its bytes |
| Bytes.ToBigEndianOfBigEndian | Assets/Scripts/Data/MIDILoader.cs:100-130 | re-encoding the value read from n bytes gives the same n bytes |
| Vlq.ReadDelta | Assets/Scripts/Data/MIDILoader.cs:227-247 | a delta time ends at the first byte with bit 7 clear, every earlier byte has bit 7 set, and the position moves forward within the payload; it fails only with `UnterminatedDelta`, and only when every remaining byte has bit 7 set |
| Vlq.UnterminatedDeltaFails | Assets/Scripts/Data/MIDILoader.cs:227-247 | conversely, when every remaining byte has bit 7 set, the delta loop fails with `UnterminatedDelta` instead of running on |
| Vlq.DeltaRoundTrip | Assets/Scripts/Data/MIDILoader.cs:227-247 | decoding the standard encoding of any value, wherever it sits in the payload, gives the value back and stops just after its last byte |
| Vlq.DecodeAt | Assets/Scripts/Data/MIDILoader.cs:227-247 | wherever a payload holds the standard encoding of a value, the delta loop started there reads that value and stops just after it |
| Vlq.DeltaLength | Assets/Scripts/Data/MIDILoader.cs:227-247 | values below 2^28, the range the file format allows, take at most four bytes |
| MidiData.TempoOf | Assets/Scripts/Data/MIDILoader.cs:586-591 | the three Set Tempo bytes form a 24-bit big-endian tempo |
| MidiData.BpmOf | Assets/Scripts/Data/MIDILoader.cs:599-602 | the BPM is infinite exactly when the tempo is 0; otherwise it is 60000000/tempo floored to tenths |
| MidiData.TickFactor | Assets/Scripts/Data/MIDILoader.cs:605 | the tick factor times the BPM times the division is 60000 ms; it is 0 for an infinite BPM and never negative for a positive division |
| MidiData.DoublingLoopIsDoubled | Assets/Scripts/Data/MIDILoader.cs:650-652 | starting from 1 and doubling the byte denominator dd times gives 2^dd for dd below 8 and 0 (byte wrap-around) from 8 on, which is the denominator table `Doubled` that beats carry |
| MidiData.BpmExamples | Assets/Scripts/Data/MIDILoader.cs:599-602 | 500000 µs per quarter note is 120.0 BPM and 461538 µs is 130.0 BPM |
| MidiData.BpmPositive | Assets/Scripts/Data/MIDILoader.cs:599-602 | any non-zero 24-bit tempo gives a finite BPM of at least 3.5 |
| Track.Channel | Assets/Scripts/Data/MIDILoader.cs:270-435 | a channel message reads one data byte (program change, channel pressure) or two (the rest); Note Off and Note On become notes at the current time with the key as lane, a Note On pressing unless its velocity is 0; it fails only when data runs out or a channel mode controller is above 0x7F |
| Track.Meta | Assets/Scripts/Data/MIDILoader.cs:448-695 | a meta event succeeds exactly when it is well formed (fixed-length types with their fixed length, text types with their body present, sequencer-specific with an inner length of 9 or 11, no unknown type); it reads type, length and body; Set Tempo and Time Signature become a tempo segment and a beat |
| Track.SysEx | Assets/Scripts/Data/MIDILoader.cs:439-445 | the system exclusive branch reads a length byte and skips that many bytes without checking they exist |
| Track.Dispatch | Assets/Scripts/Data/MIDILoader.cs:267-695 | a status from 0x80 to 0xEF is decoded as a channel message, 0x70 and 0x7F as system exclusive and 0xFF as a meta event; a status below 0x70 or from 0xF0 to 0xFE reads nothing and emits nothing; only the system exclusive branch can skip past the payload; a tempo segment carries the tick factor of its BPM |
| Track.Step | Assets/Scripts/Data/MIDILoader.cs:221-265 | one step moves strictly forward inside the payload, never moves the clock back, leaves a status that is 0 or has bit 7 set, and stamps what it emits with the new time; a delta time whose last byte still has bit 7 set fails with `UnterminatedDelta`, and a delta time with no byte after it fails with `MissingByte` |
| Track.RunningStatus | Assets/Scripts/Data/MIDILoader.cs:254-265 | leaving a status byte out reads the same event as writing it again, one byte shorter, and an explicit status is adopted whatever came before |
| Track.RunningStatusAt | Assets/Scripts/Data/MIDILoader.cs:254-265 | for any two payloads whose delta times read alike and whose bytes agree from the event on, one holding a status byte just before it, the step without the byte reads what the step with it reads, one byte sooner |
| Track.StatusGapSkipsNothing | Assets/Scripts/Data/MIDILoader.cs:254-265 | a status from 0xF0 to 0xFE is consumed and adopted, emits nothing and reads no further byte |
| Track.NoStatusYetSkipsNothing | Assets/Scripts/Data/MIDILoader.cs:254-265 | before any status byte, a data byte in the status position reads no event and is left for the next delta time |
| Track.StatusStepAt | Assets/Scripts/Data/MIDILoader.cs:221-265 | after a delta time, a byte with bit 7 set is consumed as the new status, the clock moves on by the delta, and the event body is decoded from the next byte under that status |
| Track.DataStepAt | Assets/Scripts/Data/MIDILoader.cs:221-259 | after a delta time, a byte below 0x80 is not consumed: the event body is decoded from that byte on under the status held before |
| Track.NoteOnStep | Assets/Scripts/Data/MIDILoader.cs:297-314 | at any position, a delta time and a Note On `0x90+ch, key, velocity` are read in full: the step ends three bytes after the delta time, the clock moves on by the delta, 0x90+ch becomes the running status and the step emits a note at the new time on lane `key`, pressed exactly when the velocity is not 0 |
| Track.NoteOffStep | Assets/Scripts/Data/MIDILoader.cs:279-295 | a delta time and a Note Off `0x80+ch, key, velocity` are read in full and emit a released note at the new time on lane `key`, with 0x80+ch as the running status |
| Track.SetTempoStep | Assets/Scripts/Data/MIDILoader.cs:577-609 | a delta time and the meta event `FF 51 03 t0 t1 t2` are read in full and emit a tempo segment at the new time whose BPM is that of the 24-bit tempo and whose tick factor is that BPM's |
| Track.TimeSignatureStep | Assets/Scripts/Data/MIDILoader.cs:631-659 | a delta time and the meta event `FF 58 04 nn dd cc bb` are read in full and emit a beat at the new time with numerator `nn` and the doubled denominator of `dd` |
| Track.ParseFrom | Assets/Scripts/Data/MIDILoader.cs:221-697 | the main loop only appends, and every list it builds stays in time order with nothing earlier than the clock it started from; under a positive division every tick factor is non-negative; when it fails, the failure is the first failing step's (`StepErrorFailsLoop`) |
| Track.ParseTrack | Assets/Scripts/Data/MIDILoader.cs:205-221 | a decoded track is in time order, no event precedes time 0, and its tick factors are non-negative under a positive division; it decodes exactly when its steps chain to the end of the payload (`ParseTrackChain`) |
| Track.Finish | Assets/Scripts/Data/MIDILoader.cs:267-697 | an event body that fails to decode fails the whole step with that same error |
| Track.BodyErrorFailsStep | Assets/Scripts/Data/MIDILoader.cs:254-697 | after a delta time and a status byte, a body the dispatcher rejects fails the step with the dispatcher's error |
| Track.StepErrorFailsLoop | Assets/Scripts/Data/MIDILoader.cs:221-703 | a step that fails while bytes remain makes the whole loop fail with that step's error, whatever was collected before it |
| Track.ParseFromChain | Assets/Scripts/Data/MIDILoader.cs:221-697 | a loop that succeeds is a chain of successful steps ending exactly at the end of the payload, and its lists are the ones it started with plus exactly those steps' records |
| Track.ParseTrackChain | Assets/Scripts/Data/MIDILoader.cs:205-703 | a payload decodes if and only if some chain of successful steps from offset 0, time 0 and no status reaches its end, and then the result is exactly that chain's records |
| Track.TruncatedTracksFail | Assets/Scripts/Data/MIDILoader.cs:227-256 | the payload `80` fails with `UnterminatedDelta` (the delta time never ends) and `00` fails with `MissingByte` (nothing follows the delta time) |
| Track.UnknownMetaFails | Assets/Scripts/Data/MIDILoader.cs:693-694 | a meta event of type 0x30 makes the track fail with `UnknownMeta(0x30)` |
| Track.TempoLengthFails | Assets/Scripts/Data/MIDILoader.cs:577-579 | a Set Tempo event whose length byte is 2 rather than 3 makes the track fail with `MetaLength(0x51)` |
| Track.LateFailureKeepsNothing | Assets/Scripts/Data/MIDILoader.cs:221-703 | a Note On that decodes followed by a delta time that never ends fails the whole track with `UnterminatedDelta`: nothing decoded before the failure is kept |
| Track.ParseChain | Assets/Scripts/Data/MIDILoader.cs:221-697 | when the steps from a position succeed one after another up to the end of the payload, the main loop returns the lists it started with plus exactly those steps' records, in order |
| TrackEncoding.EventStep | Assets/Scripts/Data/MIDILoader.cs:221-659 | a Note On, Note Off, Set Tempo or Time Signature written with its status byte, anywhere in a payload and whatever status came before, is read as exactly its bytes, moves the clock by its delta, becomes the running status and yields the record the loader keeps for it |
| TrackEncoding.EncodedChain | Assets/Scripts/Data/MIDILoader.cs:221-697 | the loop over a payload of such events takes one step per event, each reading exactly that event |
| TrackEncoding.OutsReplay | Assets/Scripts/Data/MIDILoader.cs:221-697 | the records of those steps, appended in order, are the events' records, each stamped with the running sum of the delta times |
| TrackEncoding.EventsRoundTrip | Assets/Scripts/Data/MIDILoader.cs:205-697 | a track payload built from Note On, Note Off, Set Tempo and Time Signature events decodes successfully to exactly their notes, tempo segments and beats, in order, each at the sum of the delta times up to and including its own |
| TrackEncoding.NoteOnsRoundTrip | Assets/Scripts/Data/MIDILoader.cs:205-314 | a track of Note On messages decodes to one note per message, in order, the i-th at the sum of the first i+1 delta times, on its key, pressed unless its velocity is 0, and to no tempo segments or beats |
| Correction.Trunc | Assets/Scripts/Data/MIDILoader.cs:726-759 | the `(int)` casts of lines 726, 741 and 759 truncate toward zero |
| Correction.ReAnchor | Assets/Scripts/Data/MIDILoader.cs:720-729 | the first segment keeps its time; each later one starts at its predecessor's corrected start plus the tick distance scaled by the predecessor's tick factor; BPM and tick factor are untouched |
| Correction.ReAnchorSorted | Assets/Scripts/Data/MIDILoader.cs:720-729 | with segments in tick order and non-negative tick factors, the corrected starts are in order as well |
| Correction.ReAnchorStepsUp | Assets/Scripts/Data/MIDILoader.cs:720-729 | under the same conditions, a later segment's corrected start is never before an earlier one's |
| Correction.ReAnchorExample | Assets/Scripts/Data/MIDILoader.cs:720-729 | segments at ticks 0 and 480 with a tick factor of 1 ms keep the second one at 480 ms |
| Correction.ScanBack | Assets/Scripts/Data/MIDILoader.cs:734-736 | the downward scan over the first n segments stops at the highest index whose original start is at or before the time, and finds none only when all of them start after it |
| Correction.SegmentOf | Assets/Scripts/Data/MIDILoader.cs:734-736 | a time belongs to the last segment starting at or before it (ties go to the later segment), and to none when every segment starts after it |
| Correction.SegmentOfMonotone | Assets/Scripts/Data/MIDILoader.cs:734-736 | a later time never belongs to an earlier segment |
| Correction.OnBoundary | Assets/Scripts/Data/MIDILoader.cs:736 | for any list of corrected starts, an event exactly at a segment's start tick (the next segment starting later) belongs to that segment and lands on that segment's corrected start |
| Correction.CorrectNote | Assets/Scripts/Data/MIDILoader.cs:732-747 | a note in segment j is moved to j's corrected start plus its tick distance from j's original start scaled by j's tick factor, records j, and keeps lane and press; a note before every segment is unchanged |
| Correction.CorrectBeat | Assets/Scripts/Data/MIDILoader.cs:750-764 | a beat is moved as a note is and keeps numerator and denominator; a beat before every segment is unchanged |
| Correction.CorrectNotes | Assets/Scripts/Data/MIDILoader.cs:732-747 | every note is corrected in place: the list keeps its length, each note keeps its lane and press, gets the corrected time of its tick and records the index of its segment, and a note before every segment is left as it was |
| Correction.CorrectBeats | Assets/Scripts/Data/MIDILoader.cs:750-764 | every beat is corrected in place, the list keeping its length and each beat its fields, and a beat before every segment is left as it was |
| Correction.ModifyEventTimes | Assets/Scripts/Data/MIDILoader.cs:714-765 | the pass re-anchors the segments and corrects each note and beat against the segments as they were before the pass |
| Correction.Offset | Assets/Scripts/Data/MIDILoader.cs:726-759 | the shared `(int)(distance * tick) + start` of lines 726, 741 and 759 lands on the start plus the product rounded toward zero: at or after the start, within one tick of it from below, for a non-negative product, and at or before the start, within one from above, for a negative one |
| Correction.OffsetMonotone | Assets/Scripts/Data/MIDILoader.cs:741 | for a non-negative tick factor, a longer tick distance never gives an earlier corrected time, and none lands before its segment's start |
| Correction.CorrectedTimeMonotone | Assets/Scripts/Data/MIDILoader.cs:732-764 | with segments in order and non-negative tick factors, a later tick never gets an earlier corrected time, across segment boundaries included |
| Correction.CorrectionKeepsOrder | Assets/Scripts/Data/MIDILoader.cs:714-765 | a track in time order with non-negative tick factors is still in time order after correction |
| Correction.ReAnchorAliased | Assets/Scripts/Data/MIDILoader.cs:716-729 | as written: each segment's tick distance is measured from its predecessor's already corrected start |
| Correction.ModifyEventTimesAliased | Assets/Scripts/Data/MIDILoader.cs:714-765 | as written: the segments are re-anchored through the aliased list, and every note and every beat is matched to a segment and measured against the corrected segment starts |
| Correction.AliasingHarmlessForOneSegment | Assets/Scripts/Data/MIDILoader.cs:714-765 | with at most one tempo segment the pass as written and the snapshot pass agree |
| Correction.AliasingMisplacesNote | Assets/Scripts/Data/MIDILoader.cs:716-747 | with segments at ticks 0 and 480, a note at tick 300 lands at 150 ms in segment 0 with the snapshot, but at 300 ms in segment 1 as written |
| Loader.ReadHeader | Assets/Scripts/Data/MIDILoader.cs:86-130 | the header reads exactly when the file starts with "MThd" and holds 14 bytes; length, format, track count and division are the signed big-endian fields at bytes 4, 8, 10 and 12 |
| Loader.ReadChunk | Assets/Scripts/Data/MIDILoader.cs:147-173 | a track chunk reads exactly when it has the "MTrk" tag, a full length field and a non-negative length; its payload is what follows, cut short at the end of the file |
| Loader.AnalyzeTrack | Assets/Scripts/Data/MIDILoader.cs:699-708 | a track's lists are its decoded events after the correction pass; a decoding failure fails the track; under a positive division the result is in time order |
| Loader.ReadTracks | Assets/Scripts/Data/MIDILoader.cs:142-189 | the track loop succeeds exactly when every chunk is correctly framed and every payload decodes, and its result is the analysis of the last chunk's payload |
| Loader.Load | Assets/Scripts/Data/MIDILoader.cs:77-200 | a load succeeds exactly on an "MThd" file with a positive track count, correctly framed track chunks and payloads that all decode; it returns the header's division and the last track's corrected lists, which are in time order when the division is positive |
| Loader.LoadAsWritten | Assets/Scripts/Data/MIDILoader.cs:142-148 | as written every load fails, and every file with a readable header and at least one track fails at the first track record |
| Loader.MinimalFileLoads | Assets/Scripts/Data/MIDILoader.cs:77-200 | a one-track file holding only End of Track loads with division 480 and empty lists, and is rejected as written |
| Loader.MinimalHeader | Assets/Scripts/Data/MIDILoader.cs:86-130 | that file's header is length 6, format 0, one track, division 480 |
| Loader.MinimalChunk | Assets/Scripts/Data/MIDILoader.cs:147-173 | its track chunk holds the four payload bytes of End of Track |
| Loader.MinimalPayload | Assets/Scripts/Data/MIDILoader.cs:570-575 | End of Track alone decodes to no events |
| ReplayNotes.NewNormalNote | Assets/Scripts/View/Replay/NoteManager.cs:99-102 | a new normal note is unprocessed, with time and lane at their defaults |
| ReplayNotes.NewLongNote | Assets/Scripts/View/Replay/NoteManager.cs:146-149 | a new long note is unprocessed and, since nothing sets `IsStart`, reads as a long end |
| ReplayNotes.GetNoteType | Assets/Scripts/View/Replay/NoteManager.cs:126-181 | a normal note is `Normal`; a long note is `LongStart` exactly when it is a start, `LongEnd` otherwise |
| ReplayNotes.Process | Assets/Scripts/View/Replay/NoteManager.cs:117-178 | for both note classes, processing marks the note processed and changes nothing else; a second call is a no-op and the judgement is ignored |
| ReplayNotes.OnButton | Assets/Scripts/View/Replay/NoteManager.cs:107-168 | a normal note and a long start are processed by a press and ignore a release; a long end is processed by either; the note's kind never changes |
| ReplayNotes.RunProcessed | Assets/Scripts/View/Replay/NoteManager.cs:107-178 | after any sequence of button events and judgements, a note is processed exactly when it was already or some input triggers it, and nothing else about it has changed |
| ReplayNotes.StaysProcessed | Assets/Scripts/View/Replay/NoteManager.cs:117-123 | once processed, no sequence of inputs changes the note again |

## Left out

- Float arithmetic: BPM and the tick factor are exact reals and tenths, not
  single-precision floats, so float rounding in `60 / Bpm / division * 1000`
  and in the products of the correction pass is not modelled.
- Integer widths: the model does not wrap `uint` delta times and the
  current time at 2^32. It does not wrap the `(int)` casts at 2^31 either,
  and it does not model the `uint` shift overflow of delta times of five
  or more bytes.
- TickFactor: with a division of 0 the source's float tick factor is
  infinite, or NaN when the tempo is also 0; the model gives 0 in both
  cases.
- BpmOf: the source computes `Mathf.Floor(bpm * 10) / 10` in single
  precision, so its tenths can differ from the exact floor the model
  takes. Tempo 202977 gives 295.6 in float arithmetic but 295.5 exactly,
  because 600000000 / 202977 lies just below 2956; other tempos whose
  quotient lies that close below a whole number of tenths differ the same
  way.
- EventsRoundTrip: the payloads it covers write every event with its
  status byte and hold only the four kinds of event the loader keeps.
  Payloads that rely on running status are covered one step at a time by
  `Track.RunningStatus`, and the other event kinds by `Track.Channel` and
  `Track.Meta`.
- The text of text-like meta events (types 01 to 07) is copied out only
  for logging, so only its byte count is modelled.
- The success and failure callbacks of `TrackDataAnalysis` are replaced by
  the `Result` it returns.
- Debug logging (`Debug.LogError`, `Debug.LogWarning`,
  `System.Diagnostics.Debug.WriteLine`) has no effect on results and is
  left out.
- The `FileStream`/`BinaryReader` plumbing is replaced by the file's bytes.
  A file too short for a 4-byte tag is treated like a wrong tag: both fail
  the load.
- `LoadError` names the failing check more finely than the source does.
  The source only returns null, so any two errors mean the same thing.
- `NoteManager.Update` (NoteManager.cs:79-88): its loop does nothing, since
  the `if` inside it is empty, and its header reads `activeNoteList`, a list
  that is never created. No behaviour of it is modelled.
- `Const.cs`, `DataManager.cs` and `ReplayData.cs` are not part of this
  model.
- `NormalNote`/`LongNote` keep `EventTime`, `LaneIndex` and `IsStart` at
  their defaults, because the source never assigns them. A long start can
  only be built directly as a datatype value.

## Findings

| source | as written | input that shows it | evidently intended | confidence | as-written member | corrected member |
|---|---|---|---|---|---|---|
| Assets/Scripts/Data/MIDILoader.cs:142-148 | `new TrackChunkData[n]` makes an array of null references, and the first `ChunkType` store through one of them throws, so `Load` returns null for every file | any file with a valid header and at least one track, e.g. `Loader.MinimalFile` | create a record per track before filling it | not executed | Loader.LoadAsWritten | Loader.Load |
| Assets/Scripts/Data/MIDILoader.cs:716-759 | the `temp*` lists copy references to the same records, so segment times read through them are already corrected and notes and beats are matched against corrected starts | segments at ticks 0 (0.5 ms per tick) and 480 (1 ms per tick) and a note at tick 300: it goes to segment 1 at 300 ms instead of segment 0 at 150 ms (`Correction.AliasingMisplacesNote`) | compare and measure against the segment times as they were before the pass | not executed | Correction.ModifyEventTimesAliased | Correction.ModifyEventTimes |
