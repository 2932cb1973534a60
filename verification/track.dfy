/** `TrackDataAnalysis`: the `<delta-time><event>` grammar of one track
    payload, with running status, channel messages and meta events. */
module Track {
  import opened Bytes
  import opened Results
  import opened Vlq
  import opened MidiData

  /** The record an event adds to the track's lists, if any. */
  datatype Emitted = Nothing | NoteEvent(note: Note) | TempoEvent(soflan: Soflan) | BeatEvent(beat: Beat)

  /** An event body decoder's answer: how many bytes it read after the
      status byte, and what it emitted. */
  datatype Decoded = Decoded(used: nat, emitted: Emitted)

  /** Data bytes per channel message kind (the status byte's high nibble):
      Program Change and Channel Pressure carry one, the others two. */
  function ChannelDataBytes(kind: int): nat
  {
    if kind == 0xC || kind == 0xD then 1 else 2
  }

  /** A channel message, status 0x80 to 0xEF. Every data byte read past the
      end of the payload is an out-of-range index in the source. */
  function Channel(rest: seq<byte>, time: nat, status: byte): (r: Result<Decoded>)
    requires 0x80 <= status <= 0xEF
    ensures r.Ok? ==> r.value.used == ChannelDataBytes(status / 16) <= |rest|
    ensures r.Err? <==> |rest| < ChannelDataBytes(status / 16) || (status / 16 == 0xB && rest[0] >= 0x80)
    ensures r.Ok? && status / 16 == 0x8 ==> r.value.emitted == NoteEvent(Note(time, rest[0], 0, false))
    ensures r.Ok? && status / 16 == 0x9 ==> r.value.emitted == NoteEvent(Note(time, rest[0], 0, rest[1] != 0))
    ensures r.Ok? && status / 16 != 0x8 && status / 16 != 0x9 ==> r.value.emitted == Nothing
  {
    var kind := status / 16;
    if kind == 0x8 then
      // Note Off: key, velocity; IsPress keeps its default false
      if |rest| < 2 then Err(MissingByte) else Ok(Decoded(2, NoteEvent(Note(time, rest[0], 0, false))))
    else if kind == 0x9 then
      // Note On: a zero velocity is a release
      if |rest| < 2 then Err(MissingByte) else Ok(Decoded(2, NoteEvent(Note(time, rest[0], 0, rest[1] != 0))))
    else if kind == 0xA then
      // Polyphonic Key Pressure
      if |rest| < 2 then Err(MissingByte) else Ok(Decoded(2, Nothing))
    else if kind == 0xB then
      // Control Change below 0x78, channel mode message 0x78 to 0x7F
      if |rest| < 2 then Err(MissingByte)
      else if rest[0] < 0x78 then Ok(Decoded(2, Nothing))
      else if rest[0] <= 0x7F then Ok(Decoded(2, Nothing))
      else Err(ChannelModeValue)
    else if kind == 0xC then
      // Program Change
      if |rest| < 1 then Err(MissingByte) else Ok(Decoded(1, Nothing))
    else if kind == 0xD then
      // Channel Pressure
      if |rest| < 1 then Err(MissingByte) else Ok(Decoded(1, Nothing))
    else
      // Pitch Bend, the only kind left in 0x80..0xEF
      assert kind == 0xE;
      if |rest| < 2 then Err(MissingByte) else Ok(Decoded(2, Nothing))
  }

  /** Meta types whose length byte must hold one value. */
  const FixedMetaLength: map<int, nat> :=
    map[0x00 := 2, 0x20 := 1, 0x21 := 1, 0x2F := 0, 0x51 := 3, 0x54 := 5, 0x58 := 4, 0x59 := 2]

  /** Text meta types 01 to 07, skipped whatever their length. */
  predicate IsTextMeta(t: int)
  {
    0x01 <= t <= 0x07
  }

  /** The shape a meta event body (after 0xFF) must have to be accepted,
      stated from the length rules alone. */
  predicate MetaWellFormed(rest: seq<byte>)
  {
    && |rest| >= 2
    && (rest[0] in FixedMetaLength || IsTextMeta(rest[0]) || rest[0] == 0x7F)
    && (rest[0] in FixedMetaLength ==> rest[1] == FixedMetaLength[rest[0]] && 2 + rest[1] <= |rest|)
    && (IsTextMeta(rest[0]) ==> 2 + rest[1] <= |rest|)
    && (rest[0] == 0x7F ==> |rest| >= 3 && (rest[2] == 9 || rest[2] == 11) && 3 + rest[2] <= |rest|)
  }

  /** Bytes a well-formed meta event occupies after 0xFF. */
  function MetaSize(rest: seq<byte>): nat
    requires |rest| >= 3 || (|rest| >= 2 && rest[0] != 0x7F)
  {
    if rest[0] == 0x7F then 3 + rest[2] as int else 2 + rest[1] as int
  }

  /** A fixed-length meta event that emits nothing. */
  function Skip(t: byte, len: int, body: seq<byte>, n: nat): (r: Result<Decoded>)
  {
    if len != n then Err(MetaLength(t))
    else if |body| < n then Err(MissingByte)
    else Ok(Decoded(2 + n, Nothing))
  }

  /** A meta event: type byte, one length byte, then the body. */
  function Meta(rest: seq<byte>, time: nat, division: int): (r: Result<Decoded>)
    ensures r.Ok? <==> MetaWellFormed(rest)
    ensures r.Ok? ==> r.value.used == MetaSize(rest) <= |rest|
    ensures |rest| >= 2 && rest[0] in FixedMetaLength && rest[1] != FixedMetaLength[rest[0]] ==>
              r == Err(MetaLength(rest[0]))
    ensures |rest| >= 2 && !(rest[0] in FixedMetaLength || IsTextMeta(rest[0]) || rest[0] == 0x7F) ==>
              r == Err(UnknownMeta(rest[0]))
    ensures r.Ok? && rest[0] == 0x51 ==>
              r.value.emitted == TempoEvent(Soflan(time, BpmOf(TempoOf(rest[2], rest[3], rest[4])),
                                                   TickFactor(BpmOf(TempoOf(rest[2], rest[3], rest[4])), division)))
    ensures r.Ok? && rest[0] == 0x58 ==> r.value.emitted == BeatEvent(Beat(time, rest[2], Doubled(rest[3])))
    ensures r.Ok? && rest[0] != 0x51 && rest[0] != 0x58 ==> r.value.emitted == Nothing
  {
    if |rest| < 2 then Err(MissingByte)
    else
      var t := rest[0];
      var len: int := rest[1];
      var body := rest[2..];
      if t == 0x00 then Skip(t, len, body, 2)        // Sequence Number
      else if IsTextMeta(t) then                     // text, copyright, names, lyric, marker, cue point
        if |body| < len then Err(MissingByte) else Ok(Decoded(2 + len, Nothing))
      else if t == 0x20 then Skip(t, len, body, 1)   // MIDI Channel Prefix
      else if t == 0x21 then Skip(t, len, body, 1)   // MIDI Port Prefix
      else if t == 0x2F then Skip(t, len, body, 0)   // End of Track
      else if t == 0x51 then                         // Set Tempo
        if len != 3 then Err(MetaLength(t))
        else if |body| < 3 then Err(MissingByte)
        else
          var bpm := BpmOf(TempoOf(body[0], body[1], body[2]));
          Ok(Decoded(5, TempoEvent(Soflan(time, bpm, TickFactor(bpm, division)))))
      else if t == 0x54 then Skip(t, len, body, 5)   // SMPTE Offset
      else if t == 0x58 then                         // Time Signature
        if len != 4 then Err(MetaLength(t))
        else if |body| < 4 then Err(MissingByte)
        else Ok(Decoded(6, BeatEvent(Beat(time, body[0], Doubled(body[1])))))
      else if t == 0x59 then Skip(t, len, body, 2)   // Key Signature
      else if t == 0x7F then                         // Sequencer Specific: a second length byte
        if |body| < 1 then Err(MissingByte)
        else
          var inner: int := body[0];
          if inner - 8 == 1 then
            if |body| < 1 + 9 then Err(MissingByte) else Ok(Decoded(3 + 9, Nothing))
          else if inner - 8 == 3 then
            if |body| < 1 + 11 then Err(MissingByte) else Ok(Decoded(3 + 11, Nothing))
          else Err(SequencerSpecificLength)
      else Err(UnknownMeta(t))
  }

  /** The System Exclusive branch for status 0x70 or 0x7F: one length byte,
      then that many bytes skipped without a bounds check. */
  function SysEx(rest: seq<byte>): (r: Result<Decoded>)
    ensures r.Ok? <==> |rest| >= 1
    ensures r.Ok? ==> r.value.used == 1 + rest[0] as int && r.value.emitted == Nothing
  {
    if |rest| < 1 then Err(MissingByte) else Ok(Decoded(1 + rest[0] as int, Nothing))
  }

  /** The branch on the status byte. A status that matches none of the
      branches (0 before any status was seen, 0xF0 to 0xFE) reads nothing. */
  function Dispatch(rest: seq<byte>, time: nat, status: byte, division: int): (r: Result<Decoded>)
    ensures r.Ok? && status != 0x70 && status != 0x7F ==> r.value.used <= |rest|
    ensures r.Ok? && r.value.emitted.TempoEvent? ==>
              r.value.emitted.soflan.tick == TickFactor(r.value.emitted.soflan.bpm, division)
    ensures (status < 0x70 || 0xF0 <= status < 0xFF) ==> r == Ok(Decoded(0, Nothing))
    ensures 0x80 <= status <= 0xEF ==> r == Channel(rest, time, status)
    ensures (status == 0x70 || status == 0x7F) ==> r == SysEx(rest)
    ensures status == 0xFF ==> r == Meta(rest, time, division)
  {
    if 0x80 <= status <= 0xEF then Channel(rest, time, status)
    else if status == 0x70 || status == 0x7F then SysEx(rest)
    else if status == 0xFF then Meta(rest, time, division)
    else Ok(Decoded(0, Nothing))
  }

  /** The parser's position, clock and running status after one event. */
  datatype StepOut = StepOut(next: nat, time: nat, status: byte, emitted: Emitted)

  /** A status byte the parser can hold: the initial 0, or a byte that had bit 7 set. */
  predicate ValidStatus(status: byte)
  {
    status == 0 || status >= 0x80
  }

  function EmittedTime(e: Emitted): int
  {
    match e
    case Nothing => 0
    case NoteEvent(n) => n.eventTime
    case TempoEvent(s) => s.eventTime
    case BeatEvent(b) => b.eventTime
  }

  /** One `<delta-time><event>` pair from position `i`. A byte below 0x80
      where the status would be is left for the event as its first data
      byte and the previous status is used again; otherwise it is read as
      the new status. */
  function Step(data: seq<byte>, i: nat, time: nat, status: byte, division: int): (r: Result<StepOut>)
    requires ValidStatus(status)
    ensures r.Ok? ==> i < r.value.next <= |data|
    ensures r.Ok? ==> r.value.time >= time && ValidStatus(r.value.status)
    ensures r.Ok? && !r.value.emitted.Nothing? ==> EmittedTime(r.value.emitted) == r.value.time
    ensures r.Ok? && r.value.emitted.TempoEvent? ==>
              r.value.emitted.soflan.tick == TickFactor(r.value.emitted.soflan.bpm, division)
    ensures ReadDelta(data, i, 0).Err? ==> r == Err(UnterminatedDelta)
    ensures ReadDelta(data, i, 0).Ok? && ReadDelta(data, i, 0).value.1 >= |data| ==> r == Err(MissingByte)
  {
    var dj :- ReadDelta(data, i, 0);
    var now := time + dj.0;
    var j := dj.1;
    if j >= |data| then Err(MissingByte)
    else
      var k := if data[j] < 0x80 then j else j + 1;
      var st := if data[j] < 0x80 then status else data[j];
      Finish(Dispatch(data[k..], now, st, division), k, now, st)
  }

  /** The step's outcome once the event body at `k` has been decoded. */
  function Finish(d: Result<Decoded>, k: nat, now: nat, st: byte): (r: Result<StepOut>)
    ensures d.Err? ==> r == Err(d.error)
  {
    if d.Err? then Err(d.error) else Ok(StepOut(k + d.value.used, now, st, d.value.emitted))
  }

  /** Whether `b` is `a` with its position one byte further on. */
  predicate OneByteLater(a: Result<StepOut>, b: Result<StepOut>)
  {
    if a.Ok? then b == Ok(a.value.(next := a.value.next + 1)) else b == a
  }

  /** Running status: leaving the status byte out reads the same event as
      writing it again, and an explicit status byte is consumed and adopted
      whatever status came before. */
  lemma RunningStatus(prefix: seq<byte>, delta: nat, st: byte, x: byte, rest: seq<byte>,
                      time: nat, before: byte, division: int)
    requires st >= 0x80 && x < 0x80 && ValidStatus(before)
    ensures OneByteLater(Step(prefix + EncodeDelta(delta) + [x] + rest, |prefix|, time, st, division),
                         Step(prefix + EncodeDelta(delta) + [st, x] + rest, |prefix|, time, before, division))
  {
    var e := EncodeDelta(delta);
    var implicit := prefix + e + [x] + rest;
    var explicit := prefix + e + [st, x] + rest;
    assert implicit == prefix + e + ([x] + rest);
    assert explicit == prefix + e + ([st, x] + rest);
    DeltaRoundTrip(prefix, delta, [x] + rest);
    DeltaRoundTrip(prefix, delta, [st, x] + rest);
    var j := |prefix| + |e|;
    assert implicit[j..] == [x] + rest == explicit[j + 1..];
    RunningStatusAt(implicit, explicit, |prefix|, j, delta, st, time, before, division);
  }

  /** Running status for two payloads that agree from the event on, one of
      them holding the status byte `st` just before it. */
  lemma RunningStatusAt(implicit: seq<byte>, explicit: seq<byte>, i: nat, j: nat, delta: nat, st: byte,
                        time: nat, before: byte, division: int)
    requires st >= 0x80 && ValidStatus(before)
    requires ReadDelta(implicit, i, 0) == Ok((delta, j)) && ReadDelta(explicit, i, 0) == Ok((delta, j))
    requires j < |implicit| && implicit[j] < 0x80
    requires j + 1 < |explicit| && explicit[j] == st && implicit[j..] == explicit[j + 1..]
    ensures OneByteLater(Step(implicit, i, time, st, division), Step(explicit, i, time, before, division))
  {
    StepUnfold(implicit, i, time, st, division, delta, j, j, st, implicit[j..]);
    StepUnfold(explicit, i, time, before, division, delta, j, j + 1, st, implicit[j..]);
    FinishOneByteLater(Dispatch(implicit[j..], time + delta, st, division), j, time + delta, st,
                       Step(implicit, i, time, st, division), Step(explicit, i, time, before, division));
  }

  /** `Step` once the delta time has been read: the event at `k` with
      status `s` decodes the bytes `tail` from there on. */
  lemma StepUnfold(data: seq<byte>, i: nat, time: nat, status: byte, division: int, delta: nat, j: nat,
                   k: nat, s: byte, tail: seq<byte>)
    requires ValidStatus(status) && ReadDelta(data, i, 0) == Ok((delta, j)) && j < |data|
    requires k == (if data[j] < 0x80 then j else j + 1) && s == (if data[j] < 0x80 then status else data[j])
    requires k <= |data| && tail == data[k..]
    ensures Step(data, i, time, status, division) == Finish(Dispatch(tail, time + delta, s, division), k, time + delta, s)
  {
    // one case per branch of `Dispatch`, so each path unfolds only its own decoder
    if 0x80 <= s <= 0xEF {
    } else if s == 0x70 || s == 0x7F {
    } else if s == 0xFF {
    }
  }

  /** Finishing the same decoded event one byte later moves only the position. */
  lemma FinishOneByteLater(d: Result<Decoded>, k: nat, now: nat, st: byte, a: Result<StepOut>, b: Result<StepOut>)
    requires a == Finish(d, k, now, st) && b == Finish(d, k + 1, now, st)
    ensures OneByteLater(a, b)
  {
  }

  /** A status from 0xF0 to 0xFE is consumed and adopted but reads nothing
      more: its bytes are taken for the next delta time. (The parser never
      holds 0x70 or 0x7F, so the system exclusive branch is never taken.) */
  lemma StatusGapSkipsNothing(prefix: seq<byte>, delta: nat, st: byte, rest: seq<byte>,
                              time: nat, before: byte, division: int)
    requires 0xF0 <= st <= 0xFE && ValidStatus(before)
    ensures Step(prefix + EncodeDelta(delta) + [st] + rest, |prefix|, time, before, division)
         == Ok(StepOut(|prefix| + |EncodeDelta(delta)| + 1, time + delta, st, Nothing))
  {
    HoldsPrefix(prefix, EncodeDelta(delta), [st], rest);
    StatusStepAt(prefix + EncodeDelta(delta) + [st] + rest, |prefix|, delta, [st], rest, time, before, division);
  }

  /** `data` holds `x` and then `t` from position `i` on. */
  predicate HoldsAt(data: seq<byte>, i: nat, x: seq<byte>, t: seq<byte>)
  {
    i <= |data| && data[i..] == x + t
  }

  /** After `prefix`, the bytes `x + y` sit, then `rest`. */
  lemma HoldsPrefix(prefix: seq<byte>, x: seq<byte>, y: seq<byte>, rest: seq<byte>)
    ensures HoldsAt(prefix + x + y + rest, |prefix|, x + y, rest)
  {
    assert (prefix + x + y + rest)[|prefix|..] == x + y + rest;
  }

  /** What follows `x` in `data` starts right after it. */
  lemma HoldsAfter(data: seq<byte>, i: nat, x: seq<byte>, t: seq<byte>)
    requires HoldsAt(data, i, x, t)
    ensures i + |x| <= |data| && data[i + |x|..] == t
  {
    assert data[i + |x|..] == data[i..][|x|..];
  }

  /** An event `ev` that starts with a status byte, after the delta time at
      `i`: its body is decoded from the byte after the status, under that
      status. */
  lemma StatusStepAt(data: seq<byte>, i: nat, delta: nat, ev: seq<byte>, rest: seq<byte>,
                     time: nat, before: byte, division: int)
    requires |ev| >= 1 && ev[0] >= 0x80 && ValidStatus(before)
    requires HoldsAt(data, i, EncodeDelta(delta) + ev, rest)
    ensures Step(data, i, time, before, division)
         == Finish(Dispatch(ev[1..] + rest, time + delta, ev[0], division),
                   i + |EncodeDelta(delta)| + 1, time + delta, ev[0])
  {
    DeltaLayout(data, i, delta, ev, rest);
    StepUnfold(data, i, time, before, division, delta, i + |EncodeDelta(delta)|, i + |EncodeDelta(delta)| + 1,
               ev[0], data[i + |EncodeDelta(delta)| + 1..]);
  }

  /** An event `ev` that starts with a data byte, after the delta time at
      `i`: it is decoded from that byte on, under the status held before. */
  lemma DataStepAt(data: seq<byte>, i: nat, delta: nat, ev: seq<byte>, rest: seq<byte>,
                   time: nat, before: byte, division: int)
    requires |ev| >= 1 && ev[0] < 0x80 && ValidStatus(before)
    requires HoldsAt(data, i, EncodeDelta(delta) + ev, rest)
    ensures Step(data, i, time, before, division)
         == Finish(Dispatch(ev + rest, time + delta, before, division), i + |EncodeDelta(delta)|, time + delta, before)
  {
    DeltaLayout(data, i, delta, ev, rest);
    StepUnfold(data, i, time, before, division, delta, i + |EncodeDelta(delta)|, i + |EncodeDelta(delta)|,
               before, data[i + |EncodeDelta(delta)|..]);
  }

  /** Where a delta time and then the event `ev` sit at `i`, the delta time
      reads back and the event's bytes follow it. */
  lemma DeltaLayout(data: seq<byte>, i: nat, delta: nat, ev: seq<byte>, rest: seq<byte>)
    requires |ev| >= 1 && HoldsAt(data, i, EncodeDelta(delta) + ev, rest)
    ensures ReadDelta(data, i, 0) == Ok((delta, i + |EncodeDelta(delta)|))
    ensures i + |EncodeDelta(delta)| < |data| && data[i + |EncodeDelta(delta)|] == ev[0]
    ensures data[i + |EncodeDelta(delta)|..] == ev + rest
    ensures data[i + |EncodeDelta(delta)| + 1..] == ev[1..] + rest
  {
    var e := EncodeDelta(delta);
    var j := i + |e|;
    assert data[i..] == e + (ev + rest);
    assert data[i..j] == data[i..][..|e|] == e;
    DecodeAt(data, i, delta);
    assert data[j] == data[i..][|e|] == ev[0];
    assert data[j..] == data[i..][|e|..] == ev + rest;
    assert data[j + 1..] == data[i..][|e| + 1..] == ev[1..] + rest;
  }

  /** A Note On at `i`, with its status byte: the general form of `NoteOnStep`. */
  lemma NoteOnAt(data: seq<byte>, i: nat, delta: nat, ch: byte, key: byte, velocity: byte, rest: seq<byte>,
                 time: nat, before: byte, division: int)
    requires ch < 16 && ValidStatus(before)
    requires HoldsAt(data, i, EncodeDelta(delta) + [0x90 + ch, key, velocity], rest)
    ensures Step(data, i, time, before, division)
         == Ok(StepOut(i + |EncodeDelta(delta)| + 3, time + delta, 0x90 + ch,
                       NoteEvent(Note(time + delta, key, 0, velocity != 0))))
  {
    var ev: seq<byte> := [0x90 + ch, key, velocity];
    var tail := ev[1..] + rest;
    assert |tail| >= 2 && tail[0] == key && tail[1] == velocity;
    NoteOnDecoded(tail, time + delta, ch, key, velocity);
    ChannelStepAt(data, i, delta, ev, rest, time, before, division,
                  Decoded(2, NoteEvent(Note(time + delta, key, 0, velocity != 0))));
  }

  /** A Note Off at `i`, with its status byte: the general form of `NoteOffStep`. */
  lemma NoteOffAt(data: seq<byte>, i: nat, delta: nat, ch: byte, key: byte, velocity: byte, rest: seq<byte>,
                  time: nat, before: byte, division: int)
    requires ch < 16 && ValidStatus(before)
    requires HoldsAt(data, i, EncodeDelta(delta) + [0x80 + ch, key, velocity], rest)
    ensures Step(data, i, time, before, division)
         == Ok(StepOut(i + |EncodeDelta(delta)| + 3, time + delta, 0x80 + ch,
                       NoteEvent(Note(time + delta, key, 0, false))))
  {
    var ev: seq<byte> := [0x80 + ch, key, velocity];
    var tail := ev[1..] + rest;
    assert |tail| >= 2 && tail[0] == key;
    NoteOffDecoded(tail, time + delta, ch, key);
    ChannelStepAt(data, i, delta, ev, rest, time, before, division, Decoded(2, NoteEvent(Note(time + delta, key, 0, false))));
  }

  /** A Note On body with both data bytes present reads them and gives its note. */
  lemma NoteOnDecoded(tail: seq<byte>, time: nat, ch: byte, key: byte, velocity: byte)
    requires ch < 16 && |tail| >= 2 && tail[0] == key && tail[1] == velocity
    ensures Channel(tail, time, 0x90 + ch) == Ok(Decoded(2, NoteEvent(Note(time, key, 0, velocity != 0))))
  {
    assert (0x90 + ch) / 16 == 0x9;
  }

  /** A Note Off body with both data bytes present reads them and gives a released note. */
  lemma NoteOffDecoded(tail: seq<byte>, time: nat, ch: byte, key: byte)
    requires ch < 16 && |tail| >= 2 && tail[0] == key
    ensures Channel(tail, time, 0x80 + ch) == Ok(Decoded(2, NoteEvent(Note(time, key, 0, false))))
  {
    assert (0x80 + ch) / 16 == 0x8;
  }

  /** A channel message at `i` whose body decodes to `d` ends the step after it
      (`StatusStepAt` for a status from 0x80 to 0xEF). */
  lemma ChannelStepAt(data: seq<byte>, i: nat, delta: nat, ev: seq<byte>, rest: seq<byte>,
                      time: nat, before: byte, division: int, d: Decoded)
    requires |ev| >= 1 && 0x80 <= ev[0] <= 0xEF && ValidStatus(before)
    requires HoldsAt(data, i, EncodeDelta(delta) + ev, rest)
    requires Channel(ev[1..] + rest, time + delta, ev[0]) == Ok(d)
    ensures Step(data, i, time, before, division)
         == Ok(StepOut(i + |EncodeDelta(delta)| + 1 + d.used, time + delta, ev[0], d.emitted))
  {
    StatusStepAt(data, i, delta, ev, rest, time, before, division);
    DispatchChannel(ev[1..] + rest, time + delta, ev[0], division, d);
    FinishOk(d, i + |EncodeDelta(delta)| + 1, time + delta, ev[0]);
  }

  /** `Dispatch` under a channel status is `Channel`. */
  lemma DispatchChannel(rest: seq<byte>, time: nat, st: byte, division: int, d: Decoded)
    requires 0x80 <= st <= 0xEF && Channel(rest, time, st) == Ok(d)
    ensures Dispatch(rest, time, st, division) == Ok(d)
  {
  }

  /** A Set Tempo meta event at `i`: the general form of `SetTempoStep`. */
  lemma SetTempoAt(data: seq<byte>, i: nat, delta: nat, b0: byte, b1: byte, b2: byte, rest: seq<byte>,
                   time: nat, before: byte, division: int)
    requires ValidStatus(before)
    requires HoldsAt(data, i, EncodeDelta(delta) + [0xFF, 0x51, 3, b0, b1, b2], rest)
    ensures Step(data, i, time, before, division)
         == Ok(StepOut(i + |EncodeDelta(delta)| + 6, time + delta, 0xFF,
                       TempoEvent(Soflan(time + delta, BpmOf(TempoOf(b0, b1, b2)),
                                         TickFactor(BpmOf(TempoOf(b0, b1, b2)), division)))))
  {
    var ev: seq<byte> := [0xFF, 0x51, 3, b0, b1, b2];
    var tail := ev[1..] + rest;
    assert |tail| >= 5 && tail[0] == 0x51 && tail[1] == 3 && tail[2] == b0 && tail[3] == b1 && tail[4] == b2;
    SetTempoMeta(tail, b0, b1, b2, time + delta, division);
    MetaStepAt(data, i, delta, ev, rest, time, before, division, Meta(tail, time + delta, division).value);
  }

  /** A Time Signature meta event at `i`: the general form of `TimeSignatureStep`. */
  lemma TimeSignatureAt(data: seq<byte>, i: nat, delta: nat, nn: byte, dd: byte, cc: byte, bb: byte,
                        rest: seq<byte>, time: nat, before: byte, division: int)
    requires ValidStatus(before)
    requires HoldsAt(data, i, EncodeDelta(delta) + [0xFF, 0x58, 4, nn, dd, cc, bb], rest)
    ensures Step(data, i, time, before, division)
         == Ok(StepOut(i + |EncodeDelta(delta)| + 7, time + delta, 0xFF,
                       BeatEvent(Beat(time + delta, nn, Doubled(dd)))))
  {
    var ev: seq<byte> := [0xFF, 0x58, 4, nn, dd, cc, bb];
    var tail := ev[1..] + rest;
    assert |tail| >= 6 && tail[0] == 0x58 && tail[1] == 4 && tail[2] == nn && tail[3] == dd;
    TimeSignatureMeta(tail, nn, dd, time + delta, division);
    MetaStepAt(data, i, delta, ev, rest, time, before, division, Meta(tail, time + delta, division).value);
  }

  /** A meta event at `i` whose body decodes to `d` ends the step after it
      (`StatusStepAt` for status 0xFF). */
  lemma MetaStepAt(data: seq<byte>, i: nat, delta: nat, ev: seq<byte>, rest: seq<byte>,
                   time: nat, before: byte, division: int, d: Decoded)
    requires |ev| >= 1 && ev[0] == 0xFF && ValidStatus(before)
    requires HoldsAt(data, i, EncodeDelta(delta) + ev, rest)
    requires Meta(ev[1..] + rest, time + delta, division) == Ok(d)
    ensures Step(data, i, time, before, division)
         == Ok(StepOut(i + |EncodeDelta(delta)| + 1 + d.used, time + delta, 0xFF, d.emitted))
  {
    StatusStepAt(data, i, delta, ev, rest, time, before, division);
    DispatchMeta(ev[1..] + rest, time + delta, division, d);
    FinishOk(d, i + |EncodeDelta(delta)| + 1, time + delta, ev[0]);
  }

  /** Finishing a decoded event moves past the bytes it used. */
  lemma FinishOk(d: Decoded, k: nat, now: nat, st: byte)
    ensures Finish(Ok(d), k, now, st) == Ok(StepOut(k + d.used, now, st, d.emitted))
  {
  }

  /** Under status 0xFF the event is decoded as a meta event. */
  lemma DispatchMeta(rest: seq<byte>, time: nat, division: int, d: Decoded)
    requires Meta(rest, time, division) == Ok(d)
    ensures Dispatch(rest, time, 0xFF, division) == Ok(d)
  {
  }

  /** The Set Tempo case of `Meta`, for a body that is all there. */
  lemma SetTempoMeta(tail: seq<byte>, b0: byte, b1: byte, b2: byte, time: nat, division: int)
    requires |tail| >= 5 && tail[0] == 0x51 && tail[1] == 3 && tail[2] == b0 && tail[3] == b1 && tail[4] == b2
    ensures Meta(tail, time, division)
         == Ok(Decoded(5, TempoEvent(Soflan(time, BpmOf(TempoOf(b0, b1, b2)),
                                            TickFactor(BpmOf(TempoOf(b0, b1, b2)), division)))))
  {
    FixedMetaAccepted(tail, 0x51, 3, time, division);
  }

  /** The Time Signature case of `Meta`, for a body that is all there. */
  lemma TimeSignatureMeta(tail: seq<byte>, nn: byte, dd: byte, time: nat, division: int)
    requires |tail| >= 6 && tail[0] == 0x58 && tail[1] == 4 && tail[2] == nn && tail[3] == dd
    ensures Meta(tail, time, division) == Ok(Decoded(6, BeatEvent(Beat(time, nn, Doubled(dd)))))
  {
    FixedMetaAccepted(tail, 0x58, 4, time, division);
  }

  /** A fixed-length meta event of type `t` whose length byte is right and
      whose body is all there is accepted and occupies `2 + len` bytes. */
  lemma FixedMetaAccepted(tail: seq<byte>, t: byte, len: nat, time: nat, division: int)
    requires t in FixedMetaLength && FixedMetaLength[t] == len
    requires |tail| >= 2 + len && tail[0] == t && tail[1] == len
    ensures Meta(tail, time, division).Ok? && Meta(tail, time, division).value.used == 2 + len
  {
    assert MetaWellFormed(tail);
  }

  /** A Note On with its status byte gives a note at the new time, pressed
      unless its velocity is 0, and becomes the running status (`NoteOnAt`
      for a payload written as `prefix`, the event, then `rest`). */
  lemma NoteOnStep(prefix: seq<byte>, delta: nat, ch: byte, key: byte, velocity: byte, rest: seq<byte>,
                   time: nat, before: byte, division: int)
    requires ch < 16 && ValidStatus(before)
    ensures Step(prefix + EncodeDelta(delta) + [0x90 + ch, key, velocity] + rest, |prefix|, time, before, division)
         == Ok(StepOut(|prefix| + |EncodeDelta(delta)| + 3, time + delta, 0x90 + ch,
                       NoteEvent(Note(time + delta, key, 0, velocity != 0))))
  {
    var data := prefix + EncodeDelta(delta) + [0x90 + ch, key, velocity] + rest;
    HoldsPrefix(prefix, EncodeDelta(delta), [0x90 + ch, key, velocity], rest);
    NoteOnAt(data, |prefix|, delta, ch, key, velocity, rest, time, before, division);
  }

  /** A Note Off with its status byte gives a released note at the new time
      (`NoteOffAt` for a payload written as `prefix`, the event, then `rest`). */
  lemma NoteOffStep(prefix: seq<byte>, delta: nat, ch: byte, key: byte, velocity: byte, rest: seq<byte>,
                    time: nat, before: byte, division: int)
    requires ch < 16 && ValidStatus(before)
    ensures Step(prefix + EncodeDelta(delta) + [0x80 + ch, key, velocity] + rest, |prefix|, time, before, division)
         == Ok(StepOut(|prefix| + |EncodeDelta(delta)| + 3, time + delta, 0x80 + ch,
                       NoteEvent(Note(time + delta, key, 0, false))))
  {
    var data := prefix + EncodeDelta(delta) + [0x80 + ch, key, velocity] + rest;
    HoldsPrefix(prefix, EncodeDelta(delta), [0x80 + ch, key, velocity], rest);
    NoteOffAt(data, |prefix|, delta, ch, key, velocity, rest, time, before, division);
  }

  /** A Set Tempo meta event gives a tempo segment at the new time, with
      the BPM of its three tempo bytes and that BPM's tick factor (`SetTempoAt`
      for a payload written as `prefix`, the event, then `rest`). */
  lemma SetTempoStep(prefix: seq<byte>, delta: nat, b0: byte, b1: byte, b2: byte, rest: seq<byte>,
                     time: nat, before: byte, division: int)
    requires ValidStatus(before)
    ensures Step(prefix + EncodeDelta(delta) + [0xFF, 0x51, 3, b0, b1, b2] + rest, |prefix|, time, before, division)
         == Ok(StepOut(|prefix| + |EncodeDelta(delta)| + 6, time + delta, 0xFF,
                       TempoEvent(Soflan(time + delta, BpmOf(TempoOf(b0, b1, b2)),
                                         TickFactor(BpmOf(TempoOf(b0, b1, b2)), division)))))
  {
    var data := prefix + EncodeDelta(delta) + [0xFF, 0x51, 3, b0, b1, b2] + rest;
    HoldsPrefix(prefix, EncodeDelta(delta), [0xFF, 0x51, 3, b0, b1, b2], rest);
    SetTempoAt(data, |prefix|, delta, b0, b1, b2, rest, time, before, division);
  }

  /** A Time Signature meta event gives a beat at the new time with its
      numerator and the denominator 2 to the power of its second byte
      (`TimeSignatureAt` for a payload written as `prefix`, the event, then `rest`). */
  lemma TimeSignatureStep(prefix: seq<byte>, delta: nat, nn: byte, dd: byte, cc: byte, bb: byte,
                          rest: seq<byte>, time: nat, before: byte, division: int)
    requires ValidStatus(before)
    ensures Step(prefix + EncodeDelta(delta) + [0xFF, 0x58, 4, nn, dd, cc, bb] + rest, |prefix|, time, before, division)
         == Ok(StepOut(|prefix| + |EncodeDelta(delta)| + 7, time + delta, 0xFF,
                       BeatEvent(Beat(time + delta, nn, Doubled(dd)))))
  {
    var data := prefix + EncodeDelta(delta) + [0xFF, 0x58, 4, nn, dd, cc, bb] + rest;
    HoldsPrefix(prefix, EncodeDelta(delta), [0xFF, 0x58, 4, nn, dd, cc, bb], rest);
    TimeSignatureAt(data, |prefix|, delta, nn, dd, cc, bb, rest, time, before, division);
  }

  /** Before any status byte, a data byte where the status would be reads
      no event at all: the byte is left to be read as the next delta time. */
  lemma NoStatusYetSkipsNothing(prefix: seq<byte>, delta: nat, x: byte, rest: seq<byte>,
                                time: nat, division: int)
    requires x < 0x80
    ensures Step(prefix + EncodeDelta(delta) + [x] + rest, |prefix|, time, 0, division)
         == Ok(StepOut(|prefix| + |EncodeDelta(delta)|, time + delta, 0, Nothing))
  {
    HoldsPrefix(prefix, EncodeDelta(delta), [x], rest);
    DataStepAt(prefix + EncodeDelta(delta) + [x] + rest, |prefix|, delta, [x], rest, time, 0, division);
  }

  /** Under a positive division every tempo segment has a non-negative
      tick factor. */
  predicate TicksValid(ev: TrackEvents, division: int)
  {
    division > 0 ==> forall a :: 0 <= a < |ev.soflans| ==> ev.soflans[a].tick >= 0.0
  }

  /** No event of `ev` is later than `time`. */
  predicate NotAfter(ev: TrackEvents, time: int)
  {
    && (forall a :: 0 <= a < |ev.notes| ==> ev.notes[a].eventTime <= time)
    && (forall a :: 0 <= a < |ev.soflans| ==> ev.soflans[a].eventTime <= time)
    && (forall a :: 0 <= a < |ev.beats| ==> ev.beats[a].eventTime <= time)
  }

  /** No event of `ev` past the first `n` notes, `s` tempo changes and `b`
      beats is earlier than `time`. */
  predicate NewNotBefore(ev: TrackEvents, n: nat, s: nat, b: nat, time: int)
  {
    && (forall a :: n <= a < |ev.notes| ==> ev.notes[a].eventTime >= time)
    && (forall a :: s <= a < |ev.soflans| ==> ev.soflans[a].eventTime >= time)
    && (forall a :: b <= a < |ev.beats| ==> ev.beats[a].eventTime >= time)
  }

  /** Whether `big` extends each list of `small`. */
  predicate Extends(small: TrackEvents, big: TrackEvents)
  {
    && small.notes <= big.notes
    && small.soflans <= big.soflans
    && small.beats <= big.beats
  }

  function Add(acc: TrackEvents, e: Emitted): TrackEvents
  {
    match e
    case Nothing => acc
    case NoteEvent(n) => acc.(notes := acc.notes + [n])
    case TempoEvent(s) => acc.(soflans := acc.soflans + [s])
    case BeatEvent(b) => acc.(beats := acc.beats + [b])
  }

  /** The main loop from position `i`, with the clock at `time`, appending
      to `acc`. It stops once the position reaches the end of the payload. */
  function ParseFrom(data: seq<byte>, i: nat, time: nat, status: byte, division: int, acc: TrackEvents)
    : (r: Result<TrackEvents>)
    requires ValidStatus(status)
    requires Sorted(acc) && NotAfter(acc, time) && TicksValid(acc, division)
    ensures r.Ok? ==> Sorted(r.value) && Extends(acc, r.value) && TicksValid(r.value, division)
    ensures r.Ok? ==> NewNotBefore(r.value, |acc.notes|, |acc.soflans|, |acc.beats|, time)
    decreases |data| - i
  {
    if i >= |data| then Ok(acc)
    else
      var s :- Step(data, i, time, status, division);
      var acc' := Add(acc, s.emitted);
      AddKeepsOrder(acc, s.emitted, time, s.time);
      assert TicksValid(acc', division);
      ParseFrom(data, s.next, s.time, s.status, division, acc')
  }

  /** One turn of the main loop: a successful step from inside the payload
      continues from where the step left off, with its record appended. */
  lemma ParseFromStep(data: seq<byte>, i: nat, time: nat, status: byte, division: int, acc: TrackEvents,
                      s: StepOut)
    requires ValidStatus(status) && ValidStatus(s.status)
    requires Sorted(acc) && NotAfter(acc, time) && TicksValid(acc, division)
    requires Sorted(Add(acc, s.emitted)) && NotAfter(Add(acc, s.emitted), s.time)
    requires TicksValid(Add(acc, s.emitted), division)
    requires i < |data| && Step(data, i, time, status, division) == Ok(s)
    ensures ParseFrom(data, i, time, status, division, acc)
         == ParseFrom(data, s.next, s.time, s.status, division, Add(acc, s.emitted))
  {
  }

  /** The lists `acc` grows into when the records of the steps `outs` are
      appended in order. */
  function AddAll(acc: TrackEvents, outs: seq<StepOut>): TrackEvents
    decreases |outs|
  {
    if outs == [] then acc else AddAll(Add(acc, outs[0].emitted), outs[1..])
  }

  /** Appending the records of a first step and then of the others. */
  lemma AddAllCons(acc: TrackEvents, s: StepOut, outs: seq<StepOut>)
    ensures AddAll(acc, [s] + outs) == AddAll(Add(acc, s.emitted), outs)
  {
    assert ([s] + outs)[0] == s && ([s] + outs)[1..] == outs;
  }

  /** `outs` are the successive results of the loop's steps from position
      `i`, the last of them ending the payload. */
  predicate Chain(data: seq<byte>, i: nat, time: nat, status: byte, division: int, outs: seq<StepOut>)
    decreases |outs|
  {
    && ValidStatus(status)
    && (outs == [] ==> i >= |data|)
    && (outs != [] ==>
          && i < |data|
          && Step(data, i, time, status, division) == Ok(outs[0])
          && Chain(data, outs[0].next, outs[0].time, outs[0].status, division, outs[1..]))
  }

  /** A successful step from `i` followed by a chain from where it ends. */
  lemma ChainCons(data: seq<byte>, i: nat, time: nat, status: byte, division: int, s: StepOut,
                  outs: seq<StepOut>)
    requires ValidStatus(status) && i < |data| && Step(data, i, time, status, division) == Ok(s)
    requires Chain(data, s.next, s.time, s.status, division, outs)
    ensures Chain(data, i, time, status, division, [s] + outs)
  {
    assert ([s] + outs)[0] == s && ([s] + outs)[1..] == outs;
  }

  /** `ChainCons` with the step's result spelled out field by field. */
  lemma ChainConsAt(data: seq<byte>, i: nat, time: nat, status: byte, division: int, next: nat, now: nat,
                    st: byte, e: Emitted, rest: seq<StepOut>)
    requires ValidStatus(status) && i < |data| && Step(data, i, time, status, division) == Ok(StepOut(next, now, st, e))
    requires Chain(data, next, now, st, division, rest)
    ensures Chain(data, i, time, status, division, [StepOut(next, now, st, e)] + rest)
  {
    ChainCons(data, i, time, status, division, StepOut(next, now, st, e), rest);
  }

  /** The main loop over a chain of successful steps appends exactly their
      records, in order. */
  lemma {:induction false} ParseChain(data: seq<byte>, i: nat, time: nat, status: byte, division: int,
                                      acc: TrackEvents, outs: seq<StepOut>)
    requires Chain(data, i, time, status, division, outs)
    requires Sorted(acc) && NotAfter(acc, time) && TicksValid(acc, division)
    ensures ParseFrom(data, i, time, status, division, acc) == Ok(AddAll(acc, outs))
    decreases |outs|
  {
    if outs != [] {
      var s := outs[0];
      AddKeepsOrder(acc, s.emitted, time, s.time);
      assert TicksValid(Add(acc, s.emitted), division);
      ParseFromStep(data, i, time, status, division, acc, s);
      ParseChain(data, s.next, s.time, s.status, division, Add(acc, s.emitted), outs[1..]);
    }
  }

  /** A step that fails inside the payload fails the whole loop with its
      error: nothing decoded so far is kept. */
  lemma StepErrorFailsLoop(data: seq<byte>, i: nat, time: nat, status: byte, division: int, acc: TrackEvents)
    requires ValidStatus(status) && Sorted(acc) && NotAfter(acc, time) && TicksValid(acc, division)
    requires i < |data| && Step(data, i, time, status, division).Err?
    ensures ParseFrom(data, i, time, status, division, acc) == Err(Step(data, i, time, status, division).error)
  {
  }

  /** The successful steps from position `i` on, up to the end of the
      payload or to the first step that fails. */
  ghost function StepsFrom(data: seq<byte>, i: nat, time: nat, status: byte, division: int): seq<StepOut>
    requires ValidStatus(status)
    decreases |data| - i
  {
    if i >= |data| then []
    else
      match Step(data, i, time, status, division)
      case Err(_) => []
      case Ok(s) => [s] + StepsFrom(data, s.next, s.time, s.status, division)
  }

  /** The converse of `ParseChain`: a loop that succeeds took a chain of
      successful steps to the end of the payload, and appended exactly
      their records. */
  lemma {:induction false} ParseFromChain(data: seq<byte>, i: nat, time: nat, status: byte, division: int,
                                          acc: TrackEvents)
    requires ValidStatus(status) && Sorted(acc) && NotAfter(acc, time) && TicksValid(acc, division)
    requires ParseFrom(data, i, time, status, division, acc).Ok?
    ensures Chain(data, i, time, status, division, StepsFrom(data, i, time, status, division))
    ensures ParseFrom(data, i, time, status, division, acc).value
         == AddAll(acc, StepsFrom(data, i, time, status, division))
    decreases |data| - i
  {
    if i >= |data| {
      assert AddAll(acc, []) == acc;
    } else {
      var s := Step(data, i, time, status, division).value;
      AddKeepsOrder(acc, s.emitted, time, s.time);
      assert TicksValid(Add(acc, s.emitted), division);
      ParseFromStep(data, i, time, status, division, acc, s);
      ParseFromChain(data, s.next, s.time, s.status, division, Add(acc, s.emitted));
      ChainWitness(data, i, time, status, division, acc, s, StepsFrom(data, s.next, s.time, s.status, division),
                   ParseFrom(data, i, time, status, division, acc).value);
    }
  }

  /** A successful step followed by a chain of records `v` holds, as a
      chain from the step's start. */
  lemma ChainWitness(data: seq<byte>, i: nat, time: nat, status: byte, division: int, acc: TrackEvents,
                     s: StepOut, outs: seq<StepOut>, v: TrackEvents)
    requires ValidStatus(status) && i < |data| && Step(data, i, time, status, division) == Ok(s)
    requires Chain(data, s.next, s.time, s.status, division, outs) && v == AddAll(Add(acc, s.emitted), outs)
    ensures Chain(data, i, time, status, division, [s] + outs) && v == AddAll(acc, [s] + outs)
  {
    ChainCons(data, i, time, status, division, s, outs);
    AddAllCons(acc, s, outs);
  }

  /** A track payload decodes exactly when its steps, from the start with
      no status and the clock at 0, succeed one after another up to the
      end of the payload; it then holds exactly those steps' records. */
  lemma ParseTrackChain(data: seq<byte>, division: int)
    ensures ParseTrack(data, division).Ok? <==> exists outs :: Chain(data, 0, 0, 0, division, outs)
    ensures forall outs :: Chain(data, 0, 0, 0, division, outs) ==>
              ParseTrack(data, division) == Ok(AddAll(NoEvents, outs))
  {
    forall outs | Chain(data, 0, 0, 0, division, outs)
      ensures ParseTrack(data, division) == Ok(AddAll(NoEvents, outs))
    {
      ChainDecodes(data, division, outs);
    }
    if ParseTrack(data, division).Ok? {
      DecodesChain(data, division);
    }
  }

  /** `ParseChain` from the start of a payload. */
  lemma ChainDecodes(data: seq<byte>, division: int, outs: seq<StepOut>)
    requires Chain(data, 0, 0, 0, division, outs)
    ensures ParseTrack(data, division) == Ok(AddAll(NoEvents, outs))
  {
    ParseChain(data, 0, 0, 0, division, NoEvents, outs);
  }

  /** `ParseFromChain` from the start of a payload. */
  lemma DecodesChain(data: seq<byte>, division: int)
    requires ParseTrack(data, division).Ok?
    ensures exists outs :: Chain(data, 0, 0, 0, division, outs)
  {
    ParseFromChain(data, 0, 0, 0, division, NoEvents);
    var w := StepsFrom(data, 0, 0, 0, division);
    assert Chain(data, 0, 0, 0, division, w);
  }

  /** An event written with its status byte whose body does not decode
      fails the step with the decoder's error. */
  lemma BodyErrorFailsStep(data: seq<byte>, i: nat, delta: nat, ev: seq<byte>, rest: seq<byte>,
                           time: nat, before: byte, division: int)
    requires |ev| >= 1 && ev[0] >= 0x80 && ValidStatus(before)
    requires HoldsAt(data, i, EncodeDelta(delta) + ev, rest)
    requires Dispatch(ev[1..] + rest, time + delta, ev[0], division).Err?
    ensures Step(data, i, time, before, division) == Err(Dispatch(ev[1..] + rest, time + delta, ev[0], division).error)
  {
    StatusStepAt(data, i, delta, ev, rest, time, before, division);
  }

  /** A delta time that never ends, and a delta time with nothing after
      it, fail the track. */
  lemma TruncatedTracksFail()
    ensures ParseTrack([0x80], 480) == Err(UnterminatedDelta)
    ensures ParseTrack([0x00], 480) == Err(MissingByte)
  {
    assert ReadDelta([0x80], 0, 0).Err?;
    assert ReadDelta([0x00], 0, 0) == Ok((0, 1));
  }

  /** An unknown meta type fails the track. */
  lemma UnknownMetaFails()
    ensures ParseTrack([0x00, 0xFF, 0x30, 0x00], 480) == Err(UnknownMeta(0x30))
  {
    var c: seq<byte> := [0x00, 0xFF, 0x30, 0x00];
    assert ReadDelta(c, 0, 0) == Ok((0, 1));
    assert c[2..] == [0x30, 0x00];
  }

  /** A Set Tempo whose length byte is not 3 fails the track. */
  lemma TempoLengthFails()
    ensures ParseTrack([0x00, 0xFF, 0x51, 0x02, 0x07, 0xA1], 480) == Err(MetaLength(0x51))
  {
    var d: seq<byte> := [0x00, 0xFF, 0x51, 0x02, 0x07, 0xA1];
    assert ReadDelta(d, 0, 0) == Ok((0, 1));
    assert d[2..] == [0x51, 0x02, 0x07, 0xA1];
  }

  /** A failure after an event that decoded still fails the track: the
      note read first is not kept. */
  lemma LateFailureKeepsNothing()
    ensures ParseTrack([0x00, 0x90, 0x3C, 0x64, 0x80], 480) == Err(UnterminatedDelta)
  {
    var e: seq<byte> := [0x00, 0x90, 0x3C, 0x64, 0x80];
    assert ReadDelta(e, 0, 0) == Ok((0, 1));
    assert e[2..] == [0x3C, 0x64, 0x80];
    assert Step(e, 0, 0, 0, 480) == Ok(StepOut(4, 0, 0x90, NoteEvent(Note(0, 0x3C, 0, true))));
    assert ReadDelta(e, 4, 0).Err?;
    StepErrorFailsLoop(e, 4, 0, 0x90, 480, Add(NoEvents, NoteEvent(Note(0, 0x3C, 0, true))));
  }

  /** Appending an event stamped `now` to lists that end no later than
      `time <= now` keeps them in order. */
  lemma AddKeepsOrder(acc: TrackEvents, e: Emitted, time: int, now: int)
    requires Sorted(acc) && NotAfter(acc, time) && time <= now
    requires !e.Nothing? ==> EmittedTime(e) == now
    ensures Sorted(Add(acc, e)) && NotAfter(Add(acc, e), now)
    ensures Extends(acc, Add(acc, e))
    ensures NewNotBefore(Add(acc, e), |acc.notes|, |acc.soflans|, |acc.beats|, now)
  {
  }

  /** Decodes one track payload into its notes, tempo changes and beats,
      each in the order (and so the time order) they were read. */
  function ParseTrack(data: seq<byte>, division: int): (r: Result<TrackEvents>)
    ensures r.Ok? ==> Sorted(r.value) && TicksValid(r.value, division)
    ensures r.Ok? ==> NewNotBefore(r.value, 0, 0, 0, 0)
  {
    ParseFrom(data, 0, 0, 0, division, NoEvents)
  }
}
