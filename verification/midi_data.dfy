/** The records `TrackDataAnalysis` emits, and the arithmetic that fills them. */
module MidiData {
  import opened Bytes

  /** A Note On or Note Off message. `soflanNo` is the tempo segment the
      correction pass assigns; it stays 0 until then. */
  datatype Note = Note(eventTime: int, laneIndex: byte, soflanNo: int, isPress: bool)

  /** Beats per minute in tenths. A tempo of zero microseconds per quarter
      note gives an infinite BPM in the source's float division. */
  datatype Bpm = Tenths(tenths: nat) | Infinite

  /** A Set Tempo meta event ("soflan"): `tick` is the display time in
      milliseconds of one MIDI tick under this tempo. */
  datatype Soflan = Soflan(eventTime: int, bpm: Bpm, tick: real)

  /** A Time Signature meta event. */
  datatype Beat = Beat(eventTime: int, numerator: byte, denominator: byte)

  /** The three lists one track produces, in the order they were decoded. */
  datatype TrackEvents = TrackEvents(notes: seq<Note>, soflans: seq<Soflan>, beats: seq<Beat>)

  const NoEvents := TrackEvents([], [], [])

  /** Every list of `ev` is in non-decreasing time order. */
  predicate Sorted(ev: TrackEvents)
  {
    && (forall a, b :: 0 <= a < b < |ev.notes| ==> ev.notes[a].eventTime <= ev.notes[b].eventTime)
    && (forall a, b :: 0 <= a < b < |ev.soflans| ==> ev.soflans[a].eventTime <= ev.soflans[b].eventTime)
    && (forall a, b :: 0 <= a < b < |ev.beats| ==> ev.beats[a].eventTime <= ev.beats[b].eventTime)
  }

  /** Microseconds per quarter note, from the three bytes of Set Tempo. */
  function TempoOf(b0: byte, b1: byte, b2: byte): (tempo: nat)
    ensures tempo == BigEndian([b0, b1, b2])
    ensures tempo < 0x100_0000
  {
    assert [b0, b1, b2][..2] == [b0, b1] && [b0, b1][..1] == [b0] && [b0][..0] == [];
    assert BigEndian([b0]) == b0;
    assert BigEndian([b0, b1]) == b0 * 256 + b1;
    (b0 * 256 + b1) * 256 + b2
  }

  /** 60000000 / tempo, cut down to one decimal place. */
  function BpmOf(tempo: nat): (b: Bpm)
    ensures b.Infinite? <==> tempo == 0
    ensures b.Tenths? ==> b.tenths * tempo <= 600_000_000 < (b.tenths + 1) * tempo
  {
    if tempo == 0 then Infinite else Tenths(600_000_000 / tempo)
  }

  /** 60 / bpm / division * 1000 over the reals. For the infinite BPM of
      tempo 0 the source's float arithmetic gives 0 under a non-zero
      division and NaN (0 / 0) under a zero one; any other zero BPM or zero
      division gives an infinite factor there. The model gives 0 in all of
      these cases. */
  function TickFactor(bpm: Bpm, division: int): (t: real)
    ensures bpm.Tenths? && bpm.tenths > 0 && division != 0 ==>
              t * (bpm.tenths as real / 10.0) * (division as real) == 60000.0
    ensures bpm.Infinite? ==> t == 0.0
    ensures division > 0 ==> t >= 0.0
  {
    match bpm
    case Infinite => 0.0
    case Tenths(n) =>
      if n > 0 && division != 0 then 600000.0 / ((n * division) as real) else 0.0
  }

  function Pow2(n: nat): (p: nat)
    ensures p >= 1
  {
    if n == 0 then 1 else 2 * Pow2(n - 1)
  }

  /** The loop that fills `Denominator`: it starts at 1 and is doubled
      `count` times as a byte. */
  function DoublingLoop(count: nat): byte
  {
    if count == 0 then 1 else (2 * DoublingLoop(count - 1)) % 256
  }

  /** The denominator for a Time Signature exponent of `count`, in closed
      form: 2^count while that fits in a byte, 0 from the eighth doubling on. */
  function Doubled(count: nat): byte
  {
    if count < 8 then [1, 2, 4, 8, 16, 32, 64, 128][count] else 0
  }

  /** The loop gives the closed form for every count: 2^count below 8,
      and 0 once the doubling has wrapped around. */
  lemma {:induction false} DoublingLoopIsDoubled(count: nat)
    ensures DoublingLoop(count) == Doubled(count)
    ensures count < 8 ==> Doubled(count) == Pow2(count)
    ensures count >= 8 ==> Doubled(count) == 0
  {
    if count > 0 {
      DoublingLoopIsDoubled(count - 1);
    }
  }

  /** The worked values: 500000 us per quarter is 120.0 BPM, 461538 is 130.0. */
  lemma BpmExamples()
    ensures BpmOf(500000) == Tenths(1200)
    ensures BpmOf(461538) == Tenths(1300)
  {
  }

  /** Any tempo the three bytes can hold, other than 0, gives at least 3.5 BPM. */
  lemma BpmPositive(tempo: nat)
    requires 0 < tempo < 0x100_0000
    ensures BpmOf(tempo).Tenths? && BpmOf(tempo).tenths >= 35
  {
    assert 35 * tempo <= 600_000_000;
  }
}
