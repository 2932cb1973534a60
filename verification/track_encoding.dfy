/** The writing side of a track payload: the four events the loader keeps,
    each encoded with an explicit status byte, and what decoding a payload
    built from them gives back. */
module TrackEncoding {
  import opened Bytes
  import opened Results
  import opened Vlq
  import opened MidiData
  import opened Track

  /** One event of a track, with the delta time before it. */
  datatype Event =
    | NoteOn(delta: nat, channel: byte, key: byte, velocity: byte)
    | NoteOff(delta: nat, channel: byte, key: byte, velocity: byte)
    | SetTempo(delta: nat, t0: byte, t1: byte, t2: byte)
    | TimeSignature(delta: nat, numerator: byte, exponent: byte, clocks: byte, notated: byte)

  /** Channel messages name one of the 16 channels. */
  predicate ValidEvent(ev: Event)
  {
    (ev.NoteOn? || ev.NoteOff?) ==> ev.channel < 16
  }

  predicate AllValid(evs: seq<Event>)
  {
    forall a :: 0 <= a < |evs| ==> ValidEvent(evs[a])
  }

  /** The status byte that starts the event's bytes. */
  function StatusOf(ev: Event): byte
    requires ValidEvent(ev)
  {
    match ev
    case NoteOn(_, ch, _, _) => 0x90 + ch
    case NoteOff(_, ch, _, _) => 0x80 + ch
    case SetTempo(_, _, _, _) => 0xFF
    case TimeSignature(_, _, _, _, _) => 0xFF
  }

  /** The event's bytes after its delta time, status byte first. */
  function Body(ev: Event): seq<byte>
    requires ValidEvent(ev)
  {
    match ev
    case NoteOn(_, ch, key, vel) => [0x90 + ch, key, vel]
    case NoteOff(_, ch, key, vel) => [0x80 + ch, key, vel]
    case SetTempo(_, b0, b1, b2) => [0xFF, 0x51, 3, b0, b1, b2]
    case TimeSignature(_, nn, dd, cc, bb) => [0xFF, 0x58, 4, nn, dd, cc, bb]
  }

  function EncodeEvent(ev: Event): seq<byte>
    requires ValidEvent(ev)
  {
    EncodeDelta(ev.delta) + Body(ev)
  }

  /** A track payload holding `evs` in order. */
  function Encode(evs: seq<Event>): seq<byte>
    requires AllValid(evs)
  {
    if evs == [] then [] else EncodeEvent(evs[0]) + Encode(evs[1..])
  }

  /** The record the loader keeps for `ev` when it happens at time `now`,
      stated from the event alone. */
  function Record(ev: Event, now: nat, division: int): Emitted
  {
    match ev
    case NoteOn(_, _, key, vel) => NoteEvent(Note(now, key, 0, vel != 0))
    case NoteOff(_, _, key, _) => NoteEvent(Note(now, key, 0, false))
    case SetTempo(_, b0, b1, b2) =>
      var bpm := BpmOf(TempoOf(b0, b1, b2));
      TempoEvent(Soflan(now, bpm, TickFactor(bpm, division)))
    case TimeSignature(_, nn, dd, _, _) => BeatEvent(Beat(now, nn, Doubled(dd)))
  }

  /** The lists `acc` grows into when the events `evs` happen one after
      another, the first `evs[0].delta` ticks after `time`. */
  function Replay(evs: seq<Event>, time: nat, division: int, acc: TrackEvents): TrackEvents
  {
    if evs == [] then acc
    else
      var now := time + evs[0].delta;
      Replay(evs[1..], now, division, Add(acc, Record(evs[0], now, division)))
  }

  /** Decoding one encoded event at `i` reads exactly its bytes, advances
      the clock by its delta, adopts its status and yields its record. */
  lemma EventStep(data: seq<byte>, i: nat, ev: Event, rest: seq<byte>, time: nat, before: byte, division: int)
    requires ValidEvent(ev) && ValidStatus(before) && HoldsAt(data, i, EncodeEvent(ev), rest)
    ensures Step(data, i, time, before, division)
         == Ok(StepOut(i + |EncodeEvent(ev)|, time + ev.delta, StatusOf(ev), Record(ev, time + ev.delta, division)))
  {
    HoldsBody(data, i, ev, rest);
    // one lemma per kind of event, so each proof unfolds one decoder
    if ev.NoteOn? {
      NoteOnEventStep(data, i, ev, rest, time, before, division);
    } else if ev.NoteOff? {
      NoteOffEventStep(data, i, ev, rest, time, before, division);
    } else if ev.SetTempo? {
      SetTempoEventStep(data, i, ev, rest, time, before, division);
    } else {
      TimeSignatureEventStep(data, i, ev, rest, time, before, division);
    }
  }

  /** `NoteOnAt` for an event given as an `Event`; one case of `EventStep`. */
  lemma NoteOnEventStep(data: seq<byte>, i: nat, ev: Event, rest: seq<byte>, time: nat, before: byte, division: int)
    requires ev.NoteOn? && ValidEvent(ev) && ValidStatus(before)
    requires HoldsAt(data, i, EncodeDelta(ev.delta) + Body(ev), rest)
    ensures Step(data, i, time, before, division)
         == Ok(StepOut(i + |EncodeEvent(ev)|, time + ev.delta, StatusOf(ev), Record(ev, time + ev.delta, division)))
  {
    NoteOnAt(data, i, ev.delta, ev.channel, ev.key, ev.velocity, rest, time, before, division);
  }

  /** `NoteOffAt` for an event given as an `Event`; one case of `EventStep`. */
  lemma NoteOffEventStep(data: seq<byte>, i: nat, ev: Event, rest: seq<byte>, time: nat, before: byte, division: int)
    requires ev.NoteOff? && ValidEvent(ev) && ValidStatus(before)
    requires HoldsAt(data, i, EncodeDelta(ev.delta) + Body(ev), rest)
    ensures Step(data, i, time, before, division)
         == Ok(StepOut(i + |EncodeEvent(ev)|, time + ev.delta, StatusOf(ev), Record(ev, time + ev.delta, division)))
  {
    NoteOffAt(data, i, ev.delta, ev.channel, ev.key, ev.velocity, rest, time, before, division);
  }

  /** `SetTempoAt` for an event given as an `Event`; one case of `EventStep`. */
  lemma SetTempoEventStep(data: seq<byte>, i: nat, ev: Event, rest: seq<byte>, time: nat, before: byte, division: int)
    requires ev.SetTempo? && ValidStatus(before)
    requires HoldsAt(data, i, EncodeDelta(ev.delta) + Body(ev), rest)
    ensures Step(data, i, time, before, division)
         == Ok(StepOut(i + |EncodeEvent(ev)|, time + ev.delta, StatusOf(ev), Record(ev, time + ev.delta, division)))
  {
    TempoShape(ev, i, time, division);
    SetTempoAt(data, i, ev.delta, ev.t0, ev.t1, ev.t2, rest, time, before, division);
  }

  /** A Set Tempo event's bytes, and its step result in the form
      `SetTempoAt` gives it. */
  lemma TempoShape(ev: Event, i: nat, time: nat, division: int)
    requires ev.SetTempo?
    ensures Body(ev) == [0xFF, 0x51, 3, ev.t0, ev.t1, ev.t2]
    ensures Ok(StepOut(i + |EncodeDelta(ev.delta)| + 6, time + ev.delta, 0xFF,
                       TempoEvent(Soflan(time + ev.delta, BpmOf(TempoOf(ev.t0, ev.t1, ev.t2)),
                                         TickFactor(BpmOf(TempoOf(ev.t0, ev.t1, ev.t2)), division)))))
         == Ok(StepOut(i + |EncodeEvent(ev)|, time + ev.delta, StatusOf(ev), Record(ev, time + ev.delta, division)))
  {
  }

  /** `TimeSignatureAt` for an event given as an `Event`; one case of `EventStep`. */
  lemma TimeSignatureEventStep(data: seq<byte>, i: nat, ev: Event, rest: seq<byte>, time: nat, before: byte,
                               division: int)
    requires ev.TimeSignature? && ValidStatus(before)
    requires HoldsAt(data, i, EncodeDelta(ev.delta) + Body(ev), rest)
    ensures Step(data, i, time, before, division)
         == Ok(StepOut(i + |EncodeEvent(ev)|, time + ev.delta, StatusOf(ev), Record(ev, time + ev.delta, division)))
  {
    BeatShape(ev, i, time, division);
    TimeSignatureAt(data, i, ev.delta, ev.numerator, ev.exponent, ev.clocks, ev.notated, rest, time, before, division);
  }

  /** A Time Signature event's bytes, and its step result in the form
      `TimeSignatureAt` gives it. */
  lemma BeatShape(ev: Event, i: nat, time: nat, division: int)
    requires ev.TimeSignature?
    ensures Body(ev) == [0xFF, 0x58, 4, ev.numerator, ev.exponent, ev.clocks, ev.notated]
    ensures Ok(StepOut(i + |EncodeDelta(ev.delta)| + 7, time + ev.delta, 0xFF,
                       BeatEvent(Beat(time + ev.delta, ev.numerator, Doubled(ev.exponent)))))
         == Ok(StepOut(i + |EncodeEvent(ev)|, time + ev.delta, StatusOf(ev), Record(ev, time + ev.delta, division)))
  {
  }

  /** Where an encoded event sits, its delta time sits, then its bytes. */
  lemma HoldsBody(data: seq<byte>, i: nat, ev: Event, rest: seq<byte>)
    requires ValidEvent(ev) && HoldsAt(data, i, EncodeEvent(ev), rest)
    ensures HoldsAt(data, i, EncodeDelta(ev.delta) + Body(ev), rest)
  {
  }

  /** The results of the loop's steps over the encoded events `evs`, the
      first of them starting at position `i` with the clock at `time`. */
  function Outs(evs: seq<Event>, i: nat, time: nat, division: int): seq<StepOut>
    requires AllValid(evs)
  {
    if evs == [] then []
    else
      var now := time + evs[0].delta;
      var next := i + |EncodeEvent(evs[0])|;
      [StepOut(next, now, StatusOf(evs[0]), Record(evs[0], now, division))] + Outs(evs[1..], next, now, division)
  }

  /** The loop's steps over a payload of encoded events are one per event,
      each reading exactly that event, whatever status came before. */
  lemma {:induction false} EncodedChain(data: seq<byte>, i: nat, evs: seq<Event>, time: nat, status: byte,
                                        division: int)
    requires AllValid(evs) && ValidStatus(status) && HoldsAt(data, i, Encode(evs), [])
    ensures Chain(data, i, time, status, division, Outs(evs, i, time, division))
    decreases |evs|
  {
    if evs == [] {
      assert |data[i..]| == 0;
    } else {
      HoldsNext(data, i, evs);
      // the fields of the first step, named so that the facts below match
      var next: nat, now: nat, st: byte := i + |EncodeEvent(evs[0])|, time + evs[0].delta, StatusOf(evs[0]);
      var e := Record(evs[0], now, division);
      var rest := Outs(evs[1..], next, now, division);
      EncodedChain(data, next, evs[1..], now, st, division);
      EncodedHead(data, i, evs, time, status, division, next, now, st, e);
      ChainConsAt(data, i, time, status, division, next, now, st, e, rest);
      ChainOuts(data, i, evs, time, status, division, next, now, st, e, rest);
    }
  }

  /** A chain whose first step reads the first event and whose others are
      the steps over the remaining events is the chain over all of them. */
  lemma ChainOuts(data: seq<byte>, i: nat, evs: seq<Event>, time: nat, status: byte, division: int,
                  next: nat, now: nat, st: byte, e: Emitted, rest: seq<StepOut>)
    requires AllValid(evs) && evs != []
    requires next == i + |EncodeEvent(evs[0])| && now == time + evs[0].delta && st == StatusOf(evs[0])
    requires e == Record(evs[0], now, division) && rest == Outs(evs[1..], next, now, division)
    requires Chain(data, i, time, status, division, [StepOut(next, now, st, e)] + rest)
    ensures Chain(data, i, time, status, division, Outs(evs, i, time, division))
  {
    OutsCons(evs, i, time, division, next, now, st, e, rest);
  }

  /** The steps over a nonempty list of events: the first event's, then the others'. */
  lemma OutsCons(evs: seq<Event>, i: nat, time: nat, division: int, next: nat, now: nat, st: byte, e: Emitted,
                 rest: seq<StepOut>)
    requires AllValid(evs) && evs != []
    requires next == i + |EncodeEvent(evs[0])| && now == time + evs[0].delta && st == StatusOf(evs[0])
    requires e == Record(evs[0], now, division) && rest == Outs(evs[1..], next, now, division)
    ensures Outs(evs, i, time, division) == [StepOut(next, now, st, e)] + rest
  {
    OutsHead(evs, i, time, division);
  }

  /** The first step of `Outs`, in the terms of its definition; `OutsCons`
      is this with the fields named. */
  lemma OutsHead(evs: seq<Event>, i: nat, time: nat, division: int)
    requires AllValid(evs) && evs != []
    ensures Outs(evs, i, time, division)
         == [StepOut(i + |EncodeEvent(evs[0])|, time + evs[0].delta, StatusOf(evs[0]),
                     Record(evs[0], time + evs[0].delta, division))]
          + Outs(evs[1..], i + |EncodeEvent(evs[0])|, time + evs[0].delta, division)
  {
  }

  /** The first event of an encoded payload is read by one step, which
      yields the fields `next`, `now`, `st` and `e` (`EventStepAs` for the
      first of `evs`). */
  lemma EncodedHead(data: seq<byte>, i: nat, evs: seq<Event>, time: nat, status: byte, division: int,
                    next: nat, now: nat, st: byte, e: Emitted)
    requires AllValid(evs) && ValidStatus(status) && HoldsAt(data, i, Encode(evs), []) && evs != []
    requires next == i + |EncodeEvent(evs[0])| && now == time + evs[0].delta && st == StatusOf(evs[0])
    requires e == Record(evs[0], now, division)
    ensures Step(data, i, time, status, division) == Ok(StepOut(next, now, st, e))
  {
    HoldsHead(data, i, evs);
    EventStepAs(data, i, evs[0], Encode(evs[1..]), time, status, division, next, now, st, e);
  }

  /** `EventStep` with the step's result spelled out field by field. */
  lemma EventStepAs(data: seq<byte>, i: nat, ev: Event, rest: seq<byte>, time: nat, before: byte, division: int,
                    next: nat, now: nat, st: byte, e: Emitted)
    requires ValidEvent(ev) && ValidStatus(before) && HoldsAt(data, i, EncodeEvent(ev), rest)
    requires next == i + |EncodeEvent(ev)| && now == time + ev.delta && st == StatusOf(ev)
    requires e == Record(ev, now, division)
    ensures Step(data, i, time, before, division) == Ok(StepOut(next, now, st, e))
  {
    EventStep(data, i, ev, rest, time, before, division);
    OutAs(ev, i, time, division, next, now, st, e);
  }

  /** The step result `EventStep` gives, equal to the one spelled out. */
  lemma OutAs(ev: Event, i: nat, time: nat, division: int, next: nat, now: nat, st: byte, e: Emitted)
    requires ValidEvent(ev)
    requires next == i + |EncodeEvent(ev)| && now == time + ev.delta && st == StatusOf(ev)
    requires e == Record(ev, now, division)
    ensures Ok(StepOut(i + |EncodeEvent(ev)|, time + ev.delta, StatusOf(ev), Record(ev, time + ev.delta, division)))
         == Ok(StepOut(next, now, st, e))
  {
  }

  /** Where an encoded payload sits, its first event sits, then the rest. */
  lemma HoldsHead(data: seq<byte>, i: nat, evs: seq<Event>)
    requires AllValid(evs) && HoldsAt(data, i, Encode(evs), []) && evs != []
    ensures ValidEvent(evs[0]) && AllValid(evs[1..])
    ensures HoldsAt(data, i, EncodeEvent(evs[0]), Encode(evs[1..]))
  {
    assert Encode(evs) + [] == EncodeEvent(evs[0]) + Encode(evs[1..]);
  }

  /** The rest of the payload starts after the first event, which leaves a
      status the parser can hold. */
  lemma HoldsNext(data: seq<byte>, i: nat, evs: seq<Event>)
    requires AllValid(evs) && HoldsAt(data, i, Encode(evs), []) && evs != []
    ensures |evs| >= 1 && |evs[1..]| < |evs| && AllValid(evs[1..]) && i < |data|
    ensures ValidStatus(StatusOf(evs[0]))
    ensures HoldsAt(data, i + |EncodeEvent(evs[0])|, Encode(evs[1..]), [])
  {
    HoldsHead(data, i, evs);
    HoldsAfter(data, i, EncodeEvent(evs[0]), Encode(evs[1..]));
    assert data[i + |EncodeEvent(evs[0])|..] == Encode(evs[1..]) + [];
  }

  /** Appending the records of those steps is replaying the events. */
  lemma {:induction false} OutsReplay(evs: seq<Event>, i: nat, time: nat, division: int, acc: TrackEvents)
    requires AllValid(evs)
    ensures AddAll(acc, Outs(evs, i, time, division)) == Replay(evs, time, division, acc)
    decreases |evs|
  {
    if evs != [] {
      // the fields of the first step, named so that the facts below match
      var next: nat, now: nat, st: byte := i + |EncodeEvent(evs[0])|, time + evs[0].delta, StatusOf(evs[0]);
      var e := Record(evs[0], now, division);
      var rest := Outs(evs[1..], next, now, division);
      OutsCons(evs, i, time, division, next, now, st, e, rest);
      AddAllCons(acc, StepOut(next, now, st, e), rest);
      OutsReplay(evs[1..], next, now, division, Add(acc, e));
      ReplayHead(evs, time, division, acc, now, e);
    }
  }

  /** `Replay` of a first event and then the others, with the first
      event's time and record named. */
  lemma ReplayHead(evs: seq<Event>, time: nat, division: int, acc: TrackEvents, now: nat, e: Emitted)
    requires evs != [] && now == time + evs[0].delta && e == Record(evs[0], now, division)
    ensures Replay(evs, time, division, acc) == Replay(evs[1..], now, division, Add(acc, e))
  {
  }

  /** A payload of encoded events decodes to exactly their records, each
      at the running sum of the delta times up to it. */
  lemma EventsRoundTrip(evs: seq<Event>, division: int)
    requires AllValid(evs)
    ensures ParseTrack(Encode(evs), division) == Ok(Replay(evs, 0, division, NoEvents))
  {
    var data := Encode(evs);
    assert data[0..] == data + [];
    EncodedChain(data, 0, evs, 0, 0, division);
    ParseChain(data, 0, 0, 0, division, NoEvents, Outs(evs, 0, 0, division));
    OutsReplay(evs, 0, 0, division, NoEvents);
  }

  /** The ticks from the start of the track to the last event of `evs`. */
  function Elapsed(evs: seq<Event>): nat
  {
    if evs == [] then 0 else Elapsed(evs[..|evs| - 1]) + evs[|evs| - 1].delta
  }

  /** The note the `i`-th Note On of `evs` stands for. */
  function NoteAt(evs: seq<Event>, i: nat): Note
    requires i < |evs| && evs[i].NoteOn?
  {
    Note(Elapsed(evs[..i + 1]), evs[i].key, 0, evs[i].velocity != 0)
  }

  predicate NotesOf(notes: seq<Note>, evs: seq<Event>, n: nat)
    requires n <= |evs| && forall a :: 0 <= a < |evs| ==> evs[a].NoteOn?
  {
    |notes| == n && forall a :: 0 <= a < n ==> notes[a] == NoteAt(evs, a)
  }

  /** A track of Note On messages only decodes to one note per message, in
      order, each at the sum of the delta times up to and including its
      own, on its key, pressed unless its velocity is 0; and to no tempo
      changes or beats. */
  lemma NoteOnsRoundTrip(evs: seq<Event>, division: int)
    requires forall a :: 0 <= a < |evs| ==> evs[a].NoteOn? && evs[a].channel < 16
    ensures ParseTrack(Encode(evs), division).Ok?
    ensures ParseTrack(Encode(evs), division).value.soflans == []
    ensures ParseTrack(Encode(evs), division).value.beats == []
    ensures |ParseTrack(Encode(evs), division).value.notes| == |evs|
    ensures forall a :: 0 <= a < |evs| ==>
              (ParseTrack(Encode(evs), division).value.notes[a]
               == Note(Elapsed(evs[..a + 1]), evs[a].key, 0, evs[a].velocity != 0))
  {
    EventsRoundTrip(evs, division);
    assert evs[0..] == evs && evs[..0] == [];
    ReplayNoteOns(evs, 0, division, []);
  }

  /** Replaying the Note Ons from the `n`-th on, with the first `n` notes
      already in place, gives all of them. */
  lemma {:induction false} ReplayNoteOns(evs: seq<Event>, n: nat, division: int, notes: seq<Note>)
    requires forall a :: 0 <= a < |evs| ==> evs[a].NoteOn?
    requires n <= |evs| && NotesOf(notes, evs, n)
    ensures var r := Replay(evs[n..], Elapsed(evs[..n]), division, TrackEvents(notes, [], []));
            r.soflans == [] && r.beats == [] && NotesOf(r.notes, evs, |evs|)
    decreases |evs| - n
  {
    if n < |evs| {
      var ev := evs[n];
      assert evs[..n + 1][..n] == evs[..n];
      var now := Elapsed(evs[..n]) + ev.delta;
      assert now == Elapsed(evs[..n + 1]);
      assert evs[n..][0] == ev && evs[n..][1..] == evs[n + 1..];
      var notes' := notes + [NoteAt(evs, n)];
      assert Add(TrackEvents(notes, [], []), Record(ev, now, division)) == TrackEvents(notes', [], []);
      ReplayNoteOns(evs, n + 1, division, notes');
    } else {
      assert evs[n..] == [];
    }
  }
}
