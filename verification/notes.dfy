/** The replay view's notes: a normal note and the two ends of a long
    note, each processed at most once. */
module ReplayNotes {
  datatype NoteType = Normal | LongStart | LongEnd

  /** The judgement handed to `Process`; no note looks at it. */
  datatype JudgeType = Perfect | Great | Good | Bad | Miss

  /** A note's observable state. The constructors assign only the
      processed flag, so time, lane and `isStart` keep their defaults. */
  datatype ReplayNote =
    | NormalNote(eventTime: int, laneIndex: int, isProcessed: bool)
    | LongNote(eventTime: int, laneIndex: int, isProcessed: bool, isStart: bool)

  function NewNormalNote(): (n: ReplayNote)
    ensures n.NormalNote? && !n.isProcessed && n.eventTime == 0 && n.laneIndex == 0
  {
    NormalNote(0, 0, false)
  }

  /** A freshly made long note is not a start, so it reads as a long end. */
  function NewLongNote(): (n: ReplayNote)
    ensures n.LongNote? && !n.isProcessed && n.eventTime == 0 && n.laneIndex == 0
    ensures GetNoteType(n) == LongEnd
  {
    LongNote(0, 0, false, false)
  }

  function GetNoteType(n: ReplayNote): (t: NoteType)
    ensures t == Normal <==> n.NormalNote?
    ensures t == LongStart <==> n.LongNote? && n.isStart
    ensures t == LongEnd <==> n.LongNote? && !n.isStart
  {
    match n
    case NormalNote(_, _, _) => Normal
    case LongNote(_, _, _, start) => if start then LongStart else LongEnd
  }

  /** Marks the note processed; a second call changes nothing, and the
      judgement has no effect. */
  function Process(n: ReplayNote, judge: JudgeType): (m: ReplayNote)
    ensures m.isProcessed
    ensures m == n.(isProcessed := true)
    ensures n.isProcessed ==> m == n
  {
    if n.isProcessed then n else n.(isProcessed := true)
  }

  /** Whether a button event at this note processes it: a press always
      does, a release only at the end of a long note. */
  predicate Reacts(n: ReplayNote, press: bool)
  {
    press || GetNoteType(n) == LongEnd
  }

  /** A button event. The time is not used. */
  function OnButton(n: ReplayNote, time: int, press: bool): (m: ReplayNote)
    ensures m.isProcessed <==> n.isProcessed || Reacts(n, press)
    ensures m == n.(isProcessed := m.isProcessed)
    ensures GetNoteType(m) == GetNoteType(n)
  {
    match n
    case NormalNote(_, _, _) =>
      if !press then n else Process(n, Perfect)
    case LongNote(_, _, _, start) =>
      if start && !press then n else Process(n, Perfect)
  }

  /** What the view can do to a note. */
  datatype Input = Button(time: int, press: bool) | Judge(judge: JudgeType)

  function Apply(n: ReplayNote, input: Input): ReplayNote
  {
    match input
    case Button(time, press) => OnButton(n, time, press)
    case Judge(judge) => Process(n, judge)
  }

  /** The note after `inputs`, first to last. */
  function Run(n: ReplayNote, inputs: seq<Input>): ReplayNote
    decreases |inputs|
  {
    if |inputs| == 0 then n else Run(Apply(n, inputs[0]), inputs[1..])
  }

  /** Whether `input` processes `n`, judged on the note's kind alone. */
  predicate Triggers(n: ReplayNote, input: Input)
  {
    input.Judge? || Reacts(n, input.press)
  }

  /** A note ends processed exactly when it started processed or one of
      the inputs triggers it; no input clears the flag, and nothing else
      about the note ever changes. */
  lemma {:induction false} RunProcessed(n: ReplayNote, inputs: seq<Input>)
    ensures Run(n, inputs).isProcessed <==>
              n.isProcessed || exists k :: 0 <= k < |inputs| && Triggers(n, inputs[k])
    ensures Run(n, inputs) == n.(isProcessed := Run(n, inputs).isProcessed)
    decreases |inputs|
  {
    if |inputs| > 0 {
      var m := Apply(n, inputs[0]);
      RunProcessed(m, inputs[1..]);
      assert m == n.(isProcessed := m.isProcessed);
      assert m.isProcessed <==> n.isProcessed || Triggers(n, inputs[0]);
      assert forall k :: 0 <= k < |inputs[1..]| ==> (Triggers(m, inputs[1..][k]) <==> Triggers(n, inputs[k + 1]));
      if exists k :: 0 <= k < |inputs| && Triggers(n, inputs[k]) {
        var k :| 0 <= k < |inputs| && Triggers(n, inputs[k]);
        if k > 0 {
          assert Triggers(m, inputs[1..][k - 1]);
        }
      }
    }
  }

  /** Processing is monotone: once processed, a note stays processed. */
  lemma {:induction false} StaysProcessed(n: ReplayNote, inputs: seq<Input>)
    requires n.isProcessed
    ensures Run(n, inputs) == n
    decreases |inputs|
  {
    if |inputs| > 0 {
      StaysProcessed(Apply(n, inputs[0]), inputs[1..]);
    }
  }
}
