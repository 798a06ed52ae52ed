/** What both lesson pages share: the attempt record handed to the progress store
    and the rules that move the lesson cursor (the index of the current sentence or word). */
module Lesson {
  import opened Basics

  /** The value passed to `addAttempt`. The feedback type differs between the two
      lessons. `createdAt` is a clock reading and is not modelled. */
  datatype Attempt<F> = Attempt(
    sentenceIndex: nat,
    userAnswer: string,
    correctAnswer: Option<string>,
    aiFeedback: F,
    score: real,
    attemptNumber: nat)

  datatype NextOutcome = Advance(index: nat) | LeaveLesson

  /** `handleNext`: moves to the following item while one exists, and otherwise
      leaves the lesson page. */
  function Next(index: nat, count: nat): (r: NextOutcome)
    ensures r.Advance? <==> index + 1 < count
    ensures r.Advance? ==> r.index == index + 1 && r.index < count
  {
    if index < count - 1 then Advance(index + 1) else LeaveLesson
  }

  /** A click on entry `clicked` of the word list: only entries up to the current
      one react, so the cursor never moves forward. */
  function Click(current: nat, clicked: nat): (r: nat)
    ensures r <= current
    ensures clicked <= current ==> r == clicked
    ensures clicked > current ==> r == current
  {
    if clicked <= current then clicked else current
  }

  /** The user actions that move the cursor. */
  datatype Action = NextItem | Restart | ClickItem(clicked: nat)

  /** The cursor of a mounted lesson page, or `Left` once `handleNext` navigated away. */
  datatype Cursor = At(index: nat) | Left

  function Step(c: Cursor, a: Action, count: nat): Cursor {
    match c
    case Left => Left
    case At(i) =>
      match a
      case NextItem => (match Next(i, count) case Advance(j) => At(j) case LeaveLesson => Left)
      case Restart => At(0)
      case ClickItem(k) => At(Click(i, k))
  }

  function Run(c: Cursor, actions: seq<Action>, count: nat): Cursor
    decreases |actions|
  {
    if |actions| == 0 then c else Run(Step(c, actions[0], count), actions[1..], count)
  }

  function CountNext(actions: seq<Action>): nat
    decreases |actions|
  {
    if |actions| == 0 then 0 else (if actions[0] == NextItem then 1 else 0) + CountNext(actions[1..])
  }

  /** Any sequence of user actions keeps the cursor a valid index of the lesson. */
  lemma {:induction false} RunStaysInRange(c: Cursor, actions: seq<Action>, count: nat)
    requires c.At? ==> c.index < count
    ensures var e := Run(c, actions, count); e.At? ==> e.index < count
    decreases |actions|
  {
    if |actions| > 0 {
      RunStaysInRange(Step(c, actions[0], count), actions[1..], count);
    }
  }

  /** The cursor moves forward only through `handleNext`, one item per call. */
  lemma {:induction false} RunForwardOnlyByNext(c: Cursor, actions: seq<Action>, count: nat)
    requires c.At?
    ensures var e := Run(c, actions, count); e.At? ==> e.index <= c.index + CountNext(actions)
    decreases |actions|
  {
    if |actions| > 0 {
      var c' := Step(c, actions[0], count);
      if c'.At? {
        RunForwardOnlyByNext(c', actions[1..], count);
      } else {
        LeftStaysLeft(actions[1..], count);
      }
    }
  }

  lemma {:induction false} LeftStaysLeft(actions: seq<Action>, count: nat)
    ensures Run(Left, actions, count) == Left
    decreases |actions|
  {
    if |actions| > 0 {
      LeftStaysLeft(actions[1..], count);
    }
  }
}
