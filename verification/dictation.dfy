/** The dictation lesson's `handleCheck`: word comparison, accuracy, raw-text
    similarity, a 0-10 score, a feedback tier and the attempt record. */
module Dictation {
  import opened Basics
  import opened Text
  import opened EditDistance
  import opened WordCompare
  import opened Ratio
  import opened Lesson

  datatype Tier = Excellent | Good | Fair | KeepPracticing

  /** The feedback tier for an accuracy percentage. */
  function TierOf(accuracy: real): Tier {
    if accuracy >= 90.0 then Excellent
    else if accuracy >= 70.0 then Good
    else if accuracy >= 50.0 then Fair
    else KeepPracticing
  }

  function Message(t: Tier): string {
    match t
    case Excellent => "Excellent accuracy!"
    case Good => "Good job! Minor errors detected."
    case Fair => "Fair attempt. Focus on listening more carefully."
    case KeepPracticing => "Keep practicing. Try listening multiple times."
  }

  function Rank(t: Tier): nat {
    match t
    case KeepPracticing => 0
    case Fair => 1
    case Good => 2
    case Excellent => 3
  }

  /** A higher accuracy never earns a lower tier. */
  lemma TierMonotone(a: real, b: real)
    requires a <= b
    ensures Rank(TierOf(a)) <= Rank(TierOf(b))
  {
  }

  const Suggestions: seq<string> := [
    "Listen to the audio multiple times",
    "Focus on individual words",
    "Pay attention to punctuation"
  ]

  /** The `aiFeedback` object. Percentages and the score are exact rationals. */
  datatype Feedback = Feedback(
    score: real,
    accuracy: real,
    similarity: real,
    correctWords: nat,
    totalWords: nat,
    distance: nat,
    feedback: string,
    suggestions: seq<string>)

  /** `(part / whole) * 100`. */
  function Percent(part: nat, whole: nat): (p: real)
    requires part <= whole && whole > 0
    ensures p == (part as real / whole as real) * 100.0
    ensures 0.0 <= p <= 100.0
    ensures p == 100.0 <==> part == whole
  {
    QuotientWithin(part as real, whole as real);
    QuotientTimes(part as real, whole as real);
    (part as real / whole as real) * 100.0
  }

  /** `Math.max(0, Math.min(10, (accuracy * 0.7 + similarity * 0.3) / 10))`; for
      percentages the clamp never changes the weighted value. */
  function Score(accuracy: real, similarity: real): (score: real)
    requires 0.0 <= accuracy <= 100.0 && 0.0 <= similarity <= 100.0
    ensures 0.0 <= score <= 10.0
    ensures score == (accuracy * 0.7 + similarity * 0.3) / 10.0
    ensures score == 10.0 <==> accuracy == 100.0 && similarity == 100.0
  {
    var weighted := (accuracy * 0.7 + similarity * 0.3) / 10.0;
    var capped := if weighted <= 10.0 then weighted else 10.0;
    if 0.0 >= capped then 0.0 else capped
  }

  /** The number of empty fields `split(/\s+/)` adds for a leading or trailing
      white-space run of a non-empty text. */
  function EdgeRuns(s: string): nat
    requires |s| > 0
  {
    (if IsSpace(s[0]) then 1 else 0) + (if IsSpace(s[|s| - 1]) then 1 else 0)
  }

  /** `comparison.filter(w => w.status === 'correct').length`: the positions at
      which the two token lists agree. */
  function CorrectWords(userTranscript: string, correctText: string): (n: nat)
    ensures n == Matches(Tokens(userTranscript), Tokens(correctText))
    ensures n <= |Tokens(correctText)|
  {
    CorrectWordsCount(userTranscript, correctText);
    CountCorrect(CompareWords(userTranscript, correctText))
  }

  /** `correctText.split(/\s+/).length`: the reference's tokens plus one empty field
      per leading or trailing white-space run; never 0. */
  function TotalWords(correctText: string): (n: nat)
    ensures |correctText| > 0 ==> n == |Tokens(correctText)| + EdgeRuns(correctText)
    ensures correctText == "" ==> n == 1
    ensures n >= |Tokens(correctText)| && n >= 1
  {
    TotalWordsCount(correctText);
    |SplitWs(correctText)|
  }

  /** `levenshteinDistance(userTranscript.toLowerCase(), correctText.toLowerCase())`:
      lowercasing keeps the lengths, so the distance is at most the longer raw length. */
  function RawDistance(userTranscript: string, correctText: string): (d: nat)
    ensures d == Lev(Lower(userTranscript), Lower(correctText))
    ensures d <= Max(|userTranscript|, |correctText|)
  {
    Lev(Lower(userTranscript), Lower(correctText))
  }

  /** The arithmetic of the scoring block, from the word counts, the raw-text
      distance and the longer raw length. */
  function Grade(correctWords: nat, totalWords: nat, distance: nat, maxLength: nat): (fb: Feedback)
    requires correctWords <= totalWords && totalWords > 0
    requires distance <= maxLength && maxLength > 0
    ensures fb.correctWords == correctWords && fb.totalWords == totalWords && fb.distance == distance
    ensures fb.accuracy == (correctWords as real / totalWords as real) * 100.0
    ensures 0.0 <= fb.accuracy <= 100.0
    ensures fb.similarity == ((maxLength - distance) as real / maxLength as real) * 100.0
    ensures 0.0 <= fb.similarity <= 100.0
    ensures 0.0 <= fb.score <= 10.0
    ensures fb.score == (fb.accuracy * 0.7 + fb.similarity * 0.3) / 10.0
    ensures fb.feedback == Message(TierOf(fb.accuracy))
    ensures fb.suggestions == [] <==> fb.accuracy >= 90.0
  {
    var accuracy := Percent(correctWords, totalWords);
    var similarity := Percent(maxLength - distance, maxLength);
    var score := Score(accuracy, similarity);
    Feedback(score, accuracy, similarity, correctWords, totalWords, distance,
             Message(TierOf(accuracy)), if accuracy < 90.0 then Suggestions else [])
  }

  /** The scoring block of `handleCheck`, past its blank-transcript guard. */
  function Evaluate(userTranscript: string, correctText: string): (fb: Feedback)
    requires |userTranscript| > 0
    ensures fb.correctWords == Matches(Tokens(userTranscript), Tokens(correctText))
    ensures fb.totalWords == TotalWords(correctText)
    ensures fb.correctWords <= fb.totalWords
    ensures fb.accuracy == (fb.correctWords as real / fb.totalWords as real) * 100.0
    ensures 0.0 <= fb.accuracy <= 100.0
    ensures fb.distance == Lev(Lower(userTranscript), Lower(correctText))
    ensures fb.distance <= Max(|userTranscript|, |correctText|)
    ensures var maxLength := Max(|userTranscript|, |correctText|);
            maxLength > 0 && fb.similarity == Percent(maxLength - fb.distance, maxLength)
    ensures 0.0 <= fb.similarity <= 100.0
    ensures 0.0 <= fb.score <= 10.0
    ensures fb.score == (fb.accuracy * 0.7 + fb.similarity * 0.3) / 10.0
    ensures fb.feedback == Message(TierOf(fb.accuracy))
    ensures fb.suggestions == [] <==> fb.accuracy >= 90.0
  {
    var maxLength := Max(|userTranscript|, |correctText|);
    var distance := RawDistance(userTranscript, correctText);
    Grade(CorrectWords(userTranscript, correctText), TotalWords(correctText), distance, maxLength)
  }

  lemma TotalWordsCount(correctText: string)
    ensures |correctText| > 0 ==> |SplitWs(correctText)| == |Tokens(correctText)| + EdgeRuns(correctText)
    ensures correctText == "" ==> |SplitWs(correctText)| == 1 && Tokens(correctText) == []
  {
    if |correctText| > 0 {
      TokenCount(correctText);
    } else {
      assert Lower(correctText) == "";
    }
  }

  /** What one press of "Check" produces: the slots shown, the feedback, and the
      attempt handed to the progress store. */
  datatype Checked = Checked(comparison: seq<WordResult>, feedback: Feedback, attempt: Attempt<Feedback>)

  /** `handleCheck` for the sentence at `currentSentence` whose reference text is
      `correctText`. A blank transcript (`!userTranscript.trim()`) produces nothing;
      otherwise exactly one attempt, for this sentence, carrying the feedback score. */
  function HandleCheck(userTranscript: string, correctText: string, currentSentence: nat): (r: Option<Checked>)
    ensures r.None? <==> IsBlank(userTranscript)
    ensures r.Some? ==> r.value.feedback == Evaluate(userTranscript, correctText)
    ensures r.Some? ==>
      var fb, a := r.value.feedback, r.value.attempt;
      && a.sentenceIndex == currentSentence
      && a.userAnswer == userTranscript
      && a.correctAnswer == Some(correctText)
      && a.aiFeedback == fb
      && a.score == fb.score
      && a.attemptNumber == 1
      && 0.0 <= a.score <= 10.0
  {
    TrimEmptyIffBlank(userTranscript);
    if Trim(userTranscript) == "" then None
    else
      var fb := Evaluate(userTranscript, correctText);
      Some(Checked(CompareWords(userTranscript, correctText), fb,
                   Attempt(currentSentence, userTranscript, Some(correctText), fb, fb.score, 1)))
  }

  /** The slots `handleCheck` shows are those of `compareWords`. */
  lemma HandleCheckShowsComparison(userTranscript: string, correctText: string, currentSentence: nat)
    requires !IsBlank(userTranscript)
    ensures var r := HandleCheck(userTranscript, correctText, currentSentence);
            r.Some? && r.value.comparison == CompareWords(userTranscript, correctText)
  {
    TrimEmptyIffBlank(userTranscript);
  }

  /** A transcript equal to a reference without edge white space, up to letter case,
      is all `correct` and earns full marks. */
  lemma PerfectTranscript(userTranscript: string, correctText: string)
    requires Lower(userTranscript) == Lower(correctText)
    requires |correctText| > 0 && !IsSpace(correctText[0]) && !IsSpace(correctText[|correctText| - 1])
    ensures forall e :: e in CompareWords(userTranscript, correctText) ==> e.status == Correct
    ensures var fb := Evaluate(userTranscript, correctText);
            && fb.accuracy == 100.0 && fb.similarity == 100.0 && fb.score == 10.0
            && fb.feedback == "Excellent accuracy!" && fb.suggestions == []
  {
    SameWordsAllCorrect(userTranscript, correctText);
    TotalWordsCount(correctText);
    LevIdentity(Lower(correctText));
  }

  /** The `totalWords` quirk: a trailing white-space run in the reference adds an
      empty field, so even a word-perfect transcript stays below 100% accuracy. */
  lemma TrailingSpaceCapsAccuracy(userTranscript: string, correctText: string)
    requires |userTranscript| > 0
    requires Lower(userTranscript) == Lower(correctText)
    requires IsSpace(correctText[|correctText| - 1])
    ensures var fb := Evaluate(userTranscript, correctText);
            fb.correctWords < fb.totalWords && fb.accuracy < 100.0
  {
  }
}
