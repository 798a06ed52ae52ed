/** The vocabulary lesson: the additive sentence rubric `simulateAIFeedback` and the
    attempt `handleCheck` records. */
module Vocabulary {
  import opened Basics
  import opened Text
  import opened Lesson

  /** A word of the lesson's list; definition, phonetic spelling and the rest are
      display-only and left out. */
  datatype VocabWord = VocabWord(word: string, examples: seq<string>)

  datatype VocabFeedback = VocabFeedback(score: int, usesWord: bool, feedback: string, suggestions: seq<string>)

  const Praise: string := "Great! You used the word correctly in context."

  function Reminder(word: string): string {
    "Make sure to include the word \"" + word + "\" in your sentence."
  }

  function Suggestion(word: string): string {
    "Remember to use the word \"" + word + "\" in your sentence"
  }

  /** `/^[A-Z]/` matches. */
  predicate StartsUpper(s: string) {
    |s| > 0 && IsUpper(s[0])
  }

  /** `s.endsWith('.')`. */
  predicate EndsWithPeriod(s: string) {
    |s| > 0 && s[|s| - 1] == '.'
  }

  /** `simulateAIFeedback(userSentence, word)`: 5 points, 3 more for using the word
      (case-insensitively, anywhere in the sentence), 1 for a reasonable
      `split(' ')` field count, 1 for a capitalised sentence ending in a period. */
  function SimulateAIFeedback(userSentence: string, word: string): (fb: VocabFeedback)
    ensures fb.usesWord <==> exists i: nat :: OccursAt(Lower(userSentence), Lower(word), i)
    ensures 5 <= fb.score <= 10
    ensures fb.score >= 8 <==> fb.usesWord
    ensures fb.suggestions == [] <==> fb.usesWord
    ensures fb.feedback == if fb.usesWord then Praise else Reminder(word)
  {
    ContainsIffOccurs(Lower(userSentence), Lower(word));
    var hasWord := Contains(Lower(userSentence), Lower(word));
    var sentenceLength := |SplitOn(userSentence, ' ')|;
    var isReasonableLength := 5 <= sentenceLength <= 25;
    var score := 5 + (if hasWord then 3 else 0) + (if isReasonableLength then 1 else 0)
                   + (if StartsUpper(userSentence) && EndsWithPeriod(userSentence) then 1 else 0);
    VocabFeedback(Min(score, 10), hasWord,
                  if hasWord then Praise else Reminder(word),
                  if !hasWord then [Suggestion(word)] else [])
  }

  /** The rubric in terms of the sentence itself: the length bonus counts spaces, so
      doubled, leading and trailing spaces all lengthen the sentence, and the cap at
      10 is never reached from above. */
  lemma RubricBySpaces(userSentence: string, word: string)
    ensures var fb := SimulateAIFeedback(userSentence, word);
            fb.score == 5 + (if fb.usesWord then 3 else 0)
                          + (if 4 <= multiset(userSentence)[' '] <= 24 then 1 else 0)
                          + (if StartsUpper(userSentence) && EndsWithPeriod(userSentence) then 1 else 0)
  {
  }

  /** The result of one (synchronous) press of "Check". */
  datatype Checked = Checked(feedback: VocabFeedback, attempt: Attempt<VocabFeedback>)

  /** `examples[0]`, which is `undefined` for a word without examples. */
  function FirstExample(w: VocabWord): Option<string> {
    if |w.examples| > 0 then Some(w.examples[0]) else None
  }

  /** `handleCheck` for the word at `currentWordIndex`. A blank sentence records
      nothing; otherwise exactly one attempt for this word, with the rubric's score. */
  function HandleCheck(userSentence: string, currentWord: VocabWord, currentWordIndex: nat): (r: Option<Checked>)
    ensures r.None? <==> IsBlank(userSentence)
    ensures r.Some? ==> r.value.feedback == SimulateAIFeedback(userSentence, currentWord.word)
    ensures r.Some? ==>
      var fb, a := r.value.feedback, r.value.attempt;
      && a.sentenceIndex == currentWordIndex
      && a.userAnswer == userSentence
      && a.correctAnswer == FirstExample(currentWord)
      && a.aiFeedback == fb
      && a.score == fb.score as real
      && a.attemptNumber == 1
      && 5.0 <= a.score <= 10.0
      && (a.score >= 8.0 <==> fb.usesWord)
  {
    TrimEmptyIffBlank(userSentence);
    if Trim(userSentence) == "" then None
    else
      var fb := SimulateAIFeedback(userSentence, currentWord.word);
      Some(Checked(fb, Attempt(currentWordIndex, userSentence, FirstExample(currentWord), fb, fb.score as real, 1)))
  }
}
