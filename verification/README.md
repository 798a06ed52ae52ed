# Dictation and vocabulary evaluation — a Dafny model

This project models the two pure evaluation routines of an IELTS practice web
application and the small cursor rule its lesson pages share:

- **Dictation lessons** (`DictationLesson.tsx`): the learner types a sentence they
  heard. `levenshteinDistance` is the classic edit-distance matrix; `compareWords`
  lowercases both texts, splits them on white-space runs, drops empty tokens and walks
  the two token lists position by position (no re-synchronisation), classifying each
  slot as `correct`, `close` (similarity at least 0.7), `incorrect`, `extra` or
  `missing`. `handleCheck` then computes word accuracy, raw-text similarity, a score
  clamped to 0–10, a feedback tier with suggestions, and the attempt record handed to
  the progress store.
- **Vocabulary lessons** (`VocabularyLesson.tsx`): the learner writes a sentence using
  a target word. `simulateAIFeedback` is an additive rubric (5, +3 for using the word,
  +1 for a reasonable length, +1 for a capitalised sentence ending in a period, capped
  at 10); `handleCheck` records one attempt for a non-blank sentence.
- **Lesson cursor**: `handleNext` advances the current index while a next item
  exists (the dictation page uses the same rule), `handleRestart` returns to 0, and a
  click in the word list can only move the cursor back.

Modules, leaf first: `Basics` (option type, min/max), `Ratio` (exact rational
division facts), `Text` (JavaScript's `\s` class, ASCII `toLowerCase`, `trim`,
`split(/\s+/)`, `split(' ')`, `includes`), `EditDistance` (the recurrence `Lev` and the
matrix-filling method proved equal to it), `WordCompare` (`compareWords`), `Lesson`
(attempt record, cursor rules), `Dictation` and `Vocabulary` (the two `handleCheck`s).

Modelling choices:
- Scores and percentages are exact `real`s. The 0.7 threshold is also proved equal to
  the integer test `10 * (m - d) >= 7 * m`.
- `toLowerCase` is a per-character ASCII map; `\s` and `trim` use the full ECMAScript
  WhiteSpace and LineTerminator set.
- `handleCheck` is synchronous and takes the reference text (dictation) or current word
  (vocabulary) directly rather than looking it up in the lesson data.
- The scoring functions use the recursive `Lev`; `EditDistance.LevenshteinDistance`
  is the imperative matrix algorithm, proved to compute the same value.
- The model follows the code, including these details:
  `totalWords` is the field count of the *raw* reference split on `/\s+/`, which counts
  an empty field for a leading and for a trailing white-space run (and is 1 for an empty
  reference, so accuracy never divides by zero), not the reference's word count; the
  raw-text distance is taken between the *lowercased* texts while `maxLength` uses the
  raw lengths; and `attemptNumber` is always 1.

## Model

| member | source | states |
|---|---|---|
| EditDistance.Lev | src/pages/lessons/DictationLesson.tsx:8-34 | the distance is at least the length difference and at most the longer length |
| EditDistance.LevenshteinDistance | src/pages/lessons/DictationLesson.tsx:8-34 | the matrix algorithm returns exactly the recursive distance of its two arguments |
| EditDistance.LevIdentity | src/pages/lessons/DictationLesson.tsx:11-22 | a string is at distance 0 from itself and at distance its length from the empty string, either way round |
| EditDistance.LevZeroIff | src/pages/lessons/DictationLesson.tsx:8-34 | the distance is 0 if and only if the strings are equal |
| EditDistance.LevSymmetric | src/pages/lessons/DictationLesson.tsx:8-34 | swapping the arguments does not change the distance |
| Ratio.ThresholdExact | src/pages/lessons/DictationLesson.tsx:53-55 | for 0 <= d <= m, m > 0: 1 - d/m lies in [0,1] and is at least 0.7 exactly when 10(m-d) >= 7m |
| WordCompare.SimilarityFacts | src/pages/lessons/DictationLesson.tsx:52-55 | the word similarity lies in [0,1], and a pair is `close` exactly when 10(m-d) >= 7m for distance d and longer length m |
| WordCompare.CompareWords | src/pages/lessons/DictationLesson.tsx:37-68 | one slot per position of the longer token list; slot i is correct iff both i-th tokens exist and agree, close/incorrect iff both exist and differ (by the 0.7 threshold, carrying the reference word), extra iff only the user token exists, missing iff only the reference token exists (word = reference token); no slot has an empty word |
| WordCompare.CountCorrectIsMatches | src/pages/lessons/DictationLesson.tsx:44-49 | for token lists without empty tokens, the number of correct slots equals the number of positions where the lists agree |
| WordCompare.CorrectWordsCount | src/pages/lessons/DictationLesson.tsx:135 | `correctWords` of a comparison equals the positional agreement count of the two texts' token lists |
| WordCompare.SameWordsAllCorrect | src/pages/lessons/DictationLesson.tsx:38-49 | texts equal up to letter case give only correct slots, one per reference token |
| WordCompare.InsertionShiftsLaterSlots | src/pages/lessons/DictationLesson.tsx:42-47 | a word inserted at position k makes every later user token be judged against the reference token one slot further on |
| WordCompare.CarForCatIsIncorrect | src/pages/lessons/DictationLesson.tsx:48-59 | "car" for "cat" (distance 1, similarity 2/3) is incorrect and carries "cat", between two correct slots |
| WordCompare.CatsForCatIsClose | src/pages/lessons/DictationLesson.tsx:50-56 | "cats" for "cat" (distance 1, similarity 3/4) is close and carries "cat" |
| Text.TrimEmptyIffBlank | src/pages/lessons/DictationLesson.tsx:128 | `trim()` gives the empty string exactly for texts made only of white space |
| Text.TokenCount | src/pages/lessons/DictationLesson.tsx:136 | for a non-empty text, the `split(/\s+/)` field count is the token count plus one per leading and one per trailing white-space run |
| Text.Tokens | src/pages/lessons/DictationLesson.tsx:38-39 | every token is non-empty, free of white space and free of upper-case letters |
| Text.TokensEmpty | src/pages/lessons/DictationLesson.tsx:38-39 | the empty text has no tokens |
| Text.TokensSkipSpace | src/pages/lessons/DictationLesson.tsx:38-39 | white space in front of a text adds no token |
| Text.TokensWord | src/pages/lessons/DictationLesson.tsx:38-39 | a maximal non-white-space run at the front of a text is its first token, lowercased, followed by the tokens of the rest; with the two lemmas above this fixes the tokens of every text as its maximal non-white-space runs, lowercased, in order |
| Text.TokensSingleWord | src/pages/lessons/DictationLesson.tsx:38-39 | a non-empty text without white space is exactly one token, the text lowercased |
| Text.TokensConcat | src/pages/lessons/DictationLesson.tsx:38-39 | joining two texts with a white-space character concatenates their token lists |
| Text.SplitOn | src/pages/lessons/VocabularyLesson.tsx:32 | `split(' ')` yields one more field than there are spaces, and no field contains a space |
| Text.SplitOnJoin | src/pages/lessons/VocabularyLesson.tsx:32 | joining the fields of `split(' ')` with a space restores the sentence |
| Text.ContainsIffOccurs | src/pages/lessons/VocabularyLesson.tsx:31 | `includes` holds exactly when the word occurs as a contiguous slice of the sentence |
| Dictation.CorrectWords | src/pages/lessons/DictationLesson.tsx:135 | the count of correct slots is the positional agreement count and never exceeds the reference's token count |
| Dictation.TotalWords | src/pages/lessons/DictationLesson.tsx:136 | `totalWords` is the reference's token count plus its edge white-space runs, 1 for the empty reference, never 0 |
| Dictation.Percent | src/pages/lessons/DictationLesson.tsx:137 | the percentage is (part / whole) * 100, lies in [0,100] and is 100 exactly when the part is the whole |
| Dictation.Score | src/pages/lessons/DictationLesson.tsx:144 | the clamped score lies in [0,10], the clamp never changes the weighted value of two percentages, and the score is 10 exactly when both are 100 |
| Dictation.TierMonotone | src/pages/lessons/DictationLesson.tsx:153-156 | a higher accuracy never yields a lower feedback tier |
| Dictation.RawDistance | src/pages/lessons/DictationLesson.tsx:139-141 | the raw-text distance is `Lev` of the two lowercased texts and at most the longer raw length |
| Dictation.Grade | src/pages/lessons/DictationLesson.tsx:137-162 | from the counts and the distance: accuracy = correct/total * 100, similarity = (maxLength - distance)/maxLength * 100, both in [0,100]; score in [0,10] equal to 0.7 accuracy + 0.3 similarity over 10; message by accuracy tier; suggestions empty iff accuracy >= 90 |
| Dictation.Evaluate | src/pages/lessons/DictationLesson.tsx:134-162 | correctWords is the positional agreement count of the token lists and at most totalWords; accuracy = correctWords/totalWords * 100; distance = `Lev` of the lowercased texts, at most the longer raw length; similarity = `Percent(maxLength - distance, maxLength)`, i.e. (maxLength - distance)/maxLength * 100; score in [0,10] and equal to the unclamped weighting; message chosen by the accuracy tier; suggestions empty iff accuracy >= 90 |
| Dictation.HandleCheck | src/pages/lessons/DictationLesson.tsx:127-176 | a blank transcript gives nothing; otherwise the feedback is `Evaluate` of the transcript and the reference, and exactly one attempt for the current sentence, carrying the transcript, the reference, the feedback and its score in [0,10], with attemptNumber 1 |
| Dictation.HandleCheckShowsComparison | src/pages/lessons/DictationLesson.tsx:130-132 | for a non-blank transcript, the word slots shown are those of `compareWords` on the transcript and the reference |
| Dictation.PerfectTranscript | src/pages/lessons/DictationLesson.tsx:134-144 | a transcript equal, up to case, to a reference without edge white space gets only correct slots, accuracy and similarity 100, score 10 and the top tier without suggestions |
| Dictation.TrailingSpaceCapsAccuracy | src/pages/lessons/DictationLesson.tsx:136-137 | a reference ending in white space keeps even a word-perfect transcript below 100% accuracy |
| Vocabulary.SimulateAIFeedback | src/pages/lessons/VocabularyLesson.tsx:30-48 | usesWord iff the lowercased word occurs in the lowercased sentence; the score lies in [5,10] and is >= 8 iff the word is used; suggestions are empty iff the word is used; the message depends on usesWord alone |
| Vocabulary.RubricBySpaces | src/pages/lessons/VocabularyLesson.tsx:32-41 | the score is 5 + 3[word used] + 1[4 <= spaces <= 24] + 1[starts A–Z and ends with '.'], so the cap at 10 never binds and empty fields count |
| Vocabulary.HandleCheck | src/pages/lessons/VocabularyLesson.tsx:50-74 | a blank sentence records nothing; otherwise one attempt for the current word with the first example as answer (absent when there is none), the rubric's score and attemptNumber 1 |
| Lesson.Next | src/pages/lessons/VocabularyLesson.tsx:76-86 | advances by exactly one while the index is below count - 1, staying in range, and otherwise leaves the lesson (same rule as DictationLesson.tsx:178-191) |
| Lesson.Click | src/pages/lessons/VocabularyLesson.tsx:174 | a word-list click moves the cursor only to an entry at or before the current one |
| Lesson.RunStaysInRange | src/pages/lessons/VocabularyLesson.tsx:76-94 | any sequence of next, restart and click actions keeps a valid cursor below the item count |
| Lesson.RunForwardOnlyByNext | src/pages/lessons/VocabularyLesson.tsx:76-94 | after any action sequence the cursor is at most its start plus the number of next actions |

## Left out

- The progress store behind `startLesson`, `getProgress`, `addAttempt` and `getOverallStats`: its source is not part of this model, so only the attempt value handed to it is modelled (no completion counting, averaging or deduplication), and the effect that copies `progress.currentSentence` into the cursor (DictationLesson.tsx:87-93, VocabularyLesson.tsx:22-28) is left out with it. That effect runs whenever `progress` changes, for example after each `addAttempt`, and overwrites the cursor with the stored value; Lesson.RunStaysInRange and Lesson.RunForwardOnlyByNext cover only next, restart and click, not this fourth way the cursor moves.
- `createdAt` in the attempt record: a clock reading.
- Rendering: JSX, the colour mapping `getWordColor`, progress-bar widths, panel toggles.
- Simulated audio playback, `setInterval`/`setTimeout` timers, play counting, the one-second delay before vocabulary feedback and `speechSynthesis`: timing and browser APIs; `handleCheck` is treated as synchronous.
- Navigation (`useNavigate`, `Link`): `Lesson.Next` returns `LeaveLesson` where the page navigates away.
- The lesson lookup and the "lesson not found" render guard: `handleCheck` receives the current reference text or word directly; the cursor lemmas show the index stays in range.
- `LessonSelection.tsx` and `Dashboard.tsx`: a static catalogue and display arithmetic over values from the unmodelled store.
- Floating-point rounding and `toFixed`: scores are exact rationals, so results at exactly the 0.7 similarity boundary or the 50/70/90 accuracy boundaries may differ from IEEE-754 doubles.
- Unicode case mapping and UTF-16 lengths: `toLowerCase` maps ASCII A–Z only and keeps the length; characters are Unicode scalar values.
- EditDistance.Lev: defined by the matrix recurrence; that it is the minimum number of single-character edits is not proved.
- Per-character alignment, a binary all-or-nothing mastery score and a progress ledger with completion states: none of these appears in the source files modelled.
