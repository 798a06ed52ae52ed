/** `compareWords`: a positional, word-by-word comparison of a transcript with
    the reference sentence. */
module WordCompare {
  import opened Basics
  import opened Text
  import opened EditDistance
  import opened Ratio

  datatype Status = Correct | Close | Incorrect | Extra | Missing

  /** One slot of the comparison. `correct` carries the reference word only for
      `Close` and `Incorrect` slots. */
  datatype WordResult = WordResult(word: string, status: Status, correct: Option<string>)

  /** `1 - distance / max(length)` for two words not both empty. */
  function Similarity(userWord: string, correctWord: string): real
    requires |userWord| > 0 || |correctWord| > 0
  {
    1.0 - (Lev(userWord, correctWord) as real) / (Max(|userWord|, |correctWord|) as real)
  }

  /** The typo tolerance of `compareWords`: similarity of at least 0.7. */
  predicate IsClose(userWord: string, correctWord: string)
    requires |userWord| > 0 || |correctWord| > 0
  {
    Similarity(userWord, correctWord) >= 0.7
  }

  /** The similarity lies in [0, 1], and the 0.7 threshold is the integer test
      `10 * (m - d) >= 7 * m` on the distance `d` and the longer length `m`. */
  lemma SimilarityFacts(userWord: string, correctWord: string)
    requires |userWord| > 0 || |correctWord| > 0
    ensures 0.0 <= Similarity(userWord, correctWord) <= 1.0
    ensures var m, d := Max(|userWord|, |correctWord|), Lev(userWord, correctWord);
            IsClose(userWord, correctWord) <==> 10 * (m - d) >= 7 * m
  {
    ThresholdExact(Lev(userWord, correctWord), Max(|userWord|, |correctWord|));
  }

  /** The word of slot `i`, or `""` past the end (`words[i] || ''`). */
  function Slot(words: seq<string>, i: nat): string {
    if i < |words| then words[i] else ""
  }

  /** The classification of one slot, in the order the branches of `compareWords` test it. */
  function Classify(userWord: string, correctWord: string): WordResult {
    if userWord == correctWord then WordResult(userWord, Correct, None)
    else if userWord != "" && correctWord != "" then
      WordResult(userWord, if IsClose(userWord, correctWord) then Close else Incorrect, Some(correctWord))
    else if userWord != "" then WordResult(userWord, Extra, None)
    else WordResult(correctWord, Missing, None)
  }

  /** The positional walk over two token lists, with no re-synchronisation. */
  function CompareTokens(userWords: seq<string>, correctWords: seq<string>): seq<WordResult> {
    seq(Max(|userWords|, |correctWords|),
        i requires 0 <= i < Max(|userWords|, |correctWords|) => Classify(Slot(userWords, i), Slot(correctWords, i)))
  }

  /** What slot `i` of a comparison of the token lists `us` and `cs` means, case by
      case; the five conditions exclude one another. */
  predicate SlotMeaning(us: seq<string>, cs: seq<string>, i: nat, e: WordResult) {
    match e.status
    case Correct =>
      i < |us| && i < |cs| && us[i] == cs[i] && e.word == cs[i] && e.correct == None
    case Close =>
      i < |us| && i < |cs| && us[i] != cs[i] && IsClose(us[i], cs[i])
      && e.word == us[i] && e.correct == Some(cs[i])
    case Incorrect =>
      i < |us| && i < |cs| && us[i] != cs[i] && !IsClose(us[i], cs[i])
      && e.word == us[i] && e.correct == Some(cs[i])
    case Extra =>
      |cs| <= i < |us| && e.word == us[i] && e.correct == None
    case Missing =>
      |us| <= i < |cs| && e.word == cs[i] && e.correct == None
  }

  lemma ClassifySlot(us: seq<string>, cs: seq<string>, i: nat)
    requires "" !in us && "" !in cs
    requires i < Max(|us|, |cs|)
    ensures SlotMeaning(us, cs, i, Classify(Slot(us, i), Slot(cs, i)))
    ensures Classify(Slot(us, i), Slot(cs, i)).word != ""
  {
  }

  /** `compareWords(userText, correctText)`: one slot per position up to the longer
      token list, each slot meaning what `SlotMeaning` says, and never an empty word. */
  function CompareWords(userText: string, correctText: string): (r: seq<WordResult>)
    ensures |r| == Max(|Tokens(userText)|, |Tokens(correctText)|)
    ensures forall i :: 0 <= i < |r| ==> SlotMeaning(Tokens(userText), Tokens(correctText), i, r[i])
    ensures forall i :: 0 <= i < |r| ==> r[i].word != ""
  {
    var us, cs := Tokens(userText), Tokens(correctText);
    assert forall i :: 0 <= i < Max(|us|, |cs|) ==>
             SlotMeaning(us, cs, i, Classify(Slot(us, i), Slot(cs, i)))
             && Classify(Slot(us, i), Slot(cs, i)).word != "" by {
      forall i | 0 <= i < Max(|us|, |cs|)
        ensures SlotMeaning(us, cs, i, Classify(Slot(us, i), Slot(cs, i)))
        ensures Classify(Slot(us, i), Slot(cs, i)).word != ""
      {
        ClassifySlot(us, cs, i);
      }
    }
    CompareTokens(us, cs)
  }

  /** `comparison.filter(w => w.status === 'correct').length`. */
  function CountCorrect(r: seq<WordResult>): nat {
    if |r| == 0 then 0 else (if r[0].status == Correct then 1 else 0) + CountCorrect(r[1..])
  }

  /** The number of positions at which two token lists agree. */
  function Matches(us: seq<string>, cs: seq<string>): (n: nat)
    ensures n <= |us| && n <= |cs|
  {
    if |us| == 0 || |cs| == 0 then 0
    else (if us[0] == cs[0] then 1 else 0) + Matches(us[1..], cs[1..])
  }

  lemma {:induction false} CountCorrectAllMissing(cs: seq<string>)
    requires "" !in cs
    ensures CountCorrect(CompareTokens([], cs)) == 0
    decreases |cs|
  {
    if |cs| > 0 {
      assert cs[0] in cs;
      assert CompareTokens([], cs)[1..] == CompareTokens([], cs[1..]);
      CountCorrectAllMissing(cs[1..]);
    }
  }

  lemma {:induction false} CountCorrectAllExtra(us: seq<string>)
    requires "" !in us
    ensures CountCorrect(CompareTokens(us, [])) == 0
    decreases |us|
  {
    if |us| > 0 {
      assert us[0] in us;
      assert CompareTokens(us, [])[1..] == CompareTokens(us[1..], []);
      CountCorrectAllExtra(us[1..]);
    }
  }

  /** The `correct` slots of the walk are exactly the positions where the two token
      lists agree; in particular there are never more than reference tokens. */
  lemma {:induction false} CountCorrectIsMatches(us: seq<string>, cs: seq<string>)
    requires "" !in us && "" !in cs
    ensures CountCorrect(CompareTokens(us, cs)) == Matches(us, cs)
    decreases |us|
  {
    if |us| == 0 {
      CountCorrectAllMissing(cs);
    } else if |cs| == 0 {
      CountCorrectAllExtra(us);
    } else {
      assert CompareTokens(us, cs)[1..] == CompareTokens(us[1..], cs[1..]);
      assert "" !in us[1..] && "" !in cs[1..] by {
        assert forall w :: w in us[1..] ==> w in us;
        assert forall w :: w in cs[1..] ==> w in cs;
      }
      CountCorrectIsMatches(us[1..], cs[1..]);
    }
  }

  lemma {:induction false} MatchesSelf(us: seq<string>)
    ensures Matches(us, us) == |us|
    decreases |us|
  {
    if |us| > 0 {
      MatchesSelf(us[1..]);
    }
  }

  /** The number of `correct` slots `compareWords` reports. */
  lemma CorrectWordsCount(userText: string, correctText: string)
    ensures CountCorrect(CompareWords(userText, correctText)) == Matches(Tokens(userText), Tokens(correctText))
  {
    CountCorrectIsMatches(Tokens(userText), Tokens(correctText));
  }

  /** A transcript that equals the reference up to letter case is all `correct`. */
  lemma SameWordsAllCorrect(userText: string, correctText: string)
    requires Lower(userText) == Lower(correctText)
    ensures forall e :: e in CompareWords(userText, correctText) ==> e.status == Correct
    ensures CountCorrect(CompareWords(userText, correctText)) == |Tokens(correctText)|
  {
    CorrectWordsCount(userText, correctText);
    MatchesSelf(Tokens(correctText));
  }

  /** No re-synchronisation: after a word is inserted into the transcript at position
      `k`, every later user token is judged against the reference token one slot
      further on. */
  lemma InsertionShiftsLaterSlots(us: seq<string>, w: string, cs: seq<string>, k: nat, i: nat)
    requires k <= i < |us|
    ensures var shifted := us[..k] + [w] + us[k..];
            CompareTokens(shifted, cs)[i + 1] == Classify(us[i], Slot(cs, i + 1))
  {
  }

  /** One wrong letter in a three-letter word is too much: similarity 2/3 is below
      the threshold, so "car" for "cat" is `incorrect`, while its neighbours stay `correct`. */
  lemma CarForCatIsIncorrect()
    ensures CompareTokens(["the", "car", "sat"], ["the", "cat", "sat"])
            == [WordResult("the", Correct, None), WordResult("car", Incorrect, Some("cat")),
                WordResult("sat", Correct, None)]
  {
  }

  /** One extra letter on a four-letter word is tolerated: similarity 3/4 makes
      "cats" for "cat" `close`. */
  lemma CatsForCatIsClose()
    ensures CompareTokens(["cats"], ["cat"]) == [WordResult("cats", Close, Some("cat"))]
  {
    LevIdentity("cat");
    assert "cats"[..3] == "cat";
    assert Lev("cats", "cat") == 1;
    SimilarityFacts("cats", "cat");
  }
}
