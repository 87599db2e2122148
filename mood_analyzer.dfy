/**
 * The keyword mood scorer of lib/moodAnalyzer.ts: a fixed table of six moods,
 * each with an emoji and a keyword list. A mood scores one point per keyword
 * occurring in the lowercased text; the first mood with the strictly highest
 * score wins; no match at all gives Neutral with confidence 0.5; otherwise the
 * confidence is the score over three, capped at one (an exact `real` here).
 */
module MoodAnalyzer {
  import opened Text

  datatype Mood = Mood(name: string, emoji: string, keywords: seq<string>)

  datatype MoodResult = MoodResult(mood: string, confidence: real)

  const Happy := Mood("Happy", "\U{1F60A}", ["happy", "joy", "excited", "great", "wonderful", "amazing", "love", "fantastic", "awesome", "delighted"])
  const Sad := Mood("Sad", "\U{1F622}", ["sad", "depressed", "down", "upset", "crying", "hurt", "disappointed", "lonely", "grief", "sorrow"])
  const Angry := Mood("Angry", "\U{1F620}", ["angry", "mad", "furious", "rage", "annoyed", "frustrated", "irritated", "hate", "outraged", "livid"])
  const Fear := Mood("Fear", "\U{1F628}", ["afraid", "scared", "fear", "anxious", "worried", "nervous", "terrified", "panic", "dread", "uneasy"])
  const Surprised := Mood("Surprised", "\U{1F632}", ["surprised", "shocked", "amazed", "wow", "unexpected", "astonished", "stunned", "incredible", "unbelievable"])
  const Neutral := Mood("Neutral", "\U{1F610}", ["okay", "fine", "normal", "regular", "average", "meh", "whatever", "indifferent", "neutral"])

  /** The `MOODS` table, in declaration order. */
  const Moods: seq<Mood> := [Happy, Sad, Angry, Fear, Surprised, Neutral]

  /** The emoji `getMoodEmoji` falls back to; the same text as Neutral's. */
  const FallbackEmoji := "\U{1F610}"

  const DefaultMood := "Neutral"

  predicate Distinct(xs: seq<string>)
  {
    forall i, j :: 0 <= i < j < |xs| ==> xs[i] != xs[j]
  }

  /** The number of keywords of `keywords` that occur in `text`, counted in list order. */
  function Score(text: string, keywords: seq<string>): (n: nat)
    ensures n <= |keywords|
  {
    if |keywords| == 0 then 0
    else Score(text, keywords[..|keywords| - 1]) + (if Contains(text, keywords[|keywords| - 1]) then 1 else 0)
  }

  /** A score is 0 exactly when no keyword occurs, and full exactly when every keyword does. */
  lemma {:induction false} ScoreExtremes(text: string, keywords: seq<string>)
    ensures Score(text, keywords) == 0 <==> forall i :: 0 <= i < |keywords| ==> !Contains(text, keywords[i])
    ensures Score(text, keywords) == |keywords| <==> forall i :: 0 <= i < |keywords| ==> Contains(text, keywords[i])
  {
    if |keywords| > 0 {
      var init := keywords[..|keywords| - 1];
      assert forall i :: 0 <= i < |init| ==> init[i] == keywords[i];
      ScoreExtremes(text, init);
    }
  }

  /** The keywords present in `text`, as a set. */
  function Present(text: string, keywords: seq<string>): set<string>
  {
    set k | k in keywords && Contains(text, k)
  }

  /** For a list without repeats, the score is the number of distinct keywords present. */
  lemma {:induction false} ScoreCountsPresent(text: string, keywords: seq<string>)
    requires Distinct(keywords)
    ensures Score(text, keywords) == |Present(text, keywords)|
  {
    if |keywords| > 0 {
      var init := keywords[..|keywords| - 1];
      var last := keywords[|keywords| - 1];
      assert Distinct(init);
      ScoreCountsPresent(text, init);
      assert last !in init;
      assert keywords == init + [last];
      if Contains(text, last) {
        assert Present(text, keywords) == Present(text, init) + {last};
      } else {
        assert Present(text, keywords) == Present(text, init);
      }
    }
  }

  /** The score depends only on which keywords occur, not on how often. */
  lemma {:induction false} ScoreDependsOnPresence(a: string, b: string, keywords: seq<string>)
    requires forall k :: k in keywords ==> (Contains(a, k) <==> Contains(b, k))
    ensures Score(a, keywords) == Score(b, keywords)
  {
    if |keywords| > 0 {
      var init := keywords[..|keywords| - 1];
      assert forall k :: k in init ==> k in keywords;
      ScoreDependsOnPresence(a, b, init);
      assert keywords[|keywords| - 1] in keywords;
    }
  }

  /** No mood lists a keyword twice. */
  lemma TableKeywordsDistinct()
    ensures forall i :: 0 <= i < |Moods| ==> Distinct(Moods[i].keywords)
  {
    HappyKeywordsDistinct();
    SadKeywordsDistinct();
    AngryKeywordsDistinct();
    FearKeywordsDistinct();
    SurprisedKeywordsDistinct();
    NeutralKeywordsDistinct();
  }

  lemma HappyKeywordsDistinct()
    ensures Distinct(Happy.keywords)
  {
  }

  lemma SadKeywordsDistinct()
    ensures Distinct(Sad.keywords)
  {
  }

  lemma AngryKeywordsDistinct()
    ensures Distinct(Angry.keywords)
  {
  }

  lemma FearKeywordsDistinct()
    ensures Distinct(Fear.keywords)
  {
  }

  lemma SurprisedKeywordsDistinct()
    ensures Distinct(Surprised.keywords)
  {
  }

  lemma NeutralKeywordsDistinct()
    ensures Distinct(Neutral.keywords)
  {
  }

  /** Each mood's score on an already lowercased text, in table order. */
  function Scores(lowerText: string): (s: seq<nat>)
    ensures |s| == |Moods|
    ensures forall i :: 0 <= i < |Moods| ==> s[i] == Score(lowerText, Moods[i].keywords)
  {
    seq(|Moods|, i requires 0 <= i < |Moods| => Score(lowerText, Moods[i].keywords))
  }

  /** The running best of the outer loop: index -1 with score 0 until a mood beats it. */
  datatype Best = Best(index: int, score: nat)

  /** The best after visiting `scores` left to right, replacing only on a strictly higher score. */
  function Pick(scores: seq<nat>): (b: Best)
    ensures -1 <= b.index < |scores|
    ensures b.index == -1 <==> b.score == 0
    ensures b.index == -1 ==> forall j :: 0 <= j < |scores| ==> scores[j] == 0
    ensures b.index >= 0 ==> scores[b.index] == b.score
    ensures forall j :: 0 <= j < |scores| ==> scores[j] <= b.score
    ensures b.index >= 0 ==> forall j :: 0 <= j < b.index ==> scores[j] < b.score
  {
    if |scores| == 0 then Best(-1, 0)
    else
      var prev := Pick(scores[..|scores| - 1]);
      assert forall j :: 0 <= j < |scores| - 1 ==> scores[j] == scores[..|scores| - 1][j];
      if scores[|scores| - 1] > prev.score then Best(|scores| - 1, scores[|scores| - 1]) else prev
  }

  /** `Math.min(score / 3, 1)`. */
  function Confidence(score: nat): (c: real)
    ensures score > 0 ==> 0.0 < c <= 1.0
    ensures c == 1.0 <==> score >= 3
  {
    var ratio := score as real / 3.0;
    if ratio < 1.0 then ratio else 1.0
  }

  /** What `analyzeMoodWithKeywords(text)` returns. */
  function KeywordVerdict(text: string): (r: MoodResult)
    ensures 0.0 < r.confidence <= 1.0
  {
    var best := Pick(Scores(ToLower(text)));
    if best.score == 0 then MoodResult(DefaultMood, 0.5)
    else MoodResult(Moods[best.index].name, Confidence(best.score))
  }

  /** The inner loop: one point per keyword that `lowerText.includes`. */
  method CountKeywords(lowerText: string, keywords: seq<string>) returns (score: nat)
    ensures score == Score(lowerText, keywords)
  {
    score := 0;
    var j := 0;
    while j < |keywords|
      invariant 0 <= j <= |keywords|
      invariant score == Score(lowerText, keywords[..j])
    {
      if Contains(lowerText, keywords[j]) {
        score := score + 1;
      }
      assert keywords[..j + 1][..j] == keywords[..j];
      j := j + 1;
    }
    assert keywords[..j] == keywords;
  }

  /** `analyzeMoodWithKeywords`: the outer loop keeps the first mood with the strictly highest score. */
  method AnalyzeWithKeywords(text: string) returns (r: MoodResult)
    ensures r == KeywordVerdict(text)
  {
    var lowerText := ToLower(text);
    ghost var scores := Scores(lowerText);
    var bestName := DefaultMood;
    var bestScore := 0;
    ghost var bestIndex := -1;
    var i := 0;
    while i < |Moods|
      invariant 0 <= i <= |Moods|
      invariant Pick(scores[..i]) == Best(bestIndex, bestScore)
      invariant bestIndex < i
      invariant bestIndex >= 0 ==> bestName == Moods[bestIndex].name
    {
      var mood := Moods[i];
      var score := CountKeywords(lowerText, mood.keywords);
      assert scores[..i + 1][..i] == scores[..i];
      if score > bestScore {
        bestName, bestScore, bestIndex := mood.name, score, i;
      }
      i := i + 1;
    }
    assert scores[..i] == scores;
    if bestScore == 0 {
      return MoodResult(DefaultMood, 0.5);
    }
    return MoodResult(bestName, Confidence(bestScore));
  }

  /** `getAllMoods()`: the names of the table, in order. */
  function AllMoods(): (names: seq<string>)
    ensures |names| == |Moods|
    ensures forall i :: 0 <= i < |Moods| ==> names[i] == Moods[i].name
  {
    seq(|Moods|, i requires 0 <= i < |Moods| => Moods[i].name)
  }

  lemma AllMoodsInOrder()
    ensures AllMoods() == ["Happy", "Sad", "Angry", "Fear", "Surprised", "Neutral"]
  {
  }

  /** The keyword analyser always answers one of the table's names. */
  lemma VerdictNamesAMood(text: string)
    ensures KeywordVerdict(text).mood in AllMoods()
  {
    assert AllMoods()[5] == DefaultMood;
  }

  /**
   * The verdict in terms of the scores: no match gives Neutral at 0.5; otherwise
   * the winner has the highest score, every earlier mood scores strictly less,
   * and the confidence is the capped ratio.
   */
  lemma VerdictIsFirstMaximum(text: string)
    ensures var scores := Scores(ToLower(text));
            var r := KeywordVerdict(text);
            && ((forall j :: 0 <= j < |Moods| ==> scores[j] == 0) <==> r == MoodResult(DefaultMood, 0.5))
            && ((exists j :: 0 <= j < |Moods| && scores[j] > 0) ==>
                  exists w :: 0 <= w < |Moods|
                              && r == MoodResult(Moods[w].name, Confidence(scores[w]))
                              && scores[w] > 0
                              && (forall j :: 0 <= j < |Moods| ==> scores[j] <= scores[w])
                              && (forall j :: 0 <= j < w ==> scores[j] < scores[w]))
  {
    var scores := Scores(ToLower(text));
    var best := Pick(scores);
    if best.score > 0 {
      assert Confidence(best.score) != 0.5 by {
        if best.score < 3 {
          assert best.score == 1 || best.score == 2;
        }
      }
    }
  }

  /** Each mood's score is the number of its distinct keywords found in the lowercased text. */
  lemma MoodScoreCountsMatches(text: string, i: int)
    requires 0 <= i < |Moods|
    ensures Scores(ToLower(text))[i] == |Present(ToLower(text), Moods[i].keywords)|
  {
    TableKeywordsDistinct();
    ScoreCountsPresent(ToLower(text), Moods[i].keywords);
  }

  /** The confidence lies in (0, 1] and reaches 1 exactly when the winning score is at least 3. */
  lemma VerdictConfidence(text: string)
    ensures 0.0 < KeywordVerdict(text).confidence <= 1.0
    ensures KeywordVerdict(text).confidence == 1.0 <==> Pick(Scores(ToLower(text))).score >= 3
  {
  }

  /** Two texts that differ only in ASCII letter case. */
  predicate SameUpToCase(a: string, b: string)
  {
    |a| == |b| && forall i :: 0 <= i < |a| ==> Lower(a[i]) == Lower(b[i])
  }

  /** Matching ignores ASCII letter case. */
  lemma CaseInsensitive(a: string, b: string)
    requires SameUpToCase(a, b)
    ensures KeywordVerdict(a) == KeywordVerdict(b)
  {
    assert ToLower(a) == ToLower(b);
  }

  /** `MOODS.find(m => m.name === mood)`: the first entry with that name, as an index, or -1. */
  function FindMood(table: seq<Mood>, name: string): (i: int)
    ensures -1 <= i < |table|
    ensures i >= 0 ==> table[i].name == name && forall j :: 0 <= j < i ==> table[j].name != name
    ensures i == -1 ==> forall j :: 0 <= j < |table| ==> table[j].name != name
  {
    if |table| == 0 then -1
    else if table[0].name == name then 0
    else
      var k := FindMood(table[1..], name);
      assert forall j :: 1 <= j < |table| ==> table[j] == table[1..][j - 1];
      if k < 0 then -1 else k + 1
  }

  /** `getMoodEmoji(mood)`: the found entry's emoji, unless absent or empty. */
  function MoodEmoji(mood: string): (e: string)
    ensures mood !in AllMoods() ==> e == FallbackEmoji
    ensures forall i :: 0 <= i < |Moods| && Moods[i].name == mood ==> e == Moods[i].emoji
  {
    var i := FindMood(Moods, mood);
    MoodNamesDistinct();
    if i >= 0 && Moods[i].emoji != "" then Moods[i].emoji else FallbackEmoji
  }

  lemma MoodNamesDistinct()
    ensures Distinct(AllMoods())
  {
  }
}
