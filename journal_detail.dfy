/**
 * The statistics of screens/JournalDetailScreen.tsx: the content shown for an
 * entry (empty when there is none), its word count
 * `content.split(/\s+/).filter(w => w.length > 0).length`, and its character
 * count `content.length`. The word count is related to an independent
 * definition: the number of maximal runs of non-whitespace characters.
 */
module JournalDetail {
  import opened Wrappers
  import opened Text
  import opened JournalStore

  /** `entry?.content || ''`. */
  function ContentOf(entry: Option<JournalEntry>): (content: string)
    ensures entry.None? ==> content == ""
    ensures entry.Some? ==> content == entry.value.content
  {
    if entry.Some? && entry.value.content != "" then entry.value.content else ""
  }

  /** The first whitespace position of `s`, or -1. */
  function FirstSpace(s: string): (i: int)
    ensures -1 <= i < |s|
    ensures i >= 0 ==> IsSpace(s[i]) && NoSpace(s[..i])
    ensures i == -1 ==> NoSpace(s)
  {
    if |s| == 0 then -1
    else if IsSpace(s[0]) then 0
    else
      var k := FirstSpace(s[1..]);
      assert forall j :: 1 <= j < |s| ==> s[j] == s[1..][j - 1];
      if k < 0 then -1 else k + 1
  }

  /** `s.split(/\s+/)`: the pieces between maximal whitespace runs, with "" at a leading or trailing run. */
  function SplitOnSpaceRuns(s: string): (pieces: seq<string>)
    ensures |pieces| >= 1
    ensures forall i :: 0 <= i < |pieces| ==> NoSpace(pieces[i])
    ensures NoSpace(s) ==> pieces == [s]
    decreases |s|
  {
    var i := FirstSpace(s);
    if i < 0 then [s]
    else
      var tail := s[i..];
      var rest := TrimStart(tail);
      assert |rest| < |s| by {
        assert tail[0] == s[i] && tail[1..] == s[i + 1..];
        assert rest == TrimStart(s[i + 1..]);
      }
      var later := SplitOnSpaceRuns(rest);
      var word := s[..i];
      assert !NoSpace(s) by { assert IsSpace(s[i]); }
      var pieces := [word] + later;
      assert pieces[0] == word && pieces[1..] == later;
      pieces
  }

  /** The first piece is a word when the text starts with one. */
  lemma SplitFirstPiece(s: string)
    requires |s| > 0 && !IsSpace(s[0])
    ensures |SplitOnSpaceRuns(s)[0]| > 0
  {
    var i := FirstSpace(s);
    var ss := SplitOnSpaceRuns(s);
    if i >= 0 {
      assert i != 0;
      var rest := TrimStart(s[i..]);
      assert ss == [s[..i]] + SplitOnSpaceRuns(rest);
      assert ss[0] == s[..i];
    } else {
      assert ss == [s];
    }
  }

  /** Only the first and the last piece of a split can be empty: those come from leading and trailing whitespace. */
  lemma {:induction false} SplitPiecesNonEmpty(s: string)
    ensures forall k :: 0 < k < |SplitOnSpaceRuns(s)| - 1 ==> |SplitOnSpaceRuns(s)[k]| > 0
    decreases |s|
  {
    var i := FirstSpace(s);
    var ss := SplitOnSpaceRuns(s);
    if i >= 0 {
      var tail := s[i..];
      var rest := TrimStart(tail);
      assert |rest| < |s| by {
        assert tail[0] == s[i] && tail[1..] == s[i + 1..];
        assert rest == TrimStart(s[i + 1..]);
      }
      var later := SplitOnSpaceRuns(rest);
      SplitPiecesNonEmpty(rest);
      if |rest| > 0 {
        SplitFirstPiece(rest);
      } else {
        assert NoSpace(rest);
      }
      assert ss == [s[..i]] + later;
      PrependKeepsInterior(s[..i], later);
    } else {
      assert ss == [s];
    }
  }

  /** A piece put before pieces whose first is non-empty unless alone leaves every later piece non-empty. */
  lemma PrependKeepsInterior(word: string, later: seq<string>)
    requires |later| > 1 ==> |later[0]| > 0
    requires forall k :: 0 < k < |later| - 1 ==> |later[k]| > 0
    ensures forall k :: 0 < k < |later| ==> |([word] + later)[k]| > 0
  {
    var ss := [word] + later;
    forall k | 0 < k < |later| ensures |ss[k]| > 0 {
      assert ss[k] == later[k - 1];
    }
  }

  /** `.filter(w => w.length > 0)`. */
  function NonEmpty(pieces: seq<string>): (kept: seq<string>)
    ensures |kept| <= |pieces|
    ensures forall i :: 0 <= i < |kept| ==> kept[i] != ""
    ensures forall w :: w in kept <==> w in pieces && w != ""
  {
    if |pieces| == 0 then []
    else
      assert forall w :: w in pieces <==> w == pieces[0] || w in pieces[1..];
      (if pieces[0] == "" then [] else [pieces[0]]) + NonEmpty(pieces[1..])
  }

  /** The words of `content.split(/\s+/).filter(w => w.length > 0)`. */
  function WordsOf(content: string): seq<string>
  {
    NonEmpty(SplitOnSpaceRuns(content))
  }

  /** `wordsCount`: the number of maximal non-whitespace runs. */
  function WordCount(content: string): (n: nat)
    ensures n == Runs(content)
  {
    WordCountIsRuns(content);
    |WordsOf(content)|
  }

  /** Characters passed to the statistics: `content.length`, never fewer than the words. */
  function CharacterCount(content: string): (n: nat)
    ensures n == |content|
    ensures WordCount(content) <= n
  {
    |content|
  }

  /**
   * The reference count: positions holding a non-whitespace character that
   * follows whitespace or, when `afterSpace`, starts the text.
   */
  function RunStarts(s: string, afterSpace: bool): (n: nat)
    ensures n <= |s|
  {
    if |s| == 0 then 0
    else (if !IsSpace(s[0]) && afterSpace then 1 else 0) + RunStarts(s[1..], IsSpace(s[0]))
  }

  /** The number of maximal non-whitespace runs of `s`. */
  function Runs(s: string): nat
  {
    RunStarts(s, true)
  }

  lemma {:induction false} RunStartsConcat(a: string, b: string, afterSpace: bool)
    ensures RunStarts(a + b, afterSpace)
            == RunStarts(a, afterSpace) + RunStarts(b, if |a| == 0 then afterSpace else IsSpace(a[|a| - 1]))
  {
    if |a| > 0 {
      assert (a + b)[0] == a[0];
      assert (a + b)[1..] == a[1..] + b;
      RunStartsConcat(a[1..], b, IsSpace(a[0]));
      if |a| > 1 {
        assert a[1..][|a| - 2] == a[|a| - 1];
      }
    } else {
      assert a + b == b;
    }
  }

  lemma {:induction false} RunStartsNoSpace(s: string, afterSpace: bool)
    requires NoSpace(s)
    ensures RunStarts(s, afterSpace) == if |s| > 0 && afterSpace then 1 else 0
  {
    if |s| > 0 {
      assert NoSpace(s[1..]) by {
        assert forall j :: 0 <= j < |s| - 1 ==> s[1..][j] == s[j + 1];
      }
      RunStartsNoSpace(s[1..], false);
    }
  }

  lemma {:induction false} RunStartsAllSpace(s: string, afterSpace: bool)
    requires AllSpace(s)
    ensures RunStarts(s, afterSpace) == 0
  {
    if |s| > 0 {
      assert AllSpace(s[1..]) by {
        assert forall j :: 0 <= j < |s| - 1 ==> s[1..][j] == s[j + 1];
      }
      RunStartsAllSpace(s[1..], true);
    }
  }

  /** One step of the split: the piece before the first whitespace run, then the rest after it. */
  lemma WordCountStep(s: string, i: int)
    requires i == FirstSpace(s) && i >= 0
    ensures |TrimStart(s[i..])| < |s|
    ensures |WordsOf(s)| == (if i == 0 then 0 else 1) + |WordsOf(TrimStart(s[i..]))|
  {
    var rest := TrimStart(s[i..]);
    var pieces := SplitOnSpaceRuns(s);
    assert pieces == [s[..i]] + SplitOnSpaceRuns(rest);
    assert pieces[1..] == SplitOnSpaceRuns(rest);
  }

  /** A word followed by anything: one run if the word is non-empty, then the runs of the rest. */
  lemma WordThenRest(word: string, rest: string)
    requires NoSpace(word)
    ensures RunStarts(word + rest, true) == (if |word| == 0 then 0 else 1) + RunStarts(rest, |word| == 0)
  {
    RunStartsConcat(word, rest, true);
    RunStartsNoSpace(word, true);
  }

  /** A non-empty whitespace run followed by anything: the runs of what follows it. */
  lemma GapThenRest(gap: string, rest: string, afterSpace: bool)
    requires AllSpace(gap) && |gap| > 0
    ensures RunStarts(gap + rest, afterSpace) == RunStarts(rest, true)
  {
    RunStartsConcat(gap, rest, afterSpace);
    RunStartsAllSpace(gap, afterSpace);
  }

  /** The same step for the reference count. */
  lemma RunsStep(s: string, i: int)
    requires i == FirstSpace(s) && i >= 0
    ensures Runs(s) == (if i == 0 then 0 else 1) + Runs(TrimStart(s[i..]))
  {
    var tail := s[i..];
    var rest := TrimStart(tail);
    var gap := tail[..|tail| - |rest|];
    assert tail == gap + rest;
    assert |gap| > 0 by {
      assert IsSpace(tail[0]);
    }
    assert s == s[..i] + tail;
    WordThenRest(s[..i], tail);
    GapThenRest(gap, rest, i == 0);
  }

  /** The split-and-filter word count is the number of maximal non-whitespace runs. */
  lemma {:induction false} WordCountIsRuns(s: string)
    ensures |WordsOf(s)| == Runs(s)
    decreases |s|
  {
    var i := FirstSpace(s);
    if i < 0 {
      assert SplitOnSpaceRuns(s) == [s];
      assert NonEmpty([s]) == (if s == "" then [] else [s]) + NonEmpty([]);
      RunStartsNoSpace(s, true);
    } else {
      WordCountStep(s, i);
      RunsStep(s, i);
      WordCountIsRuns(TrimStart(s[i..]));
    }
  }

  /** A non-whitespace character of `s` lies at or after the end of a whitespace prefix. */
  lemma SpaceBeforeGapEnd(s: string, k: int, j: int)
    requires 0 <= k <= |s| && AllSpace(s[..k])
    requires 0 <= j < |s| && !IsSpace(s[j])
    ensures k <= j
  {
    var gap := s[..k];
    forall i | 0 <= i < k ensures IsSpace(s[i]) {
      assert s[i] == gap[i];
    }
  }

  /** Blank content, and only blank content, has no runs. */
  lemma RunsZeroIffBlank(s: string)
    ensures Runs(s) == 0 <==> AllSpace(s)
  {
    if AllSpace(s) {
      RunStartsAllSpace(s, true);
    } else {
      var j :| 0 <= j < |s| && !IsSpace(s[j]);
      var lead := TrimStart(s);
      var k := |s| - |lead|;
      SpaceBeforeGapEnd(s, k, j);
      assert s == s[..k] + lead;
      RunStartsConcat(s[..k], lead, true);
      RunStartsAllSpace(s[..k], true);
      assert lead != [] && !IsSpace(lead[0]);
      if k > 0 {
        assert IsSpace(s[..k][k - 1]);
      }
    }
  }

  /** Empty or all-whitespace content has 0 words, and other content has at least one. */
  lemma BlankHasNoWords(content: string)
    ensures WordCount(content) == 0 <==> AllSpace(content)
  {
    RunsZeroIffBlank(content);
  }

  /** Extra whitespace around the content does not change its word count. */
  lemma PaddingKeepsWordCount(before: string, content: string, after: string)
    requires AllSpace(before) && AllSpace(after)
    ensures WordCount(before + content + after) == WordCount(content)
  {
    assert before + content + after == before + (content + after);
    RunStartsConcat(before, content + after, true);
    RunStartsAllSpace(before, true);
    var afterSpace := if |before| == 0 then true else IsSpace(before[|before| - 1]);
    assert afterSpace;
    RunStartsConcat(content, after, true);
    RunStartsAllSpace(after, if |content| == 0 then true else IsSpace(content[|content| - 1]));
  }
}
