/**
 * The JavaScript string operations the core relies on, restricted to ASCII:
 * the `\s` class and `trim`, `toLowerCase`, `includes`, `indexOf`, `split`
 * with a one-character separator, and the inverse of that split.
 */
module Text {

  /** ASCII whitespace as `\s` and `trim` see it: space, tab, LF, VT, FF, CR. */
  predicate IsSpace(c: char)
  {
    c == ' ' || c == '\t' || c == '\n' || c == '\U{000B}' || c == '\U{000C}' || c == '\r'
  }

  predicate NoSpace(s: string)
  {
    forall i :: 0 <= i < |s| ==> !IsSpace(s[i])
  }

  predicate AllSpace(s: string)
  {
    forall i :: 0 <= i < |s| ==> IsSpace(s[i])
  }

  /** ASCII `toLowerCase` of one character. */
  function Lower(c: char): char
  {
    if 'A' <= c <= 'Z' then (c as int + 32) as char else c
  }

  function ToLower(s: string): (r: string)
    ensures |r| == |s|
    ensures forall i :: 0 <= i < |s| ==> r[i] == Lower(s[i])
  {
    seq(|s|, i requires 0 <= i < |s| => Lower(s[i]))
  }

  /** `s.includes(sub)`: some window of `s` equals `sub`. */
  predicate Contains(s: string, sub: string)
    ensures Contains(s, sub) ==> |sub| <= |s|
    ensures |sub| <= |s| && s[..|sub|] == sub ==> Contains(s, sub)
    ensures |sub| == 0 ==> Contains(s, sub)
  {
    assert |sub| <= |s| ==> (MatchAt(s, sub, 0) <==> s[..|sub|] == sub);
    exists i | 0 <= i <= |s| - |sub| :: MatchAt(s, sub, i)
  }

  predicate MatchAt(s: string, sub: string, i: nat)
  {
    i + |sub| <= |s| && s[i..i + |sub|] == sub
  }

  /** `s.indexOf(c)`: the first position of `c`, or -1. */
  function IndexOf(s: string, c: char): (r: int)
    ensures -1 <= r < |s|
    ensures r == -1 <==> c !in s
    ensures r >= 0 ==> s[r] == c && c !in s[..r]
  {
    if |s| == 0 then -1
    else if s[0] == c then 0
    else
      var k := IndexOf(s[1..], c);
      assert s[1..][..if k < 0 then 0 else k] == s[1..1 + if k < 0 then 0 else k];
      if k < 0 then -1 else 1 + k
  }

  lemma {:induction false} IndexOfAfterFree(a: string, c: char, b: string)
    requires c !in a
    ensures IndexOf(a + [c] + b, c) == |a|
  {
    var s := a + [c] + b;
    assert s[|a|] == c;
    assert s[..|a|] == a;
  }

  lemma IndexOfFree(a: string, c: char)
    requires c !in a
    ensures IndexOf(a, c) == -1
  {
  }

  /** `s.split(c)`: the pieces between occurrences of `c`; never empty. */
  function Split(s: string, c: char): (pieces: seq<string>)
    ensures |pieces| >= 1
    ensures forall i :: 0 <= i < |pieces| ==> c !in pieces[i]
    decreases |s|
  {
    var i := IndexOf(s, c);
    if i < 0 then [s] else [s[..i]] + Split(s[i + 1..], c)
  }

  /** `pieces.join(c)`, the partner of `Split`. */
  function Join(pieces: seq<string>, c: char): string
    requires |pieces| >= 1
  {
    if |pieces| == 1 then pieces[0] else pieces[0] + [c] + Join(pieces[1..], c)
  }

  lemma {:induction false} JoinSplit(s: string, c: char)
    ensures Join(Split(s, c), c) == s
    decreases |s|
  {
    var i := IndexOf(s, c);
    var pieces := Split(s, c);
    if i >= 0 {
      var rest := Split(s[i + 1..], c);
      assert pieces == [s[..i]] + rest;
      JoinSplit(s[i + 1..], c);
      assert pieces[1..] == rest;
      assert Join(pieces, c) == pieces[0] + [c] + Join(rest, c);
      assert s == s[..i] + [c] + s[i + 1..];
    } else {
      assert pieces == [s];
    }
  }

  lemma {:induction false} SplitJoin(pieces: seq<string>, c: char)
    requires |pieces| >= 1
    requires forall i :: 0 <= i < |pieces| ==> c !in pieces[i]
    ensures Split(Join(pieces, c), c) == pieces
  {
    if |pieces| > 1 {
      var rest := Join(pieces[1..], c);
      IndexOfAfterFree(pieces[0], c, rest);
      var s := pieces[0] + [c] + rest;
      assert s[..|pieces[0]|] == pieces[0];
      assert s[|pieces[0]| + 1..] == rest;
      SplitJoin(pieces[1..], c);
    } else {
      IndexOfFree(pieces[0], c);
    }
  }

  /** A character in no piece, other than the separator, is not in the joined text. */
  lemma {:induction false} JoinFree(pieces: seq<string>, c: char, x: char)
    requires |pieces| >= 1 && x != c
    requires forall i :: 0 <= i < |pieces| ==> x !in pieces[i]
    ensures x !in Join(pieces, c)
  {
    if |pieces| > 1 {
      JoinFree(pieces[1..], c, x);
      assert x !in pieces[0];
      assert Join(pieces, c) == pieces[0] + [c] + Join(pieces[1..], c);
    }
  }

  /** The joined text starts with the first piece. */
  lemma {:induction false} JoinHead(pieces: seq<string>, c: char)
    requires |pieces| >= 1
    ensures |pieces[0]| <= |Join(pieces, c)| && Join(pieces, c)[..|pieces[0]|] == pieces[0]
  {
    if |pieces| > 1 {
      assert Join(pieces, c) == pieces[0] + ([c] + Join(pieces[1..], c));
    }
  }

  function TrimStart(s: string): (r: string)
    ensures |r| <= |s| && r == s[|s| - |r|..]
    ensures AllSpace(s[..|s| - |r|])
    ensures r == [] || !IsSpace(r[0])
  {
    if |s| > 0 && IsSpace(s[0]) then
      var r := TrimStart(s[1..]);
      assert s[..|s| - |r|] == [s[0]] + s[1..][..|s| - 1 - |r|];
      r
    else s
  }

  function TrimEnd(s: string): (r: string)
    ensures |r| <= |s| && r == s[..|r|]
    ensures AllSpace(s[|r|..])
    ensures r == [] || !IsSpace(r[|r| - 1])
  {
    if |s| > 0 && IsSpace(s[|s| - 1]) then
      var r := TrimEnd(s[..|s| - 1]);
      assert s[|r|..] == s[..|s| - 1][|r|..] + [s[|s| - 1]];
      r
    else s
  }

  /** `s.trim()`: `s` without its leading and trailing whitespace. */
  function Trim(s: string): (r: string)
    ensures |r| <= |s|
    ensures r == [] || (!IsSpace(r[0]) && !IsSpace(r[|r| - 1]))
    ensures r == [] <==> AllSpace(s)
  {
    var t := TrimStart(s);
    var r := TrimEnd(t);
    TrimmedEmpty(s, t, r);
    r
  }

  lemma TrimmedEmpty(s: string, t: string, r: string)
    requires t == TrimStart(s) && r == TrimEnd(t)
    ensures r == [] <==> AllSpace(s)
  {
    var lo := |s| - |t|;
    if r == [] {
      assert t == [] by { assert t == t[|r|..]; }
      assert s == s[..lo];
    } else {
      assert t != [] && t[0] == r[0];
      assert s[lo] == t[0];
    }
  }

  /** The trimmed text is the part of `s` between a whitespace prefix and a whitespace suffix. */
  lemma TrimIsInfix(s: string) returns (lo: nat)
    ensures lo + |Trim(s)| <= |s| && s[lo..lo + |Trim(s)|] == Trim(s)
    ensures AllSpace(s[..lo]) && AllSpace(s[lo + |Trim(s)|..])
  {
    var t := TrimStart(s);
    var r := TrimEnd(t);
    lo := |s| - |t|;
    assert Trim(s) == r;
    assert s[lo..] == t;
    assert r == t[..|r|] && AllSpace(t[|r|..]);
    assert s[lo..lo + |r|] == t[..|r|];
    assert s[lo + |r|..] == t[|r|..];
  }
}
