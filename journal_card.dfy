/**
 * The preview text of components/JournalCard.tsx: content longer than 100
 * characters is cut to its first 100 and marked with `...`.
 */
module JournalCard {

  const SnippetLength := 100
  const Ellipsis := "..."

  /** `getSnippet(content)`. */
  function Snippet(content: string): (r: string)
    ensures |r| <= SnippetLength + |Ellipsis|
    ensures |content| <= SnippetLength ==> r == content
    ensures |content| > SnippetLength ==> |r| == SnippetLength + |Ellipsis|
                                          && r[..SnippetLength] == content[..SnippetLength]
                                          && r[SnippetLength..] == Ellipsis
  {
    if |content| > SnippetLength then content[..SnippetLength] + Ellipsis else content
  }

  /** The snippet starts with the content's first min(length, 100) characters. */
  lemma SnippetKeepsPrefix(content: string)
    ensures var n := if |content| < SnippetLength then |content| else SnippetLength;
            n <= |Snippet(content)| && Snippet(content)[..n] == content[..n]
  {
  }

}
