/**
 * The markdown editor helpers of front/script.js: the text `insertMarkdown`
 * puts in place of the selection, the word count shown under the editor, and
 * the cycle of editor themes.
 */
module Editor {
  import opened Seqs
  import opened Text

  /** What `insertMarkdown(start, end)` puts in place of the selection: the
      selection between the delimiters, or the word "text" when nothing is
      selected (the empty string is falsy). */
  function MarkdownReplacement(start: string, end: string, selection: string): string {
    start + (if selection != "" then selection else "text") + end
  }

  /** The replacement starts with `start`, ends with `end`, and what lies
      between is the selection, or "text" when the selection is empty. */
  lemma MarkdownReplacementShape(start: string, end: string, selection: string)
    ensures var r := MarkdownReplacement(start, end, selection);
      && |r| == |start| + (if selection == "" then 4 else |selection|) + |end|
      && r[..|start|] == start
      && r[|r| - |end|..] == end
      && r[|start|..|r| - |end|] == (if selection == "" then "text" else selection)
  {
    var mid := if selection == "" then "text" else selection;
    var r := start + mid + end;
    assert r[..|start|] == start;
    assert r[|r| - |end|..] == end;
    assert r[|start|..|r| - |end|] == mid;
  }

  /** The number of places in `s` where a word (a run of non-space
      characters) begins, `afterSpace` telling whether the character before
      `s` was white space. */
  function WordStarts(s: string, afterSpace: bool): nat {
    if s == [] then 0
    else (if afterSpace && !IsJsSpace(s[0]) then 1 else 0) + WordStarts(s[1..], IsJsSpace(s[0]))
  }

  /** The word count of `updateEditorStats`: 0 for blank content, otherwise
      the number of pieces `trim().split(/\s+/)` yields, that is, the number
      of runs of non-space characters in the trimmed content. */
  function WordCount(content: string): nat {
    var t := Trim(content, IsJsSpace);
    if t == [] then 0 else WordStarts(t, true)
  }

  lemma {:induction false} WordStartsBound(s: string, afterSpace: bool)
    ensures WordStarts(s, afterSpace) <= |s|
  {
    if s != [] {
      WordStartsBound(s[1..], IsJsSpace(s[0]));
    }
  }

  /** No words exactly when the content is blank, and never more words than
      characters. */
  lemma WordCountZeroIff(content: string)
    ensures WordCount(content) == 0 <==> AllSpace(content, IsJsSpace)
    ensures WordCount(content) <= |content|
  {
    TrimEmptyIff(content, IsJsSpace);
    var t := Trim(content, IsJsSpace);
    WordStartsBound(t, true);
    TrimSpec(content, IsJsSpace);
  }

  /** The editor themes `toggleEditorTheme` cycles through, in order. */
  const Themes: seq<string> := ["default", "material", "material-darker", "dracula"]

  /** The test `indexOf` applies to each element: equality with `x`. */
  function Equals(x: string): string -> bool { (t: string) => t == x }

  /** The theme after `current` (`indexOf` is `FirstIndex` with equality):
      the next one in the list, wrapping around; a theme not in the list has
      index -1 and so is followed by the first. */
  function NextTheme(current: string): string {
    Themes[(FirstIndex(Themes, Equals(current)) + 1) % |Themes|]
  }

  /** The result is always one of the four themes, and a theme not in the
      list is followed by "default". */
  lemma NextThemeInThemes(current: string)
    ensures NextTheme(current) in Themes
    ensures current !in Themes ==> NextTheme(current) == "default"
  {
  }

  /** The four themes are different strings. */
  lemma ThemesDistinct()
    ensures forall i, j :: 0 <= i < j < |Themes| ==> Themes[i] != Themes[j]
  {
    assert Themes[0][1] != Themes[3][1];
  }

  /** A theme of the list moves to the one after it, the last to the first. */
  lemma NextThemeOf(i: nat)
    requires i < |Themes|
    ensures NextTheme(Themes[i]) == Themes[(i + 1) % |Themes|]
  {
    ThemesDistinct();
    var k := FirstIndex(Themes, Equals(Themes[i]));
    assert Equals(Themes[i])(Themes[i]);
    assert k == i;
  }
}
