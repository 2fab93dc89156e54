/**
 * `escapeHtml` of front/script.js: five global replacements applied one
 * after the other, compared with a per-character reference and inverted by
 * an entity decoder.
 */
module Html {

  /** Every occurrence of `c` in `s` replaced by `entity`
      (`s.replace(/c/g, entity)` for a one-character pattern). */
  function ReplaceAll(s: string, c: char, entity: string): string {
    if s == [] then []
    else (if s[0] == c then entity else [s[0]]) + ReplaceAll(s[1..], c, entity)
  }

  lemma {:induction false} ReplaceAllAppend(a: string, b: string, c: char, entity: string)
    ensures ReplaceAll(a + b, c, entity) == ReplaceAll(a, c, entity) + ReplaceAll(b, c, entity)
  {
    if a != [] {
      assert (a + b)[0] == a[0];
      assert (a + b)[1..] == a[1..] + b;
      ReplaceAllAppend(a[1..], b, c, entity);
    } else {
      assert a + b == b;
    }
  }

  lemma {:induction false} ReplaceAllAbsent(s: string, c: char, entity: string)
    requires c !in s
    ensures ReplaceAll(s, c, entity) == s
  {
    if s != [] {
      ReplaceAllAbsent(s[1..], c, entity);
      assert [s[0]] + s[1..] == s;
    }
  }

  /** The escaping as the client writes it: `&` first, then `<`, `>`, `"`
      and `'`, each pass working on the output of the one before. */
  function EscapeHtml(s: string): string {
    var amp := ReplaceAll(s, '&', "&amp;");
    var lt := ReplaceAll(amp, '<', "&lt;");
    var gt := ReplaceAll(lt, '>', "&gt;");
    var quot := ReplaceAll(gt, '"', "&quot;");
    ReplaceAll(quot, '\'', "&#039;")
  }

  /** The entity each character becomes on its own. */
  function EscapeChar(c: char): (r: string)
    ensures |r| >= 1
    ensures '<' !in r && '>' !in r && '"' !in r && '\'' !in r
  {
    match c
    case '&' => "&amp;"
    case '<' => "&lt;"
    case '>' => "&gt;"
    case '"' => "&quot;"
    case '\'' => "&#039;"
    case _ => [c]
  }

  /** The reference: each character escaped on its own, results concatenated. */
  function EscapeEach(s: string): (r: string)
    ensures '<' !in r && '>' !in r && '"' !in r && '\'' !in r
    ensures |r| >= |s|
  {
    if s == [] then [] else EscapeChar(s[0]) + EscapeEach(s[1..])
  }

  lemma EscapeHtmlAppend(a: string, b: string)
    ensures EscapeHtml(a + b) == EscapeHtml(a) + EscapeHtml(b)
  {
    var a1, b1 := ReplaceAll(a, '&', "&amp;"), ReplaceAll(b, '&', "&amp;");
    ReplaceAllAppend(a, b, '&', "&amp;");
    var a2, b2 := ReplaceAll(a1, '<', "&lt;"), ReplaceAll(b1, '<', "&lt;");
    ReplaceAllAppend(a1, b1, '<', "&lt;");
    var a3, b3 := ReplaceAll(a2, '>', "&gt;"), ReplaceAll(b2, '>', "&gt;");
    ReplaceAllAppend(a2, b2, '>', "&gt;");
    var a4, b4 := ReplaceAll(a3, '"', "&quot;"), ReplaceAll(b3, '"', "&quot;");
    ReplaceAllAppend(a3, b3, '"', "&quot;");
    ReplaceAllAppend(a4, b4, '\'', "&#039;");
  }

  /** On one character the chained passes give that character's entity:
      no replacement text holds a character a later pass replaces. */
  lemma EscapeHtmlChar(c: char)
    ensures EscapeHtml([c]) == EscapeChar(c)
  {
    ReplaceSingle(c, '&', "&amp;");
    if c == '&' {
      LaterPassesKeep("&amp;", 1);
    } else {
      ReplaceSingle(c, '<', "&lt;");
      if c == '<' {
        LaterPassesKeep("&lt;", 2);
      } else {
        ReplaceSingle(c, '>', "&gt;");
        if c == '>' {
          LaterPassesKeep("&gt;", 3);
        } else {
          ReplaceSingle(c, '"', "&quot;");
          if c == '"' {
            LaterPassesKeep("&quot;", 4);
          } else {
            ReplaceSingle(c, '\'', "&#039;");
          }
        }
      }
    }
  }

  lemma ReplaceSingle(c: char, d: char, entity: string)
    ensures ReplaceAll([c], d, entity) == if c == d then entity else [c]
  {
    assert [c][1..] == [];
  }

  /** The passes after the first `done` leave an entity alone. */
  lemma LaterPassesKeep(e: string, done: nat)
    requires '<' !in e && '>' !in e && '"' !in e && '\'' !in e
    ensures done <= 1 ==> ReplaceAll(e, '<', "&lt;") == e
    ensures done <= 2 ==> ReplaceAll(e, '>', "&gt;") == e
    ensures done <= 3 ==> ReplaceAll(e, '"', "&quot;") == e
    ensures ReplaceAll(e, '\'', "&#039;") == e
  {
    ReplaceAllAbsent(e, '<', "&lt;");
    ReplaceAllAbsent(e, '>', "&gt;");
    ReplaceAllAbsent(e, '"', "&quot;");
    ReplaceAllAbsent(e, '\'', "&#039;");
  }

  /** The chained replacements equal the per-character escaping. */
  lemma {:induction false} EscapeHtmlIsPerChar(s: string)
    ensures EscapeHtml(s) == EscapeEach(s)
  {
    if s == [] {
    } else {
      assert s == [s[0]] + s[1..];
      EscapeHtmlAppend([s[0]], s[1..]);
      EscapeHtmlChar(s[0]);
      EscapeHtmlIsPerChar(s[1..]);
    }
  }

  /** Escaped text holds no character that opens a tag or ends an attribute
      value, so a title cannot inject markup. */
  lemma EscapeHtmlIsInert(s: string)
    ensures var r := EscapeHtml(s); '<' !in r && '>' !in r && '"' !in r && '\'' !in r
  {
    EscapeHtmlIsPerChar(s);
  }

  /** The five entities decoded back, every other character kept. */
  function Unescape(s: string): string
    decreases |s|
  {
    if s == [] then []
    else if s[0] != '&' then [s[0]] + Unescape(s[1..])
    else if |s| >= 5 && s[..5] == "&amp;" then "&" + Unescape(s[5..])
    else if |s| >= 4 && s[..4] == "&lt;" then "<" + Unescape(s[4..])
    else if |s| >= 4 && s[..4] == "&gt;" then ">" + Unescape(s[4..])
    else if |s| >= 6 && s[..6] == "&quot;" then "\"" + Unescape(s[6..])
    else if |s| >= 6 && s[..6] == "&#039;" then "'" + Unescape(s[6..])
    else [s[0]] + Unescape(s[1..])
  }

  lemma UnescapeChar(c: char, rest: string)
    ensures Unescape(EscapeChar(c) + rest) == [c] + Unescape(rest)
  {
    var s := EscapeChar(c) + rest;
    if c == '&' {
      assert s[..5] == "&amp;" && s[5..] == rest;
    } else if c == '<' {
      assert !(|s| >= 5 && s[..5] == "&amp;") by { assert s[1] == 'l'; }
      assert s[..4] == "&lt;" && s[4..] == rest;
    } else if c == '>' {
      assert !(|s| >= 5 && s[..5] == "&amp;") by { assert s[1] == 'g'; }
      assert s[..4] != "&lt;" by { assert s[1] == 'g'; }
      assert s[..4] == "&gt;" && s[4..] == rest;
    } else if c == '"' {
      assert !(|s| >= 5 && s[..5] == "&amp;") && s[..4] != "&lt;" && s[..4] != "&gt;" by { assert s[1] == 'q'; }
      assert s[..6] == "&quot;" && s[6..] == rest;
    } else if c == '\'' {
      assert !(|s| >= 5 && s[..5] == "&amp;") && s[..4] != "&lt;" && s[..4] != "&gt;" && s[..6] != "&quot;" by {
        assert s[1] == '#';
      }
      assert s[..6] == "&#039;" && s[6..] == rest;
    } else {
      UnescapePlain(c, rest);
    }
  }

  lemma UnescapePlain(c: char, rest: string)
    requires c != '&'
    ensures Unescape([c] + rest) == [c] + Unescape(rest)
  {
    var s := [c] + rest;
    assert s[0] == c && s[1..] == rest;
  }

  /** Escaping loses nothing: decoding the entities gives the text back. */
  lemma {:induction false} UnescapeEscapeHtml(s: string)
    ensures Unescape(EscapeHtml(s)) == s
  {
    EscapeHtmlIsPerChar(s);
    UnescapeEscapeEach(s);
  }

  lemma {:induction false} UnescapeEscapeEach(s: string)
    ensures Unescape(EscapeEach(s)) == s
  {
    if s != [] {
      UnescapeChar(s[0], EscapeEach(s[1..]));
      UnescapeEscapeEach(s[1..]);
      assert [s[0]] + s[1..] == s;
    }
  }
}
