/**
 * Character-entity escaping as the viewer writes it: a chain of global
 * replacements that starts with `&`. `EscapeText` is the three-step chain
 * (`&`, `<`, `>`) used for the frontmatter block and for the Quick Look
 * fallback page; `EscapeHtml` continues it with `"` and `'`, as the renderer's
 * `escape_html` does. Both are proved equal to a one-pass, per-character
 * escaping and to be undone by `Decode`.
 */
module Html {
  import opened Text

  /** `&`, then `<`, then `>` replaced by their entities, in that order. */
  function EscapeText(s: string): string {
    ReplaceAll(ReplaceAll(ReplaceAll(s, '&', "&amp;"), '<', "&lt;"), '>', "&gt;")
  }

  /** `EscapeText` followed by `"` and `'`. */
  function EscapeHtml(s: string): string {
    ReplaceAll(ReplaceAll(EscapeText(s), '"', "&quot;"), '\'', "&#039;")
  }

  /** The entity one character becomes under `EscapeText`. */
  function TextEntity(c: char): string {
    if c == '&' then "&amp;" else if c == '<' then "&lt;" else if c == '>' then "&gt;" else [c]
  }

  /** The entity one character becomes under `EscapeHtml`. */
  function HtmlEntity(c: char): string {
    if c == '"' then "&quot;" else if c == '\'' then "&#039;" else TextEntity(c)
  }

  /** Reference escaping: every character replaced by its entity in one pass. */
  function EscapeEach(s: string, quotes: bool): string {
    if s == [] then [] else (if quotes then HtmlEntity(s[0]) else TextEntity(s[0])) + EscapeEach(s[1..], quotes)
  }

  lemma {:induction false} EscapeEachCons(c: char, s: string, quotes: bool)
    ensures EscapeEach([c] + s, quotes) == (if quotes then HtmlEntity(c) else TextEntity(c)) + EscapeEach(s, quotes)
  {
    assert ([c] + s)[0] == c && ([c] + s)[1..] == s;
  }

  lemma ReplaceAllSingle(c: char, x: char, rep: string)
    ensures ReplaceAll([c], x, rep) == if c == x then rep else [c]
  {
    assert [c][1..] == [];
  }

  /** On one character the replacement chain of `EscapeText` writes its entity. */
  lemma EscapeTextChar(c: char)
    ensures EscapeText([c]) == TextEntity(c)
  {
    ReplaceAllSingle(c, '&', "&amp;");
    if c != '&' {
      ReplaceAllSingle(c, '<', "&lt;");
      if c != '<' {
        ReplaceAllSingle(c, '>', "&gt;");
      }
    }
  }

  lemma EscapeTextAppend(a: string, b: string)
    ensures EscapeText(a + b) == EscapeText(a) + EscapeText(b)
  {
    ReplaceAllAppend(a, b, '&', "&amp;");
    var a1, b1 := ReplaceAll(a, '&', "&amp;"), ReplaceAll(b, '&', "&amp;");
    ReplaceAllAppend(a1, b1, '<', "&lt;");
    var a2, b2 := ReplaceAll(a1, '<', "&lt;"), ReplaceAll(b1, '<', "&lt;");
    ReplaceAllAppend(a2, b2, '>', "&gt;");
  }

  /** The replacement chain of `EscapeText` is the one-pass escaping. */
  lemma {:induction false} EscapeTextIsEscapeEach(s: string)
    ensures EscapeText(s) == EscapeEach(s, false)
  {
    if s != [] {
      assert s == [s[0]] + s[1..];
      EscapeTextAppend([s[0]], s[1..]);
      EscapeTextChar(s[0]);
      EscapeTextIsEscapeEach(s[1..]);
      EscapeEachCons(s[0], s[1..], false);
    }
  }

  /** On one character the two quote replacements after `EscapeText` write its entity. */
  lemma QuotesOnEntity(c: char)
    ensures ReplaceAll(ReplaceAll(TextEntity(c), '"', "&quot;"), '\'', "&#039;") == HtmlEntity(c)
  {
    if c == '"' {
      ReplaceAllSingle(c, '"', "&quot;");
    } else if c == '\'' {
      ReplaceAllSingle(c, '"', "&quot;");
      ReplaceAllSingle(c, '\'', "&#039;");
    } else if c != '&' && c != '<' && c != '>' {
      ReplaceAllSingle(c, '"', "&quot;");
      ReplaceAllSingle(c, '\'', "&#039;");
    }
  }

  /** The replacement chain of `EscapeHtml` is the one-pass escaping with quotes. */
  lemma {:induction false} EscapeHtmlIsEscapeEach(s: string)
    ensures EscapeHtml(s) == EscapeEach(s, true)
  {
    if s != [] {
      var c, t := s[0], s[1..];
      assert s == [c] + t;
      EscapeTextAppend([c], t);
      EscapeTextChar(c);
      var e1, e2 := TextEntity(c), EscapeText(t);
      ReplaceAllAppend(e1, e2, '"', "&quot;");
      var q1, q2 := ReplaceAll(e1, '"', "&quot;"), ReplaceAll(e2, '"', "&quot;");
      ReplaceAllAppend(q1, q2, '\'', "&#039;");
      QuotesOnEntity(c);
      EscapeHtmlIsEscapeEach(t);
      EscapeEachCons(c, t, true);
    }
  }

  /** Reads back the five entities the viewer writes, left to right. */
  function Decode(s: string): string
    decreases |s|
  {
    if s == [] then []
    else if StartsWith(s, "&amp;") then "&" + Decode(s[5..])
    else if StartsWith(s, "&lt;") then "<" + Decode(s[4..])
    else if StartsWith(s, "&gt;") then ">" + Decode(s[4..])
    else if StartsWith(s, "&quot;") then "\"" + Decode(s[6..])
    else if StartsWith(s, "&#039;") then "'" + Decode(s[6..])
    else [s[0]] + Decode(s[1..])
  }

  lemma DecodeEntity(c: char, rest: string, quotes: bool)
    ensures Decode((if quotes then HtmlEntity(c) else TextEntity(c)) + rest) == [c] + Decode(rest)
  {
    var e := if quotes then HtmlEntity(c) else TextEntity(c);
    var s := e + rest;
    assert s[..|e|] == e && s[|e|..] == rest;
    if c == '&' {
      assert StartsWith(s, "&amp;");
    } else if c == '<' {
      assert s[1] == 'l';
      assert !StartsWith(s, "&amp;");
      assert StartsWith(s, "&lt;");
    } else if c == '>' {
      assert s[1] == 'g';
      assert !StartsWith(s, "&amp;");
      assert !StartsWith(s, "&lt;");
      assert StartsWith(s, "&gt;");
    } else if quotes && (c == '"' || c == '\'') {
      assert s[1] == (if c == '"' then 'q' else '#');
      assert !StartsWith(s, "&amp;");
      assert !StartsWith(s, "&lt;");
      assert !StartsWith(s, "&gt;");
      if c == '"' {
        assert StartsWith(s, "&quot;");
      } else {
        assert !StartsWith(s, "&quot;");
        assert StartsWith(s, "&#039;");
      }
    } else {
      assert e == [c] && s[0] == c;
      assert !StartsWith(s, "&amp;");
      assert !StartsWith(s, "&lt;");
      assert !StartsWith(s, "&gt;");
      assert !StartsWith(s, "&quot;");
      assert !StartsWith(s, "&#039;");
    }
  }

  /** Decoding undoes the one-pass escaping. */
  lemma {:induction false} DecodeEscapeEach(s: string, quotes: bool)
    ensures Decode(EscapeEach(s, quotes)) == s
  {
    if s != [] {
      DecodeEntity(s[0], EscapeEach(s[1..], quotes), quotes);
      DecodeEscapeEach(s[1..], quotes);
      assert s == [s[0]] + s[1..];
    }
  }

  lemma {:induction false} EscapeEachOmits(s: string, quotes: bool, c: char)
    requires c == '<' || c == '>' || (quotes && (c == '"' || c == '\''))
    ensures c !in EscapeEach(s, quotes)
  {
    if s != [] {
      EscapeEachOmits(s[1..], quotes, c);
    }
  }

  /** Quick Look's `escapeHTML` and the frontmatter escaping: no angle bracket survives,
      and decoding gives the input back because `&` is replaced first. */
  lemma EscapeTextSafe(s: string)
    ensures '<' !in EscapeText(s) && '>' !in EscapeText(s)
    ensures Decode(EscapeText(s)) == s
  {
    EscapeTextIsEscapeEach(s);
    EscapeEachOmits(s, false, '<');
    EscapeEachOmits(s, false, '>');
    DecodeEscapeEach(s, false);
  }

  /** Characters other than `&`, `<` and `>`, quotes included, pass through `EscapeText` unchanged. */
  lemma {:induction false} EscapeTextKeepsOthers(s: string, i: nat)
    requires i < |s| && s[i] != '&' && s[i] != '<' && s[i] != '>'
    ensures EscapeText(s) == EscapeText(s[..i]) + [s[i]] + EscapeText(s[i + 1..])
  {
    assert s == s[..i] + ([s[i]] + s[i + 1..]);
    EscapeTextIsEscapeEach(s);
    EscapeTextIsEscapeEach(s[..i]);
    EscapeTextIsEscapeEach(s[i + 1..]);
    EscapeEachAppend(s[..i], [s[i]] + s[i + 1..], false);
    EscapeEachCons(s[i], s[i + 1..], false);
  }

  lemma {:induction false} EscapeEachAppend(a: string, b: string, quotes: bool)
    ensures EscapeEach(a + b, quotes) == EscapeEach(a, quotes) + EscapeEach(b, quotes)
  {
    if a == [] {
      assert a + b == b;
    } else {
      assert (a + b)[0] == a[0] && (a + b)[1..] == a[1..] + b;
      EscapeEachAppend(a[1..], b, quotes);
    }
  }

  /** The renderer's `escape_html`: none of `<`, `>`, `"`, `'` survives, and decoding gives the input back. */
  lemma EscapeHtmlSafe(s: string)
    ensures '<' !in EscapeHtml(s) && '>' !in EscapeHtml(s)
    ensures '"' !in EscapeHtml(s) && '\'' !in EscapeHtml(s)
    ensures Decode(EscapeHtml(s)) == s
  {
    EscapeHtmlIsEscapeEach(s);
    EscapeEachOmits(s, true, '<');
    EscapeEachOmits(s, true, '>');
    EscapeEachOmits(s, true, '"');
    EscapeEachOmits(s, true, '\'');
    DecodeEscapeEach(s, true);
  }
}
