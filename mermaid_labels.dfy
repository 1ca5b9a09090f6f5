/**
 * Diagram node labels with line breaks. Before a diagram is rendered, every
 * bracketed label that holds a `<br>`, `<br/>` or `<br />` tag (any case, any
 * whitespace before the optional slash) is rewritten to the markdown-string
 * form ``["`…`"]`` with each tag turned into a line feed.
 *
 * The pattern `\[([^\]]*<br\s*\/?>.*?)\]` matches at a `[` exactly when the
 * first `]` after it exists and some tag lies between the two with no line
 * terminator between the tag's end and that `]`; the match then always ends
 * at that first `]`, whichever tag the search settles on.
 */
module MermaidLabels {
  import opened Wrappers
  import opened Text

  /** How many whitespace characters `t` starts with. */
  function SpaceRun(t: string): (n: nat)
    ensures n <= |t|
    ensures forall i :: 0 <= i < n ==> IsSpace(t[i])
    ensures n == |t| || !IsSpace(t[n])
  {
    if t != [] && IsSpace(t[0]) then 1 + SpaceRun(t[1..]) else 0
  }

  /** The length of the `<br\s*\/?>` tag (letters in either case) at the head of `t`, if any. */
  function BreakAt(t: string): (n: Option<nat>)
    ensures n.Some? ==> 4 <= n.value <= |t| && t[0] == '<' && t[n.value - 1] == '>'
    ensures n.Some? ==> forall i :: 1 <= i < n.value ==> t[i] != '<' && t[i] != ']'
  {
    if |t| >= 3 && t[0] == '<' && (t[1] == 'b' || t[1] == 'B') && (t[2] == 'r' || t[2] == 'R') then
      var m := 3 + SpaceRun(t[3..]);
      if m < |t| && t[m] == '>' then Some(m + 1)
      else if m + 1 < |t| && t[m] == '/' && t[m + 1] == '>' then Some(m + 2)
      else None
    else None
  }

  /** No tag starts anywhere in `t`. */
  predicate NoBreaks(t: string) {
    forall i :: 0 <= i < |t| ==> BreakAt(t[i..]).None?
  }

  /** `label.replace(/<br\s*\/?>/gi, '\n')`: tags replaced left to right. */
  function ReplaceBreaks(t: string): string
    decreases |t|
  {
    if t == [] then []
    else match BreakAt(t)
      case Some(n) => "\n" + ReplaceBreaks(t[n..])
      case None => [t[0]] + ReplaceBreaks(t[1..])
  }

  /** The first `]` at index `j` or later. */
  function CloseFrom(s: string, j: nat): (e: Option<nat>)
    requires j <= |s|
    ensures e.Some? ==> j <= e.value < |s| && s[e.value] == ']'
    ensures forall i :: j <= i < |s| && (e.None? || i < e.value) ==> s[i] != ']'
    decreases |s| - j
  {
    if j == |s| then None else if s[j] == ']' then Some(j) else CloseFrom(s, j + 1)
  }

  /** A tag starts at `j`, ends by `e`, and no line terminator lies between its end and `e`. */
  predicate BreakBefore(s: string, j: nat, e: nat)
    requires j <= e <= |s|
  {
    var b := BreakAt(s[j..]);
    b.Some? && j + b.value <= e && forall i :: j + b.value <= i < e ==> !IsLineTerminator(s[i])
  }

  /** Where the label pattern matching at the head of `s` ends: the index of its `]`. */
  function LabelEnd(s: string): (e: Option<nat>)
    ensures e.Some? ==> 1 <= e.value < |s| && s[0] == '[' && s[e.value] == ']'
  {
    if s != [] && s[0] == '[' then
      match CloseFrom(s, 1)
      case None => None
      case Some(e) => if exists j | 1 <= j < e :: BreakBefore(s, j, e) then Some(e) else None
    else None
  }

  /** `convert_br_to_markdown_strings`: scan left to right, rewriting each matching label. */
  function ConvertBreaks(s: string): string
    decreases |s|
  {
    if s == [] then []
    else match LabelEnd(s)
      case Some(e) => "[\"`" + ReplaceBreaks(s[1..e]) + "`\"]" + ConvertBreaks(s[e + 1..])
      case None => [s[0]] + ConvertBreaks(s[1..])
  }

  // ---------------------------------------------------------------------------
  // Properties
  // ---------------------------------------------------------------------------

  lemma NoAngleNoBreaks(t: string)
    requires '<' !in t
    ensures NoBreaks(t)
  {
    forall i | 0 <= i < |t| ensures BreakAt(t[i..]).None? {
      assert t[i..][0] == t[i];
    }
  }

  lemma NoBreaksTail(t: string)
    requires t != [] && NoBreaks(t)
    ensures NoBreaks(t[1..])
  {
    forall i | 0 <= i < |t| - 1 ensures BreakAt(t[1..][i..]).None? {
      assert t[1..][i..] == t[i + 1..];
    }
  }

  /** Text without a tag comes out of the tag replacement unchanged. */
  lemma {:induction false} ReplaceBreaksIdentity(t: string)
    requires NoBreaks(t)
    ensures ReplaceBreaks(t) == t
  {
    if t != [] {
      assert BreakAt(t[0..]).None? && t[0..] == t;
      NoBreaksTail(t);
      ReplaceBreaksIdentity(t[1..]);
    }
  }

  /** Text without a tag is left unchanged: no label can match. */
  lemma {:induction false} ConvertBreaksIdentity(s: string)
    requires NoBreaks(s)
    ensures ConvertBreaks(s) == s
  {
    if s != [] {
      if s[0] == '[' {
        var c := CloseFrom(s, 1);
        if c.Some? {
          forall j | 1 <= j < c.value ensures !BreakBefore(s, j, c.value) {
            assert BreakAt(s[j..]).None?;
          }
        }
      }
      NoBreaksTail(s);
      ConvertBreaksIdentity(s[1..]);
    }
  }

  /** In particular, text without a `<` is unchanged. */
  lemma ConvertWithoutAngle(s: string)
    requires '<' !in s
    ensures ConvertBreaks(s) == s
  {
    NoAngleNoBreaks(s);
    ConvertBreaksIdentity(s);
  }

  lemma ReplaceBreaksNone(t: string)
    requires t != [] && BreakAt(t).None?
    ensures ReplaceBreaks(t) == [t[0]] + ReplaceBreaks(t[1..])
  {
  }

  lemma ReplaceBreaksSome(t: string)
    requires t != [] && BreakAt(t).Some?
    ensures ReplaceBreaks(t) == "\n" + ReplaceBreaks(t[BreakAt(t).value..])
  {
  }

  /** No tag starts before index `k` of `t`. */
  predicate NoBreakBefore(t: string, k: nat)
    requires k <= |t|
  {
    forall i :: 0 <= i < k ==> BreakAt(t[i..]).None?
  }

  lemma NoBreakBeforeTail(t: string, k: nat)
    requires 1 <= k <= |t| && NoBreakBefore(t, k)
    ensures NoBreakBefore(t[1..], k - 1)
  {
    forall i | 0 <= i < k - 1 ensures BreakAt(t[1..][i..]).None? {
      assert t[1..][i..] == t[i + 1..];
    }
  }

  lemma SliceTail(t: string, k: nat)
    requires 1 <= k <= |t|
    ensures t[1..][k - 1..] == t[k..] && t[..k] == [t[0]] + t[1..][..k - 1]
  {
  }

  /** A prefix in which no tag starts passes through the tag replacement unchanged. */
  lemma {:induction false} ReplaceBreaksSkip(t: string, k: nat)
    requires k <= |t| && NoBreakBefore(t, k)
    ensures ReplaceBreaks(t) == t[..k] + ReplaceBreaks(t[k..])
  {
    if k == 0 {
      assert t[0..] == t;
    } else {
      assert t[0..] == t;
      ReplaceBreaksNone(t);
      NoBreakBeforeTail(t, k);
      ReplaceBreaksSkip(t[1..], k - 1);
      SliceTail(t, k);
      ConsAssoc(t[0], t[1..][..k - 1], ReplaceBreaks(t[k..]));
    }
  }

  lemma ConsAssoc(c: char, a: string, r: string)
    ensures [c] + (a + r) == ([c] + a) + r
  {
  }

  /** The tag replacement rewrites the leftmost tag first and resumes after it. */
  lemma ReplaceBreaksAt(t: string, k: nat, n: nat)
    requires k < |t| && BreakAt(t[k..]) == Some(n) && NoBreakBefore(t, k)
    ensures ReplaceBreaks(t) == t[..k] + ("\n" + ReplaceBreaks(t[k + n..]))
  {
    ReplaceBreaksSkip(t, k);
    ReplaceBreaksSome(t[k..]);
    assert t[k..][n..] == t[k + n..];
  }

  lemma {:induction false} SpaceRunExtend(t: string, u: string)
    requires SpaceRun(t) < |t|
    ensures SpaceRun(t + u) == SpaceRun(t)
  {
    if IsSpace(t[0]) {
      assert (t + u)[1..] == t[1..] + u;
      SpaceRunExtend(t[1..], u);
    }
  }

  /** A tag found in `t` is found the same way whatever follows `t`. */
  lemma BreakAtExtend(t: string, u: string)
    requires BreakAt(t).Some?
    ensures BreakAt(t + u) == BreakAt(t)
  {
    var m := 3 + SpaceRun(t[3..]);
    assert m < |t|;
    assert (t + u)[3..] == t[3..] + u;
    SpaceRunExtend(t[3..], u);
  }

  lemma CloseFromAt(s: string, j: nat, e: nat)
    requires j <= e < |s| && s[e] == ']'
    requires forall i :: j <= i < e ==> s[i] != ']'
    ensures CloseFrom(s, j) == Some(e)
    decreases e - j
  {
    if j < e {
      CloseFromAt(s, j + 1, e);
    }
  }

  /** The pieces of a bracketed label followed by more text. */
  lemma Bracketed(inner: string, after: string)
    ensures var s := "[" + inner + "]" + after;
      |s| == |inner| + 2 + |after| && s[0] == '[' && s[|inner| + 1] == ']'
      && s[1..|inner| + 1] == inner && s[|inner| + 2..] == after
      && (forall i :: 1 <= i <= |inner| ==> s[i] == inner[i - 1])
  {
  }

  lemma BracketedFrom(inner: string, after: string, j: nat)
    requires j < |inner|
    ensures ("[" + inner + "]" + after)[j + 1..] == inner[j..] + ("]" + after)
  {
  }

  lemma LabelEndAt(s: string, j: nat, e: nat)
    requires s != [] && s[0] == '[' && CloseFrom(s, 1) == Some(e)
    requires 1 <= j < e && BreakBefore(s, j, e)
    ensures LabelEnd(s) == Some(e)
  {
  }

  lemma BreakInBracket(inner: string, after: string, j: nat, n: nat)
    requires j < |inner| && BreakAt(inner[j..]) == Some(n)
    requires forall i :: j + n <= i < |inner| ==> !IsLineTerminator(inner[i])
    ensures BreakBefore("[" + inner + "]" + after, j + 1, |inner| + 1)
  {
    var s := "[" + inner + "]" + after;
    Bracketed(inner, after);
    BracketedFrom(inner, after, j);
    BreakAtExtend(inner[j..], "]" + after);
    assert BreakAt(s[j + 1..]) == Some(n);
    assert forall i :: j + 1 + n <= i < |inner| + 1 ==> s[i] == inner[i - 1];
  }

  /** A bracketed label with a tag inside and no line terminator after it matches up to its `]`. */
  lemma LabelMatches(inner: string, after: string, j: nat)
    requires ']' !in inner
    requires j < |inner| && BreakAt(inner[j..]).Some?
    requires forall i :: j + BreakAt(inner[j..]).value <= i < |inner| ==> !IsLineTerminator(inner[i])
    ensures LabelEnd("[" + inner + "]" + after) == Some(|inner| + 1)
  {
    var s := "[" + inner + "]" + after;
    Bracketed(inner, after);
    CloseFromAt(s, 1, |inner| + 1);
    BreakInBracket(inner, after, j, BreakAt(inner[j..]).value);
    LabelEndAt(s, j + 1, |inner| + 1);
  }

  lemma ConvertAtLabel(inner: string, after: string)
    requires LabelEnd("[" + inner + "]" + after) == Some(|inner| + 1)
    ensures ConvertBreaks("[" + inner + "]" + after) == "[\"`" + ReplaceBreaks(inner) + "`\"]" + ConvertBreaks(after)
  {
    Bracketed(inner, after);
  }

  /** A label that holds a tag with no line terminator after it is one match, rewritten whole;
      text before it without a `[` is kept as it is. */
  lemma ConvertLabel(before: string, inner: string, after: string, j: nat)
    requires '[' !in before && ']' !in inner
    requires j < |inner| && BreakAt(inner[j..]).Some?
    requires forall i :: j + BreakAt(inner[j..]).value <= i < |inner| ==> !IsLineTerminator(inner[i])
    ensures ConvertBreaks(before + ("[" + inner + "]" + after))
         == before + ("[\"`" + ReplaceBreaks(inner) + "`\"]" + ConvertBreaks(after))
  {
    LabelMatches(inner, after, j);
    ConvertAtLabel(inner, after);
    ConvertPrefix(before, "[" + inner + "]" + after);
  }

  /** Text without a `[` before the rest passes through unchanged. */
  lemma {:induction false} ConvertPrefix(before: string, rest: string)
    requires '[' !in before
    ensures ConvertBreaks(before + rest) == before + ConvertBreaks(rest)
  {
    if before != [] {
      var s := before + rest;
      assert s[0] == before[0] && s[1..] == before[1..] + rest;
      ConvertPrefix(before[1..], rest);
    } else {
      assert before + rest == rest;
    }
  }
}
