/**
 * The renderer's text transforms: splitting a YAML frontmatter block off the
 * document, the escaped frontmatter section, the code-fence rule that routes
 * `mermaid` blocks to a diagram container, and the pass that leaves only
 * disabled checkboxes among the `<input>` elements of the rendered page.
 */
module Renderer {
  import opened Wrappers
  import opened Text
  import Html

  // ---------------------------------------------------------------------------
  // Frontmatter
  // ---------------------------------------------------------------------------

  /** The frontmatter text (absent when there is none) and the markdown body. */
  datatype Split = Split(frontmatter: Option<string>, body: string)

  /** A line that trims to `---` opens or closes the frontmatter. */
  predicate IsFence(line: string) {
    Trim(line) == "---"
  }

  /** The first line at index `j` or later that trims to `---`. */
  function FindFence(lines: seq<string>, j: nat): (k: Option<nat>)
    requires j <= |lines|
    ensures k.Some? ==> j <= k.value < |lines| && IsFence(lines[k.value])
    decreases |lines| - j
  {
    if j == |lines| then None
    else if IsFence(lines[j]) then Some(j)
    else FindFence(lines, j + 1)
  }

  /** No line from `j` on trims to `---` ahead of the one found, nor anywhere when none is found. */
  lemma {:induction false} FindFenceSkips(lines: seq<string>, j: nat)
    requires j <= |lines|
    ensures forall i :: j <= i < |lines| && IsFence(lines[i]) ==>
      FindFence(lines, j).Some? && FindFence(lines, j).value <= i
    decreases |lines| - j
  {
    if j < |lines| && !IsFence(lines[j]) {
      FindFenceSkips(lines, j + 1);
    }
  }

  /** A line that trims to `---` with none before it from `j` on is the one found. */
  lemma {:induction false} FindFenceAt(lines: seq<string>, j: nat, k: nat)
    requires j <= k < |lines| && IsFence(lines[k])
    requires forall i :: j <= i < k ==> !IsFence(lines[i])
    ensures FindFence(lines, j) == Some(k)
    decreases k - j
  {
    if j < k {
      FindFenceAt(lines, j + 1, k);
    }
  }

  /** `split_frontmatter`: a document opening with `---` up to the next line that trims to `---`. */
  function SplitFrontmatter(content: string): Split {
    if !StartsWith(content, "---") then Split(None, content)
    else
      var lines := SplitLines(content);
      match FindFence(lines, 1)
      case None => Split(None, content)
      case Some(k) => Split(Some(JoinLines(lines[1..k])), JoinLines(lines[k + 1..]))
  }

  /** Without an opening `---` the whole document is body. */
  lemma NoOpeningFence(content: string)
    requires !StartsWith(content, "---")
    ensures SplitFrontmatter(content) == Split(None, content)
  {
  }

  /** After an opening `---`, there is frontmatter exactly when a later line trims to `---`;
      without one the whole document is body. */
  lemma NoClosingFence(content: string)
    requires StartsWith(content, "---")
    ensures SplitFrontmatter(content).frontmatter.None?
        <==> forall i :: 1 <= i < |SplitLines(content)| ==> !IsFence(SplitLines(content)[i])
    ensures SplitFrontmatter(content).frontmatter.None? ==> SplitFrontmatter(content).body == content
  {
    var lines := SplitLines(content);
    FindFenceNone(lines);
    if FindFence(lines, 1).None? {
      SplitWithoutClosing(content);
    } else {
      FrontmatterAt(content, lines, FindFence(lines, 1).value);
    }
  }

  lemma SplitWithoutClosing(content: string)
    requires StartsWith(content, "---") && FindFence(SplitLines(content), 1).None?
    ensures SplitFrontmatter(content) == Split(None, content)
  {
  }

  lemma FindFenceNone(lines: seq<string>)
    requires |lines| >= 1
    ensures FindFence(lines, 1).None? <==> forall i :: 1 <= i < |lines| ==> !IsFence(lines[i])
  {
    FindFenceSkips(lines, 1);
  }

  /** If line `k` is the first line after the opening `---` that trims to `---`, the frontmatter is
      the lines between the two, the body the lines after `k`, and the document is the opening line,
      the frontmatter, the closing line and the body joined by line feeds. */
  lemma FrontmatterReassembles(content: string, lines: seq<string>, k: nat)
    requires StartsWith(content, "---") && lines == SplitLines(content)
    requires 1 <= k < |lines| && IsFence(lines[k])
    requires forall i :: 1 <= i < k ==> !IsFence(lines[i])
    ensures SplitFrontmatter(content) == Split(Some(JoinLines(lines[1..k])), JoinLines(lines[k + 1..]))
    ensures var f, body := JoinLines(lines[1..k]), JoinLines(lines[k + 1..]);
      var rest := if k + 1 == |lines| then "" else "\n" + body;
      content == lines[0] + "\n" + (if k == 1 then lines[k] + rest else f + "\n" + (lines[k] + rest))
  {
    FindFenceAt(lines, 1, k);
    FrontmatterAt(content, lines, k);
    JoinSplit(content);
    JoinAround(lines, k);
  }

  lemma FrontmatterAt(content: string, lines: seq<string>, k: nat)
    requires StartsWith(content, "---") && lines == SplitLines(content) && FindFence(lines, 1) == Some(k)
    ensures SplitFrontmatter(content) == Split(Some(JoinLines(lines[1..k])), JoinLines(lines[k + 1..]))
  {
  }

  /** Writing a frontmatter between two `---` lines ahead of a body and splitting the document
      gives both back, as long as no frontmatter line trims to `---`. */
  lemma FrontmatterRoundTrip(frontmatter: string, body: string)
    requires forall i :: 0 <= i < |SplitLines(frontmatter)| ==> !IsFence(SplitLines(frontmatter)[i])
    ensures SplitFrontmatter(JoinLines(["---", frontmatter, "---", body])) == Split(Some(frontmatter), body)
  {
    DocumentLines(frontmatter, body);
    SplitDocument(JoinLines(["---", frontmatter, "---", body]), SplitLines(frontmatter), SplitLines(body));
    JoinSplit(frontmatter);
    JoinSplit(body);
  }

  lemma SplitDocument(content: string, fl: seq<string>, bl: seq<string>)
    requires forall i :: 0 <= i < |fl| ==> !IsFence(fl[i])
    requires StartsWith(content, "---") && SplitLines(content) == ["---"] + (fl + (["---"] + bl))
    ensures SplitFrontmatter(content) == Split(Some(JoinLines(fl)), JoinLines(bl))
  {
    var lines := ["---"] + (fl + (["---"] + bl));
    ClosingFenceAfter(lines, fl, bl);
    LinesAround(lines, "---", fl, "---", bl);
    FrontmatterFromFence(content, lines, |fl| + 1, JoinLines(fl), JoinLines(bl));
  }

  lemma ClosingFenceAfter(lines: seq<string>, fl: seq<string>, bl: seq<string>)
    requires forall i :: 0 <= i < |fl| ==> !IsFence(fl[i])
    requires lines == ["---"] + (fl + (["---"] + bl))
    ensures FindFence(lines, 1) == Some(|fl| + 1)
  {
    LinesAround(lines, "---", fl, "---", bl);
    DashesTrimmed();
    FindFenceAt(lines, 1, |fl| + 1);
  }

  lemma FrontmatterFromFence(content: string, lines: seq<string>, k: nat, frontmatter: string, body: string)
    requires StartsWith(content, "---") && lines == SplitLines(content) && FindFence(lines, 1) == Some(k)
    requires JoinLines(lines[1..k]) == frontmatter && JoinLines(lines[k + 1..]) == body
    ensures SplitFrontmatter(content) == Split(Some(frontmatter), body)
  {
    FrontmatterAt(content, lines, k);
  }

  lemma DocumentLines(frontmatter: string, body: string)
    ensures var content := JoinLines(["---", frontmatter, "---", body]);
      StartsWith(content, "---")
      && SplitLines(content) == ["---"] + (SplitLines(frontmatter) + (["---"] + SplitLines(body)))
  {
    var lines := ["---", frontmatter, "---", body];
    JoinCons(lines);
    JoinCons(lines[1..]);
    JoinCons(lines[2..]);
    assert lines[1..][1..] == lines[2..] && lines[2..][1..] == lines[3..];
    var x := frontmatter + "\n" + ("---" + "\n" + body);
    assert JoinLines(lines) == "---" + "\n" + x;
    StartsWithConcat("---", "\n", x);
    SplitLinesConcat("---", x);
    SplitLinesConcat(frontmatter, "---" + "\n" + body);
    SplitLinesConcat("---", body);
    SplitLinesSingle("---");
  }

  lemma DashesTrimmed()
    ensures IsFence("---")
  {
    assert !IsSpace('-');
  }

  lemma LinesAround(lines: seq<string>, first: string, middle: seq<string>, closing: string, rest: seq<string>)
    requires lines == [first] + (middle + ([closing] + rest))
    ensures JoinLines(lines[1..|middle| + 1]) == JoinLines(middle)
    ensures lines[|middle| + 1] == closing
    ensures JoinLines(lines[|middle| + 2..]) == JoinLines(rest)
    ensures forall i :: 1 <= i < |middle| + 1 ==> lines[i] == middle[i - 1]
  {
    var m := |middle|;
    var tail := middle + ([closing] + rest);
    DropHead(first, tail);
    MiddleOf(lines, m);
    AppendHalves(middle, [closing] + rest);
    DropHead(closing, rest);
    forall i | 1 <= i < m + 1
      ensures lines[i] == middle[i - 1]
    {
      assert lines[i] == tail[i - 1];
    }
  }

  lemma DropHead(x: string, t: seq<string>)
    ensures ([x] + t)[1..] == t
  {
  }

  lemma AppendHalves(a: seq<string>, b: seq<string>)
    ensures (a + b)[..|a|] == a && (a + b)[|a|..] == b
  {
  }

  lemma MiddleOf(lines: seq<string>, m: nat)
    requires m + 2 <= |lines|
    ensures lines[1..m + 1] == lines[1..][..m]
    ensures lines[m + 2..] == lines[1..][m..][1..]
    ensures lines[m + 1] == lines[1..][m..][0]
  {
  }

  const SectionOpen := "\n      <section class=\"frontmatter\">\n        <div class=\"frontmatter-title\">Frontmatter</div>\n        <pre>---\n"
  const SectionClose := "\n---</pre>\n      </section>\n    "

  /** The frontmatter block placed before the rendered body; empty for absent or empty frontmatter. */
  function FrontmatterSection(frontmatter: Option<string>): string {
    if frontmatter.None? || frontmatter.value == "" then ""
    else SectionOpen + Html.EscapeText(frontmatter.value) + SectionClose
  }

  /** The frontmatter text sits between the fixed markup with no angle bracket, and reads back unchanged. */
  lemma FrontmatterSectionSafe(frontmatter: Option<string>)
    ensures frontmatter.None? || frontmatter.value == "" ==> FrontmatterSection(frontmatter) == ""
    ensures frontmatter.Some? && frontmatter.value != "" ==>
      exists e :: FrontmatterSection(frontmatter) == SectionOpen + e + SectionClose
        && '<' !in e && '>' !in e && Html.Decode(e) == frontmatter.value
  {
    if frontmatter.Some? && frontmatter.value != "" {
      Html.EscapeTextSafe(frontmatter.value);
      var e := Html.EscapeText(frontmatter.value);
      assert FrontmatterSection(frontmatter) == SectionOpen + e + SectionClose;
    }
  }

  // ---------------------------------------------------------------------------
  // Code fences
  // ---------------------------------------------------------------------------

  /** What the fence rule makes of a fenced block: a diagram container, extra classes for the
      highlighter on the default rendering, or the default rendering unchanged. */
  datatype Fence = MermaidBlock(html: string) | Highlighted(classes: seq<string>) | Plain

  /** The first word of the trimmed info string. */
  function FenceLanguage(info: string): string {
    FirstWord(Trim(info))
  }

  /** The fence rule; `escape` is the markdown library's HTML escaping. */
  function RenderFence(info: string, content: string, escape: string -> string): Fence {
    var lang := FenceLanguage(info);
    if lang == "mermaid" then MermaidBlock("<div class=\"mermaid\">" + escape(content) + "</div>")
    else if lang != "" then Highlighted(["language-" + lang, "hljs"])
    else Plain
  }

  lemma TrimEmptyIffBlank(s: string)
    ensures Trim(s) == "" <==> forall i :: 0 <= i < |s| ==> IsSpace(s[i])
  {
    var t := TrimStart(s);
    if t != [] {
      var k := |s| - |t|;
      assert t[0] == s[k];
      assert !IsSpace(t[0]);
      assert |TrimEnd(t)| > 0;
    }
  }

  /** The default rendering is kept exactly when the info string is blank. */
  lemma FencePlainIffBlank(info: string, content: string, escape: string -> string)
    ensures RenderFence(info, content, escape).Plain? <==> forall i :: 0 <= i < |info| ==> IsSpace(info[i])
  {
    TrimEmptyIffBlank(info);
    var t := Trim(info);
    if t != "" {
      assert !IsSpace(t[|t| - 1]);
      assert TrimStart(info) == [] || !IsSpace(TrimStart(info)[0]);
      assert t[0] == TrimStart(info)[0];
      assert FenceLanguage(info) != "";
    }
  }

  /** A diagram container exactly when the trimmed info string is `mermaid` or starts with
      `mermaid` followed by whitespace; any other non-blank info string adds the two classes. */
  lemma FenceMermaidIff(info: string, content: string, escape: string -> string)
    ensures var t := Trim(info);
      (RenderFence(info, content, escape).MermaidBlock? <==> StartsWith(t, "mermaid") && (|t| == 7 || IsSpace(t[7])))
    ensures var r := RenderFence(info, content, escape);
      (r.MermaidBlock? ==> r.html == "<div class=\"mermaid\">" + escape(content) + "</div>")
    ensures var r := RenderFence(info, content, escape);
      (r.Highlighted? ==>
         r.classes == ["language-" + FenceLanguage(info), "hljs"] && FenceLanguage(info) != "mermaid" && FenceLanguage(info) != "")
  {
    FirstWordIsMermaid(Trim(info));
  }

  lemma FirstWordIsMermaid(t: string)
    ensures FirstWord(t) == "mermaid" <==> StartsWith(t, "mermaid") && (|t| == 7 || IsSpace(t[7]))
  {
    var w := FirstWord(t);
    if w == "mermaid" {
      assert t[..7] == w;
    }
    if StartsWith(t, "mermaid") && (|t| == 7 || IsSpace(t[7])) {
      forall i | 0 <= i < 7
        ensures !IsSpace(t[i])
      {
        assert t[i] == t[..7][i];
        MermaidLetters(i);
      }
      FirstWordLength(t, 7);
      assert w == t[..7];
    }
  }

  lemma MermaidLetters(i: nat)
    requires i < 7
    ensures !IsSpace("mermaid"[i])
  {
  }

  lemma {:induction false} FirstWordLength(s: string, n: nat)
    requires n <= |s| && (n == |s| || IsSpace(s[n]))
    requires forall i :: 0 <= i < n ==> !IsSpace(s[i])
    ensures |FirstWord(s)| == n
  {
    if n > 0 {
      FirstWordLength(s[1..], n - 1);
    }
  }

  // ---------------------------------------------------------------------------
  // Input hardening after sanitisation
  // ---------------------------------------------------------------------------

  /** An `<input>` element: its `type` attribute, if any, and whether it has `disabled`. */
  datatype Input = Input(typeAttr: Option<string>, disabled: bool)

  /** `input.type === 'checkbox'`: the attribute matches the keyword ignoring ASCII case. */
  predicate IsCheckbox(x: Input) {
    x.typeAttr.Some? && ToLowerAscii(x.typeAttr.value) == "checkbox"
  }

  predicate Safe(x: Input) {
    IsCheckbox(x) && x.disabled
  }

  /** What the pass leaves in the content, processed front to back. */
  function Hardened(inputs: seq<Input>): seq<Input> {
    if inputs == [] then []
    else
      var x := inputs[|inputs| - 1];
      Hardened(inputs[..|inputs| - 1]) + (if IsCheckbox(x) then [x.(disabled := true)] else [])
  }

  /** The loop over the content's inputs: non-checkboxes are removed, the rest gain `disabled`. */
  method HardenInputs(inputs: seq<Input>) returns (kept: seq<Input>)
    ensures kept == Hardened(inputs)
  {
    kept := [];
    var i := 0;
    while i < |inputs|
      invariant i <= |inputs|
      invariant kept == Hardened(inputs[..i])
    {
      var x := inputs[i];
      if IsCheckbox(x) {
        if !x.disabled {
          x := x.(disabled := true);
        }
        kept := kept + [x];
      }
      assert inputs[..i + 1][..i] == inputs[..i];
      i := i + 1;
    }
    assert inputs[..i] == inputs;
  }

  /** Every input left is a disabled checkbox, and each checkbox of the input is kept. */
  lemma {:induction false} HardenedSafe(inputs: seq<Input>)
    ensures forall y :: y in Hardened(inputs) ==> Safe(y)
    ensures forall i :: 0 <= i < |inputs| && IsCheckbox(inputs[i]) ==> inputs[i].(disabled := true) in Hardened(inputs)
    ensures forall y :: y in Hardened(inputs) ==> exists i :: 0 <= i < |inputs| && y == inputs[i].(disabled := true)
  {
    if inputs != [] {
      var init := inputs[..|inputs| - 1];
      HardenedSafe(init);
      forall i | 0 <= i < |inputs| - 1 && IsCheckbox(inputs[i])
        ensures inputs[i].(disabled := true) in Hardened(inputs)
      {
        assert inputs[i] == init[i];
      }
      forall y | y in Hardened(init)
        ensures exists i :: 0 <= i < |inputs| && y == inputs[i].(disabled := true)
      {
        var i :| 0 <= i < |init| && y == init[i].(disabled := true);
        assert init[i] == inputs[i];
      }
    }
  }

  /** Hardening an already hardened list changes nothing. */
  lemma {:induction false} HardenedFixpoint(inputs: seq<Input>)
    requires forall i :: 0 <= i < |inputs| ==> Safe(inputs[i])
    ensures Hardened(inputs) == inputs
  {
    if inputs != [] {
      HardenedFixpoint(inputs[..|inputs| - 1]);
      assert inputs == inputs[..|inputs| - 1] + [inputs[|inputs| - 1]];
    }
  }

  lemma HardenedIdempotent(inputs: seq<Input>)
    ensures Hardened(Hardened(inputs)) == Hardened(inputs)
  {
    HardenedSafe(inputs);
    var h := Hardened(inputs);
    assert forall i :: 0 <= i < |h| ==> h[i] in h;
    HardenedFixpoint(h);
  }

  /** An input counts as a checkbox exactly when its type attribute spells `checkbox` in any case. */
  lemma CheckboxAnyCase(x: Input)
    ensures IsCheckbox(x) <==> x.typeAttr.Some? && SpelledAnyCase(x.typeAttr.value, "checkbox")
  {
    if x.typeAttr.Some? {
      LowerEqualsIffSpelledAnyCase(x.typeAttr.value, "checkbox");
    }
  }
}
