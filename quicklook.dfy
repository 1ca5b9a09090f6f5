/**
 * The Quick Look preview extension's page builder. The page either renders
 * the markdown with the bundled scripts, or, when any bundled resource could
 * not be loaded, shows the markdown escaped inside `<pre>` with no scripts.
 * Escaping is `Html.EscapeText`, the same `&`, `<`, `>` chain as the viewer's.
 * The page's fence rule recognises a diagram by its whole info string in any
 * case, unlike the viewer's rule, which looks at the first word as written.
 */
module QuickLook {
  import opened Wrappers
  import opened Text
  import Html
  import Renderer

  /** A bundled resource's text: empty when it is missing, unreadable or not UTF-8 (`None`). */
  function LoadResource(content: Option<string>): (r: string)
    ensures content.None? ==> r == ""
    ensures content.Some? ==> r == content.value
  {
    content.GetOr("")
  }

  /** The four bundled resources the scripted page inlines. */
  datatype Resources = Resources(css: string, markdownIt: string, domPurify: string, mermaid: string)

  predicate Complete(r: Resources) {
    r.css != "" && r.markdownIt != "" && r.domPurify != "" && r.mermaid != ""
  }

  /** The page `makeHTML` builds: the fallback keeps only the stylesheet and the escaped markdown;
      the scripted page carries the scripts and the markdown as a JSON string literal. */
  datatype Page =
    | Fallback(css: string, escaped: string)
    | Scripted(resources: Resources, markdownJson: string)

  /** `makeHTML`, with `jsonString(markdown)` as `markdownJson`. */
  function MakeHtml(markdown: string, resources: Resources, markdownJson: string): (p: Page)
    ensures p.Fallback? <==> !Complete(resources)
    ensures p.Fallback? ==> p.css == resources.css && Html.Decode(p.escaped) == markdown
    ensures p.Scripted? ==> p.resources == resources
  {
    Html.EscapeTextSafe(markdown);
    if !Complete(resources) then Fallback(resources.css, Html.EscapeText(markdown))
    else Scripted(resources, markdownJson)
  }

  const FallbackHead := "<!doctype html>\n<html>\n<head>\n    <meta charset=\"utf-8\">\n    <meta name=\"viewport\" content=\"width=device-width, initial-scale=1\">\n    <style>"
  const FallbackBody := "</style>\n</head>\n<body>\n    <pre>"
  const FallbackTail := "</pre>\n</body>\n</html>"

  /** The fallback page's text. */
  function FallbackText(css: string, escaped: string): string {
    FallbackHead + (css + (FallbackBody + (escaped + FallbackTail)))
  }

  /** In the fallback page the markdown contributes no markup: the text between `<pre>` and
      `</pre>` holds no `<` or `>`, and decodes back to the markdown. */
  lemma FallbackIsInert(markdown: string, resources: Resources, markdownJson: string)
    requires !Complete(resources)
    ensures var p := MakeHtml(markdown, resources, markdownJson);
      p.Fallback? && '<' !in p.escaped && '>' !in p.escaped && Html.Decode(p.escaped) == markdown
      && FallbackText(p.css, p.escaped)
         == FallbackHead + (resources.css + (FallbackBody + (Html.EscapeText(markdown) + FallbackTail)))
  {
    Html.EscapeTextSafe(markdown);
  }

  /** Quotes and every other character but `&`, `<`, `>` pass through the escaping unchanged. */
  lemma EscapeKeepsPlainText(s: string)
    requires '&' !in s && '<' !in s && '>' !in s
    ensures Html.EscapeText(s) == s
  {
  }

  // ---------------------------------------------------------------------------
  // Fence rule of the scripted page
  // ---------------------------------------------------------------------------

  /** The page's fence test: the trimmed, lower-cased info string is exactly `mermaid`. */
  predicate IsMermaidInfo(info: string) {
    ToLowerAscii(Trim(info)) == "mermaid"
  }

  /** A fence becomes a diagram container holding its content as written, or `None` for the
      default rendering. */
  function QuickLookFence(info: string, content: string): (r: Option<string>)
    ensures r.Some? <==> SpelledAnyCase(Trim(info), "mermaid")
    ensures r.Some? ==> r.value == "<div class=\"mermaid\">" + content + "</div>"
  {
    LowerEqualsIffSpelledAnyCase(Trim(info), "mermaid");
    if IsMermaidInfo(info) then Some("<div class=\"mermaid\">" + content + "</div>") else None
  }

  /** The two fence rules part ways on case: `Mermaid` is a diagram only in Quick Look. */
  lemma FenceRulesDifferOnCase(content: string, escape: string -> string)
    ensures QuickLookFence("Mermaid", content).Some?
    ensures !Renderer.RenderFence("Mermaid", content, escape).MermaidBlock?
  {
    Renderer.FenceMermaidIff("Mermaid", content, escape);
    CapitalisedTrims();
    CapitalisedSpelling();
  }

  /** The two fence rules part ways on extra words: `mermaid x` is a diagram only in the viewer. */
  lemma FenceRulesDifferOnWords(content: string, escape: string -> string)
    ensures QuickLookFence("mermaid x", content).None?
    ensures Renderer.RenderFence("mermaid x", content, escape).MermaidBlock?
  {
    Renderer.FenceMermaidIff("mermaid x", content, escape);
    WithWordTrims();
    WithWordSpelling();
  }

  // Local helpers of the two lemmas above: the character facts about the literals `Mermaid` and
  // `mermaid x`, each proved apart so that the lemmas above stay small.

  lemma CapitalisedTrims()
    ensures Trim("Mermaid") == "Mermaid"
  {
    var s := "Mermaid";
    assert !IsSpace(s[0]);
    assert TrimStart(s) == s;
    assert !IsSpace(s[6]);
  }

  lemma CapitalisedSpelling()
    ensures SpelledAnyCase("Mermaid", "mermaid")
    ensures !StartsWith("Mermaid", "mermaid")
  {
    var s, w := "Mermaid", "mermaid";
    assert s[0] != w[0];
    assert forall i :: 1 <= i < 7 ==> s[i] == w[i];
  }

  lemma WithWordTrims()
    ensures Trim("mermaid x") == "mermaid x"
  {
    var s := "mermaid x";
    assert !IsSpace(s[0]);
    assert TrimStart(s) == s;
    assert !IsSpace(s[8]);
  }

  lemma WithWordSpelling()
    ensures !SpelledAnyCase("mermaid x", "mermaid")
    ensures StartsWith("mermaid x", "mermaid") && IsSpace("mermaid x"[7])
  {
    var s, w := "mermaid x", "mermaid";
    assert |s| == 9 && |w| == 7;
    assert s[..7] == w;
  }
}
