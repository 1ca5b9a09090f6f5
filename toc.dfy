/**
 * The table of contents beside the rendered document: heading ids and TOC
 * items, the scroll-spy that marks the heading nearest the top of the view,
 * and keyboard navigation with a roving tabindex. The heading slugger, the
 * sanitiser and the DOM queries are parameters; element offsets are integers.
 */
module Toc {
  import opened Wrappers
  import opened Text
  import opened Html

  /** Heading levels come from the tag names `H1` … `H6`. */
  type Level = l: int | 1 <= l <= 6 witness 1

  /** A heading found in the sanitised document. */
  datatype Heading = Heading(text: string, level: Level)

  /** One entry of the TOC: the id given to the heading, its text and level. */
  datatype TocItem = TocItem(id: string, text: string, level: Level)

  /** A scroll-spy cache entry: the heading's id, its element and its offset from the content top. */
  datatype CachedHeading = CachedHeading(id: string, element: nat, offsetTop: int)

  const IdPrefix := "user-content-"

  /** A heading is "reached" once its offset is at most this far below the scroll position. */
  const ScrollMargin := 100

  /** The name an id is built from: the slug, or `heading-` and a random suffix when the slug is empty. */
  function IdName(slug: string, fallback: string): string {
    if slug != "" then slug else "heading-" + fallback
  }

  function HeadingId(slug: string, fallback: string): string {
    IdPrefix + IdName(slug, fallback)
  }

  /** Every id carries the prefix, and the name it was built from can be read back from it. */
  lemma HeadingIdPrefixed(slug: string, fallback: string)
    ensures StartsWith(HeadingId(slug, fallback), IdPrefix)
    ensures HeadingId(slug, fallback)[|IdPrefix|..] == IdName(slug, fallback)
    ensures slug != "" ==> HeadingId(slug, fallback)[|IdPrefix|..] == slug
  {
    var id := HeadingId(slug, fallback);
    assert id[..|IdPrefix|] == IdPrefix;
  }

  /** The TOC items, one per heading, in document order. */
  function TocItems(headings: seq<Heading>, slugs: seq<string>, fallbacks: seq<string>): (items: seq<TocItem>)
    requires |slugs| == |headings| == |fallbacks|
    ensures |items| == |headings|
  {
    seq(|headings|, i requires 0 <= i < |headings| =>
      TocItem(HeadingId(slugs[i], fallbacks[i]), headings[i].text, headings[i].level))
  }

  function Ids(items: seq<TocItem>): (ids: seq<string>)
    ensures |ids| == |items|
  {
    seq(|items|, i requires 0 <= i < |items| => items[i].id)
  }

  /** Two headings get the same id exactly when their names (slug or fallback) are the same. */
  lemma HeadingIdInjective(s1: string, f1: string, s2: string, f2: string)
    ensures HeadingId(s1, f1) == HeadingId(s2, f2) <==> IdName(s1, f1) == IdName(s2, f2)
  {
    HeadingIdPrefixed(s1, f1);
    HeadingIdPrefixed(s2, f2);
  }

  /** The ids of the TOC are pairwise distinct exactly when the names they were built from are. */
  lemma TocIdsDistinct(headings: seq<Heading>, slugs: seq<string>, fallbacks: seq<string>)
    requires |slugs| == |headings| == |fallbacks|
    ensures Distinct(Ids(TocItems(headings, slugs, fallbacks)))
        <==> Distinct(seq(|slugs|, i requires 0 <= i < |slugs| => IdName(slugs[i], fallbacks[i])))
  {
    var ids := Ids(TocItems(headings, slugs, fallbacks));
    var names := seq(|slugs|, i requires 0 <= i < |slugs| => IdName(slugs[i], fallbacks[i]));
    forall i, j | 0 <= i < j < |ids| ensures ids[i] == ids[j] <==> names[i] == names[j] {
      HeadingIdInjective(slugs[i], fallbacks[i], slugs[j], fallbacks[j]);
    }
  }

  // ---------------------------------------------------------------------------
  // TOC markup
  // ---------------------------------------------------------------------------

  function LevelText(level: Level): string {
    [('0' as int + level) as char]
  }

  function TabText(tab: int): string {
    if tab == 0 then "0" else "-1"
  }

  /** One `li` of the TOC; the heading text is escaped both in the title attribute and as link text. */
  function TocEntry(item: TocItem, tab: int): string {
    "<li role=\"treeitem\" aria-level=\"" + LevelText(item.level) + "\" tabindex=\"" + TabText(tab) + "\">"
    + "<a href=\"#" + item.id + "\" title=\"" + EscapeHtml(item.text) + "\">" + EscapeHtml(item.text) + "</a></li>"
  }

  function TocEntries(items: seq<TocItem>, tabs: seq<int>): string
    requires |tabs| == |items|
  {
    if items == [] then "" else TocEntry(items[0], tabs[0]) + TocEntries(items[1..], tabs[1..])
  }

  /** The TOC list as built, before the sanitiser sees it: item 0 is the only one in the tab order. */
  function TocMarkup(items: seq<TocItem>): string {
    "<ul role=\"group\">" + TocEntries(items, RovingTabIndex(|items|, 0)) + "</ul>"
  }

  const EmptyTocMarkup := "<div class=\"toc-empty\">No headings found</div>"

  // ---------------------------------------------------------------------------
  // Roving tabindex
  // ---------------------------------------------------------------------------

  /** The tabindex values with item `k` focusable and every other item out of the tab order. */
  function RovingTabIndex(n: nat, k: nat): (r: seq<int>)
    ensures |r| == n
  {
    seq(n, i requires 0 <= i < n => if i == k then 0 else -1)
  }

  /** `s` has item `k`, and only item `k`, in the tab order. */
  predicate RovingAt(s: seq<int>, k: nat) {
    k < |s| && forall i :: 0 <= i < |s| ==> s[i] == (if i == k then 0 else -1)
  }

  lemma RovingTabIndexAt(n: nat, k: nat)
    requires k < n
    ensures RovingAt(RovingTabIndex(n, k), k)
    ensures forall m :: RovingAt(RovingTabIndex(n, k), m) ==> m == k
  {
    forall m | RovingAt(RovingTabIndex(n, k), m) ensures m == k {
      RovingUnique(RovingTabIndex(n, k), k, m);
    }
  }

  /** At most one item is ever in the tab order. */
  lemma RovingUnique(s: seq<int>, k: nat, m: nat)
    requires RovingAt(s, k) && RovingAt(s, m)
    ensures k == m
  {
    assert s[k] == 0;
  }

  /** What a key press does in the TOC. */
  datatype KeyEffect =
    | Ignored            // no TOC item holds the focus, or the key is not handled
    | Activated(at: nat) // Enter or Space: the item's link is clicked
    | Moved(to: nat)     // an arrow, Home or End: focus and tab order move to item `to`

  /** The item a navigation key moves to from item `cur` of `n`, or `None` for other keys. */
  function NextIndex(key: string, cur: nat, n: nat): (next: Option<nat>)
    requires cur < n
    ensures next.Some? ==> next.value < n
    ensures next.Some? <==> key in {"ArrowDown", "ArrowUp", "Home", "End"}
    ensures key == "Home" ==> next == Some(0)
    ensures key == "End" ==> next == Some(n - 1)
  {
    if key == "ArrowDown" then Some(if cur + 1 < n - 1 then cur + 1 else n - 1)
    else if key == "ArrowUp" then Some(if cur - 1 > 0 then cur - 1 else 0)
    else if key == "Home" then Some(0)
    else if key == "End" then Some(n - 1)
    else None
  }

  /** Moving down and back up returns to the same item, except from the last one, which down keeps. */
  lemma DownThenUp(cur: nat, n: nat)
    requires cur < n
    ensures var down := NextIndex("ArrowDown", cur, n).value;
      (cur < n - 1 ==> down == cur + 1 && NextIndex("ArrowUp", down, n) == Some(cur))
      && (cur == n - 1 ==> down == cur)
  {
  }

  /** Moving up and back down returns to the same item, except from the first one, which up keeps. */
  lemma UpThenDown(cur: nat, n: nat)
    requires cur < n
    ensures var up := NextIndex("ArrowUp", cur, n).value;
      (cur > 0 ==> up == cur - 1 && NextIndex("ArrowDown", up, n) == Some(cur))
      && (cur == 0 ==> up == 0)
  {
  }

  /** Home and End reach the ends from anywhere, and repeating a key after them changes nothing. */
  lemma HomeEndFixed(cur: nat, n: nat)
    requires cur < n
    ensures NextIndex("ArrowUp", NextIndex("Home", cur, n).value, n) == Some(0)
    ensures NextIndex("ArrowDown", NextIndex("End", cur, n).value, n) == Some(n - 1)
  {
  }

  /** The effect of a key press with focus on item `current` (if any) of `n`. */
  function KeyEffectOf(key: string, current: Option<nat>, n: nat): KeyEffect
    requires current.Some? ==> current.value < n
  {
    match current
    case None => Ignored
    case Some(cur) =>
      if key == "Enter" || key == " " then Activated(cur)
      else match NextIndex(key, cur, n)
        case Some(next) => Moved(next)
        case None => Ignored
  }

  // ---------------------------------------------------------------------------
  // Scroll spy
  // ---------------------------------------------------------------------------

  /** How many cached headings, from the first, lie at or above `limit`. */
  function LeadingRun(hs: seq<CachedHeading>, limit: int): (r: nat)
    ensures r <= |hs|
    ensures forall j :: 0 <= j < r ==> hs[j].offsetTop <= limit
    ensures r == |hs| || hs[r].offsetTop > limit
  {
    if hs == [] || hs[0].offsetTop > limit then 0 else 1 + LeadingRun(hs[1..], limit)
  }

  /** The heading the scroll spy marks: the last of the leading run, or the first when the run is empty. */
  function ActiveIndex(hs: seq<CachedHeading>, limit: int): (a: nat)
    requires hs != []
    ensures a < |hs|
  {
    var r := LeadingRun(hs, limit);
    if r == 0 then 0 else r - 1
  }

  /** The loop of `update_active_heading`: keep the last heading reached, stop at the first one not reached. */
  method ActiveId(hs: seq<CachedHeading>, scrollTop: int) returns (id: string)
    requires hs != []
    ensures id == hs[ActiveIndex(hs, scrollTop + ScrollMargin)].id
  {
    var limit := scrollTop + ScrollMargin;
    id := hs[0].id;
    var i := 0;
    while i < |hs|
      invariant 0 <= i <= |hs|
      invariant forall j :: 0 <= j < i ==> hs[j].offsetTop <= limit
      invariant id == hs[if i == 0 then 0 else i - 1].id
    {
      if hs[i].offsetTop <= limit {
        id := hs[i].id;
      } else {
        break;
      }
      i := i + 1;
    }
    assert i == LeadingRun(hs, limit);
  }

  predicate SortedOffsets(hs: seq<CachedHeading>) {
    forall i, j :: 0 <= i < j < |hs| ==> hs[i].offsetTop <= hs[j].offsetTop
  }

  /** With headings in layout order, the marked one is the last heading at or above the limit,
      or the first heading when none is. */
  lemma ActiveIndexSorted(hs: seq<CachedHeading>, limit: int)
    requires hs != [] && SortedOffsets(hs)
    ensures forall j :: 0 <= j < |hs| && hs[j].offsetTop <= limit ==> j <= ActiveIndex(hs, limit)
    ensures hs[ActiveIndex(hs, limit)].offsetTop <= limit || ActiveIndex(hs, limit) == 0
  {
  }

  lemma {:induction false} LeadingRunMonotone(hs: seq<CachedHeading>, l1: int, l2: int)
    requires l1 <= l2
    ensures LeadingRun(hs, l1) <= LeadingRun(hs, l2)
  {
    if hs != [] && hs[0].offsetTop <= l1 {
      LeadingRunMonotone(hs[1..], l1, l2);
    }
  }

  /** Scrolling further down never marks an earlier heading. */
  lemma ActiveIndexMonotone(hs: seq<CachedHeading>, top1: int, top2: int)
    requires hs != [] && top1 <= top2
    ensures ActiveIndex(hs, top1 + ScrollMargin) <= ActiveIndex(hs, top2 + ScrollMargin)
  {
    LeadingRunMonotone(hs, top1 + ScrollMargin, top2 + ScrollMargin);
  }

  /** The cache built for the TOC items: one entry per item whose element the lookup finds, offsets zero. */
  function CacheFor(items: seq<TocItem>, elementOf: string -> Option<nat>): (c: seq<CachedHeading>)
    ensures |c| <= |items|
    ensures forall h :: h in c ==> h.offsetTop == 0 && elementOf(h.id) == Some(h.element)
    ensures forall h :: h in c ==> exists it :: it in items && it.id == h.id
    ensures forall it :: it in items && elementOf(it.id).Some? ==> CachedHeading(it.id, elementOf(it.id).value, 0) in c
  {
    if items == [] then []
    else
      var rest := CacheFor(items[1..], elementOf);
      assert forall it :: it in items[1..] ==> it in items;
      match elementOf(items[0].id)
      case Some(e) => [CachedHeading(items[0].id, e, 0)] + rest
      case None => rest
  }

  /** The cache is built item by item, so it keeps the items' order with one entry per found
      item: the cache of a concatenation is the concatenation of the caches. */
  lemma {:induction false} CacheForAppend(a: seq<TocItem>, b: seq<TocItem>, elementOf: string -> Option<nat>)
    ensures CacheFor(a + b, elementOf) == CacheFor(a, elementOf) + CacheFor(b, elementOf)
  {
    if a == [] {
      assert a + b == b;
    } else {
      assert (a + b)[0] == a[0] && (a + b)[1..] == a[1..] + b;
      CacheForAppend(a[1..], b, elementOf);
    }
  }

  /** A single item is cached exactly when its heading element is found. */
  lemma CacheForOne(it: TocItem, elementOf: string -> Option<nat>)
    ensures CacheFor([it], elementOf)
        == if elementOf(it.id).Some? then [CachedHeading(it.id, elementOf(it.id).value, 0)] else []
  {
  }

  /** The first index holding `x`. */
  function FirstIndexOf(xs: seq<string>, x: string): (r: Option<nat>)
    ensures r.Some? ==> r.value < |xs| && xs[r.value] == x && forall j :: 0 <= j < r.value ==> xs[j] != x
    ensures r.None? ==> x !in xs
  {
    if xs == [] then None
    else if xs[0] == x then Some(0)
    else match FirstIndexOf(xs[1..], x)
      case Some(i) => Some(i + 1)
      case None => None
  }

  /**
   * The renderer's TOC state: the ids behind the TOC links, the markup of the
   * TOC container, each item's tabindex and `active` class, the item marked
   * active, the scroll-spy cache and the pending-animation-frame flag.
   */
  class Viewer {
    var tocIds: seq<string>
    var tocMarkup: string
    var tabIndex: array<int>
    var active: array<bool>
    var activeLi: Option<nat>
    var cachedHeadings: seq<CachedHeading>
    var rafPending: bool

    /** One tabindex and one class flag per TOC item; exactly one item in the tab order when there are
        items; exactly the item recorded as active carries the class. */
    predicate Valid()
      reads this, tabIndex, active
    {
      tabIndex.Length == |tocIds| && active.Length == |tocIds|
      && (|tocIds| > 0 ==> exists k | 0 <= k < |tocIds| :: RovingAt(tabIndex[..], k))
      && (activeLi.Some? ==> activeLi.value < |tocIds|)
      && forall i :: 0 <= i < active.Length ==> (active[i] <==> activeLi == Some(i))
    }

    /** The page as loaded: no TOC, an empty cache, no active item, no frame pending. */
    constructor ()
      ensures Valid()
      ensures tocIds == [] && cachedHeadings == [] && activeLi == None && !rafPending
    {
      tocIds := [];
      tocMarkup := "";
      tabIndex := new int[0];
      active := new bool[0];
      activeLi := None;
      cachedHeadings := [];
      rafPending := false;
    }

    /**
     * `extract_and_render_toc`: returns the id written onto each heading. With no headings the TOC
     * shows the empty notice and the scroll-spy cache is left as it was.
     */
    method ExtractAndRenderToc(headings: seq<Heading>, slugs: seq<string>, fallbacks: seq<string>,
                               sanitize: string -> string, elementOf: string -> Option<nat>)
      returns (ids: seq<string>)
      requires |slugs| == |headings| == |fallbacks|
      modifies this
      ensures Valid() && fresh(tabIndex) && fresh(active)
      ensures activeLi == None && rafPending == old(rafPending)
      ensures ids == Ids(TocItems(headings, slugs, fallbacks)) && tocIds == ids
      ensures headings == [] ==> tocMarkup == EmptyTocMarkup && cachedHeadings == old(cachedHeadings)
      ensures headings != [] ==>
        tocMarkup == sanitize(TocMarkup(TocItems(headings, slugs, fallbacks)))
        && cachedHeadings == CacheFor(TocItems(headings, slugs, fallbacks), elementOf)
        && RovingAt(tabIndex[..], 0)
    {
      activeLi := None;
      if |headings| == 0 {
        tocMarkup := EmptyTocMarkup;
        tocIds := [];
        ids := [];
        tabIndex := new int[0];
        active := new bool[0];
        return;
      }
      var items := TocItems(headings, slugs, fallbacks);
      ids := Ids(items);
      tocMarkup := sanitize(TocMarkup(items));
      tocIds := ids;
      cachedHeadings := CacheFor(items, elementOf);
      var n := |items|;
      var order := new int[n](i => if i == 0 then 0 else -1);
      assert RovingAt(order[..], 0);
      var marked := new bool[n](i => false);
      assert forall i :: 0 <= i < n ==> !marked[i];
      tabIndex, active := order, marked;
      assert RovingAt(tabIndex[..], 0);
    }

    /** `invalidate_heading_cache`: every cached offset re-read from the layout, relative to the content. */
    method InvalidateHeadingCache(offsetOf: nat -> int, containerOffset: int)
      modifies this
      ensures |cachedHeadings| == |old(cachedHeadings)|
      ensures forall i :: 0 <= i < |cachedHeadings| ==>
        cachedHeadings[i] == old(cachedHeadings[i]).(offsetTop := offsetOf(old(cachedHeadings[i]).element) - containerOffset)
      ensures tocIds == old(tocIds) && tocMarkup == old(tocMarkup) && tabIndex == old(tabIndex)
      ensures active == old(active) && activeLi == old(activeLi) && rafPending == old(rafPending)
    {
      var i := 0;
      while i < |cachedHeadings|
        invariant 0 <= i <= |cachedHeadings| == |old(cachedHeadings)|
        invariant forall j :: 0 <= j < i ==>
          cachedHeadings[j] == old(cachedHeadings[j]).(offsetTop := offsetOf(old(cachedHeadings[j]).element) - containerOffset)
        invariant forall j :: i <= j < |cachedHeadings| ==> cachedHeadings[j] == old(cachedHeadings[j])
        invariant tocIds == old(tocIds) && tocMarkup == old(tocMarkup) && tabIndex == old(tabIndex)
        invariant active == old(active) && activeLi == old(activeLi) && rafPending == old(rafPending)
      {
        var entry := cachedHeadings[i];
        cachedHeadings := cachedHeadings[i := entry.(offsetTop := offsetOf(entry.element) - containerOffset)];
        i := i + 1;
      }
    }

    /** The scroll listener: asks for an animation frame only when none is pending. */
    method OnScroll() returns (requestFrame: bool)
      modifies this
      ensures requestFrame == !old(rafPending) && rafPending
      ensures tocIds == old(tocIds) && cachedHeadings == old(cachedHeadings) && activeLi == old(activeLi)
      ensures tabIndex == old(tabIndex) && active == old(active) && tocMarkup == old(tocMarkup)
    {
      requestFrame := !rafPending;
      if !rafPending {
        rafPending := true;
      }
    }

    /**
     * `update_active_heading`, run on the animation frame: marks the TOC item linking to the
     * heading the scroll spy picks, touching only the previously and newly active items.
     */
    method UpdateActiveHeading(scrollTop: int)
      requires Valid()
      modifies this, active
      ensures Valid() && !rafPending
      ensures tocIds == old(tocIds) && cachedHeadings == old(cachedHeadings) && tocMarkup == old(tocMarkup)
      ensures tabIndex == old(tabIndex) && active == old(active) && unchanged(tabIndex)
      ensures cachedHeadings == [] ==> activeLi == old(activeLi)
      ensures cachedHeadings != [] ==>
        var li := FirstIndexOf(tocIds, cachedHeadings[ActiveIndex(cachedHeadings, scrollTop + ScrollMargin)].id);
        activeLi == (if li.Some? then li else old(activeLi))
      ensures forall i :: 0 <= i < active.Length && Some(i) != old(activeLi) && Some(i) != activeLi ==>
        active[i] == old(active[i])
    {
      rafPending := false;
      assert tabIndex[..] == old(tabIndex[..]);
      if |cachedHeadings| == 0 {
        return;
      }
      var activeId := ActiveId(cachedHeadings, scrollTop);
      var link := FirstIndexOf(tocIds, activeId);
      if link.Some? {
        var li := link.value;
        if Some(li) != activeLi {
          if activeLi.Some? {
            active[activeLi.value] := false;
          }
          active[li] := true;
          activeLi := Some(li);
        }
      }
      assert tabIndex[..] == old(tabIndex[..]);
    }

    /** The TOC's keydown handler, with focus on item `current` if the focused element lies in one. */
    method KeyDown(key: string, current: Option<nat>) returns (effect: KeyEffect)
      requires Valid()
      requires current.Some? ==> current.value < |tocIds|
      modifies tabIndex
      ensures Valid()
      ensures effect == KeyEffectOf(key, current, |tocIds|)
      ensures effect.Moved? ==> RovingAt(tabIndex[..], effect.to)
      ensures !effect.Moved? ==> unchanged(tabIndex)
    {
      effect := KeyEffectOf(key, current, |tocIds|);
      if !effect.Moved? {
        return;
      }
      var next := effect.to;
      var i := 0;
      while i < tabIndex.Length
        invariant 0 <= i <= tabIndex.Length
        invariant forall j :: 0 <= j < i ==> tabIndex[j] == (if j == next then 0 else -1)
      {
        tabIndex[i] := if i == next then 0 else -1;
        i := i + 1;
      }
      assert RovingAt(tabIndex[..], next);
    }
  }
}
