# markpane core, modelled in Dafny

markpane is a desktop markdown previewer built on Electron, with a macOS Quick
Look extension. This project models the parts of it that make decisions and
proves what those decisions guarantee. It covers five areas:

- **The viewer's renderer** (`Renderer`, `MermaidLabels`, `Toc`, `Html`).
  - It splits a YAML frontmatter block off the document and escapes it into its
    own section.
  - Its code-fence rule sends `mermaid` blocks to a diagram container and tags
    other languages for the highlighter.
  - Before diagrams render, it rewrites `<br>` tags inside bracketed mermaid
    node labels into markdown strings.
  - After sanitising, it keeps only disabled checkboxes among the page's
    `<input>` elements.
  - It builds the table of contents (heading ids, the list markup, the
    scroll-spy cache). It marks the heading nearest the top of the view, and
    lets the keyboard move through the TOC with a roving tabindex.
- **The per-file TOC state store** (`StateManagement`). It is capped at 1000
  entries with first-in-first-out eviction, and its cleanup drops entries whose
  file is gone or that are more than 30 days old.
- **The main process's decisions** (`MainProcess`):
  - the command-line scan;
  - the Quick Look debug switch and the Applications folder the app is
    installed in;
  - the Quick Look telemetry log, capped at 50 entries;
  - migration of the settings and recent-files files, and the recent-files list
    (most recent first, no duplicates, at most 10);
  - whether the Quick Look helper must be registered again;
  - the allowlist of find-bar stop actions.
- **The preload bridge** (`Preload`):
  - the guards on what the page may send (`findText`, `saveSettings`,
    `openFile`);
  - the `on*` subscriptions, each of which hands back a function that removes
    its handler again.
- **The Quick Look page builder** (`QuickLook`). It builds a scripted page, or
  an inert fallback page that shows the markdown escaped inside `<pre>` when a
  bundled resource is missing. It also has its own, case-insensitive mermaid
  fence test.

Stateful parts are classes whose methods update fields in place:

- `Toc.Viewer` holds the module-level state of the renderer and the TOC items'
  `tabindex` and `active` flags, as arrays.
- `StateManagement.StateManager` holds the store's `Map`.
- `Preload.ListenerRegistry` holds the IPC listener list.

Loops in the source are loops here, each proved against a specification
function. Examples are `HardenInputs`, `ActiveId`, `SweepEntries`, `ParseArgs`,
`SaveSettings` and `KeyDown`. Pure code is functions and lemmas. JavaScript
semantics are modelled explicitly where the code depends on them:

- truthiness;
- property reads on non-objects;
- `trim` and `\s` over the ECMAScript whitespace set;
- `split('\n')`;
- `length` in UTF-16 code units;
- a `Map` keeping insertion order when an existing key is updated.

`toLowerCase` is modelled on ASCII letters only. The code compares its result
with two words, `true` (src/main.js:107) and `mermaid` (the Quick Look fence
test). Unicode lower-cases only two characters outside ASCII to ASCII letters:
U+212A KELVIN SIGN becomes `k`, and U+0130 becomes `i` followed by a combining
dot, one character longer. Neither can make a string lower-case to `true` or
`mermaid`, so the model is exact for these comparisons.

The checkbox test calls no `toLowerCase`. It reads `input.type`
(src/renderer.js:405), which HTML matches against the `checkbox` keyword
ignoring ASCII case only, so a KELVIN SIGN does not match.
`Renderer.IsCheckbox` models that attribute rule.

The TOC keydown handler returns on every key other than the arrows, Home, End,
Enter and Space (src/renderer.js:351-352), so `Toc.KeyEffectOf` ignores such
keys.

## Model

| member | source | states |
|---|---|---|
| Html.EscapeTextIsEscapeEach | src/renderer.js:375-378 | on `Html.EscapeText`: the `&`, `<`, `>` replacement chain equals escaping each character once by its entity, so no entity is escaped twice |
| Html.EscapeHtmlIsEscapeEach | src/renderer.js:158-161 | on `Html.EscapeHtml`: the five-step replacement chain of `escape_html` equals one-pass escaping of `&`, `<`, `>`, `"` and `'` |
| Html.EscapeHtmlSafe | src/renderer.js:158-161 | on `Html.EscapeHtml`: no `<`, `>`, `"` or `'` survives `escape_html`, and decoding the entities gives the input back |
| Html.EscapeTextSafe | macos/PeekdownQLExt/PreviewViewController.swift:148-153 | on `Html.EscapeText`: no `<` or `>` survives `escapeHTML`, and decoding gives the markdown back |
| Html.EscapeTextKeepsOthers | macos/PeekdownQLExt/PreviewViewController.swift:148-153 | on `Html.EscapeText`: every character other than `&`, `<`, `>`, quotes included, stays unchanged in place |
| Html.EscapeTextAppend | src/renderer.js:375-378 | on `Html.EscapeText`: escaping a concatenation escapes each part separately |
| Html.DecodeEscapeEach | src/renderer.js:158-161 | on `Html.Decode`: decoding undoes one-pass escaping, with or without quotes |
| Text.TrimStart | src/renderer.js:33 | the result is a suffix of the input, everything cut is whitespace, and it does not start with whitespace |
| Text.TrimEnd | src/renderer.js:33 | the result is a prefix of the input, everything cut is whitespace, and it does not end with whitespace |
| Text.FirstWord | src/renderer.js:34 | `split(/\s+/)[0]` of a trimmed string is its longest prefix without whitespace |
| Text.SplitLines | src/renderer.js:137 | `split('\n')` gives at least one line, and no line holds a line feed |
| Text.JoinSplit | src/renderer.js:137-145 | on `Text.SplitLines`: joining the split lines with line feeds gives the text back |
| Text.SplitJoin | src/renderer.js:144-145 | on `Text.SplitLines`: splitting lines without line feeds after joining them gives the lines back |
| Text.Utf16Length | src/preload.js:31 | a string's JavaScript `length` lies between its number of characters and twice that |
| Text.LowerEqualsIffSpelledAnyCase | src/main.js:107 | lower-casing equals a lower-case word exactly when the string spells that word in any case |
| Renderer.FindFence | src/renderer.js:138 | the line found is at or after the start and trims to `---` |
| Renderer.FindFenceSkips | src/renderer.js:138 | on `Renderer.FindFence`: every line that trims to `---` lies at or after the one found, so the first is found |
| Renderer.FindFenceAt | src/renderer.js:138 | on `Renderer.FindFence`: a `---` line with none before it is the one found |
| Renderer.NoOpeningFence | src/renderer.js:133-135 | on `Renderer.SplitFrontmatter`: a document not starting with `---` is all body, with no frontmatter |
| Renderer.NoClosingFence | src/renderer.js:137-142 | on `Renderer.SplitFrontmatter`: after an opening `---` there is frontmatter exactly when a later line trims to `---`; otherwise the whole document is body |
| Renderer.FrontmatterReassembles | src/renderer.js:137-147 | on `Renderer.SplitFrontmatter`: with closing line `k`, the frontmatter is the lines between the fences and the body the lines after `k`, and together with the two fence lines they rebuild the document |
| Renderer.FrontmatterRoundTrip | src/renderer.js:132-148 | on `Renderer.SplitFrontmatter`: `---`, frontmatter, `---` and body joined by line feeds split back into that frontmatter and body, when no frontmatter line trims to `---` |
| Renderer.FrontmatterSectionSafe | src/renderer.js:373-387 | on `Renderer.FrontmatterSection`: absent or empty frontmatter gives no section; otherwise the frontmatter sits escaped between the fixed markup, with no angle bracket, and decodes back |
| Renderer.FencePlainIffBlank | src/renderer.js:31-48 | on `Renderer.RenderFence`: the default fence rendering is kept unchanged exactly when the info string is blank |
| Renderer.FenceMermaidIff | src/renderer.js:31-48 | on `Renderer.RenderFence`: a diagram container, holding the escaped content, exactly when the trimmed info string's first word is `mermaid`; any other non-blank info adds `language-<lang>` and `hljs` |
| Renderer.HardenInputs | src/renderer.js:402-407 | on `Renderer.Hardened`: the loop over the inputs yields the hardened list |
| Renderer.HardenedSafe | src/renderer.js:403-407 | on `Renderer.Hardened`: every remaining input is a disabled checkbox, every checkbox of the page remains, and nothing else appears |
| Renderer.HardenedIdempotent | src/renderer.js:403-407 | on `Renderer.Hardened`: hardening a hardened page changes nothing |
| Renderer.CheckboxAnyCase | src/renderer.js:405 | on `Renderer.IsCheckbox`: an input counts as a checkbox exactly when its type attribute spells `checkbox` in any case |
| MermaidLabels.BreakAt | src/renderer.js:90 | a `<br\s*\/?>` tag found at the head spans from `<` to `>`, with no `<` or `]` inside |
| MermaidLabels.CloseFrom | src/renderer.js:88 | the `]` found is the first at or after the start |
| MermaidLabels.LabelEnd | src/renderer.js:88 | a label match starts at `[` and ends at a `]` |
| MermaidLabels.ReplaceBreaksIdentity | src/renderer.js:90 | on `MermaidLabels.ReplaceBreaks`: a label without tags is unchanged by the tag replacement |
| MermaidLabels.ReplaceBreaksAt | src/renderer.js:90 | on `MermaidLabels.ReplaceBreaks`: the leftmost tag becomes a line feed, and the replacement resumes after it |
| MermaidLabels.ConvertBreaksIdentity | src/renderer.js:84-94 | on `MermaidLabels.ConvertBreaks`: diagram source without any tag is unchanged |
| MermaidLabels.ConvertWithoutAngle | src/renderer.js:84-94 | on `MermaidLabels.ConvertBreaks`: diagram source without `<` is unchanged |
| MermaidLabels.LabelMatches | src/renderer.js:88 | on `MermaidLabels.LabelEnd`: a bracketed label holding a tag, with no line terminator after the tag, matches up to its `]` |
| MermaidLabels.ConvertLabel | src/renderer.js:84-94 | on `MermaidLabels.ConvertBreaks`: such a label becomes ``["`…`"]`` with its tags turned into line feeds, and the text before it is unchanged |
| MermaidLabels.ConvertPrefix | src/renderer.js:87-93 | on `MermaidLabels.ConvertBreaks`: text without `[` in front of the rest passes through unchanged |
| Toc.HeadingIdPrefixed | src/renderer.js:186-189 | on `Toc.HeadingId`: every heading id starts with `user-content-`, followed by the slug, or by the fallback name when the slug is empty |
| Toc.HeadingIdInjective | src/renderer.js:188-189 | on `Toc.HeadingId`: two ids are equal exactly when the names they are built from are equal |
| Toc.TocIdsDistinct | src/renderer.js:183-197 | on `Toc.TocItems`: the TOC ids are pairwise distinct exactly when the slug or fallback names are |
| Toc.RovingTabIndexAt | src/renderer.js:356-358 | on `Toc.RovingTabIndex`: the tabindex assignment puts exactly the chosen item in the tab order |
| Toc.RovingUnique | src/renderer.js:356-358 | on `Toc.RovingTabIndex`: at most one item is ever in the tab order |
| Toc.NextIndex | src/renderer.js:323-342 | the arrows, Home and End move to an item within the list, Home to the first and End to the last; other keys move nowhere |
| Toc.DownThenUp | src/renderer.js:324-332 | on `Toc.NextIndex`: down then up returns to the same item, except at the last item, where down stays put (no wrap-around) |
| Toc.UpThenDown | src/renderer.js:324-332 | on `Toc.NextIndex`: up then down returns to the same item, except at the first item, where up stays put |
| Toc.HomeEndFixed | src/renderer.js:329-342 | on `Toc.NextIndex`: from anywhere, after Home an up arrow stays on the first item, and after End a down arrow stays on the last |
| Toc.LeadingRun | src/renderer.js:260-266 | the scan stops at the first heading below the limit; every heading before it is at or above the limit |
| Toc.ActiveIndex | src/renderer.js:258-266 | the heading marked is a valid index |
| Toc.ActiveId | src/renderer.js:257-266 | on `Toc.ActiveIndex`: the scroll-spy loop picks the last heading of the leading run at most 100 px below the scroll top, or the first heading |
| Toc.ActiveIndexSorted | src/renderer.js:258-266 | on `Toc.ActiveIndex`: with headings in layout order, the marked heading is the last one reached, or the first when none is reached |
| Toc.ActiveIndexMonotone | src/renderer.js:258-266 | on `Toc.ActiveIndex`: scrolling further down never marks an earlier heading |
| Toc.CacheFor | src/renderer.js:215-219 | the cache holds, with offset 0, exactly the items whose heading element is found, and only those |
| Toc.CacheForAppend | src/renderer.js:215-219 | on `Toc.CacheFor`: the cache of a concatenation of items is the concatenation of their caches, so the cache keeps the items' order with one entry per found item, as `map` followed by `filter` does |
| Toc.CacheForOne | src/renderer.js:215-219 | on `Toc.CacheFor`: one item gives one entry, with offset 0, when its heading element is found, and none otherwise |
| Toc.FirstIndexOf | src/renderer.js:269 | the link found is the first TOC entry with that id, and none is found when no entry has it |
| Toc.Viewer.constructor | src/renderer.js:22-24 | the page starts with an empty cache, no active item and no frame pending |
| Toc.Viewer.ExtractAndRenderToc | src/renderer.js:164-220 | clears the active item; with no headings, writes the empty-state markup and keeps the cache; otherwise writes the sanitised TOC, caches the found headings and puts only the first item in the tab order |
| Toc.Viewer.InvalidateHeadingCache | src/renderer.js:223-230 | every cached offset is re-read relative to the content container, and nothing else changes |
| Toc.Viewer.OnScroll | src/renderer.js:285-290 | a frame is requested only when none is pending, and a frame is pending afterwards |
| Toc.Viewer.UpdateActiveHeading | src/renderer.js:251-283 | clears the pending flag; marks the TOC item linking to the heading the scroll spy picks; only the previous and the new item change class; the tab order is untouched |
| Toc.Viewer.KeyDown | src/renderer.js:315-362 | on `Toc.KeyEffectOf`: navigation keys put exactly the target item in the tab order; Enter and Space activate the focused item; other keys and focus outside an item change nothing |
| StateManagement.Empty | src/state-manager.js:7 | the new store is well formed and empty |
| StateManagement.Stamp | src/state-manager.js:36-39 | the stored value holds the spread state's properties and `lastModified` set to now |
| StateManagement.LookupMissing | src/state-manager.js:22-25 | on `StateManagement.Lookup`: a key never stored reads back as an empty object |
| StateManagement.PutWellFormed | src/state-manager.js:27-42 | on `StateManagement.Put`: storing keeps each key listed once, with exactly the keys that have entries |
| StateManagement.PutThenLookup | src/state-manager.js:36-39 | on `StateManagement.Put`: after storing, the key reads back as the stamped state |
| StateManagement.PutBounded | src/state-manager.js:30-34 | on `StateManagement.Put`: storing never takes the store above 1000 entries |
| StateManagement.PutEvictsOldest | src/state-manager.js:30-39 | on `StateManagement.Put`: when full and the key is new, exactly the oldest key is dropped, the new key comes last, and every surviving entry keeps its value |
| StateManagement.PutWithoutEviction | src/state-manager.js:30-39 | on `StateManagement.Put`: otherwise no key is dropped and every other entry is kept as it was |
| StateManagement.PutExistingKeepsPosition | src/state-manager.js:36-39 | on `StateManagement.Put`: updating a stored key keeps its place in the order |
| StateManagement.KeptKeysMembers | src/state-manager.js:48-52 | on `StateManagement.KeptKeys`: cleanup keeps exactly the listed keys that pass the existence and age test |
| StateManagement.KeptKeysAppend | src/state-manager.js:48-52 | on `StateManagement.KeptKeys`: cleanup decides each key on its own, so the survivors keep their order |
| StateManagement.CleanedValid | src/state-manager.js:44-53 | on `StateManagement.Cleaned`: cleanup keeps the store well formed and within the cap |
| StateManagement.KeepCoercedStamp | src/state-manager.js:49 | on `StateManagement.Keep`: a `lastModified` of `null`, a boolean, `""` or `[]` is coerced to 0 or 1, so a cleanup more than 30 days later drops the entry |
| StateManagement.KeepUnstamped | src/state-manager.js:49 | on `StateManagement.Keep`: a `lastModified` of `undefined`, an object or a string that is not blank gives `NaN` (numeric strings are not read, see "Left out"), so the entry stays while its file exists, however late the cleanup |
| StateManagement.CleanupExact | src/state-manager.js:44-53 | on `StateManagement.Cleaned`: after cleanup, a key remains exactly when it was stored and passes the test, with its value unchanged |
| StateManagement.CleanupIdempotent | src/state-manager.js:44-53 | on `StateManagement.Cleaned`: a second cleanup at the same moment removes nothing more |
| StateManagement.SweepEntries | src/state-manager.js:48-52 | on `StateManagement.Cleaned`: the loop, deleting failing entries in insertion order, leaves exactly the cleaned store |
| StateManagement.StateManager.constructor | src/state-manager.js:6-8 | a new manager holds an empty store with no save scheduled |
| StateManagement.StateManager.GetTocState | src/state-manager.js:22-25 | on `StateManagement.Lookup`: returns the stored value or an empty object, and the result is never falsy |
| StateManagement.StateManager.SetTocState | src/state-manager.js:27-42 | on `StateManagement.Put`: the store becomes the eviction-and-stamp update of the old store, and a save is scheduled |
| StateManagement.StateManager.Cleanup | src/state-manager.js:44-53 | on `StateManagement.Cleaned`: the store becomes the cleaned old store and stays valid |
| MainProcess.ParseArgs | src/main.js:18-33 | on `MainProcess.Scan`: the argument loop computes the left-to-right scan of the arguments |
| MainProcess.ScanAppend | src/main.js:18-33 | on `MainProcess.Scan`: without `--pdf`, arguments are processed one at a time, so scanning splits over concatenation |
| MainProcess.LastPositionalWins | src/main.js:30-32 | on `MainProcess.Scan`: without `--pdf`, the file path is the last argument not starting with `--` (other than `-v`), and no output path is set |
| MainProcess.StepFilePath | src/main.js:22-32 | on `MainProcess.Step`: one argument sets the file path exactly when it is positional |
| MainProcess.PdfConsumesValue | src/main.js:19-21 | on `MainProcess.Scan`: `--pdf` with a non-empty next argument sets the output path and consumes that argument; a trailing `--pdf` does nothing |
| MainProcess.DebugEnabledIff | src/main.js:99-108 | on `MainProcess.IsQuicklookDebugEnabled`: debugging is on exactly when the flag is set, or the variable is `1` or spells `true` in any case |
| MainProcess.ApplicationsLocationSound | src/main.js:83-97 | on `MainProcess.ApplicationsLocation`: `/Applications` is reported exactly for bundles under `/Applications/`; `~/Applications` for bundles under it and not under `/Applications/`; `null` exactly for a missing bundle path or one under neither; any folder reported is a directory prefix of the bundle |
| MainProcess.AppendTelemetry | src/main.js:160-183 | nothing is written for falsy telemetry or an unparsable log; otherwise the log written holds the newest `min(n+1, 50)` entries and ends with the new one |
| MainProcess.KeepLast | src/main.js:176-178 | the truncation keeps a suffix of at most 50 entries that ends with the newest |
| MainProcess.LoadSettings | src/main.js:248-267 | a missing or unreadable file or `null` gives the defaults; an object is migrated; a primitive is returned as it is, since the properties set on it are lost |
| MainProcess.MigrateSettingsSpec | src/main.js:255-262 | on `MainProcess.MigrateSettings`: `font` moves to `bodyFont` only when `bodyFont` is unset, with `System Default` renamed; both fonts end up set; existing fonts and every other setting are kept |
| MainProcess.MigrateSettingsIdempotent | src/main.js:255-262 | on `MainProcess.MigrateSettings`: migrating migrated settings changes nothing |
| MainProcess.MigrateRecent | src/main.js:379-385 | every entry kept is truthy, and none is added |
| MainProcess.LoadRecentFiles | src/main.js:369-389 | the loaded list holds only truthy entries; a missing, unreadable or non-array file gives none |
| MainProcess.MigrateRecentKeepsPaths | src/main.js:379-385 | on `MainProcess.MigrateRecent`: each non-empty path string, and each old-form entry's path, is kept in place |
| MainProcess.MigrateRecentStrings | src/main.js:379-385 | on `MainProcess.MigrateRecent`: a list of non-empty path strings is read back unchanged |
| MainProcess.Without | src/main.js:406 | the filtered list holds exactly the entries different from the path |
| MainProcess.WithoutSubsequence | src/main.js:406 | on `MainProcess.Without`: filtering keeps the other entries in their order |
| MainProcess.AddRecentFile | src/main.js:401-415 | the path comes first and nowhere else; at most 10 entries; after it come the first nine other entries in their order, so only the oldest are dropped, and only when the list is full |
| MainProcess.RegisteredStateIsStable | src/main.js:711-715 | on `MainProcess.NeedsRegister`: right after registering this app and version, registering again is needed exactly when the installed helper does not match the bundled one |
| MainProcess.ChangeNeedsRegister | src/main.js:711-715 | on `MainProcess.NeedsRegister`: a change of app path, version or bundled helper fingerprint forces registration |
| MainProcess.StopFindAction | src/main.js:1026-1030 | the action is always one of the three allowed; an allowed action passes through; anything else becomes `clearSelection` |
| MainProcess.StopFindIdempotent | src/main.js:1027-1028 | on `MainProcess.StopFindAction`: validating a validated action changes nothing |
| Preload.FindText | src/preload.js:29-33 | a query is sent exactly when it is a string of at most 1000 UTF-16 code units, and it is sent unchanged |
| Preload.FindTextBounds | src/preload.js:31 | on `Preload.FindText`: strings of at most 500 characters are always sent; strings of more than 1000 characters never are |
| Preload.OpenFile | src/preload.js:109-116 | a path is sent exactly when it is a string, unchanged |
| Preload.SaveSettings | src/preload.js:84-107 | on `Preload.SettingsToSend`: the key-copying loop sends the allowlisted settings, or nothing |
| Preload.SaveSettingsSpec | src/preload.js:84-107 | on `Preload.SettingsToSend`: nothing is sent for a non-object; what is sent holds exactly the allowed keys of the input, with their values, and serialises to at most 65536 code units; an object whose allowed settings serialise within that bound is sent |
| Preload.AllowlistedIdempotent | src/preload.js:91-97 | on `Preload.Allowlisted`: allowlisting already validated settings changes nothing |
| Preload.RemoveLast | src/preload.js:9 | removing a listener shortens the list by one exactly when it was registered |
| Preload.RemoveAbsent | src/preload.js:9 | on `Preload.RemoveLast`: removing an unregistered listener changes nothing, so a disposer may run twice |
| Preload.RemoveKeepsOthers | src/preload.js:9 | on `Preload.RemoveLast`: removing a listener keeps every other listener, and no listener is listed twice |
| Preload.ListenerRegistry.On | src/preload.js:8 | the handlers on a channel are exactly the registered ones for that channel |
| Preload.ListenerRegistry.Subscribe | src/preload.js:4-9 | a fresh handler on the channel is appended to the listeners |
| Preload.ListenerRegistry.Dispose | src/preload.js:9 | on `Preload.RemoveLast`: the disposer removes exactly that handler |
| Preload.SubscribeDisposeRoundTrip | src/preload.js:4-9 | on `Preload.RemoveLast`: subscribing and then disposing restores the listeners |
| Preload.SubscribeThenDispose | src/preload.js:4-9 | subscribe, dispose and dispose again leave the registry as it began |
| QuickLook.LoadResource | macos/PeekdownQLExt/PreviewViewController.swift:138-146 | a missing or unreadable resource reads as empty; otherwise as its content |
| QuickLook.MakeHtml | macos/PeekdownQLExt/PreviewViewController.swift:55-77 | the fallback page is built exactly when some resource is empty; it keeps the stylesheet and the escaped markdown, which decodes back |
| QuickLook.FallbackIsInert | macos/PeekdownQLExt/PreviewViewController.swift:62-76 | on `QuickLook.MakeHtml`: in the fallback page, the text inside `<pre>` holds no `<` or `>` and decodes to the markdown |
| QuickLook.EscapeKeepsPlainText | macos/PeekdownQLExt/PreviewViewController.swift:148-153 | on `Html.EscapeText`: markdown without `&`, `<` and `>` is shown as it is |
| QuickLook.QuickLookFence | macos/PeekdownQLExt/PreviewViewController.swift:105-107 | a fence becomes a diagram container, with the content unescaped, exactly when its trimmed info string spells `mermaid` in any case |
| QuickLook.FenceRulesDifferOnCase | macos/PeekdownQLExt/PreviewViewController.swift:105-106 | on `QuickLook.QuickLookFence`: `Mermaid` is a diagram in Quick Look but not in the viewer |
| QuickLook.FenceRulesDifferOnWords | macos/PeekdownQLExt/PreviewViewController.swift:105-106 | on `QuickLook.QuickLookFence`: `mermaid x` is a diagram in the viewer but not in Quick Look |

## Left out

- Parameters stand for external components. Nothing is assumed about them, except in one place, described below:
  - markdown-it's rendering, its `escapeHtml` and the task-list plugin;
  - DOMPurify (`sanitize`);
  - the GitHub slugger;
  - highlight.js and mermaid;
  - `JSON.stringify`;
  - Swift's `jsonString`.
- Randomness is a parameter too: the heading-id suffix from `Math.random` (`fallbacks`).
- The DOM is reduced to indices and values:
  - focus, `scrollIntoView`, `click` and `preventDefault` have no model;
  - `Toc.Viewer.KeyDown` returns the effect (moved to, or activated) instead of moving focus.
- I/O is left out. Files arrive already read and parsed (`Js.FileRead`), and writing them back is the returned value. This covers:
  - `loadState`, `saveState` and `mkdirSync` failures;
  - `normalizeKey` and the `realpath`/`path.resolve` normalisation in `add_recent_file`, whose path arrives normalised;
  - `fs.existsSync`, which is the `exists_` parameter;
  - `Date.now`, which is the `now` parameter;
  - the home directory, the bundle path, the app version and the helper fingerprints, which are parameters.
- `saveState` and the save timer are reduced to a `saveScheduled` flag. The constructor does not load a state file.
- StateManagement.Keep: `now - value.lastModified` coerces `lastModified` to a number. The model coerces a number, `null`, a boolean, a blank string and `[]`, and treats every other value as `NaN`, which is never too old. Two coercions are not modelled, and both are treated as `NaN`:
  - a numeric string such as `"5"`, which JavaScript reads as its number;
  - an array of one element, which JavaScript reads as that element's string.
- StateManagement.Keep: an entry whose value is `null` or `undefined` makes `value.lastModified` throw (src/state-manager.js:49). A state file like `[["k"]]` gives an `undefined` value through `new Map(JSON.parse(data))` (src/state-manager.js:75). When `loadState` runs the cleanup, that resets the whole map to empty (src/state-manager.js:75-79). The model has no throw and keeps such an entry while its file exists. `setTocState` always stores an object, so only a state file could hold such an entry, and loading the file is not modelled.
- StateManagement.Spread: a string is spread one character per code point. JavaScript spreads it per UTF-16 code unit, so a character outside the Basic Multilingual Plane gives two properties there. `setTocState` has no caller in the code modelled here.
- StateManagement.StateManager.Cleanup: the loop runs on copies of the key order and the map, which are then written back. JavaScript deletes from the live `Map` while iterating it. That gives the same result, because deleting the current entry does not disturb the iteration, but in-place update is not modelled.
- Js.Json: numbers are integers. `JSON.parse` results, JSON property order and the array-valued forms of the settings and state files beyond what the code reads are not modelled.
- MainProcess.JoinDir: `path.join` is modelled for a non-empty directory without `.`, `..` or empty segments. `path.join` also collapses repeated `/` and turns an empty directory into the bare name; `JoinDir` does neither. Separators other than `/` are not modelled.
- MainProcess.ParseArgs: the `--help`/`-h` check that exits is not modelled. It runs after the argument loop (src/main.js:59-66). The loop itself, which treats `-h` as a path, is modelled.
- Preload.SaveSettings: object keys are visited as an unordered set, which gives the same result because the copy does not depend on the order. `JSON.stringify` is a parameter, so the 65536 bound is stated on whatever it returns.
- Preload.ListenerRegistry: the handlers forward their IPC payload to the page's callback, and that forwarding is not modelled. A handler is an identity and a channel.
- QuickLook.MakeHtml: the scripted page's text (the inlined scripts and the page's JavaScript) is a `Scripted` value. Only its fence test is modelled, as `QuickLookFence`.
- Html.EscapeTextSafe: for the Swift `escapeHTML`, each `replacingOccurrences` is modelled as a replacement per character. Foundation's search may skip a `<` that forms one character with a following combining mark.
- The whole-pipeline re-entrancy of `render_content`, the file watcher, settings writing, the window and menu plumbing, fonts, the Quick Look install workflow and the telemetry events are outside this model's core.
- Toc.Viewer.ExtractAndRenderToc: `tocIds` and the roving tabindex are computed from the TOC items before sanitising. This assumes that DOMPurify keeps every `li` of the generated TOC and its link's `href`. The model does not check the sanitised markup for this.
- MainProcess.LoadSettings: a settings file holding a JSON array comes back unchanged. JavaScript treats an array as an object: it sets `bodyFont` to `San Francisco` and `codeFont` to `SF Mono` on the array and returns it (src/main.js:260-263). `Json` has no array with named properties.
- Toc.Viewer.ExtractAndRenderToc: a page without the `#toc-sidebar` container is not modelled. The source then clears the active item and returns with nothing else changed (src/renderer.js:166-170). The model assumes the container is present.
- Toc.Viewer.ExtractAndRenderToc: the `id` attribute set on each heading element is not modelled. The cache lookup is the `elementOf` parameter. With no headings, the stale cache of an earlier render is kept, as the code does.
