# RevIQ dashboard core, modelled in Dafny

RevIQ is a single-page revenue-management dashboard for hotels. An operator
enters a property name and a city. The app asks a generative-AI service for a
market snapshot (competitors, OTA rate-parity quotes, a parity trend, demand
events, pricing insights) and then for a short strategy text. It renders both.

Almost all of the repository is presentation. This project models the small
deterministic part around the two service calls:

- **Response cleanup** (`GeminiService`). The provider text defaults to `"{}"`
  when it is absent or empty. It is trimmed. One leading lower-case `json` code
  fence and one trailing code fence are removed, each with at most one
  newline. The result is handed to `JSON.parse`. The parsed object gets a
  `sources` field holding the grounding chunks of the first candidate, or `[]`.
- **Search lifecycle** (`SearchHandler`). `handleSearch` is modelled as a pure
  transition over the dashboard state. The two awaited calls are function
  parameters whose settled outcome is `Ok(value)` or `Err(failure)`.
- **Derived views** (`DashboardViews`). These are the parity-leakage filter and
  its count, the competitor rate chart with two-word labels, the numbered
  strategy cards built from the summary text, and the caps on the event list
  (8) and the source links (3).
- **Data model** (`Types`). The shapes of `types.ts` as datatypes: closed
  enumerations for tier, impact, status and tab, and an optional quote list.

Supporting modules: `Outcomes` (`Option`, `Result`, `Failure`), `Sequences`
(`slice(0, n)`, `filter`, `some`, subsequences) and `Strings` (JavaScript's
whitespace set, `trim`, `split` and `join` on one character).

JavaScript semantics pinned down in the model:

- Without the `m` flag, `^` and `$` anchor only at the start and end of the
  whole string.
- A non-global `replace` rewrites only the first (leftmost) match.
- `trim` and `\s` use the same set of characters: ECMAScript WhiteSpace
  (tab, VT, FF, ZWNBSP and the Unicode `Zs` category) and LineTerminator
  (LF, CR, U+2028, U+2029).
- `x || d` falls back to `d` only for falsy `x`. An empty array is truthy, so
  an empty grounding-chunk list stays empty rather than being replaced.
- `a?.some(...)` is `undefined` (falsy) when `a` is missing.
- `"".split(sep)` is `[""]`.

How a search settles in the code:

- `handleSearch` never clears `marketData` when a search starts. While
  `loading` is set, the previous snapshot is only hidden.
- A failed fetch is only logged. The previous snapshot and report stay.
- The snapshot is stored before the summary is requested. If the summary call
  then fails, the new snapshot is shown next to the report of an earlier
  search.

## Model

| member | source | states |
|---|---|---|
| Strings.TrimStart | App.tsx:173 | `\s*` after an anchor removes the longest whitespace prefix: the result is a suffix, everything removed is whitespace, and the result does not start with whitespace |
| Strings.TrimStartBlankPrefix | App.tsx:173 | whitespace placed in front of text that does not start with whitespace is exactly what `\s*` after an anchor removes, so the text comes back unchanged |
| Strings.Trim | services/geminiService.ts:106 | `trim` keeps one contiguous part of the text, with only whitespace removed before and after it, and that part neither starts nor ends with whitespace |
| Strings.TrimEmptyIffBlank | App.tsx:168 | `line.trim().length > 0` holds exactly when the line has a non-whitespace character |
| Strings.Split | App.tsx:168 | `split` on one character yields one more piece than there are separators, and no piece contains the separator |
| Strings.JoinSplit | App.tsx:127 | joining the pieces of a split with the same separator restores the original string |
| Strings.SplitJoin | App.tsx:127 | splitting a join of separator-free pieces gives the pieces back |
| Sequences.Take | App.tsx:235 | `slice(0, n)` is the prefix of length n, or the whole sequence when it is shorter |
| Sequences.Filter | App.tsx:338 | `filter` keeps an order-preserving subsequence made of exactly the elements that satisfy the predicate |
| Sequences.FilterLengthIsMatchCount | App.tsx:338 | the length of a filtered sequence equals the number of positions whose element satisfies the predicate |
| Sequences.Any | App.tsx:338 | the left-to-right `some` scan is true exactly when some element satisfies the predicate |
| Types.AllTabs | types.ts:51-56 | `DashboardTab` has four members whose string values are pairwise distinct |
| Types.BadgeTier | App.tsx:88-120 | the tier badge is chosen for exactly the four `positioning` literals, each for its own tier; any other string gets the fallback badge |
| GeminiService.ResponseText | services/geminiService.ts:105 | an absent or empty provider text becomes `"{}"`; any other text passes through unchanged, so the parsed text is never empty |
| GeminiService.StripOpeningFence | services/geminiService.ts:106 | only a leading lower-case `json` fence is removed, together with at most one newline directly after it; any other text is unchanged |
| GeminiService.StripClosingFence | services/geminiService.ts:106 | only a trailing fence at the very end is removed, together with at most one newline directly before it; any other text is unchanged |
| GeminiService.CleanJson | services/geminiService.ts:106 | the cleaned text is a contiguous part of the trimmed text: at most 8 characters are dropped at the front and at most 4 at the back |
| GeminiService.CleanJsonRoundTrip | services/geminiService.ts:106 | for every string s, cleaning a `json` fence around s, one newline on each side, yields exactly s |
| GeminiService.CleanJsonKeepsUnfenced | services/geminiService.ts:106 | a trimmed text that neither starts with the `json` fence nor ends with a fence is parsed unchanged |
| GeminiService.CleanJsonNotIdempotent | services/geminiService.ts:106 | only one fence layer is removed: cleaning a doubly fenced text leaves a singly fenced one, which a second cleaning changes again |
| GeminiService.CleanJsonKeepsOtherTags | services/geminiService.ts:106 | an opening fence tagged `JSON` is kept while the closing fence is still removed |
| GeminiService.GroundingChunks | services/geminiService.ts:111 | the first candidate's grounding chunks when every link of the optional chain exists, otherwise the empty list |
| GeminiService.WithSources | services/geminiService.ts:109-112 | every parsed top-level key keeps its value except `sources`, which is always present and holds the chunks; no other key is added |
| GeminiService.FetchMarketIntelligence | services/geminiService.ts:104-116 | a rejected provider call propagates its failure; a parse failure is reported as malformed and is not retried or defaulted; otherwise the result is the parsed object plus `sources` |
| SearchHandler.InitialState | App.tsx:55-66 | on mount the Overview tab is active, nothing is loading, there is no snapshot and no report, and the default query is "Taj Lands End" in "Mumbai" |
| SearchHandler.SearchTrace | App.tsx:68-81 | `loading` is set on entry, stays set until the last update, and is cleared on every exit path. Tab, query and city never change. A failed fetch changes nothing else. A successful fetch is stored before the summary call. A failed summary keeps the previous report |
| SearchHandler.HandleSearch | App.tsx:68-81 | after a search, `loading` is false. A failed fetch keeps both `marketData` and `report`. A successful fetch replaces `marketData`. `report` then becomes the summary text, or keeps its old value if the summary fails |
| DashboardViews.IsParityViolation | App.tsx:338 | a quote violates parity exactly when its gap is above 2 or below -2; a gap of exactly ±2 does not |
| DashboardViews.IsLeaking | App.tsx:338 | a competitor leaks exactly when it has a quote list and some quote in it violates parity; a competitor without quotes never leaks |
| DashboardViews.LeakingCompetitors | App.tsx:338 | the leakage filter keeps, in their original order, exactly the leaking competitors |
| DashboardViews.LeakageCount | App.tsx:338 | the "Leakage Points" figure is the number of leaking competitors, so it is at most the number of competitors and is 0 when none has quotes |
| DashboardViews.ChartLabel | App.tsx:127 | the label is the longest prefix of the name that contains at most one space: it stops just before the second space, or is the whole name |
| DashboardViews.JoinTakeSplit | App.tsx:127 | joining the first k pieces of a split gives the prefix of the string that ends just before the k-th separator, or the whole string when there are fewer pieces |
| DashboardViews.ChartData | App.tsx:126-129 | one chart point per competitor, in the same order, with that competitor's `currentRate` and a name-prefix label that has at most one space |
| DashboardViews.HasContent | App.tsx:168 | a summary segment is kept exactly when it is not whitespace only |
| DashboardViews.ContentSegments | App.tsx:168 | the kept segments are, in order, exactly the newline-separated segments that are not whitespace only. There are at most (newline count + 1) of them, and none contains a newline |
| DashboardViews.StripBullet | App.tsx:173 | the result is a suffix of the line; the removed prefix is empty or one `*`/`-` followed by whitespace; a line starting with neither character is unchanged |
| DashboardViews.StripOrdinal | App.tsx:173 | the result is a suffix of the line; the removed prefix is empty or one digit, a dot and whitespace. A line starting with a digit and a dot loses both and all whitespace after them; a line without that start is unchanged |
| DashboardViews.DisplayText | App.tsx:173 | each displayed line is a suffix of its segment, reached by removing at most one bullet marker and then at most one single-digit number marker. A line starting with a marker loses it and does not start with whitespace; a line starting with neither is unchanged |
| DashboardViews.DisplayTextRemovesBulletAndNumber | App.tsx:173 | for every bullet, digit, whitespace runs and text not starting with whitespace, a line "bullet, whitespace, digit, dot, whitespace, text" is displayed as the text alone |
| DashboardViews.DisplayTextRemovesNumber | App.tsx:173 | a line such as "1. ACTION: …", the shape the summary is asked for, is displayed without its number, dot and the whitespace after them |
| DashboardViews.DisplayTextRemovesBullet | App.tsx:173 | a bullet and the whitespace after it are removed from text that does not itself start with a number marker or whitespace |
| DashboardViews.MultiDigitNumberKept | App.tsx:173 | a line starting with two digits, such as "10. x", keeps its number |
| DashboardViews.OnlyOneBulletRemoved | App.tsx:173 | only one bullet is removed: "** x" is shown as "* x" |
| DashboardViews.StrategyLines | App.tsx:166-176 | no cards (the spinner) for a missing or empty report. Otherwise one card per kept segment, at most (newline count + 1), numbered 1..n in order, each showing a suffix of its segment |
| DashboardViews.OverviewEvents | App.tsx:235 | the overview shows exactly the first min(8, n) of n events, in order |
| DashboardViews.OverviewEventsIgnoresLater | App.tsx:235 | once there are 8 events, appending more never changes what the overview shows |
| DashboardViews.WebLinks | App.tsx:266 | one link per chunk that carries `web`, in chunk order, and chunks without `web` contribute nothing |
| DashboardViews.WebLinksAppend | App.tsx:266 | the links of two chunk lists placed one after the other are the links of the first followed by those of the second |
| DashboardViews.WebLinksAllWeb | App.tsx:266 | when every chunk carries `web`, the j-th link is the j-th chunk's citation |
| DashboardViews.SourceLinks | App.tsx:266 | one link per `web`-carrying entry among the first three sources, in order, so at most 3; no sources means no links |
| DashboardViews.SourceLinksIgnoresLater | App.tsx:266 | sources after the third never produce a link |
| DashboardViews.SourceLinksFirstThree | App.tsx:266 | when the first three sources all carry `web`, the footer shows exactly their three citations, in order |

## Left out

- The provider calls themselves are not modelled: the prompt text, the declared response schema, model selection, search grounding and `generatePricingReport` (services/geminiService.ts:9-102, 119-129). They are foreign network calls. They appear only as parameters: a settled `Result<GenerateResponse>` for the structured call, and `fetch`/`summarize` functions for the two calls in `handleSearch`.
- `JSON.parse` is an abstract partial function from text to a key/value map. Parse results that are not objects are outside the model; in JavaScript, spreading an array or a string adds index keys and spreading a number adds nothing.
- Nothing at run time checks the untyped service output against `types.ts`. The model does not link the parsed key/value map to the typed `MarketData`. `handleSearch` receives the fetch outcome already typed.
- Rendering is not modelled: JSX markup, styling, charts, icons, `components/DashboardCards.tsx` and `components/Sidebar.tsx`. This includes the competitor table and demand grid, which only list every element, and the `Math.min(cpi, 100)` bar width.
- Overlapping searches are not modelled. Mount and submit can interleave two `handleSearch` runs with last-write-wins results. The model runs one search at a time; `SearchTrace` only shows that a run starting while `loading` is already set still ends with `loading` false.
- Tab switching through the sidebar and the disabled state of the submit button are not modelled; `activeTab` only appears as state that a search leaves unchanged.
- Error logging (`console.error`) and `preventDefault` have no observable effect on the modelled state.
- Numbers are `real`. Floating-point rounding and locale formatting (`toLocaleString`) are out.
- Characters are Unicode scalar values, whereas JavaScript strings are UTF-16 code units. The whitespace set is fixed to the current Unicode `Zs` list.
- The constant figures "3.4%", "Fair" and "+12% Optimal" are not computed by the code and are not modelled.
- `WebSource` models the citation's `uri` and `title` as plain strings, although the provider SDK marks both optional.
- The `category` and `recommendedStrategy` event fields and the quote `roomType` are requested from the provider but not declared in `types.ts`, so they are not modelled.
