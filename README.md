# Prompt analysis coordinator — a Dafny model

This project models the part of the prompt editor that decides **when** a prompt is
sent to the language model for analysis and **what** is shown afterwards. It covers
two files of the application:

- The hook `usePromptAnalysis` (`src/hooks/usePromptAnalysis.ts`) receives every edit
  of the prompt. For each edit it either:
  - clears the findings for content that is too short;
  - ignores content it has already analysed;
  - publishes a cached result; or
  - re-arms an adaptive debounce timer.

  When the timer fires, the hook starts a request, or queues the content if a request
  is already in flight. It parses the response into findings and caches them in a FIFO
  cache bounded at 20 entries. Every 5 seconds it retunes the debounce delay from the
  typing cadence.
- The editor (`src/components/Editor.tsx`) supplies the finding record, the mock
  detector `analyzeText`, and `getHighlightedContent`. The latter sorts the findings by
  start and cuts the prompt into plain and highlighted segments.

## Modules

| module | file | what it holds |
|---|---|---|
| `Wrappers` | wrappers.dfy | `Option`, for `null`/`undefined` |
| `JsString` | jsstring.dfy | `indexOf`, `includes`, `trim` and `slice` as ECMAScript defines them |
| `Fingerprint` | fingerprint.dfy | `hashContent`: the 32-bit string hash, signed hex rendering and the 100-character switch |
| `Editor` | editor.dfy | the finding record, `analyzeText`, the stable sort and the highlighting walk |
| `ResponseParser` | response_parser.dfy | `mapCategoryToType` and `parseAnalysisResponse` |
| `AnalysisCache` | analysis_cache.dfy | the cache object, as intended and as written |
| `Cadence` | cadence.dfy | the typing-pattern samples and the adaptive-delay tick |
| `Scheduler` | scheduler.dfy | the hook's whole state as a value, one pure step function per event, the invariant and the behavioural lemmas |
| `PromptAnalysis` | coordinator.dfy | class `Coordinator`: the hook as an object whose fields are its refs and state. Each method is proved to take exactly the matching `Scheduler` step. |

## Modelling decisions

**Environment.**
- Timers, `Date.now` and the network are events and parameters.
  - An edit carries its timestamp `now`.
  - The armed timer is a field that holds the content and the delay.
  - Firing it is the `TimerFire` event.
  - A request in flight is recorded by the content it awaits.
  - The request's settlement is a separate event carrying its outcome.
- `Step(state, sent)` pairs a new state with the content of the request sent, if any.

**Integer semantics.** The JavaScript integer behaviour is written out:
- `hash |= 0` is ToInt32 (`Wrap32`).
- `(hash << 5) - hash` is modelled literally and proved equal to `31·hash + c` mod 2³² (`ShiftStep`).
- `toString(16)` of a negative number is a minus sign followed by the hex digits.

**String semantics.**
- `trim` strips the ECMAScript white-space and line-terminator characters.
- `slice` clamps its indices.
- `indexOf` gives the first occurrence or −1.
- `Array.prototype.sort` is stable, as ECMAScript guarantees. The model relies on that guarantee: its own insertion sort is proved stable (`SortStable`), and it stands for the library sort.

**The cache read.**
- The state machine (`Scheduler.AnalyzePrompt`, `Scheduler.PerformAnalysis`) and the object (`Coordinator.AnalyzePrompt`, `Coordinator.SendUnlessCached`) use the corrected own-entry lookup. A hit means the key is one the hook stored (`contentHash in cacheEntries`).
- The source's plain-object read, which also finds inherited `Object.prototype` names, appears only in `AnalysisCache.LookupAsWritten` and `Scheduler.InheritedNameFalseHit`. See "## Findings".

**Truthiness.**
- The queue is drained only when it holds a non-empty string.
- An empty API key counts as missing.

**Behaviour modelled as the code has it, though a reader might expect otherwise:**
- The tick averages over every stored sample (up to 20), not only the last five. It keeps the last five afterwards.
- The short-content and cache-hit paths of an edit clear or publish findings. They do not cancel an armed timer or a queued request.
- When the timer fires, `performAnalysis` checks everything again: the same-as-last rule, the length, the cache and the API key.
- `lastAnalyzedContent` is stored before `JSON.parse`. An unparsable response therefore makes its content "already analysed" until another request resolves (`UnparsableIsSticky`, `StickyEnds`).
- When the cache is full, the oldest key is evicted before anyone checks whether the new key is already present. The invariant shows that the key of an awaited request is never present, so at capacity a new entry always replaces exactly the oldest one.
- A finding whose text does not occur in the prompt gets `start = 0` and `end = |text| - 1`. This follows from `start = -1` and `end = start + |text|`.

## Model

| member | source | states |
|---|---|---|
| `JsString.IndexOf` | src/components/Editor.tsx:30 | −1 exactly when the needle does not occur; otherwise an occurrence with no earlier one |
| `JsString.Includes` | src/components/Editor.tsx:28 | true exactly when the needle occurs somewhere |
| `JsString.Trim` | src/hooks/usePromptAnalysis.ts:121 | the result is the input with only white space removed on either side, and neither end of a non-empty result is white space |
| `JsString.TrimUnchanged` | src/hooks/usePromptAnalysis.ts:212 | a string whose first and last characters are not white space trims to itself |
| `JsString.ClampIndex` | src/components/Editor.tsx:76 | how `slice` places an index: an index inside the string stays; a negative index counts from the end, and below 0 it becomes 0; an index past the end becomes the end |
| `JsString.Slice` | src/components/Editor.tsx:76 | the length is the distance between the clamped positions, or 0 when they cross |
| `JsString.SliceContents` | src/components/Editor.tsx:76 | the k-th character of the slice is the character at the clamped start plus k |
| `JsString.SliceInBounds` | src/components/Editor.tsx:92 | with in-range ordered indices, `slice` is the plain substring |
| `JsString.SlicePastEnd` | src/components/Editor.tsx:92 | an end past the string (such as the fallback span from `Locate`) clamps, so the slice is the rest of the string from the start |
| `JsString.SliceCrossed` | src/components/Editor.tsx:92 | a start at or after the end gives the empty string |
| `Fingerprint.Wrap32` | src/hooks/usePromptAnalysis.ts:52 | the result is a signed 32-bit integer congruent to the input mod 2³² |
| `Fingerprint.ShiftStep` | src/hooks/usePromptAnalysis.ts:51-52 | the shift-and-subtract step equals multiply-by-31-plus-code, wrapped to 32 bits |
| `Fingerprint.HashCode` | src/hooks/usePromptAnalysis.ts:49-53 | the hash is always a signed 32-bit integer |
| `Fingerprint.Hex` | src/hooks/usePromptAnalysis.ts:54 | `toString(16)` of a natural number: at least one character, each a lower-case hex digit. `HexRoundTrip` is its inverse |
| `Fingerprint.SignedHex` | src/hooks/usePromptAnalysis.ts:54 | `toString(16)` of an integer: non-empty, starting with a minus sign exactly when the number is negative. `SignedHexRoundTrip` is its inverse |
| `Fingerprint.HexRoundTrip` | src/hooks/usePromptAnalysis.ts:54 | the hex rendering of a natural number parses back to it |
| `Fingerprint.SignedHexRoundTrip` | src/hooks/usePromptAnalysis.ts:54 | the signed hex rendering (minus sign for negatives) parses back to the hash, so distinct hashes give distinct keys |
| `Fingerprint.SignedHexLength` | src/hooks/usePromptAnalysis.ts:54 | a 32-bit hash renders in 1 to 9 characters |
| `Fingerprint.FingerprintOf` | src/hooks/usePromptAnalysis.ts:46-58 | content of at most 100 characters is its own key; longer content gets a 1–9 character key that parses back to its hash |
| `Fingerprint.FingerprintCollision` | src/hooks/usePromptAnalysis.ts:46-58 | two different analysable contents share a key only if both exceed 100 characters and their hashes collide |
| `Fingerprint.HashContent` | src/hooks/usePromptAnalysis.ts:46-58 | the loop computes exactly the key `FingerprintOf` specifies |
| `ResponseParser.MapCategoryToType` | src/hooks/usePromptAnalysis.ts:31-43 | assumption exactly for CAPABILITY_ASSUMPTION, technical exactly for UNDERSPECIFIED_PARAMETERS, ambiguity for the two ambiguity categories and every other value |
| `ResponseParser.Explanation` | src/hooks/usePromptAnalysis.ts:76 | the fixed sentence naming the finding's kind. `Locate` proves that the kind is the one `mapCategoryToType` gives |
| `ResponseParser.Locate` | src/hooks/usePromptAnalysis.ts:67-76 | a finding keeps the issue's text and suggestion. If the text occurs, the finding lies at its first occurrence and the prompt's substring there is the text; otherwise start 0 and end the text's length minus one |
| `ResponseParser.MapIssues` | src/hooks/usePromptAnalysis.ts:65-78 | succeeds exactly when every issue has text; then one finding per issue, in order |
| `ResponseParser.ParseAnalysisResponse` | src/hooks/usePromptAnalysis.ts:61-83 | a non-array gives no findings; an issue without text makes the whole parse fail to empty; otherwise the i-th finding locates the i-th issue |
| `ResponseParser.VagueWordingExample` | src/hooks/usePromptAnalysis.ts:61-83 | one ambiguous issue "vague" in "this is vague wording" becomes one ambiguity finding spanning 8 to 13 |
| `Editor.Detection` | src/components/Editor.tsx:29-47 | the finding a rule reports for its word at an index: end is start plus the word's length. `AnalyzeText` places it at the word's first occurrence |
| `Editor.AnalyzeText` | src/components/Editor.tsx:24-51 | a "better" finding exactly when the text contains "better", and likewise for "quickly". Each finding sits at its word's first occurrence, and "better" comes before "quickly" |
| `Editor.InsertByStart` | src/components/Editor.tsx:69 | insertion adds exactly the one element (multiset) |
| `Editor.InsertSorted` | src/components/Editor.tsx:69 | insertion into a list sorted by start keeps it sorted |
| `Editor.SortByStart` | src/components/Editor.tsx:69 | the result is sorted by start and is a permutation of the input |
| `Editor.InsertStable` | src/components/Editor.tsx:69 | insertion places the new element before the existing elements with the same start |
| `Editor.SortStable` | src/components/Editor.tsx:69 | for every start value, the findings with that start keep their input order (a stable sort) |
| `Editor.Walk` | src/components/Editor.tsx:71-106 | the loop over the sorted findings as a recursion with the `lastIndex` cursor. `WalkHighlights`, `WalkTrailing` and `WalkCovers` state what it produces, and `EmitSegments` is the loop proved equal to it |
| `Editor.FinalIndex` | src/components/Editor.tsx:96 | after the loop, `lastIndex` is the last sorted finding's end, or 0 when there is none |
| `Editor.WalkHighlights` | src/components/Editor.tsx:82-94 | the highlighted segments are exactly the sorted findings, in order, each showing the prompt's slice between its start and end |
| `Editor.WalkTrailing` | src/components/Editor.tsx:100-106 | the walk ends with a plain segment exactly when the final index is short of the prompt's end, and that segment is the rest of the prompt |
| `Editor.WalkCovers` | src/components/Editor.tsx:71-106 | for findings within the prompt that do not overlap, the segments concatenate to the prompt from `lastIndex` on |
| `Editor.WalkStepConcat` | src/components/Editor.tsx:73-96 | one loop iteration emits exactly the prompt from `lastIndex` to the finding's end |
| `Editor.EmitSegments` | src/components/Editor.tsx:65-108 | the loop builds exactly the walk the lemmas describe |
| `Editor.GetHighlightedContent` | src/components/Editor.tsx:64-109 | the highlights are the findings sorted by start; for non-overlapping findings within the prompt, the segments reassemble the prompt exactly |
| `AnalysisCache.Lookup` | src/hooks/usePromptAnalysis.ts:128-129 | a hit exactly for keys the hook stored, with the stored findings |
| `AnalysisCache.LookupAsWritten` | src/hooks/usePromptAnalysis.ts:128 | the plain-object read hits for stored keys and also for the inherited `Object.prototype` member names |
| `AnalysisCache.InheritedNameHit` | src/hooks/usePromptAnalysis.ts:128 | on the empty cache an inherited name is a hit as written and a miss under the own-entry lookup |
| `AnalysisCache.EvictOldest` | src/hooks/usePromptAnalysis.ts:156-160 | removes exactly the oldest key and its entry; the keys after it keep their order and the other entries their values |
| `AnalysisCache.Put` | src/hooks/usePromptAnalysis.ts:155-162 | the key then holds the new findings, and no other key is added. Below 20 keys nothing is lost; at 20 the oldest key goes unless it is the one stored, and every other entry keeps its value. `PutValid` and `PutFresh` are its partners |
| `AnalysisCache.EvictValid` | src/hooks/usePromptAnalysis.ts:155-161 | removing the oldest key keeps the keys duplicate-free and matching the entries, with one key fewer |
| `AnalysisCache.PutValid` | src/hooks/usePromptAnalysis.ts:155-162 | storing keeps the cache valid and at most 20 entries |
| `AnalysisCache.PutLookup` | src/hooks/usePromptAnalysis.ts:162 | a stored entry is found afterwards with the stored findings |
| `AnalysisCache.PutFresh` | src/hooks/usePromptAnalysis.ts:155-162 | a new key is appended at the newest end. At 20 entries the oldest key goes; every other entry is unchanged |
| `Cadence.RecordEdit` | src/hooks/usePromptAnalysis.ts:186-189 | the samples gain the new timestamp last and keep at most the 20 most recent |
| `Cadence.Intervals` | src/hooks/usePromptAnalysis.ts:91-94 | one interval fewer than samples. `IntervalsAt` gives each element, and `PromptAnalysis.IntervalsOf` is the source's loop proved equal to it |
| `Cadence.Sum` | src/hooks/usePromptAnalysis.ts:96 | the sum of a sequence. `PromptAnalysis.SumOf` is the left-to-right `reduce` proved equal to it, and `SumIntervals` telescopes it |
| `Cadence.Tick` | src/hooks/usePromptAnalysis.ts:87-109 | `calculateAdaptiveDebounce`: with fewer than 5 samples nothing changes; otherwise the last 5 samples are kept. A delay in range stays in range and moves by at most one 50 ms step. `TickTelescoped` gives the closed form |
| `Cadence.IntervalsAt` | src/hooks/usePromptAnalysis.ts:91-94 | the k-th interval is the difference between samples k+1 and k |
| `Cadence.SumIntervals` | src/hooks/usePromptAnalysis.ts:96 | the intervals sum to the last sample minus the first |
| `Cadence.TickTelescoped` | src/hooks/usePromptAnalysis.ts:86-109 | with fewer than 5 samples nothing changes. Otherwise the delay grows by 50 (capped at 1200) when the mean interval is under 200 ms and shrinks by 50 (floored at 500) otherwise, and the last 5 samples are kept |
| `Cadence.TickKeepsBounds` | src/hooks/usePromptAnalysis.ts:101-108 | the tick keeps the delay within 500..1200 on the 50 ms grid, and at most 20 samples |
| `Cadence.RecordAllBounded` | src/hooks/usePromptAnalysis.ts:186-189 | any run of edits keeps at most 20 samples |
| `Cadence.DelayAlwaysInRange` | src/hooks/usePromptAnalysis.ts:25 | from the initial 800 ms, any mix of edits and ticks keeps the delay in 500..1200 and at most 20 samples |
| `Scheduler.Initial` | src/hooks/usePromptAnalysis.ts:16-28 | the hook starts with no findings, no error, no timer, no request, an 800 ms delay and an empty cache |
| `Scheduler.DebouncedAnalyze` | src/hooks/usePromptAnalysis.ts:183-207 | records the edit's timestamp and replaces any armed timer by one for this content at the current delay; nothing else changes |
| `Scheduler.AnalyzePrompt` | src/hooks/usePromptAnalysis.ts:209-233 | an edit touches only the findings, the timer and the samples. It never starts, queues or settles a request, and never touches the cache. A timer it re-arms is for this content at the current delay |
| `Scheduler.PerformAnalysis` | src/hooks/usePromptAnalysis.ts:116-141 | a request is sent exactly when the content differs from the last analysed one, is analysable, is not cached, and an API key is present. It is then in flight with the error cleared. Otherwise each guard in turn decides: content equal to the last analysed one changes nothing; short content clears the findings; a cache hit publishes the cached findings; a missing API key clears the findings. The queue, the timer, the cache and the samples are never touched |
| `Scheduler.TimerFire` | src/hooks/usePromptAnalysis.ts:197-204 | the timer is disarmed. With nothing armed nothing happens; with a request in flight the content only takes the queue slot; with nothing in flight the step is exactly `performAnalysis` of the timer's content on the disarmed state, so a request is sent only then, for that content |
| `Scheduler.IdleFireSends` | src/hooks/usePromptAnalysis.ts:197-204 | from any reachable state, a timer firing with nothing in flight sends its content, and awaits it, when the content differs from the last analysed one, its key is not cached and an API key is present |
| `Scheduler.Finish` | src/hooks/usePromptAnalysis.ts:145-171 | nothing is in flight afterwards. A rejection leaves the last analysed content alone; a resolution records the awaited content. Rejected or unparsable: the error and no findings, with the cache unchanged. Parsed: the parsed findings are published and cached under the content's key. The queue, the timer and the samples are untouched |
| `Scheduler.Drain` | src/hooks/usePromptAnalysis.ts:173-178 | takes a non-empty queued content from the slot. A request is sent exactly when one is then in flight, and only for the queued content. The cache, the timer and the last analysed content are kept |
| `Scheduler.Settle` | src/hooks/usePromptAnalysis.ts:143-179 | after a settlement the slot is empty (unless it held the empty string). A follow-up request is sent exactly when one is in flight, and only for the queued content; the timer is kept |
| `Scheduler.Tick` | src/hooks/usePromptAnalysis.ts:86-111 | the interval touches only the samples and the delay, and keeps a delay in range in range |
| `Scheduler.Apply` | src/hooks/usePromptAnalysis.ts:116-233 | edits and ticks send nothing, and any sent request is in flight afterwards. No event changes the API key, and a delay in range stays in range |
| `Scheduler.Run` | src/hooks/usePromptAnalysis.ts:116-233 | after any sequence of events the API key is unchanged and a delay in range is still in range |
| `Scheduler.InitialInv` | src/hooks/usePromptAnalysis.ts:16-28 | the invariant holds initially |
| `Scheduler.AnalyzePromptInv` | src/hooks/usePromptAnalysis.ts:209-233 | an edit preserves the invariant |
| `Scheduler.PerformAnalysisInv` | src/hooks/usePromptAnalysis.ts:116-141 | `performAnalysis` preserves the invariant. A request is sent exactly when one becomes in flight, and it is for this content |
| `Scheduler.TimerFireInv` | src/hooks/usePromptAnalysis.ts:197-204 | a timer firing preserves the invariant; it sends a request only when none is in flight, and for the timer's content |
| `Scheduler.FinishIdle` | src/hooks/usePromptAnalysis.ts:145-171 | settling the request leaves nothing in flight, keeps the queue and the timer, and keeps the invariant's other parts |
| `Scheduler.DrainInv` | src/hooks/usePromptAnalysis.ts:173-178 | the drain empties the queue, sends at most the queued content, and keeps the cache, the last analysed content and the timer |
| `Scheduler.SettleInv` | src/hooks/usePromptAnalysis.ts:143-179 | a settlement, whatever its outcome, preserves the invariant; any follow-up request is for the queued content |
| `Scheduler.TickInv` | src/hooks/usePromptAnalysis.ts:86-109 | the tick preserves the invariant and touches neither the timer nor the queue |
| `Scheduler.ApplyInv` | src/hooks/usePromptAnalysis.ts:116-233 | every event preserves the invariant. A request is sent only by a timer firing with nothing in flight, or by the settlement of the awaited request, and the new state awaits it |
| `Scheduler.RunInv` | src/hooks/usePromptAnalysis.ts:116-233 | any sequence of events preserves the invariant |
| `Scheduler.ReachableInv` | src/hooks/usePromptAnalysis.ts:21-28 | in every reachable state the delay is in range, the cache holds at most 20 entries, and the in-progress flag is set exactly when a request is awaited (at most one request at a time) |
| `Scheduler.ShortContentOnlyPublishes` | src/hooks/usePromptAnalysis.ts:212-215 | an edit whose trimmed length is under 15 only clears the findings |
| `Scheduler.SameContentIgnored` | src/hooks/usePromptAnalysis.ts:218-220 | re-submitting the last analysed content changes nothing |
| `Scheduler.CacheHitPublishes` | src/hooks/usePromptAnalysis.ts:223-227 | an edit whose key is cached only publishes the cached findings |
| `Scheduler.EditArmsTimer` | src/hooks/usePromptAnalysis.ts:229-230 | a fresh analysable edit arms the timer for itself at the current delay and records its timestamp, leaving the findings and the queue alone |
| `Scheduler.DebounceLatestWins` | src/hooks/usePromptAnalysis.ts:192-204 | of two quick edits only the second remains armed |
| `Scheduler.FireWhileBusyQueues` | src/hooks/usePromptAnalysis.ts:198-200 | a timer that fires during a request only queues its content and sends nothing |
| `Scheduler.QueueLatestWins` | src/hooks/usePromptAnalysis.ts:200 | of two timers firing during one request, the queue keeps the later content |
| `Scheduler.SettleDrainsQueue` | src/hooks/usePromptAnalysis.ts:173-178 | after a settlement the queue is empty, and any follow-up request is for the queued content |
| `Scheduler.RacingEditsIssueSecond` | src/hooks/usePromptAnalysis.ts:170-178 | an edit whose timer fires while the first request is in flight is queued. It is sent as soon as that request settles, whatever the outcome, provided its key differs from the first request's |
| `Scheduler.SettleSuccess` | src/hooks/usePromptAnalysis.ts:145-164 | a parsed response records its content as analysed and caches its findings under the content's key, within 20 entries. With no queue, the findings are published and the request ends |
| `Scheduler.SettleEvictsOldest` | src/hooks/usePromptAnalysis.ts:155-162 | a parsed response appends the content's key, dropping the oldest key when 20 are held, and leaves every other entry as it was |
| `Scheduler.SettleFailure` | src/hooks/usePromptAnalysis.ts:165-171 | a rejected request leaves the last analysed content and the cache alone; with no queue it clears the findings, sets the failure message and stops analysing |
| `Scheduler.SettleUnparsable` | src/hooks/usePromptAnalysis.ts:148-168 | an unparsable response still records its content as analysed, caches nothing, and reports the failure |
| `Scheduler.UnparsableIsSticky` | src/hooks/usePromptAnalysis.ts:148-151 | after an unparsable response, whatever was queued, re-submitting that content changes nothing: it is not retried until another request resolves |
| `Scheduler.StickyEnds` | src/hooks/usePromptAnalysis.ts:148-151 | once a request for other content resolves, parsed or not, editing back to analysable content whose key is not cached arms the timer for it again |
| `Scheduler.InheritedNameFalseHit` | src/hooks/usePromptAnalysis.ts:224-227 | "propertyIsEnumerable" is analysable and is its own key, and the as-written read finds the inherited member; with the corrected lookup the edit arms the timer |
| `Scheduler.GrowingPromptScenario` | src/hooks/usePromptAnalysis.ts:209-233 | a short edit only clears the findings; a following long edit arms the 800 ms timer; when that fires a request for the long content is sent |
| `Scheduler.TickThenEdit` | src/hooks/usePromptAnalysis.ts:86-109 | a tick does not disturb the armed timer, and the next fresh edit uses the retuned delay |
| `PromptAnalysis.Coordinator.constructor` | src/hooks/usePromptAnalysis.ts:14-28 | the new object is the initial state and satisfies the invariant |
| `PromptAnalysis.Coordinator.AnalyzePrompt` | src/hooks/usePromptAnalysis.ts:209-233 | updates the fields to exactly the `Scheduler.AnalyzePrompt` step and keeps the invariant |
| `PromptAnalysis.Coordinator.DebouncedAnalyze` | src/hooks/usePromptAnalysis.ts:183-207 | updates the fields to exactly the `Scheduler.DebouncedAnalyze` step |
| `PromptAnalysis.Coordinator.TimerFire` | src/hooks/usePromptAnalysis.ts:197-204 | performs the timer step, returns the request sent, and keeps the invariant |
| `PromptAnalysis.Coordinator.RunTimer` | src/hooks/usePromptAnalysis.ts:197-204 | the timer callback: queue when busy, else `performAnalysis` |
| `PromptAnalysis.Coordinator.PerformAnalysis` | src/hooks/usePromptAnalysis.ts:116-141 | performs exactly the `Scheduler.PerformAnalysis` step and returns the request sent |
| `PromptAnalysis.Coordinator.SendUnlessCached` | src/hooks/usePromptAnalysis.ts:126-141 | the cache and key checks, then the start of the request, as the step function says |
| `PromptAnalysis.Coordinator.RequestSucceeded` | src/hooks/usePromptAnalysis.ts:145-179 | performs exactly the settlement step for a resolved call, returns the follow-up request, and keeps the invariant |
| `PromptAnalysis.Coordinator.Resolve` | src/hooks/usePromptAnalysis.ts:145-164 | records, parses, caches and publishes as `Scheduler.Finish` says |
| `PromptAnalysis.Coordinator.Store` | src/hooks/usePromptAnalysis.ts:155-162 | the cache fields become `AnalysisCache.Put` of the old cache |
| `PromptAnalysis.Coordinator.RequestFailed` | src/hooks/usePromptAnalysis.ts:165-179 | performs exactly the settlement step for a rejected call, returns the follow-up request, and keeps the invariant |
| `PromptAnalysis.Coordinator.ClearInFlight` | src/hooks/usePromptAnalysis.ts:170-171 | clears the analysing flag and the in-flight request, and nothing else |
| `PromptAnalysis.Coordinator.DrainQueue` | src/hooks/usePromptAnalysis.ts:173-178 | performs exactly the `Scheduler.Drain` step |
| `PromptAnalysis.Coordinator.Tick` | src/hooks/usePromptAnalysis.ts:86-111 | performs exactly the `Scheduler.Tick` step and keeps the invariant |
| `PromptAnalysis.Coordinator.AdaptDelay` | src/hooks/usePromptAnalysis.ts:87-109 | `calculateAdaptiveDebounce` on the fields, as `Cadence.Tick` says |
| `PromptAnalysis.IntervalsOf` | src/hooks/usePromptAnalysis.ts:91-94 | the loop computes exactly `Cadence.Intervals` of the samples |
| `PromptAnalysis.SumOf` | src/hooks/usePromptAnalysis.ts:96 | the `reduce` computes exactly `Cadence.Sum` of the intervals |

## Left out

- I/O and the clock:
  - `setTimeout`/`clearTimeout`, `setInterval` and `Date.now` are not modelled. An edit takes `now` as a parameter, and the timer and the 5-second interval are events.
  - The `useEffect` cleanup that clears the interval is not modelled.
- The analysis client (`getAnthropicClient`, `analyzePrompt`) and its route are not part of this model.
  - The reply is an outcome: a parsed JSON payload, text that `JSON.parse` rejects, or a rejected call.
  - Each kind of client error collapses to the one rejection.
- The JSON payload is reduced to what the parser reads:
  - an array of issues, each with optional `text` and `category` and a `suggestion`;
  - or any non-array.

  A `text` that is present but is not a string lies outside the model.
  So does an issue without a `suggestion`: the source copies `undefined` into the finding, and the model's record has no such value.
- `Object.keys` lists integer-like keys first. A hash such as `12345` is such a key, so with it the "oldest" key is not the first inserted. The model keeps keys in insertion order.
- The `apiKey` dependency of `performAnalysis` is not modelled. When the key changes, the stale `debouncedAnalyze.timeoutId` property may refer to a timer of an earlier closure. The API key is a constant of the object.
- Strings are sequences of Unicode scalar values, not UTF-16 code units. For text outside the Basic Multilingual Plane, lengths, indices and `charCodeAt` differ.
- `ResponseParser.ParseAnalysisResponse`: an input that throws is modelled as "some issue has no text". Any other throw inside `map` is not modelled.
- `Cadence.Tick`: the floating-point average is replaced by the integer comparison `sum < 200 · count`. This is equivalent for integer timestamps.
- `console.error`, the `lodash` import, React batching, the JSX of the editor, and the handlers `handleInput` and `handleAnalysisClick` are not modelled.
- `Scheduler.PerformAnalysis` requires that no request is in flight. Every call site in the source (the timer callback and the drain) guarantees this.
- `Scheduler.Apply`: a settlement event is ignored when no request is awaited. The source cannot produce one then.

## Findings

| source | as written | input that shows it | evidently intended | confidence | as-written member | corrected member |
|---|---|---|---|---|---|---|
| src/hooks/usePromptAnalysis.ts:128 | The cache is a plain object, and `analysisCache.current[contentHash]` also finds members inherited from `Object.prototype`. The same read is at line 224. | On a fresh hook, the prompt `propertyIsEnumerable` (20 characters, so it is its own key). The read yields the inherited function, so it is published as the findings and the prompt is never analysed. | Only entries the hook stored are hits: an own-property lookup, or a `Map`. | high; not executed | `AnalysisCache.LookupAsWritten`, `Scheduler.InheritedNameFalseHit` | `AnalysisCache.Lookup` |
