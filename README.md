# GoalBreaker-AI core, modelled in Dafny

GoalBreaker-AI turns a goal into a plan: phases, each made of steps. A hosted generative
model streams the plan back as JSON text. A step can be broken down into a sub-plan, which
is linked to its parent plan by `parentId`. Finished plans are kept in a history. This project
models the logic of that application that is not rendering, and proves properties of it.

- **`JsonRepair`** (repair.dfy) is `naiveJsonRepair`, the best-effort repair of a truncated
  JSON text. It trims the text and drops the leading code-fence markers. It then scans the
  text, tracking string literals, escapes and a stack of open brackets, and appends the
  missing closers. The method `NaiveJsonRepair` keeps the source's loops. The functions
  `Prepared`, `Step`, `Run`, `Scan`, `Closers` and `Repaired` define what those loops compute.
- **`GeminiService`** (generation.dfy) is the accumulation loop of `generateGoalPlan`. Chunks
  are appended to a text buffer. Each buffer is repaired and decoded, and a partial plan is
  offered to the callback when the decoded object "has something". At the end there is a
  strict decode, with a repaired decode as fallback, and the pre-generated id and timestamp
  are stamped onto the plan.
  - The model does not call the hosted model. A `Backend` value supplies what the
    environment contributes: whether an API key is present, the outputs of
    `crypto.randomUUID()` and `Date.now()`, the text of each chunk, and `JSON.parse` as two
    opaque partial functions.
- **`PlanTree`** (history.dfy) holds the history operations of App.tsx as functions:
  - the upsert on completion;
  - deletion by timestamp;
  - the sub-plan lookup of a breakdown;
  - the breadcrumb walk up the parent links, bounded at 20 hops;
  - the children lookup, newest first.
- **`AppShell`** (app.dfy) is the `App` component as a class. Its fields are the shown plan,
  the history, the loading flag, the error banner, the view and the title of the step
  being decomposed. React's state setters become field assignments, applied in the order
  each handler calls them. `PlanPath` keeps the source's `while` loop.
- **`PlanStats`** (stats.dfy) is components/PlanStats.tsx: the flattened steps, their total,
  the per-difficulty donut and the per-type bars.
- **`Plans`** (plans.dfy) holds the records of types.ts:3-44. **`Seqs`** (seqs.dfy) holds
  stand-ins for the array methods the code uses: `filter`, `find` (with the index search
  behind it) and the stable descending `sort`, plus a sum. **`Wrappers`** holds `Option` and `Result`.

Behaviours of the code that a reader might not expect, which the model keeps:

- The partial update fires for `{"phases":[]}`, because an empty array is truthy.
- The repair may strip two leading markers: "```json" first, then "```" from what remains.
- The final decode removes a trailing "```" only when the text also began with a marker.
- A plan whose `parentId` is its own id is listed among its own children
  (`SelfListedOnlyAsOwnParent`).

- A chunk without text appends the string "undefined" to the buffer.
- A root plan keeps a `parentId` that its final payload carries, because only a truthy
  `parentId` argument overrides it.
- An empty-string `parentId` counts as no parent, both when linking and in the breadcrumb
  walk.
- A failed generation leaves the last partial plan on screen.
- The repair of a text ending in an unescaped backslash outside a string (such as `{\`) is not
  balanced: the appended closer is consumed as the escaped character
  (`TrailingBackslashSwallowsCloser`). This is why `RescanRepairedIsBalanced` needs the escape
  flag clear.

## Model

| member | source | states |
|---|---|---|
| JsonRepair.TrimStartRemovesLeadingSpace | services/geminiService.ts:17 | the start trim drops a prefix that is all ECMAScript white space, and what remains does not start with white space |
| JsonRepair.TrimEndRemovesTrailingSpace | services/geminiService.ts:17 | the end trim drops a suffix that is all white space, and what remains does not end with white space |
| JsonRepair.TrimRemovesSurroundingSpace | services/geminiService.ts:17 | `trim()` yields the slice of the input between its leading and its trailing white space, neither end being white space |
| JsonRepair.StripFence | services/geminiService.ts:20-25 | the fence handling removes only a leading part, and that part is nothing, "```", "```json" or "```json" followed by "```"; a leading "```" is always removed, a leading "```json" as a whole, and a "```" right after a leading "```json" as well; text without a leading "```" is unchanged; a trailing "```" survives when the text is long enough not to overlap the leading markers |
| JsonRepair.StepCases | services/geminiService.ts:36-63 | one scan step: an escaped character is consumed whatever it is; inside a string or after a backslash the stack does not change; the stack changes only by pushing an opener or by popping the opener a closer matches; a mismatched closer, or one on an empty stack, changes nothing; only an unescaped quote toggles the string flag |
| JsonRepair.RunKeepsOpeners | services/geminiService.ts:52-53 | the stack only ever holds `{` and `[` |
| JsonRepair.ScanPrefixStep | services/geminiService.ts:33-34 | scanning one more character is one more step of the scan |
| JsonRepair.Closers | services/geminiService.ts:66-71 | the appended suffix is closers only, one per opener, closing the most recently opened bracket first |
| JsonRepair.NaiveJsonRepair | services/geminiService.ts:16-74 | total: returns for every input, with no precondition; the result is `Repaired(input)`; the trimmed, unfenced text is kept as a prefix, character for character, followed only by `}`/`]` characters, one for each bracket left open |
| JsonRepair.AppendClosers | services/geminiService.ts:66-71 | the popping loop appends exactly `Closers(stack)` |
| JsonRepair.RunAppend | services/geminiService.ts:33-64 | scanning a concatenation is scanning the second part from the state the first part left |
| JsonRepair.StringBodyInert | services/geminiService.ts:41-51 | inside a string literal, a well-formed body (escapes included) leaves the scan state as it was, whatever brackets it contains |
| JsonRepair.StringLiteralInert | services/geminiService.ts:41-51 | a whole string literal does not change the nesting |
| JsonRepair.ClosersCloseAll | services/geminiService.ts:66-71 | from a state outside strings and escapes, scanning the closers of its stack closes every bracket |
| JsonRepair.RescanRepairedIsBalanced | services/geminiService.ts:29-71 | when the scan of the prepared text ends outside a string literal and without a pending escape, rescanning the repaired text ends with an empty stack |
| JsonRepair.TrailingBackslashSwallowsCloser | services/geminiService.ts:36-44 | the escape condition is needed: the repair of `{\` is `{\}`, and its rescan still has `{` open |
| GeminiService.Snapshot | services/geminiService.ts:199-213 | a plan is offered exactly when the decode succeeds and has a truthy goal or a truthy `phases` value (any array, even `[]`); it carries the run's id and timestamp and no parent |
| GeminiService.SnapshotFields | services/geminiService.ts:206-211 | in an offered plan each truthy decoded field (goal, summary, quote, phases) is kept; otherwise the user's goal, "Generating strategy...", "..." and `[]` stand in, so summary and quote are never empty; an offer without a truthy goal has phases |
| GeminiService.AccumulatedPrefixStep | services/geminiService.ts:195 | each chunk's text is appended to the buffer |
| GeminiService.OffersAreSnapshots | services/geminiService.ts:194-217 | the offer after chunk `j` is the snapshot of the repaired and decoded buffer after `j` chunks |
| GeminiService.UpdatesStep | services/geminiService.ts:194-217 | one more chunk fires its snapshot, if any, after all earlier updates |
| GeminiService.SourceOfUpdate | services/geminiService.ts:194-213 | every update fired so far comes from the buffer after some chunk `j`, with `1 <= j <= n` |
| GeminiService.UpdateIsSnapshot | services/geminiService.ts:199-213 | each update is the snapshot of the buffer after its source chunk |
| GeminiService.UpdatesInArrivalOrder | services/geminiService.ts:194-213 | later updates come from later chunks |
| GeminiService.UpdatesAreStamped | services/geminiService.ts:205-212 | every update carries the pre-generated id and timestamp, no parent, and a non-empty summary and quote |
| GeminiService.NoUpdateWithoutGoalOrPhases | services/geminiService.ts:204 | buffers that never decode to something with a truthy goal or a truthy `phases` value (such as `{}` or `{"foo":1}`) fire no update |
| GeminiService.UpdateFiresOnWorthyBuffer | services/geminiService.ts:204-205 | a buffer that decodes to something with a goal or phases fires an update at once, and it is the latest one |
| GeminiService.FenceLength | services/geminiService.ts:225-226 | the part the final decode strips from the front is exactly "```json" when the text starts with it, else "```" when it starts with that, else nothing |
| GeminiService.DropTrailingFence | services/geminiService.ts:225-226 | `.replace(/```$/, '')`: the text is what is kept followed by what is dropped; the dropped part is "```" or nothing, and something is dropped exactly when the text ends with "```" |
| GeminiService.UnfenceKeepsSlice | services/geminiService.ts:224-226 | the cleaned text is a slice of the trimmed text after its leading marker; without a marker it is the whole text; with a marker and a trailing "```", it is exactly what lies between them; with a marker and no trailing "```" after it, it is everything after the marker |
| GeminiService.FinalPlan | services/geminiService.ts:220-246 | the strict decode of the cleaned text wins; otherwise the repaired decode; failure exactly when both fail; any plan carries the pre-generated id and timestamp |
| GeminiService.ExpectedResult | services/geminiService.ts:77-79 | a missing API key fails before anything else; any plan carries the run's id and timestamp |
| GeminiService.GenerateGoalPlan | services/geminiService.ts:192-248 | the callback receives exactly the snapshots worth surfacing, chunk by chunk and in order, and none without a callback; the result is the final decode of the whole buffer, stamped with the run's id and timestamp |
| PlanTree.Upsert | App.tsx:93-97 | the new plan comes first; every other entry has a different id and comes from the old history; every old entry with a different id is kept |
| PlanTree.UpsertKeepsOthers | App.tsx:95-96 | behind the new plan are the old entries minus exactly those with its id, each as often as before and in their old relative order |
| PlanTree.UpsertLeavesOneEntry | App.tsx:95-96 | afterwards exactly one entry carries the plan's id, and it is the plan |
| PlanTree.UpsertSameIdTwice | App.tsx:95-96 | upserting two versions of a plan equals upserting the later one |
| PlanTree.DeleteByTimestamp | App.tsx:114 | what remains has no entry with that timestamp, and every other entry is kept |
| PlanTree.DeleteRemovesExactly | App.tsx:114 | deletion removes exactly the entries with that timestamp, keeps the others with their multiplicity, and keeps their relative order |
| PlanTree.DeleteAbsentTimestamp | App.tsx:114 | deleting a timestamp no entry has changes nothing |
| PlanTree.FilterKeepsIdsUnique | App.tsx:95 | filtering keeps distinct ids distinct |
| PlanTree.UpsertKeepsIdsUnique | App.tsx:93-97 | an upsert never creates a second entry for an id |
| PlanTree.DeleteKeepsIdsUnique | App.tsx:114 | deletion keeps ids distinct |
| PlanTree.FindById | App.tsx:151 | a found parent is stored and has the id asked for; when nothing is found, no entry has that id |
| PlanTree.FindByIdFirst | App.tsx:151 | `find` returns the earliest entry with the id: no entry before it has that id |
| PlanTree.FindSubPlan | App.tsx:130 | the earliest stored plan with that parent and that goal, if any; none exactly when no entry matches |
| PlanTree.Ancestors | App.tsx:150-159 | the walk up the parent links stops after at most `hops` ancestors |
| PlanTree.AncestorsLinked | App.tsx:150-159 | each ancestor is the first stored entry with the id its successor names as parent; the last one is the parent of the starting plan; all are stored |
| PlanTree.AncestorsStep | App.tsx:151-154 | a found parent goes in front of its own ancestors |
| PlanTree.AncestorsStop | App.tsx:150-157 | with no hops left, no truthy parent, or a parent not stored, there are no more ancestors |
| PlanTree.AncestorsStopReason | App.tsx:150-157 | a walk shorter than the bound ends at a plan without a parent, or at one whose parent is not stored |
| PlanTree.PathOf | App.tsx:144-161 | no plan gives an empty path; otherwise 1 to 21 entries ending with the plan itself, its ancestors all stored, and each entry's id the next entry's `parentId` |
| PlanTree.SelfCycleHitsBound | App.tsx:148-157 | a plan that is its own parent, and is the entry the lookup of its id finds, has `hops` copies of itself as ancestors instead of a hang; the breadcrumb path adds the plan itself |
| PlanTree.ChildPlans | App.tsx:164-169 | exactly the stored plans whose `parentId` is the plan's id, each as often as stored, newest first; empty without a plan |
| PlanTree.SelfListedOnlyAsOwnParent | App.tsx:167 | a plan is among its own children exactly when it is stored and is its own parent |
| PlanTree.FindByIdDistinct | App.tsx:151 | with distinct ids, looking up a stored entry's id finds that entry |
| PlanTree.UpsertedChildIsListed | App.tsx:164-169 | a sub-plan stored by upsert is listed among the children of its parent |
| PlanTree.UpsertedChildIsLinked | App.tsx:144-161 | with the parent stored and ids distinct, the breadcrumb path of an upserted sub-plan ends with the parent and then the sub-plan |
| AppShell.Linked | App.tsx:77-87 | only a truthy `parentId` is written onto the plan; nothing else changes |
| AppShell.App.constructor | App.tsx:12-19 | no plan, empty history, not loading, no error, home view, no task being decomposed |
| AppShell.App.HandleGenerate | App.tsx:63-106 | success: the linked final plan is shown, upserted into the history, and the banner is cleared; failure: the last partial plan (or the earlier one) stays shown, the history is unchanged, and the banner is set; either way loading ends and no task is being decomposed; distinct ids stay distinct |
| AppShell.App.OnPartialUpdate | App.tsx:73-81 | the snapshot, linked, is shown and nothing else changes |
| AppShell.App.StreamUpdates | App.tsx:71-82 | after the callback invocations the last update is shown, and nothing else changes |
| AppShell.App.Settle | App.tsx:84-105 | a completed plan is shown and upserted; a failure sets the banner; loading ends |
| AppShell.App.HandleLoadPlan | App.tsx:108-111 | the saved plan is shown on the home view |
| AppShell.App.HandleDeleteHistoryItem | App.tsx:113-118 | the history loses exactly the entries with that timestamp; the shown plan is cleared exactly when it has that timestamp; distinct ids stay distinct |
| AppShell.App.HandleClearHistory | App.tsx:120-123 | empty history, no plan shown, nothing else changes |
| AppShell.App.HandleBreakdown | App.tsx:126-141 | without a shown plan nothing changes; a stored sub-plan for this task of the shown plan is shown again and no generation starts; otherwise a generation runs with the shown plan's id as parent |
| AppShell.App.PlanPath | App.tsx:144-161 | the `while` loop builds exactly `PathOf(history, plan)` |
| AppShell.App.Children | App.tsx:164-169 | the stored sub-plans of the shown plan, newest first; none without a plan |
| PlanStats.StepsOfLayout | components/PlanStats.tsx:56-58 | step `j` of phase `i` sits at position `StepCount(phases[..i]) + j` of the flattened steps: phase order, then step order |
| PlanStats.TotalIsSumOfPhases | components/PlanStats.tsx:60 | the total is the sum of the phases' step counts |
| PlanStats.StepsOfMembers | components/PlanStats.tsx:57 | every flattened step belongs to some phase |
| PlanStats.Tally | components/PlanStats.tsx:63-66 | the count of each key is its number of occurrences |
| PlanStats.PercentageRounds | components/PlanStats.tsx:86 | the share is the nearest integer to 100·count/total, halves rounded up; at most 100 for a part and exactly 100 for all |
| PlanStats.DifficultyDataCounts | components/PlanStats.tsx:62-73 | the donut is the list Easy, Medium, Hard, each with the number of steps having it, with the zero counts left out; so each entry is a difficulty that occurs, with its count, and every difficulty that occurs has its entry |
| PlanStats.EntriesCount | components/PlanStats.tsx:68-72 | the same for any list of keys: one entry per key, in the order of the keys, with the zero counts left out |
| PlanStats.TypeDataCounts | components/PlanStats.tsx:75-88 | each type bar is a type that occurs, with its number of steps and its rounded share; the bars are ordered by count, largest first; they are the filtered tally rearranged, one bar per entry of it |
| PlanStats.TypeBarsCount | components/PlanStats.tsx:82-87 | the same for any list of keys |
| PlanStats.TypeBarCounts | components/PlanStats.tsx:82-87 | the same for one bar |
| PlanStats.TypeDataComplete | components/PlanStats.tsx:82-87 | every type that occurs has a bar |
| PlanStats.TypeBarsComplete | components/PlanStats.tsx:82-87 | the same for any list of keys |
| PlanStats.DifficultySlicesSumToTotal | components/PlanStats.tsx:62-73 | when every step has one of the three declared difficulties, the donut's values add up to the total step count |
| PlanStats.SlicesSumToCount | components/PlanStats.tsx:62-73 | the same for any list of distinct keys |
| PlanStats.TypeBarsSumToTotal | components/PlanStats.tsx:75-88 | when every step has one of the four declared types, the bar values add up to the total step count |
| PlanStats.BarsSumToCount | components/PlanStats.tsx:75-88 | the same for any list of distinct keys |
| Seqs.Filter | App.tsx:95 | `filter`: only elements satisfying the predicate, taken from the input; every input element satisfying it is kept |
| Seqs.FilterAppend | App.tsx:95 | filtering keeps the input's relative order |
| Seqs.FilterMultiset | App.tsx:114 | filtering drops exactly the failing elements, with their multiplicity |
| Seqs.FindFirst | App.tsx:130 | the index search behind `find`: the first index satisfying the predicate, none exactly when no element does |
| Seqs.SortDesc | components/PlanStats.tsx:87 | the stable descending sort is a permutation and is ordered largest first |
| Seqs.InsertDesc | components/PlanStats.tsx:87 | one insertion step of that sort adds exactly the element and nothing else |
| Seqs.InsertDescSorted | components/PlanStats.tsx:87 | inserting into a list ordered largest first keeps it so ordered |
| Seqs.InsertDescBelow | components/PlanStats.tsx:87 | inserting keeps every key under a bound that the element and the list respect |
| Seqs.SumByInsert | components/PlanStats.tsx:87 | an insertion step adds the element's value to the sum |
| Seqs.SumByFilter | components/PlanStats.tsx:72 | dropping entries worth zero keeps the sum |
| Seqs.SumBySort | components/PlanStats.tsx:87 | sorting keeps the sum |

## Left out

- The hosted model: the client, the prompt texts and the response schema
  (services/geminiService.ts:1-7, 81-190). The chunks arrive as a parameter.
- `JSON.parse` and the TypeScript casts. They are the two opaque partial functions of
  `Backend`. Whether a given repaired text decodes is therefore not modelled. During
  streaming, a decode to a value that is not an object (such as `null`, where reading `.goal`
  throws and the error is caught) is covered by the partial decoder returning nothing.
- Final plans with missing fields. Neither final decode checks the shape of what it parses:
  the strict one only casts it (services/geminiService.ts:228) and the fallback takes it
  uncast (:240). So a final text that decodes to `null`, a number or an object without `goal`,
  `summary` or `phases` still yields a "plan" whose missing fields are `undefined`. `PlanBody`
  has those fields, so the model's decoder either returns such a body complete or returns
  nothing, and the model then reports `DecodeError` where the source returns a plan.
- Streamed phases without `steps`. The partial decoder's phases always carry a step list, so the
  model cannot express a partial plan with a phase the decode left without `steps`. The source
  passes such a phase on unchanged, and the statistics panel's flattening then yields an
  `undefined` step, so the tally at components/PlanStats.tsx:63-64 would throw if the
  panel is drawn mid-stream.
- Failures of the request or the stream (services/geminiService.ts:138, 194). `GenError` has
  no case for them and `Backend` always delivers all its chunks. In the source such an error
  reaches the same `catch` (App.tsx:99-101) as a failed decode.
- `crypto.randomUUID()` and `Date.now()`. They are fields of `Backend`.
- The asynchronous `for await` streaming. It is a loop over a given sequence of chunks.
  Two generations in flight at once, and the order in which React applies batched state
  updates, are not modelled: each handler's setters take effect in program order.
- `console.error` and `console.log`.
- AppShell.App.HandleBreakdown: the model runs the generation to its end inside the
  handler. The source starts it without awaiting it, so the intermediate state (task title
  set, loading on) is visible to the page while the model does not expose it.
- AppShell.App.HandleGenerate: `isSubTask` only selects the prompt, which is outside the
  model, so the parameter has no effect.
- The language setting, the translations and the translated labels of the chart entries.
- Loading and saving the history and language in `localStorage` (App.tsx:21-46). The
  model's history starts empty. That history ids stay distinct is stated as preserved by each
  handler, not as a fact about stored data.
- The mouse-move background effect (App.tsx:48-61), the loading overlay and all rendering.
- PlanStats.Tally: the source counts into a `{}` object, which inherits prototype keys such as
  "constructor". A step whose type or difficulty has such a name is not counted there as the
  model counts it. No chart key has such a name, so the charts are unaffected.
- PlanStats.PercentageRounds: `Math.round((count / totalSteps) * 100)` is computed in
  floating point. The model rounds the exact quotient, so near-half values may round
  differently. With no steps there are no bars, so the source's division by zero never
  reaches the chart, and the model stores 0 there.
- Seqs.SortDesc: the sort is stable, and the model's insertion sort is stable too, but
  the order of equal counts is not stated as a property.
- JsonRepair.StepCases: the lemma documents the scan step's behaviour. It follows from the
  definition of `Step` alone.
