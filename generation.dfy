/** The accumulation loop of `generateGoalPlan` (services/geminiService.ts): stream chunks are
    appended to a buffer, each buffer is repaired and decoded to offer a partial plan to the
    caller, and the whole text is decoded once more at the end into the final plan. The call to
    the hosted model, the prompts and the schema are outside the model: the chunks arrive as a
    parameter, and `JSON.parse` with its TypeScript casts is a pair of opaque partial functions. */
module GeminiService {
  import opened Wrappers
  import opened Plans
  import JsonRepair
  import Seqs

  /** A decoded buffer seen through `as Partial<PlanResponse>`: any top-level field may be
      missing. Only the fields the partial update reads are kept. */
  datatype PartialPlan = PartialPlan(
    goal: Option<string>,
    summary: Option<string>,
    motivationalQuote: Option<string>,
    phases: Option<seq<PlanPhase>>)

  /** A decoded final text seen through `as Omit<PlanResponse, 'id' | 'createdAt'>`. The
      payload may still carry its own `id`, `createdAt` or `parentId`; the object spread copies
      them, and the stamp then overrides the first two. */
  datatype PlanBody = PlanBody(
    id: Option<string>,
    parentId: Option<string>,
    goal: string,
    summary: string,
    motivationalQuote: string,
    phases: seq<PlanPhase>,
    createdAt: Option<int>)

  datatype GenError = MissingApiKey | DecodeError

  /** What the environment contributes to one generation: whether an API key is configured,
      the values `crypto.randomUUID()` and `Date.now()` return, the `text` of each stream chunk
      (None when the SDK reports no text), and the two views of `JSON.parse`. */
  datatype Backend = Backend(
    apiKeyPresent: bool,
    planId: string,
    timestamp: int,
    chunks: seq<Option<string>>,
    parsePartial: string -> Option<PartialPlan>,
    parseBody: string -> Option<PlanBody>)

  const GENERATING_SUMMARY: string := "Generating strategy..."
  const PLACEHOLDER_QUOTE: string := "..."

  // ---------------------------------------------------------------- partial updates

  /** `s || fallback` for an optional string: the empty string falls back too. */
  function OrElse(s: Option<string>, fallback: string): string {
    if Truthy(s) then s.value else fallback
  }

  /** `partialObj.goal || partialObj.phases`: a non-empty goal, or a truthy phases value:
      any array, even an empty one (a decoded `null` is reported as absent). */
  predicate WorthSurfacing(p: PartialPlan) {
    Truthy(p.goal) || p.phases.Some?
  }

  /** The plan handed to the partial-update callback for one decode attempt, if any. */
  function Snapshot(goal: string, planId: string, timestamp: int, decoded: Option<PartialPlan>): (r: Option<Plan>)
    ensures r.Some? <==> decoded.Some? && WorthSurfacing(decoded.value)
    ensures r.Some? ==> r.value.id == planId && r.value.createdAt == timestamp && r.value.parentId.None?
  {
    match decoded
    case None => None
    case Some(p) =>
      if !WorthSurfacing(p) then None
      else Some(Plan(
        id := planId,
        parentId := None,
        goal := OrElse(p.goal, goal),
        summary := OrElse(p.summary, GENERATING_SUMMARY),
        motivationalQuote := OrElse(p.motivationalQuote, PLACEHOLDER_QUOTE),
        phases := p.phases.GetOr([]),
        createdAt := timestamp))
  }

  /** What each field of an offered snapshot holds: a truthy decoded value wins, and the user's
      goal, the fixed placeholders and `[]` stand in otherwise. A snapshot without a truthy goal
      was offered because of its phases. */
  lemma SnapshotFields(goal: string, planId: string, timestamp: int, decoded: Option<PartialPlan>)
    requires Snapshot(goal, planId, timestamp, decoded).Some?
    ensures var p := decoded.value;
            var r := Snapshot(goal, planId, timestamp, decoded).value;
            // a truthy decoded field wins
            && (Truthy(p.goal) ==> r.goal == p.goal.value)
            && (Truthy(p.summary) ==> r.summary == p.summary.value)
            && (Truthy(p.motivationalQuote) ==> r.motivationalQuote == p.motivationalQuote.value)
            && (p.phases.Some? ==> r.phases == p.phases.value)
            // otherwise the user's goal, the fixed placeholders and [] stand in
            && (!Truthy(p.goal) ==> r.goal == goal && p.phases.Some?)
            && (!Truthy(p.summary) ==> r.summary == GENERATING_SUMMARY)
            && (!Truthy(p.motivationalQuote) ==> r.motivationalQuote == PLACEHOLDER_QUOTE)
            && (p.phases.None? ==> r.phases == [])
            // so summary and quote are never empty while streaming
            && r.summary != "" && r.motivationalQuote != ""
  {
  }

  /** `accumulatedText += chunk.text`: a chunk without text appends the string "undefined". */
  function ChunkText(chunk: Option<string>): string {
    chunk.GetOr("undefined")
  }

  /** The buffer after the given chunks. */
  function Accumulated(chunks: seq<Option<string>>): (r: string)
    ensures chunks == [] ==> r == ""
  {
    if chunks == [] then "" else Accumulated(chunks[..|chunks| - 1]) + ChunkText(chunks[|chunks| - 1])
  }

  lemma AccumulatedPrefixStep(chunks: seq<Option<string>>, i: nat)
    requires i < |chunks|
    ensures Accumulated(chunks[..i + 1]) == Accumulated(chunks[..i]) + ChunkText(chunks[i])
  {
    assert chunks[..i + 1][..i] == chunks[..i];
  }

  /** The snapshot offered after the first `n` chunks have arrived. */
  function SnapshotAfter(goal: string, b: Backend, n: nat): Option<Plan>
    requires n <= |b.chunks|
  {
    Snapshot(goal, b.planId, b.timestamp, b.parsePartial(JsonRepair.Repaired(Accumulated(b.chunks[..n]))))
  }

  /** The snapshots offered after each of the first `n` chunks, one per chunk. */
  function Offers(goal: string, b: Backend, n: nat): (r: seq<Option<Plan>>)
    requires n <= |b.chunks|
    ensures |r| == n
  {
    seq(n, (j: int) requires 0 <= j < n => SnapshotAfter(goal, b, j + 1))
  }

  /** The offer after chunk `j + 1` is the snapshot of the buffer at that point. */
  lemma OffersAreSnapshots(goal: string, b: Backend, n: nat)
    requires n <= |b.chunks|
    ensures forall j :: 0 <= j < n ==> Offers(goal, b, n)[j] == SnapshotAfter(goal, b, j + 1)
  {
  }

  /** The partial updates fired while the first `n` chunks arrive, in arrival order: the
      offers that are not empty. */
  function Updates(goal: string, b: Backend, n: nat): (r: seq<Plan>)
    requires n <= |b.chunks|
  {
    Seqs.Somes(Offers(goal, b, n))
  }

  /** One more chunk fires its snapshot, if there is one, after the earlier updates. */
  lemma UpdatesStep(goal: string, b: Backend, n: nat)
    requires n < |b.chunks|
    ensures Updates(goal, b, n + 1)
            == Updates(goal, b, n) + (match SnapshotAfter(goal, b, n + 1) case None => [] case Some(p) => [p])
  {
    var offers := Offers(goal, b, n + 1);
    OffersAreSnapshots(goal, b, n);
    OffersAreSnapshots(goal, b, n + 1);
    assert offers[..n] == Offers(goal, b, n);
  }

  /** The number of chunks after which the `k`-th update was fired: every update is the
      snapshot of one of the buffers seen so far. */
  function SourceOfUpdate(goal: string, b: Backend, n: nat, k: nat): (j: nat)
    requires n <= |b.chunks| && k < |Updates(goal, b, n)|
    ensures 1 <= j <= n && Offers(goal, b, n)[j - 1] == Some(Updates(goal, b, n)[k])
  {
    Seqs.SomeSource(Offers(goal, b, n), k) + 1
  }

  /** Every update is the snapshot of the buffer after its source chunk. */
  lemma UpdateIsSnapshot(goal: string, b: Backend, n: nat, k: nat)
    requires n <= |b.chunks| && k < |Updates(goal, b, n)|
    ensures SnapshotAfter(goal, b, SourceOfUpdate(goal, b, n, k)) == Some(Updates(goal, b, n)[k])
  {
    var j := SourceOfUpdate(goal, b, n, k);
    OffersAreSnapshots(goal, b, n);
    assert Offers(goal, b, n)[j - 1] == SnapshotAfter(goal, b, j);
  }

  /** Later updates come from later buffers: the updates keep the order in which their
      buffers arrived. */
  lemma UpdatesInArrivalOrder(goal: string, b: Backend, n: nat, k: nat, l: nat)
    requires n <= |b.chunks| && k < l < |Updates(goal, b, n)|
    ensures SourceOfUpdate(goal, b, n, k) < SourceOfUpdate(goal, b, n, l)
  {
    Seqs.SomesInOrder(Offers(goal, b, n), k, l);
  }

  /** Every update carries the run's id and timestamp, no parent, and a non-empty summary and
      quote. */
  lemma UpdatesAreStamped(goal: string, b: Backend, n: nat, k: nat)
    requires n <= |b.chunks| && k < |Updates(goal, b, n)|
    ensures var u := Updates(goal, b, n)[k];
            u.id == b.planId && u.createdAt == b.timestamp && u.parentId.None?
            && u.summary != "" && u.motivationalQuote != ""
  {
    UpdateIsSnapshot(goal, b, n, k);
    var j := SourceOfUpdate(goal, b, n, k);
    SnapshotFields(goal, b.planId, b.timestamp, b.parsePartial(JsonRepair.Repaired(Accumulated(b.chunks[..j]))));
  }

  /** Buffers that never decode to a truthy goal or phases value (such as `{}` or `{"foo":1}`)
      fire no update at all. */
  lemma NoUpdateWithoutGoalOrPhases(goal: string, b: Backend, n: nat)
    requires n <= |b.chunks|
    requires forall j :: 1 <= j <= n ==>
               var d := b.parsePartial(JsonRepair.Repaired(Accumulated(b.chunks[..j])));
               d.None? || !WorthSurfacing(d.value)
    ensures Updates(goal, b, n) == []
  {
    OffersAreSnapshots(goal, b, n);
    Seqs.SomesOfNone(Offers(goal, b, n));
  }

  /** A buffer that decodes to something with a goal or phases fires an update right away:
      it is the last one seen after that chunk. */
  lemma UpdateFiresOnWorthyBuffer(goal: string, b: Backend, n: nat)
    requires 1 <= n <= |b.chunks|
    requires var d := b.parsePartial(JsonRepair.Repaired(Accumulated(b.chunks[..n])));
             d.Some? && WorthSurfacing(d.value)
    ensures |Updates(goal, b, n)| > 0
    ensures Updates(goal, b, n)[|Updates(goal, b, n)| - 1] == SnapshotAfter(goal, b, n).value
  {
    var offers := Offers(goal, b, n);
    OffersAreSnapshots(goal, b, n);
    assert offers[n - 1] == SnapshotAfter(goal, b, n);
  }

  // ---------------------------------------------------------------- the final plan

  /** The leading marker the final decode strips: "```json", else "```", else nothing. */
  function FenceLength(t: string): (n: nat)
    ensures n <= |t|
    // the stripped part is exactly the longest marker the text starts with
    ensures t[..n] == if JsonRepair.HasPrefix(t, JsonRepair.JSON_FENCE) then JsonRepair.JSON_FENCE
                      else if JsonRepair.HasPrefix(t, JsonRepair.FENCE) then JsonRepair.FENCE
                      else ""
  {
    if JsonRepair.HasPrefix(t, JsonRepair.JSON_FENCE) then |JsonRepair.JSON_FENCE|
    else if JsonRepair.HasPrefix(t, JsonRepair.FENCE) then |JsonRepair.FENCE|
    else 0
  }

  /** `.replace(/```$/, '')`: one trailing marker goes, and nothing else. */
  function DropTrailingFence(u: string): (r: string)
    // the text is what is kept followed by what is dropped, and the dropped part is a marker or nothing
    ensures |r| <= |u| && u == r + u[|r|..]
    ensures u[|r|..] == "" || u[|r|..] == JsonRepair.FENCE
    // something is dropped exactly when the text ends with a marker
    ensures |r| < |u| <==> JsonRepair.HasSuffix(u, JsonRepair.FENCE)
  {
    if JsonRepair.HasSuffix(u, JsonRepair.FENCE) then u[..|u| - |JsonRepair.FENCE|] else u
  }

  /** The fence handling of the final decode on the trimmed text `t`: when it starts with a
      fence marker, that one marker and one trailing "```" are removed (unlike the repair, which
      may drop two leading markers and never a trailing one). */
  function Unfence(t: string): (r: string)
    ensures |r| <= |t|
  {
    var k := FenceLength(t);
    if k == 0 then t else DropTrailingFence(t[k..])
  }

  /** What `Unfence` keeps: a slice of its input after the leading marker; the whole input
      when there is no marker; and, with a marker, everything between it and a trailing
      "```" when there is one. */
  lemma UnfenceKeepsSlice(t: string)
    ensures var r := Unfence(t);
            var k := FenceLength(t);
            && k + |r| <= |t| && r == t[k..k + |r|]
            && (k == 0 ==> r == t)
            && (k > 0 && |t| - k >= 3 && JsonRepair.HasSuffix(t, JsonRepair.FENCE) ==> r == t[k..|t| - 3])
            && (k > 0 && !(|t| - k >= 3 && JsonRepair.HasSuffix(t, JsonRepair.FENCE)) ==> r == t[k..])
  {
    var k := FenceLength(t);
    if k > 0 {
      DropAfterMarker(t, k);
    }
  }

  /** Dropping a trailing marker from what follows position `k` keeps a slice of `t` that
      starts at `k`, and ends right before a trailing "```" when there is one. */
  lemma DropAfterMarker(t: string, k: nat)
    requires k <= |t|
    ensures var r := DropTrailingFence(t[k..]);
            && k + |r| <= |t| && r == t[k..k + |r|]
            && (|t| - k >= 3 && JsonRepair.HasSuffix(t, JsonRepair.FENCE) ==> r == t[k..|t| - 3])
            && (!(|t| - k >= 3 && JsonRepair.HasSuffix(t, JsonRepair.FENCE)) ==> r == t[k..])
  {
    var u := t[k..];
    var r := DropTrailingFence(u);
    assert r == u[..|r|];
    PrefixOfSuffix(t, k, |r|);
    if |u| >= 3 {
      assert u[|u| - 3..] == t[|t| - 3..];
    }
    if |u| >= 3 && JsonRepair.HasSuffix(t, JsonRepair.FENCE) {
      assert JsonRepair.HasSuffix(u, JsonRepair.FENCE);
      assert |u[|r|..]| == 3;
    }
  }

  /** A prefix of `t[k..]` is a slice of `t`. */
  lemma PrefixOfSuffix(t: string, k: nat, n: nat)
    requires k + n <= |t|
    ensures t[k..][..n] == t[k..k + n]
  {
  }

  /** The text the strict final decode reads. */
  function CleanText(text: string): string {
    Unfence(JsonRepair.Trim(text))
  }

  /** `{...parsed, id: planId, createdAt: timestamp}`. */
  function Stamp(body: PlanBody, planId: string, timestamp: int): Plan {
    Plan(planId, body.parentId, body.goal, body.summary, body.motivationalQuote, body.phases, timestamp)
  }

  /** The final step: a strict decode of the cleaned text, falling back to a decode of the
      repaired text, failing only when both fail. */
  function FinalPlan(text: string, b: Backend): (r: Result<Plan, GenError>)
    // whatever path produced it, the plan carries the pre-generated identity
    ensures r.Success? ==> r.value.id == b.planId && r.value.createdAt == b.timestamp
    ensures r.Failure? <==> b.parseBody(CleanText(text)).None? && b.parseBody(JsonRepair.Repaired(text)).None?
    ensures r.Failure? ==> r.error == DecodeError
    // the strict decode wins over the repaired one
    ensures b.parseBody(CleanText(text)).Some? ==> r == Success(Stamp(b.parseBody(CleanText(text)).value, b.planId, b.timestamp))
    ensures b.parseBody(CleanText(text)).None? && b.parseBody(JsonRepair.Repaired(text)).Some? ==>
              r == Success(Stamp(b.parseBody(JsonRepair.Repaired(text)).value, b.planId, b.timestamp))
  {
    match b.parseBody(CleanText(text))
    case Some(parsed) => Success(Stamp(parsed, b.planId, b.timestamp))
    case None =>
      match b.parseBody(JsonRepair.Repaired(text))
      case Some(parsed) => Success(Stamp(parsed, b.planId, b.timestamp))
      case None => Failure(DecodeError)
  }

  /** The updates one generation fires, as a function of its inputs. */
  function ExpectedUpdates(goal: string, b: Backend, hasCallback: bool): seq<Plan> {
    if b.apiKeyPresent && hasCallback then Updates(goal, b, |b.chunks|) else []
  }

  /** The outcome of one generation, as a function of its inputs. */
  function ExpectedResult(b: Backend): (r: Result<Plan, GenError>)
    ensures r.Success? ==> r.value.id == b.planId && r.value.createdAt == b.timestamp
    ensures !b.apiKeyPresent ==> r == Failure(MissingApiKey)
  {
    if !b.apiKeyPresent then Failure(MissingApiKey) else FinalPlan(Accumulated(b.chunks), b)
  }

  /** `generateGoalPlan` after the prompt has been chosen (the choice only affects the request,
      which is outside the model). `updates` are the arguments of the callback's invocations,
      in order; `hasCallback` says whether an `onPartialUpdate` was supplied. */
  method GenerateGoalPlan(goal: string, b: Backend, hasCallback: bool)
    returns (updates: seq<Plan>, result: Result<Plan, GenError>)
    ensures updates == ExpectedUpdates(goal, b, hasCallback)
    ensures result == ExpectedResult(b)
    ensures result.Success? ==> result.value.id == b.planId && result.value.createdAt == b.timestamp
    ensures !hasCallback ==> updates == []
  {
    updates := [];
    if !b.apiKeyPresent {
      result := Failure(MissingApiKey);
      return;
    }

    var accumulatedText := "";
    for i := 0 to |b.chunks|
      invariant accumulatedText == Accumulated(b.chunks[..i])
      invariant updates == if hasCallback then Updates(goal, b, i) else []
    {
      AccumulatedPrefixStep(b.chunks, i);
      accumulatedText := accumulatedText + ChunkText(b.chunks[i]);
      if hasCallback {
        UpdatesStep(goal, b, i);
        var repairedJson := JsonRepair.NaiveJsonRepair(accumulatedText);
        var partialPlan := Snapshot(goal, b.planId, b.timestamp, b.parsePartial(repairedJson));
        if partialPlan.Some? {
          updates := updates + [partialPlan.value];
        }
      }
    }
    assert b.chunks[..|b.chunks|] == b.chunks;

    var cleanText := CleanText(accumulatedText);
    var parsed := b.parseBody(cleanText);
    if parsed.Some? {
      result := Success(Stamp(parsed.value, b.planId, b.timestamp));
    } else {
      var repaired := JsonRepair.NaiveJsonRepair(accumulatedText);
      var reparsed := b.parseBody(repaired);
      if reparsed.Some? {
        result := Success(Stamp(reparsed.value, b.planId, b.timestamp));
      } else {
        result := Failure(DecodeError);
      }
    }
  }
}
