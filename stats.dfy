/** The statistics panel of components/PlanStats.tsx: the steps of a plan flattened, their
    number, and the two charts built from per-key counts. */
module PlanStats {
  import opened Plans
  import opened Seqs

  // ---------------------------------------------------------------- the steps

  /** `phases.flatMap(phase => phase.steps)`. */
  function StepsOf(phases: seq<PlanPhase>): (r: seq<PlanStep>)
  {
    if phases == [] then [] else phases[0].steps + StepsOf(phases[1..])
  }

  /** The number of steps, phase by phase. */
  function StepCount(phases: seq<PlanPhase>): nat {
    if phases == [] then 0 else |phases[0].steps| + StepCount(phases[1..])
  }

  function AllSteps(plan: Plan): seq<PlanStep> {
    StepsOf(plan.phases)
  }

  /** `totalSteps`. */
  function TotalSteps(plan: Plan): nat {
    |AllSteps(plan)|
  }

  /** Flattening keeps every step, phase after phase and in order within a phase: step `j` of
      phase `i` sits after all the steps of the phases before it. */
  lemma {:induction false} StepsOfLayout(phases: seq<PlanPhase>, i: nat, j: nat)
    requires i < |phases| && j < |phases[i].steps|
    ensures StepCount(phases[..i]) + j < |StepsOf(phases)|
    ensures StepsOf(phases)[StepCount(phases[..i]) + j] == phases[i].steps[j]
  {
    if i > 0 {
      StepsOfLayout(phases[1..], i - 1, j);
      assert phases[1..][..i - 1] == phases[1..i];
      assert phases[..i][1..] == phases[1..i];
    }
  }

  /** The total is the sum of the phases' step counts. */
  lemma {:induction false} TotalIsSumOfPhases(phases: seq<PlanPhase>)
    ensures |StepsOf(phases)| == StepCount(phases)
  {
    if phases != [] {
      TotalIsSumOfPhases(phases[1..]);
    }
  }

  /** Every flattened step belongs to some phase. */
  lemma {:induction false} StepsOfMembers(phases: seq<PlanPhase>, k: nat)
    requires k < |StepsOf(phases)|
    ensures exists i :: 0 <= i < |phases| && StepsOf(phases)[k] in phases[i].steps
  {
    var head := phases[0].steps;
    if k < |head| {
      assert StepsOf(phases)[k] == head[k];
    } else {
      StepsOfMembers(phases[1..], k - |head|);
      var i :| 0 <= i < |phases[1..]| && StepsOf(phases[1..])[k - |head|] in phases[1..][i].steps;
      assert phases[1..][i] == phases[i + 1];
    }
  }

  // ---------------------------------------------------------------- counting

  /** `counts[key] || 0`: a missing key reads as zero. */
  function Lookup(counts: map<string, nat>, key: string): nat {
    if key in counts then counts[key] else 0
  }

  /** The `reduce` that counts the keys: `acc[key] = (acc[key] || 0) + 1`, left to right. */
  function Tally(keys: seq<string>): (r: map<string, nat>)
    ensures forall key :: Lookup(r, key) == multiset(keys)[key]
  {
    if keys == [] then map[]
    else
      var init := keys[..|keys| - 1];
      var last := keys[|keys| - 1];
      var m := Tally(init);
      assert keys == init + [last];
      m[last := Lookup(m, last) + 1]
  }

  function Difficulties(steps: seq<PlanStep>): (r: seq<string>)
    ensures |r| == |steps| && forall i :: 0 <= i < |steps| ==> r[i] == steps[i].difficulty
  {
    seq(|steps|, i requires 0 <= i < |steps| => steps[i].difficulty)
  }

  function TaskTypes(steps: seq<PlanStep>): (r: seq<string>)
    ensures |r| == |steps| && forall i :: 0 <= i < |steps| ==> r[i] == steps[i].taskType
  {
    seq(|steps|, i requires 0 <= i < |steps| => steps[i].taskType)
  }

  // ---------------------------------------------------------------- the charts

  /** `Object.keys(COLORS)` and `Object.keys(TYPE_COLORS)`: the enumeration values in
      declaration order. */
  const DIFFICULTY_KEYS: seq<string> := [Easy.Name(), Medium.Name(), Hard.Name()]
  const TYPE_KEYS: seq<string> := [Research.Name(), Action.Name(), Milestone.Name(), Preparation.Name()]

  /** One chart entry: the key it counts and the count. The translated label shown beside it
      is not modelled. */
  datatype Entry = Entry(originalKey: string, value: nat)

  /** A type bar also carries its rounded share of all steps, in percent. */
  datatype TypeEntry = TypeEntry(originalKey: string, value: nat, percentage: nat)

  /** `Math.round(((count / totalSteps) * 100)` in exact arithmetic: the nearest integer,
      halves rounded up. An empty plan has no bars, so `total` is positive where it is used. */
  function Percentage(count: nat, total: nat): nat
    requires total > 0
  {
    (200 * count + total) / (2 * total)
  }

  /** The share is the nearest integer to `100 * count / total`, at most 100 for a part of
      the total and exactly 100 for all of it. */
  lemma PercentageRounds(count: nat, total: nat)
    requires total > 0
    ensures var r := Percentage(count, total);
            && 2 * total * r <= 200 * count + total < 2 * total * (r + 1)
            && (count <= total ==> r <= 100)
            && (count == total ==> r == 100)
  {
    var q := Percentage(count, total);
    var rem := (200 * count + total) % (2 * total);
    assert 200 * count + total == 2 * total * q + rem && 0 <= rem < 2 * total;
    assert 2 * total * (q + 1) == 2 * total * q + 2 * total;
    if count <= total && q > 100 {
      MultiplyMonotone(2 * total, 101, q);
      assert false;
    }
    if count == total && q < 100 {
      MultiplyMonotone(2 * total, q + 1, 100);
      assert false;
    }
  }

  lemma MultiplyMonotone(a: nat, x: int, y: int)
    requires x <= y
    ensures a * x <= a * y
  {
    assert a * y - a * x == a * (y - x);
  }

  function IsPresent(): Entry -> bool {
    (e: Entry) => e.value > 0
  }

  function IsPresentType(): TypeEntry -> bool {
    (e: TypeEntry) => e.value > 0
  }

  function ValueOf(): TypeEntry -> int {
    (e: TypeEntry) => e.value
  }

  /** The keys mapped to their entries, before the filter. */
  function Tabulate(keys: seq<string>, counts: map<string, nat>): (r: seq<Entry>)
    ensures |r| == |keys| && forall i :: 0 <= i < |keys| ==> r[i] == Entry(keys[i], Lookup(counts, keys[i]))
  {
    seq(|keys|, i requires 0 <= i < |keys| => Entry(keys[i], Lookup(counts, keys[i])))
  }

  function TabulateTypes(keys: seq<string>, counts: map<string, nat>, total: nat): (r: seq<TypeEntry>)
    ensures |r| == |keys|
    ensures forall i :: 0 <= i < |keys| ==> r[i].originalKey == keys[i] && r[i].value == Lookup(counts, keys[i])
    ensures forall i :: 0 <= i < |keys| && total > 0 ==> r[i].percentage == Percentage(r[i].value, total)
  {
    seq(|keys|, i requires 0 <= i < |keys| =>
      var v := Lookup(counts, keys[i]);
      TypeEntry(keys[i], v, if total > 0 then Percentage(v, total) else 0))
  }

  /** `difficultyData`. */
  function DifficultyData(plan: Plan): seq<Entry> {
    Filter(Tabulate(DIFFICULTY_KEYS, Tally(Difficulties(AllSteps(plan)))), IsPresent())
  }

  /** The type bars over any list of keys. */
  function TypeBars(keys: seq<string>, steps: seq<PlanStep>): seq<TypeEntry> {
    SortDesc(Filter(TabulateTypes(keys, Tally(TaskTypes(steps)), |steps|), IsPresentType()), ValueOf())
  }

  /** `typeData`: filtered, then sorted by count, largest first (see `TypeBars`). */
  function TypeData(plan: Plan): seq<TypeEntry> {
    TypeBars(TYPE_KEYS, AllSteps(plan))
  }

  /** The number of steps whose difficulty is `key`. */
  function CountDifficulty(steps: seq<PlanStep>, key: string): nat {
    multiset(Difficulties(steps))[key]
  }

  function CountType(steps: seq<PlanStep>, key: string): nat {
    multiset(TaskTypes(steps))[key]
  }

  /** The difficulty chart has one entry per difficulty that occurs, carrying the number of
      steps with it, in the order Easy, Medium, Hard; difficulties that do not occur have
      no entry. */
  lemma DifficultyDataCounts(plan: Plan)
    ensures var r := DifficultyData(plan);
            var steps := AllSteps(plan);
            && r == Filter([Entry("Easy", CountDifficulty(steps, "Easy")),
                            Entry("Medium", CountDifficulty(steps, "Medium")),
                            Entry("Hard", CountDifficulty(steps, "Hard"))], IsPresent())
            && (forall k :: 0 <= k < |r| ==>
                  r[k].originalKey in DIFFICULTY_KEYS && r[k].value == CountDifficulty(steps, r[k].originalKey)
                  && r[k].value > 0)
            && (forall key :: key in DIFFICULTY_KEYS && CountDifficulty(steps, key) > 0 ==>
                  Entry(key, CountDifficulty(steps, key)) in r)
  {
    var steps := AllSteps(plan);
    EntriesCount(DIFFICULTY_KEYS, steps);
    assert DIFFICULTY_KEYS == ["Easy", "Medium", "Hard"];
    assert Counted(DIFFICULTY_KEYS, steps)
        == [Entry("Easy", CountDifficulty(steps, "Easy")),
            Entry("Medium", CountDifficulty(steps, "Medium")),
            Entry("Hard", CountDifficulty(steps, "Hard"))];
  }

  /** One entry per key, in the order of the keys, carrying the number of steps with it. */
  function Counted(keys: seq<string>, steps: seq<PlanStep>): (r: seq<Entry>)
    ensures |r| == |keys|
  {
    seq(|keys|, i requires 0 <= i < |keys| => Entry(keys[i], CountDifficulty(steps, keys[i])))
  }

  /** `DifficultyDataCounts` for any list of keys: the entries follow the order of the keys,
      one per key whose count is positive. */
  lemma EntriesCount(keys: seq<string>, steps: seq<PlanStep>)
    ensures var r := Filter(Tabulate(keys, Tally(Difficulties(steps))), IsPresent());
            && r == Filter(Counted(keys, steps), IsPresent())
            && (forall k :: 0 <= k < |r| ==>
                  r[k].originalKey in keys && r[k].value == CountDifficulty(steps, r[k].originalKey)
                  && r[k].value > 0)
            && (forall key :: key in keys && CountDifficulty(steps, key) > 0 ==>
                  Entry(key, CountDifficulty(steps, key)) in r)
  {
    var all := Tabulate(keys, Tally(Difficulties(steps)));
    assert all == Counted(keys, steps);
    var r := Filter(all, IsPresent());
    forall key | key in keys && CountDifficulty(steps, key) > 0
      ensures Entry(key, CountDifficulty(steps, key)) in r
    {
      var i :| 0 <= i < |keys| && keys[i] == key;
      assert all[i] == Entry(key, CountDifficulty(steps, key));
    }
    forall k | 0 <= k < |r|
      ensures r[k].originalKey in keys
    {
      var i :| 0 <= i < |all| && all[i] == r[k];
    }
  }

  /** Each type bar is a type that occurs, with the number of steps of that type and its
      share of all steps; the bars are ordered by count, largest first; and they are the
      filtered tally rearranged, one bar per entry of it. */
  lemma TypeDataCounts(plan: Plan)
    ensures var r := TypeData(plan);
            var steps := AllSteps(plan);
            && multiset(r) == multiset(Filter(TabulateTypes(TYPE_KEYS, Tally(TaskTypes(steps)), |steps|), IsPresentType()))
            && (forall k :: 0 <= k < |r| ==>
                  r[k].originalKey in TYPE_KEYS && r[k].value == CountType(steps, r[k].originalKey)
                  && 0 < r[k].value <= |steps| && r[k].percentage == Percentage(r[k].value, |steps|))
            && (forall i, j :: 0 <= i < j < |r| ==> r[i].value >= r[j].value)
  {
    TypeBarsCount(TYPE_KEYS, AllSteps(plan));
  }

  /** `TypeDataCounts` for any list of keys. */
  lemma TypeBarsCount(keys: seq<string>, steps: seq<PlanStep>)
    ensures var r := TypeBars(keys, steps);
            && multiset(r) == multiset(Filter(TabulateTypes(keys, Tally(TaskTypes(steps)), |steps|), IsPresentType()))
            && (forall k :: 0 <= k < |r| ==>
                  r[k].originalKey in keys && r[k].value == CountType(steps, r[k].originalKey)
                  && 0 < r[k].value <= |steps| && r[k].percentage == Percentage(r[k].value, |steps|))
            && (forall i, j :: 0 <= i < j < |r| ==> r[i].value >= r[j].value)
  {
    var r := TypeBars(keys, steps);
    forall k | 0 <= k < |r|
      ensures r[k].originalKey in keys && r[k].value == CountType(steps, r[k].originalKey)
              && 0 < r[k].value <= |steps| && r[k].percentage == Percentage(r[k].value, |steps|)
    {
      TypeBarCounts(keys, steps, k);
    }
  }

  /** One bar of `TypeBarsCount`. */
  lemma TypeBarCounts(keys: seq<string>, steps: seq<PlanStep>, k: nat)
    requires k < |TypeBars(keys, steps)|
    ensures var e := TypeBars(keys, steps)[k];
            && e.originalKey in keys && e.value == CountType(steps, e.originalKey)
            && 0 < e.value <= |steps| && e.percentage == Percentage(e.value, |steps|)
  {
    var all := TabulateTypes(keys, Tally(TaskTypes(steps)), |steps|);
    var present := Filter(all, IsPresentType());
    var e := TypeBars(keys, steps)[k];
    assert e in multiset(present);
    var i :| 0 <= i < |all| && all[i] == e;
    CountBelowLength(TaskTypes(steps), keys[i]);
  }

  /** Every type that occurs has a bar. */
  lemma TypeDataComplete(plan: Plan, key: string)
    requires key in TYPE_KEYS && CountType(AllSteps(plan), key) > 0
    ensures exists k :: 0 <= k < |TypeData(plan)| && TypeData(plan)[k].originalKey == key
  {
    var bars := TypeBars(TYPE_KEYS, AllSteps(plan));
    TypeBarsComplete(TYPE_KEYS, AllSteps(plan), key);
    var k :| 0 <= k < |bars| && bars[k].originalKey == key;
    assert TypeData(plan)[k] == bars[k];
  }

  /** `TypeDataComplete` for any list of keys. */
  lemma TypeBarsComplete(keys: seq<string>, steps: seq<PlanStep>, key: string)
    requires key in keys && CountType(steps, key) > 0
    ensures exists k :: 0 <= k < |TypeBars(keys, steps)| && TypeBars(keys, steps)[k].originalKey == key
  {
    var all := TabulateTypes(keys, Tally(TaskTypes(steps)), |steps|);
    var present := Filter(all, IsPresentType());
    var r := TypeBars(keys, steps);
    var i :| 0 <= i < |keys| && keys[i] == key;
    var e := all[i];
    assert e.value == CountType(steps, key);
    assert e in present;
    assert e in multiset(present);
    assert e in r;
    var k :| 0 <= k < |r| && r[k] == e;
  }

  lemma CountBelowLength(keys: seq<string>, key: string)
    ensures multiset(keys)[key] <= |keys|
  {
    assert multiset(keys)[key] <= |multiset(keys)|;
  }

  // ---------------------------------------------------------------- the donut sums up

  function EntryValue(): Entry -> int {
    (e: Entry) => e.value
  }

  /** The counts of the listed keys, added up. */
  function SumCounts(keys: seq<string>, counts: multiset<string>): nat {
    if keys == [] then 0 else counts[keys[0]] + SumCounts(keys[1..], counts)
  }

  lemma {:induction false} SumOfTabulate(keys: seq<string>, counts: map<string, nat>, steps: multiset<string>)
    requires forall key :: Lookup(counts, key) == steps[key]
    ensures SumBy(Tabulate(keys, counts), EntryValue()) == SumCounts(keys, steps)
  {
    if keys != [] {
      SumOfTabulate(keys[1..], counts, steps);
      assert Tabulate(keys, counts)[1..] == Tabulate(keys[1..], counts);
    }
  }

  lemma {:induction false} SumOfTabulateTypes(keys: seq<string>, counts: map<string, nat>, total: nat, steps: multiset<string>)
    requires forall key :: Lookup(counts, key) == steps[key]
    ensures SumBy(TabulateTypes(keys, counts, total), ValueOf()) == SumCounts(keys, steps)
  {
    if keys != [] {
      SumOfTabulateTypes(keys[1..], counts, total, steps);
      assert TabulateTypes(keys, counts, total)[1..] == TabulateTypes(keys[1..], counts, total);
    }
  }

  /** One more occurrence of a listed key adds one to the sum over distinct keys. */
  lemma {:induction false} SumCountsAdd(keys: seq<string>, counts: multiset<string>, x: string)
    requires forall i, j :: 0 <= i < j < |keys| ==> keys[i] != keys[j]
    ensures SumCounts(keys, counts + multiset{x}) == SumCounts(keys, counts) + (if x in keys then 1 else 0)
  {
    if keys != [] {
      SumCountsAdd(keys[1..], counts, x);
      assert x in keys[1..] ==> x != keys[0];
      assert x in keys <==> x == keys[0] || x in keys[1..];
    }
  }

  /** When every key is one of the distinct listed ones, the counts add up to the length. */
  lemma {:induction false} SumCountsCoversAll(keys: seq<string>, values: seq<string>)
    requires forall i, j :: 0 <= i < j < |keys| ==> keys[i] != keys[j]
    requires forall k :: 0 <= k < |values| ==> values[k] in keys
    ensures SumCounts(keys, multiset(values)) == |values|
  {
    if values == [] {
      SumCountsOfEmpty(keys);
    } else {
      var init := values[..|values| - 1];
      var last := values[|values| - 1];
      assert values == init + [last];
      SumCountsCoversAll(keys, init);
      SumCountsAdd(keys, multiset(init), last);
    }
  }

  lemma {:induction false} SumCountsOfEmpty(keys: seq<string>)
    ensures SumCounts(keys, multiset{}) == 0
  {
    if keys != [] {
      SumCountsOfEmpty(keys[1..]);
    }
  }

  /** When every step carries one of the three difficulties the enumeration declares, the
      donut's slices add up to the total number of steps. */
  lemma DifficultySlicesSumToTotal(plan: Plan)
    requires forall k :: 0 <= k < |AllSteps(plan)| ==> AllSteps(plan)[k].difficulty in DIFFICULTY_KEYS
    ensures SumBy(DifficultyData(plan), EntryValue()) == TotalSteps(plan)
  {
    SlicesSumToCount(DIFFICULTY_KEYS, AllSteps(plan));
  }

  /** `DifficultySlicesSumToTotal` for any list of distinct keys. */
  lemma SlicesSumToCount(keys: seq<string>, steps: seq<PlanStep>)
    requires forall i, j :: 0 <= i < j < |keys| ==> keys[i] != keys[j]
    requires forall k :: 0 <= k < |steps| ==> steps[k].difficulty in keys
    ensures SumBy(Filter(Tabulate(keys, Tally(Difficulties(steps))), IsPresent()), EntryValue()) == |steps|
  {
    var ds := Difficulties(steps);
    var counts := Tally(ds);
    var all := Tabulate(keys, counts);
    SumByFilter(all, IsPresent(), EntryValue());
    SumOfTabulate(keys, counts, multiset(ds));
    SumCountsCoversAll(keys, ds);
  }

  /** When every step carries one of the four task types the enumeration declares, the type
      bars add up to the total number of steps. */
  lemma TypeBarsSumToTotal(plan: Plan)
    requires forall k :: 0 <= k < |AllSteps(plan)| ==> AllSteps(plan)[k].taskType in TYPE_KEYS
    ensures SumBy(TypeData(plan), ValueOf()) == TotalSteps(plan)
  {
    BarsSumToCount(TYPE_KEYS, AllSteps(plan));
  }

  /** `TypeBarsSumToTotal` for any list of distinct keys. */
  lemma BarsSumToCount(keys: seq<string>, steps: seq<PlanStep>)
    requires forall i, j :: 0 <= i < j < |keys| ==> keys[i] != keys[j]
    requires forall k :: 0 <= k < |steps| ==> steps[k].taskType in keys
    ensures SumBy(TypeBars(keys, steps), ValueOf()) == |steps|
  {
    var ts := TaskTypes(steps);
    var counts := Tally(ts);
    var all := TabulateTypes(keys, counts, |steps|);
    var present := Filter(all, IsPresentType());
    SumBySort(present, ValueOf(), ValueOf());
    SumByFilter(all, IsPresentType(), ValueOf());
    SumOfTabulateTypes(keys, counts, |steps|, multiset(ts));
    SumCountsCoversAll(keys, ts);
  }
}
