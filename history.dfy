/** The plan-history bookkeeping of App.tsx as functions over the history array: upsert on
    completion, delete by timestamp, the sub-plan lookup of a breakdown, the bounded ancestry
    walk behind the breadcrumbs and the newest-first children lookup. */
module PlanTree {
  import opened Wrappers
  import opened Plans
  import opened Seqs

  function HasId(id: string): Plan -> bool {
    (p: Plan) => p.id == id
  }

  function OtherId(id: string): Plan -> bool {
    (p: Plan) => p.id != id
  }

  function OtherTimestamp(timestamp: int): Plan -> bool {
    (p: Plan) => p.createdAt != timestamp
  }

  function ChildOf(id: string): Plan -> bool {
    (p: Plan) => p.parentId == Some(id)
  }

  function SubPlanOf(id: string, title: string): Plan -> bool {
    (p: Plan) => p.parentId == Some(id) && p.goal == title
  }

  function CreatedAt(): Plan -> int {
    (p: Plan) => p.createdAt
  }

  // ---------------------------------------------------------------- upsert, delete

  /** `[plan, ...history.filter(p => p.id !== plan.id)]`. */
  function Upsert(history: seq<Plan>, plan: Plan): (r: seq<Plan>)
    ensures |r| >= 1 && r[0] == plan
    ensures forall k :: 1 <= k < |r| ==> r[k].id != plan.id && r[k] in history
    ensures forall k :: 0 <= k < |history| && history[k].id != plan.id ==> history[k] in r
  {
    [plan] + Filter(history, OtherId(plan.id))
  }

  /** Behind the new plan, the other entries are the old history minus exactly the entries with
      the plan's id, each kept as often as it was, in their old relative order. */
  lemma UpsertKeepsOthers(history: seq<Plan>, plan: Plan, before: seq<Plan>, after: seq<Plan>, p: Plan)
    requires history == before + after
    ensures Upsert(history, plan)[1..] == Filter(before, OtherId(plan.id)) + Filter(after, OtherId(plan.id))
    ensures multiset(Upsert(history, plan)[1..])[p] == if p.id == plan.id then 0 else multiset(history)[p]
  {
    FilterAppend(before, after, OtherId(plan.id));
    FilterMultiset(history, OtherId(plan.id), p);
  }

  /** Exactly one entry carries the plan's id afterwards. */
  lemma UpsertLeavesOneEntry(history: seq<Plan>, plan: Plan)
    ensures Filter(Upsert(history, plan), HasId(plan.id)) == [plan]
  {
    var rest := Filter(history, OtherId(plan.id));
    assert Upsert(history, plan) == [plan] + rest;
    FilterAppend([plan], rest, HasId(plan.id));
    assert Filter([plan], HasId(plan.id)) == [plan] by {
      assert [plan][1..] == [];
    }
    FilterNoneKept(rest, HasId(plan.id));
  }

  lemma {:induction false} FilterNoneKept(s: seq<Plan>, p: Plan -> bool)
    requires forall k :: 0 <= k < |s| ==> !p(s[k])
    ensures Filter(s, p) == []
  {
    if s != [] {
      FilterNoneKept(s[1..], p);
    }
  }

  /** Upserting two versions of the same plan is upserting the later one: one entry, the
      latest content, the rest of the history as before. */
  lemma UpsertSameIdTwice(history: seq<Plan>, first: Plan, latest: Plan)
    requires first.id == latest.id
    ensures Upsert(Upsert(history, first), latest) == Upsert(history, latest)
  {
    var id := first.id;
    var rest := Filter(history, OtherId(id));
    FilterAppend([first], rest, OtherId(id));
    assert Filter([first], OtherId(id)) == [] by {
      assert [first][1..] == [];
    }
    FilterIdempotent(history, OtherId(id));
  }

  /** `history.filter(p => p.createdAt !== timestamp)`. */
  function DeleteByTimestamp(history: seq<Plan>, timestamp: int): (r: seq<Plan>)
    ensures forall k :: 0 <= k < |r| ==> r[k].createdAt != timestamp && r[k] in history
    ensures forall k :: 0 <= k < |history| && history[k].createdAt != timestamp ==> history[k] in r
  {
    Filter(history, OtherTimestamp(timestamp))
  }

  /** Deletion removes exactly the entries with that timestamp, keeps every other entry as often
      as it was and in its old relative order. */
  lemma DeleteRemovesExactly(history: seq<Plan>, timestamp: int, before: seq<Plan>, after: seq<Plan>, p: Plan)
    requires history == before + after
    ensures DeleteByTimestamp(history, timestamp)
            == DeleteByTimestamp(before, timestamp) + DeleteByTimestamp(after, timestamp)
    ensures multiset(DeleteByTimestamp(history, timestamp))[p]
            == if p.createdAt == timestamp then 0 else multiset(history)[p]
  {
    FilterAppend(before, after, OtherTimestamp(timestamp));
    FilterMultiset(history, OtherTimestamp(timestamp), p);
  }

  /** Deleting a timestamp no entry has changes nothing. */
  lemma DeleteAbsentTimestamp(history: seq<Plan>, timestamp: int)
    requires forall k :: 0 <= k < |history| ==> history[k].createdAt != timestamp
    ensures DeleteByTimestamp(history, timestamp) == history
  {
    FilterKeepsAll(history, OtherTimestamp(timestamp));
  }

  // ---------------------------------------------------------------- distinct ids

  /** No two history entries share an id. */
  predicate UniqueIds(history: seq<Plan>) {
    forall i, j :: 0 <= i < j < |history| ==> history[i].id != history[j].id
  }

  lemma {:induction false} FilterKeepsIdsUnique(s: seq<Plan>, p: Plan -> bool)
    requires UniqueIds(s)
    ensures UniqueIds(Filter(s, p))
  {
    if s != [] {
      var tail := Filter(s[1..], p);
      FilterKeepsIdsUnique(s[1..], p);
      forall k | 0 <= k < |tail| ensures tail[k].id != s[0].id {
        var j :| 0 <= j < |s[1..]| && s[1..][j] == tail[k];
        assert s[j + 1] == tail[k];
      }
    }
  }

  /** Upserting keeps the ids distinct; an upsert never introduces a second entry for an id. */
  lemma UpsertKeepsIdsUnique(history: seq<Plan>, plan: Plan)
    requires UniqueIds(history)
    ensures UniqueIds(Upsert(history, plan))
  {
    FilterKeepsIdsUnique(history, OtherId(plan.id));
  }

  lemma DeleteKeepsIdsUnique(history: seq<Plan>, timestamp: int)
    requires UniqueIds(history)
    ensures UniqueIds(DeleteByTimestamp(history, timestamp))
  {
    FilterKeepsIdsUnique(history, OtherTimestamp(timestamp));
  }

  // ---------------------------------------------------------------- lookups

  /** `history.find(p => p.id === id)`: the earliest entry with that id. */
  function FindById(history: seq<Plan>, id: string): (r: Option<Plan>)
    ensures r.Some? ==> r.value in history && r.value.id == id
    ensures r.None? ==> forall k :: 0 <= k < |history| ==> history[k].id != id
  {
    Find(history, HasId(id))
  }

  /** `find` stops at the first match: no earlier entry has the id of the one found. */
  lemma FindByIdFirst(history: seq<Plan>, id: string)
    ensures var r := FindById(history, id);
            r.Some? ==> exists i :: 0 <= i < |history| && history[i] == r.value
                          && forall j :: 0 <= j < i ==> history[j].id != id
  {
    match FindFirst(history, HasId(id))
    case None =>
    case Some(i) =>
      assert history[i] == FindById(history, id).value;
  }

  /** `history.find(h => h.parentId === id && h.goal === title)`: the earliest entry that is
      a sub-plan of `id` for that title. */
  function FindSubPlan(history: seq<Plan>, id: string, title: string): (r: Option<Plan>)
    ensures r.Some? ==> r.value in history && r.value.parentId == Some(id) && r.value.goal == title
    ensures r.Some? ==> exists i :: 0 <= i < |history| && history[i] == r.value
                          && forall j :: 0 <= j < i ==> !(history[j].parentId == Some(id) && history[j].goal == title)
    ensures r.None? ==> forall k :: 0 <= k < |history| ==> !(history[k].parentId == Some(id) && history[k].goal == title)
  {
    match FindFirst(history, SubPlanOf(id, title))
    case None => None
    case Some(i) => Some(history[i])
  }

  // ---------------------------------------------------------------- ancestry

  /** The hop bound of the breadcrumb walk, a guard against cyclic `parentId` links. */
  const MAX_HOPS: nat := 20

  /** `curr.parentId` is truthy: present and not the empty string. */
  predicate HasParent(p: Plan) {
    Truthy(p.parentId)
  }

  /** The ancestors of `curr` the walk finds within `hops` hops, root-most first. */
  function Ancestors(history: seq<Plan>, curr: Plan, hops: nat): (r: seq<Plan>)
    ensures |r| <= hops
    decreases hops
  {
    if hops == 0 || !HasParent(curr) then []
    else
      match FindById(history, curr.parentId.value)
      case None => []
      case Some(parent) => Ancestors(history, parent, hops - 1) + [parent]
  }

  /** Each ancestor is the first history entry with the id its successor names as parent; the
      last one is the parent of `curr`. */
  lemma {:induction false} AncestorsLinked(history: seq<Plan>, curr: Plan, hops: nat)
    ensures var r := Ancestors(history, curr, hops);
            && (r != [] ==> curr.parentId == Some(r[|r| - 1].id)
                            && FindById(history, curr.parentId.value) == Some(r[|r| - 1]))
            && (forall i, j :: 0 <= i && j == i + 1 && j < |r| ==> r[j].parentId == Some(r[i].id))
            && (forall k :: 0 <= k < |r| ==> r[k] in history && FindById(history, r[k].id) == Some(r[k]))
    decreases hops
  {
    if hops > 0 && HasParent(curr) {
      match FindById(history, curr.parentId.value)
      case None =>
      case Some(parent) =>
        AncestorsLinked(history, parent, hops - 1);
        var above := Ancestors(history, parent, hops - 1);
        var r := above + [parent];
        if above != [] {
          assert r[|above| - 1] == above[|above| - 1];
        }
        forall k | 0 <= k < |r| ensures r[k] in history && FindById(history, r[k].id) == Some(r[k]) {
          if k < |above| {
            assert r[k] == above[k];
          }
        }
    }
  }

  /** One hop of the walk: a found parent goes in front of the plan's own ancestors. */
  lemma AncestorsStep(history: seq<Plan>, curr: Plan, hops: nat, parent: Plan)
    requires hops > 0 && HasParent(curr) && FindById(history, curr.parentId.value) == Some(parent)
    ensures Ancestors(history, curr, hops) == Ancestors(history, parent, hops - 1) + [parent]
  {
  }

  /** Where the walk stops, nothing more is found. */
  lemma AncestorsStop(history: seq<Plan>, curr: Plan, hops: nat)
    requires hops == 0 || !HasParent(curr) || FindById(history, curr.parentId.value).None?
    ensures Ancestors(history, curr, hops) == []
  {
  }

  /** The walk ends at a plan without a parent, at a parent it cannot find, or at the bound. */
  lemma {:induction false} AncestorsStopReason(history: seq<Plan>, curr: Plan, hops: nat)
    ensures var r := Ancestors(history, curr, hops);
            |r| < hops ==>
              var top := if r == [] then curr else r[0];
              !HasParent(top) || FindById(history, top.parentId.value).None?
    decreases hops
  {
    if hops > 0 && HasParent(curr) {
      match FindById(history, curr.parentId.value)
      case None =>
      case Some(parent) =>
        AncestorsStopReason(history, parent, hops - 1);
        var above := Ancestors(history, parent, hops - 1);
        if above != [] {
          assert (above + [parent])[0] == above[0];
        }
    }
  }

  /** One hop of the walk, with the path built so far behind it. */
  lemma PathStep(history: seq<Plan>, full: seq<Plan>, curr: Plan, hops: nat, parent: Plan, path: seq<Plan>)
    requires hops > 0 && HasParent(curr) && FindById(history, curr.parentId.value) == Some(parent)
    requires full == Ancestors(history, curr, hops) + path
    ensures full == Ancestors(history, parent, hops - 1) + ([parent] + path)
  {
    AncestorsStep(history, curr, hops, parent);
    AppendAssoc(Ancestors(history, parent, hops - 1), [parent], path);
  }

  /** The breadcrumb path: the ancestors, then the plan itself; empty without a plan. */
  function PathOf(history: seq<Plan>, plan: Option<Plan>): (r: seq<Plan>)
    ensures plan.None? ==> r == []
    ensures plan.Some? ==> 1 <= |r| <= MAX_HOPS + 1 && r[|r| - 1] == plan.value
    ensures forall k :: 0 <= k < |r| - 1 ==> r[k] in history
    ensures forall i, j :: 0 <= i && j == i + 1 && j < |r| ==> r[j].parentId == Some(r[i].id)
  {
    match plan
    case None => []
    case Some(p) =>
      AncestorsLinked(history, p, MAX_HOPS);
      Ancestors(history, p, MAX_HOPS) + [p]
  }

  lemma PathOfShown(history: seq<Plan>, shown: Plan)
    ensures PathOf(history, Some(shown)) == Ancestors(history, shown, MAX_HOPS) + [shown]
  {
  }

  /** A plan that is its own parent, the shortest cycle, and is what the lookup of its id
      finds, yields `hops` copies of itself as ancestors rather than a hang; the path then
      adds the plan itself. */
  lemma {:induction false} SelfCycleHitsBound(p: Plan, history: seq<Plan>, hops: nat)
    requires HasParent(p) && p.parentId == Some(p.id) && FindById(history, p.id) == Some(p)
    ensures Ancestors(history, p, hops) == seq(hops, _ => p)
    decreases hops
  {
    if hops > 0 {
      SelfCycleHitsBound(p, history, hops - 1);
    }
  }

  // ---------------------------------------------------------------- children

  /** `history.filter(h => h.parentId === plan.id).sort((a, b) => b.createdAt - a.createdAt)`;
      empty without a plan. */
  function ChildPlans(history: seq<Plan>, plan: Option<Plan>): (r: seq<Plan>)
    ensures plan.None? ==> r == []
    ensures plan.Some? ==> multiset(r) == multiset(Filter(history, ChildOf(plan.value.id)))
    ensures plan.Some? ==> forall x :: x in multiset(r) <==> x in multiset(history) && x.parentId == Some(plan.value.id)
    // newest first
    ensures forall i, j :: 0 <= i < j < |r| ==> r[i].createdAt >= r[j].createdAt
  {
    match plan
    case None => []
    case Some(p) =>
      var children := Filter(history, ChildOf(p.id));
      forall x ensures x in multiset(children) <==> x in multiset(history) && x.parentId == Some(p.id) {
        FilterMultiset(history, ChildOf(p.id), x);
      }
      SortDesc(children, CreatedAt())
  }

  /** A plan is listed among its own children exactly when it is stored and names itself as
      its parent: the lookup has no separate check excluding the plan. */
  lemma SelfListedOnlyAsOwnParent(history: seq<Plan>, p: Plan)
    ensures p in ChildPlans(history, Some(p)) <==> p in history && p.parentId == Some(p.id)
  {
    var r := ChildPlans(history, Some(p));
    assert p in r <==> p in multiset(r);
    assert p in history <==> p in multiset(history);
  }

  // ---------------------------------------------------------------- breakdown, end to end

  /** With distinct ids, looking up an entry's id finds that entry. */
  lemma FindByIdDistinct(history: seq<Plan>, x: Plan)
    requires UniqueIds(history) && x in history
    ensures FindById(history, x.id) == Some(x)
  {
    var k :| 0 <= k < |history| && history[k] == x;
    var first := FindFirst(history, HasId(x.id));
    assert HasId(x.id)(history[k]);
    assert first.Some?;
    assert first.value == k;
  }

  /** A sub-plan generated for a task of `parent` and stored by upsert is listed among the
      children of `parent`. */
  lemma UpsertedChildIsListed(history: seq<Plan>, parent: Plan, child: Plan)
    requires child.parentId == Some(parent.id)
    ensures child in ChildPlans(Upsert(history, child), Some(parent))
  {
    var h := Upsert(history, child);
    assert child in multiset(h) by {
      assert h[0] == child;
    }
    assert child in multiset(ChildPlans(h, Some(parent)));
  }

  /** ... and, when the parent is stored and ids are distinct, its breadcrumb path ends with
      `parent` and then the sub-plan itself. */
  lemma UpsertedChildIsLinked(history: seq<Plan>, parent: Plan, child: Plan)
    requires parent in history && UniqueIds(history)
    requires child.parentId == Some(parent.id) && parent.id != "" && child.id != parent.id
    ensures var path := PathOf(Upsert(history, child), Some(child));
            |path| >= 2 && path[|path| - 2] == parent && path[|path| - 1] == child
  {
    var h := Upsert(history, child);
    UpsertKeepsIdsUnique(history, child);
    assert parent in h by {
      var k :| 0 <= k < |history| && history[k] == parent;
    }
    FindByIdDistinct(h, parent);
    assert Ancestors(h, child, MAX_HOPS) == Ancestors(h, parent, MAX_HOPS - 1) + [parent];
  }
}
