/**
  The static list helpers of InfoMediaManager.Api34Impl: composing the route-listing
  preference, filtering routes that share deduplication ids, arranging routes by selection,
  system status and preference, and indexing preference items by route id.

  Each helper is a specification function, defined on the last element of its input the way
  the source's left-to-right loop builds its result, and a method with that loop proved
  equal to the function; lemmas state what the function promises.
 */
module Api34Impl {
  import opened Wrappers
  import opened MediaTypes
  import opened Seqs

  // ---------------------------------------------------------------------------------------
  // composePreferenceRouteListing

  /** The item list as composePreferenceRouteListing builds it: suggested items go to index 0. */
  function Composed(items: seq<Item>): seq<Item>
    decreases |items|
  {
    if items == [] then []
    else
      var rest := Composed(items[..|items| - 1]);
      var item := items[|items| - 1];
      if item.suggested then [item] + rest else rest + [item]
  }

  function Suggested(items: seq<Item>): seq<Item>
    decreases |items|
  {
    if items == [] then []
    else
      var last := items[|items| - 1];
      Suggested(items[..|items| - 1]) + (if last.suggested then [last] else [])
  }

  function NotSuggested(items: seq<Item>): seq<Item>
    decreases |items|
  {
    if items == [] then []
    else
      var last := items[|items| - 1];
      NotSuggested(items[..|items| - 1]) + (if last.suggested then [] else [last])
  }

  method ComposePreferenceRouteListing(pref: Preference) returns (finalized: seq<Item>)
    ensures finalized == Composed(pref.items)
  {
    var items := pref.items;
    finalized := [];
    for i := 0 to |items|
      invariant finalized == Composed(items[..i])
    {
      assert items[..i + 1][..i] == items[..i];
      if items[i].suggested {
        finalized := [items[i]] + finalized;
      } else {
        finalized := finalized + [items[i]];
      }
    }
    assert items[..|items|] == items;
  }

  /** The suggested items come first in REVERSE input order, then the others in input order. */
  lemma {:induction false} ComposedIsReversedSuggestedThenRest(items: seq<Item>)
    ensures Composed(items) == Reverse(Suggested(items)) + NotSuggested(items)
    decreases |items|
  {
    if items != [] {
      var p := items[..|items| - 1];
      var x := items[|items| - 1];
      ComposedIsReversedSuggestedThenRest(p);
      if x.suggested {
        var s := Suggested(p) + [x];
        assert Suggested(items) == s;
        assert NotSuggested(items) == NotSuggested(p);
        assert s[..|s| - 1] == Suggested(p);
        assert Reverse(s) == [x] + Reverse(Suggested(p));
        assert Composed(items) == [x] + Composed(p);
        AppendAssociative([x], Reverse(Suggested(p)), NotSuggested(p));
      } else {
        assert Suggested(items) == Suggested(p);
        assert NotSuggested(items) == NotSuggested(p) + [x];
        assert Composed(items) == Composed(p) + [x];
        AppendAssociative(Reverse(Suggested(p)), NotSuggested(p), [x]);
      }
    }
  }

  /** Composing only reorders the items. */
  lemma {:induction false} ComposedIsPermutation(items: seq<Item>)
    ensures multiset(Composed(items)) == multiset(items)
    decreases |items|
  {
    if items != [] {
      var p := items[..|items| - 1];
      ComposedIsPermutation(p);
      assert items == p + [items[|items| - 1]];
    }
  }

  /** No suggested item follows an item that is not suggested. */
  lemma {:induction false} ComposedSuggestedFirst(items: seq<Item>)
    ensures forall i, j :: 0 <= i < j < |Composed(items)| && Composed(items)[j].suggested ==> Composed(items)[i].suggested
    decreases |items|
  {
    if items != [] {
      ComposedSuggestedFirst(items[..|items| - 1]);
    }
  }

  // ---------------------------------------------------------------------------------------
  // filterDuplicatedIds

  /** The union of the deduplication ids of `rs` (foundDeduplicationIds). */
  function DedupIdsOf(rs: seq<Route>): set<string>
    decreases |rs|
  {
    if rs == [] then {} else DedupIdsOf(rs[..|rs| - 1]) + rs[|rs| - 1].dedupIds
  }

  /** The routes filterDuplicatedIds keeps: a route whose ids meet those already kept is skipped. */
  function Deduplicated(rs: seq<Route>): seq<Route>
    decreases |rs|
  {
    if rs == [] then []
    else
      var kept := Deduplicated(rs[..|rs| - 1]);
      var r := rs[|rs| - 1];
      if r.dedupIds !! DedupIdsOf(kept) then kept + [r] else kept
  }

  method FilterDuplicatedIds(infos: seq<Route>) returns (filtered: seq<Route>)
    ensures filtered == Deduplicated(infos)
  {
    filtered := [];
    var found: set<string> := {};
    for i := 0 to |infos|
      invariant filtered == Deduplicated(infos[..i])
      invariant found == DedupIdsOf(filtered)
    {
      assert infos[..i + 1][..i] == infos[..i];
      if !(infos[i].dedupIds !! found) {
        continue;
      }
      filtered := filtered + [infos[i]];
      found := found + infos[i].dedupIds;
      assert filtered[..|filtered| - 1] == Deduplicated(infos[..i]);
    }
    assert infos[..|infos|] == infos;
  }

  lemma {:induction false} DedupIdsOfMembers(rs: seq<Route>)
    ensures forall x :: x in DedupIdsOf(rs) <==> exists k :: 0 <= k < |rs| && x in rs[k].dedupIds
    decreases |rs|
  {
    if rs != [] {
      var p := rs[..|rs| - 1];
      DedupIdsOfMembers(p);
      forall x | x in DedupIdsOf(rs)
        ensures exists k :: 0 <= k < |rs| && x in rs[k].dedupIds
      {
        if x !in rs[|rs| - 1].dedupIds {
          assert x in DedupIdsOf(p);
          var k :| 0 <= k < |p| && x in p[k].dedupIds;
          assert rs[k] == p[k];
        }
      }
      forall x, k | 0 <= k < |rs| && x in rs[k].dedupIds
        ensures x in DedupIdsOf(rs)
      {
        if k < |p| {
          assert x in p[k].dedupIds;
        }
      }
    }
  }

  /** A route is disjoint from the union of a list exactly when it is disjoint from each member. */
  lemma DisjointFromAll(r: Route, kept: seq<Route>)
    ensures r.dedupIds !! DedupIdsOf(kept) <==> forall f :: f in kept ==> f.dedupIds !! r.dedupIds
  {
    DedupIdsOfMembers(kept);
    if !(r.dedupIds !! DedupIdsOf(kept)) {
      var x :| x in r.dedupIds && x in DedupIdsOf(kept);
      var k :| 0 <= k < |kept| && x in kept[k].dedupIds;
      assert !(kept[k].dedupIds !! r.dedupIds);
    }
  }

  /** The filter keeps an order-preserving subsequence of its input. */
  lemma {:induction false} DeduplicatedIsSubsequence(rs: seq<Route>)
    ensures IsSubsequence(Deduplicated(rs), rs)
    decreases |rs|
  {
    if rs != [] {
      var p := rs[..|rs| - 1];
      DeduplicatedIsSubsequence(p);
      var d := Deduplicated(rs);
      if d != Deduplicated(p) {
        assert d[..|d| - 1] == Deduplicated(p);
      }
    }
  }

  /** The kept routes have pairwise-disjoint deduplication-id sets. */
  lemma {:induction false} DeduplicatedPairwiseDisjoint(rs: seq<Route>)
    ensures PairwiseDisjoint(Deduplicated(rs))
    decreases |rs|
  {
    if rs != [] {
      var p := rs[..|rs| - 1];
      var r := rs[|rs| - 1];
      var kept := Deduplicated(p);
      DeduplicatedPairwiseDisjoint(p);
      DisjointFromAll(r, kept);
    }
  }

  /**
    One step of the filter: the route at index `i` is kept exactly when its ids are disjoint
    from the ids of every route kept before it; otherwise the kept list does not change.
   */
  lemma DeduplicatedStep(rs: seq<Route>, i: nat)
    requires i < |rs|
    ensures var before := Deduplicated(rs[..i]);
      Deduplicated(rs[..i + 1])
        == if forall f :: f in before ==> f.dedupIds !! rs[i].dedupIds then before + [rs[i]] else before
  {
    assert rs[..i + 1][..i] == rs[..i];
    DisjointFromAll(rs[i], Deduplicated(rs[..i]));
  }

  /** Every route the filter drops shares a deduplication id with a route it keeps. */
  lemma {:induction false} DroppedRouteClashes(rs: seq<Route>)
    ensures forall k :: 0 <= k < |rs| ==>
      rs[k] in Deduplicated(rs) || exists f :: f in Deduplicated(rs) && !(f.dedupIds !! rs[k].dedupIds)
    decreases |rs|
  {
    if rs != [] {
      var p := rs[..|rs| - 1];
      var r := rs[|rs| - 1];
      DroppedRouteClashes(p);
      var d := Deduplicated(rs);
      assert forall f :: f in Deduplicated(p) ==> f in d;
      forall k | 0 <= k < |rs|
        ensures rs[k] in d || exists f :: f in d && !(f.dedupIds !! rs[k].dedupIds)
      {
        if k < |p| {
          assert rs[k] == p[k];
        } else {
          DisjointFromAll(r, Deduplicated(p));
        }
      }
    }
  }

  /** A route without deduplication ids is never dropped. */
  lemma EmptyIdsAlwaysKept(rs: seq<Route>)
    ensures forall r :: r in rs && r.dedupIds == {} ==> r in Deduplicated(rs)
  {
    DroppedRouteClashes(rs);
  }

  /** A list whose routes are already pairwise disjoint passes the filter unchanged. */
  lemma {:induction false} DeduplicatedFixesDisjoint(rs: seq<Route>)
    requires PairwiseDisjoint(rs)
    ensures Deduplicated(rs) == rs
    decreases |rs|
  {
    if rs != [] {
      var p := rs[..|rs| - 1];
      var r := rs[|rs| - 1];
      DeduplicatedFixesDisjoint(p);
      forall f | f in p ensures f.dedupIds !! r.dedupIds {
        var k :| 0 <= k < |p| && p[k] == f;
        assert rs[k] == f;
      }
      DisjointFromAll(r, p);
      assert rs == p + [r];
    }
  }

  /** Filtering twice is filtering once. */
  lemma DeduplicatedIdempotent(rs: seq<Route>)
    ensures Deduplicated(Deduplicated(rs)) == Deduplicated(rs)
  {
    DeduplicatedPairwiseDisjoint(rs);
    DeduplicatedFixesDisjoint(Deduplicated(rs));
  }

  // ---------------------------------------------------------------------------------------
  // arrangeRouteListByPreference

  /** The ids of the system routes of `rs`, in order. */
  function SystemIds(rs: seq<Route>): seq<string>
    decreases |rs|
  {
    if rs == [] then []
    else
      var r := rs[|rs| - 1];
      SystemIds(rs[..|rs| - 1]) + (if r.isSystem then [r.id] else [])
  }

  /** Collectors.toMap over the routes with the merge function (route1, route2) -> route1. */
  function IndexById(rs: seq<Route>): map<string, Route>
    decreases |rs|
  {
    if rs == [] then map[]
    else
      var m := IndexById(rs[..|rs| - 1]);
      var r := rs[|rs| - 1];
      if r.id in m then m else m[r.id := r]
  }

  /** The route ids of the preference items that resolve in `index`, in item order. */
  function ResolvableIds(items: seq<Item>, index: map<string, Route>): seq<string>
    decreases |items|
  {
    if items == [] then []
    else
      var it := items[|items| - 1];
      ResolvableIds(items[..|items| - 1], index) + (if it.routeId in index then [it.routeId] else [])
  }

  /** The LinkedHashSet of ids after the three insertion passes. */
  function SortedRouteIds(selected: seq<Route>, available: seq<Route>, items: seq<Item>): seq<string>
  {
    var afterSelected := InsertAll([], Ids(selected));
    var afterSystem := InsertAll(afterSelected, SystemIds(available));
    InsertAll(afterSystem, ResolvableIds(items, IndexById(selected + available)))
  }

  /** The routes arrangeRouteListByPreference returns: the sorted ids resolved through the index. */
  function Arranged(selected: seq<Route>, available: seq<Route>, items: seq<Item>): seq<Route>
  {
    var index := IndexById(selected + available);
    var ids := SortedRouteIds(selected, available, items);
    SortedIdsResolve(selected, available, items);
    seq(|ids|, i requires 0 <= i < |ids| => index[ids[i]])
  }

  /** 0 for a selected id, 1 for the id of an available system route, 2 for the rest. */
  function Stage(id: string, selected: seq<Route>, available: seq<Route>): nat
  {
    if id in Ids(selected) then 0 else if id in SystemIds(available) then 1 else 2
  }

  method ArrangeRouteListByPreference(selected: seq<Route>, available: seq<Route>, items: seq<Item>)
    returns (routes: seq<Route>)
    ensures routes == Arranged(selected, available, items)
  {
    var sortedRouteIds: seq<string> := [];
    for i := 0 to |selected|
      invariant sortedRouteIds == InsertAll([], Ids(selected)[..i])
    {
      assert Ids(selected)[..i + 1] == Ids(selected)[..i] + [selected[i].id];
      InsertAllSnoc([], Ids(selected)[..i], selected[i].id);
      sortedRouteIds := Insert(sortedRouteIds, selected[i].id);
    }
    assert Ids(selected)[..|selected|] == Ids(selected);
    ghost var afterSelected := sortedRouteIds;

    for i := 0 to |available|
      invariant sortedRouteIds == InsertAll(afterSelected, SystemIds(available[..i]))
    {
      ghost var sys := SystemIds(available[..i]);
      assert available[..i + 1][..i] == available[..i];
      if available[i].isSystem {
        assert SystemIds(available[..i + 1]) == sys + [available[i].id];
        InsertAllSnoc(afterSelected, sys, available[i].id);
        sortedRouteIds := Insert(sortedRouteIds, available[i].id);
      } else {
        assert SystemIds(available[..i + 1]) == sys;
      }
    }
    assert available[..|available|] == available;
    ghost var afterSystem := sortedRouteIds;

    var idToRouteMap := IndexById(selected + available);
    IndexByIdKeys(selected + available);
    for i := 0 to |items|
      invariant sortedRouteIds == InsertAll(afterSystem, ResolvableIds(items[..i], idToRouteMap))
    {
      ghost var resolvable := ResolvableIds(items[..i], idToRouteMap);
      assert items[..i + 1][..i] == items[..i];
      if items[i].routeId in idToRouteMap {
        assert ResolvableIds(items[..i + 1], idToRouteMap) == resolvable + [items[i].routeId];
        InsertAllSnoc(afterSystem, resolvable, items[i].routeId);
        var route := idToRouteMap[items[i].routeId];
        sortedRouteIds := Insert(sortedRouteIds, route.id);
      } else {
        assert ResolvableIds(items[..i + 1], idToRouteMap) == resolvable;
      }
    }
    assert items[..|items|] == items;
    SortedIdsResolve(selected, available, items);
    routes := seq(|sortedRouteIds|, i requires 0 <= i < |sortedRouteIds| => idToRouteMap[sortedRouteIds[i]]);
  }

  lemma {:induction false} SystemIdsMembers(rs: seq<Route>)
    ensures forall x :: x in SystemIds(rs) <==> exists k :: 0 <= k < |rs| && rs[k].isSystem && rs[k].id == x
    decreases |rs|
  {
    if rs != [] {
      var p := rs[..|rs| - 1];
      SystemIdsMembers(p);
      forall x | x in SystemIds(rs)
        ensures exists k :: 0 <= k < |rs| && rs[k].isSystem && rs[k].id == x
      {
        if x in SystemIds(p) {
          var k :| 0 <= k < |p| && p[k].isSystem && p[k].id == x;
          assert rs[k] == p[k];
        }
      }
      forall x, k | 0 <= k < |rs| && rs[k].isSystem && rs[k].id == x
        ensures x in SystemIds(rs)
      {
        if k < |p| {
          assert p[k] == rs[k];
        }
      }
    }
  }

  /** The route ids the preference items name, in item order. */
  function ItemRouteIds(items: seq<Item>): seq<string>
  {
    seq(|items|, i requires 0 <= i < |items| => items[i].routeId)
  }

  /** An id is resolvable exactly when the index holds it and some preference item names it. */
  lemma {:induction false} ResolvableIdsMembers(items: seq<Item>, index: map<string, Route>)
    ensures forall x :: x in ResolvableIds(items, index) <==> x in index && x in ItemRouteIds(items)
    decreases |items|
  {
    if items != [] {
      var p := items[..|items| - 1];
      ResolvableIdsMembers(p, index);
      assert ItemRouteIds(items) == ItemRouteIds(p) + [items[|items| - 1].routeId];
    }
  }

  /** The index holds exactly the ids of the routes, each mapped to a route of the list with that id. */
  lemma {:induction false} IndexByIdKeys(rs: seq<Route>)
    ensures forall x :: x in IndexById(rs) <==> x in Ids(rs)
    ensures forall x :: x in IndexById(rs) ==> IndexById(rs)[x].id == x && IndexById(rs)[x] in rs
    decreases |rs|
  {
    if rs != [] {
      var p := rs[..|rs| - 1];
      IndexByIdKeys(p);
      assert Ids(rs) == Ids(p) + [rs[|rs| - 1].id];
      assert forall r :: r in p ==> r in rs;
    }
  }

  /** On an id collision the index keeps the route that comes first: `k` is its position. */
  lemma {:induction false} IndexByIdFirst(rs: seq<Route>, x: string) returns (k: nat)
    requires x in IndexById(rs)
    ensures k < |rs| && rs[k] == IndexById(rs)[x] && rs[k].id == x
    ensures forall j :: 0 <= j < k ==> rs[j].id != x
    decreases |rs|
  {
    var p := rs[..|rs| - 1];
    IndexByIdKeys(p);
    if x in IndexById(p) {
      k := IndexByIdFirst(p, x);
      assert rs[k] == p[k];
    } else {
      k := |rs| - 1;
      forall j | 0 <= j < k ensures rs[j].id != x {
        assert Ids(p)[j] == p[j].id;
      }
    }
  }

  /** Every accumulated id resolves in the index. */
  lemma SortedIdsResolve(selected: seq<Route>, available: seq<Route>, items: seq<Item>)
    ensures forall x :: x in SortedRouteIds(selected, available, items) ==> x in IndexById(selected + available)
  {
    var sa := selected + available;
    var index := IndexById(sa);
    IndexByIdKeys(sa);
    IdsAppend(selected, available);
    SystemIdsSubset(available);
    ResolvableIdsMembers(items, index);
    var afterSelected := InsertAll([], Ids(selected));
    var afterSystem := InsertAll(afterSelected, SystemIds(available));
    InsertAllExtends([], Ids(selected));
    InsertAllExtends(afterSelected, SystemIds(available));
    InsertAllExtends(afterSystem, ResolvableIds(items, index));
  }

  /** The ids of a concatenation are the concatenated ids. */
  lemma IdsAppend(a: seq<Route>, b: seq<Route>)
    ensures Ids(a + b) == Ids(a) + Ids(b)
  {
    assert forall i :: 0 <= i < |a| + |b| ==> Ids(a + b)[i] == (Ids(a) + Ids(b))[i];
  }

  /** Every system id is an id of the list. */
  lemma SystemIdsSubset(rs: seq<Route>)
    ensures forall x :: x in SystemIds(rs) ==> x in Ids(rs)
  {
    SystemIdsMembers(rs);
    forall x | x in SystemIds(rs) ensures x in Ids(rs) {
      var k :| 0 <= k < |rs| && rs[k].isSystem && rs[k].id == x;
      assert Ids(rs)[k] == x;
    }
  }

  /** The ids of the arranged routes are exactly the accumulated ids, in order. */
  lemma ArrangedIds(selected: seq<Route>, available: seq<Route>, items: seq<Item>)
    ensures Ids(Arranged(selected, available, items)) == SortedRouteIds(selected, available, items)
  {
    var index := IndexById(selected + available);
    var ids := SortedRouteIds(selected, available, items);
    var r := Arranged(selected, available, items);
    IndexByIdKeys(selected + available);
    SortedIdsResolve(selected, available, items);
    forall i | 0 <= i < |ids| ensures Ids(r)[i] == ids[i] {
      assert r[i] == index[ids[i]];
    }
  }

  /** The arranged routes have pairwise-distinct ids. */
  lemma ArrangedDistinctIds(selected: seq<Route>, available: seq<Route>, items: seq<Item>)
    ensures Distinct(Ids(Arranged(selected, available, items)))
  {
    ArrangedIds(selected, available, items);
    var afterSelected := InsertAll([], Ids(selected));
    var afterSystem := InsertAll(afterSelected, SystemIds(available));
    InsertAllDistinct([], Ids(selected));
    InsertAllDistinct(afterSelected, SystemIds(available));
    InsertAllDistinct(afterSystem, ResolvableIds(items, IndexById(selected + available)));
  }

  /**
    An id appears in the arrangement exactly when it is a selected id, the id of an available
    system route, or the route id of a preference item that names a selected or available route.
   */
  lemma ArrangedMembers(selected: seq<Route>, available: seq<Route>, items: seq<Item>)
    ensures forall x :: x in Ids(Arranged(selected, available, items)) <==>
      || x in Ids(selected)
      || (exists k :: 0 <= k < |available| && available[k].isSystem && available[k].id == x)
      || (x in Ids(selected + available) && x in ItemRouteIds(items))
  {
    var index := IndexById(selected + available);
    ArrangedIds(selected, available, items);
    IndexByIdKeys(selected + available);
    var afterSelected := InsertAll([], Ids(selected));
    var afterSystem := InsertAll(afterSelected, SystemIds(available));
    InsertAllExtends([], Ids(selected));
    InsertAllExtends(afterSelected, SystemIds(available));
    InsertAllExtends(afterSystem, ResolvableIds(items, index));
    SystemIdsMembers(available);
    ResolvableIdsMembers(items, index);
  }

  lemma {:induction false} ResolvableIdsOrderPair(items: seq<Item>, index: map<string, Route>, x: string, y: string)
    requires x in ResolvableIds(items, index) && y in ResolvableIds(items, index)
    requires IndexOf(ResolvableIds(items, index), x) < IndexOf(ResolvableIds(items, index), y)
    ensures x in ItemRouteIds(items) && y in ItemRouteIds(items)
    ensures IndexOf(ItemRouteIds(items), x) < IndexOf(ItemRouteIds(items), y)
    decreases |items|
  {
    var p := items[..|items| - 1];
    var it := items[|items| - 1];
    var res', all' := ResolvableIds(p, index), ItemRouteIds(p);
    var res := ResolvableIds(items, index);
    assert ItemRouteIds(items) == all' + [it.routeId];
    if it.routeId !in index {
      assert res == res';
      ResolvableIdsOrderPair(p, index, x, y);
      IndexOfSnoc(all', it.routeId, x);
      IndexOfSnoc(all', it.routeId, y);
    } else {
      assert res == res' + [it.routeId];
      assert res'[IndexOf(res, x)] == x;
      ResolvableIdsMembers(p, index);
      IndexOfSnoc(res', it.routeId, x);
      IndexOfSnoc(all', it.routeId, x);
      if y in res' {
        IndexOfSnoc(res', it.routeId, y);
        ResolvableIdsOrderPair(p, index, x, y);
        IndexOfSnoc(all', it.routeId, y);
      } else {
        assert y == it.routeId && y !in all';
        IndexOfLast(all', y);
      }
    }
  }

  /** Two resolvable ids keep the relative order of the first items that name them. */
  lemma ResolvableIdsOrder(items: seq<Item>, index: map<string, Route>)
    ensures var res := ResolvableIds(items, index); var all := ItemRouteIds(items);
      forall x, y :: x in res && y in res && IndexOf(res, x) < IndexOf(res, y) ==>
        x in all && y in all && IndexOf(all, x) < IndexOf(all, y)
  {
    var res := ResolvableIds(items, index);
    forall x, y | x in res && y in res && IndexOf(res, x) < IndexOf(res, y)
      ensures x in ItemRouteIds(items) && y in ItemRouteIds(items)
      ensures IndexOf(ItemRouteIds(items), x) < IndexOf(ItemRouteIds(items), y)
    {
      ResolvableIdsOrderPair(items, index, x, y);
    }
  }

  /**
    The position of an id among the sorted ids tells the pass that added it: the selected pass,
    the system pass, or the preference pass.
   */
  lemma StageByPosition(selected: seq<Route>, available: seq<Route>, items: seq<Item>)
    ensures var afterSelected := InsertAll([], Ids(selected));
      var afterSystem := InsertAll(afterSelected, SystemIds(available));
      var ids := SortedRouteIds(selected, available, items);
      && |afterSelected| <= |afterSystem| <= |ids|
      && forall p :: 0 <= p < |ids| ==>
           Stage(ids[p], selected, available) == if p < |afterSelected| then 0 else if p < |afterSystem| then 1 else 2
  {
    var index := IndexById(selected + available);
    var afterSelected := InsertAll([], Ids(selected));
    var afterSystem := InsertAll(afterSelected, SystemIds(available));
    var ids := InsertAll(afterSystem, ResolvableIds(items, index));
    InsertAllExtends([], Ids(selected));
    InsertAllExtends(afterSelected, SystemIds(available));
    InsertAllExtends(afterSystem, ResolvableIds(items, index));
    forall p | 0 <= p < |ids|
      ensures Stage(ids[p], selected, available)
        == if p < |afterSelected| then 0 else if p < |afterSystem| then 1 else 2
    {
      if p < |afterSystem| {
        assert ids[..|afterSystem|][p] == afterSystem[p];
        if p < |afterSelected| {
          assert afterSystem[..|afterSelected|][p] == afterSelected[p];
        }
      }
    }
  }

  /** Selected ids come first, then the ids of system routes, then those ranked by the preference. */
  lemma ArrangedOrder(selected: seq<Route>, available: seq<Route>, items: seq<Item>)
    ensures var r := Arranged(selected, available, items);
      forall i, j :: 0 <= i < j < |r| ==> Stage(r[i].id, selected, available) <= Stage(r[j].id, selected, available)
  {
    var r := Arranged(selected, available, items);
    ArrangedIds(selected, available, items);
    StageByPosition(selected, available, items);
    assert forall p :: 0 <= p < |r| ==> r[p].id == Ids(r)[p];
  }

  /** Selected routes keep the order of their first place among the selected routes. */
  lemma ArrangedSelectedOrder(selected: seq<Route>, available: seq<Route>, items: seq<Item>)
    ensures var r := Arranged(selected, available, items);
      forall i, j :: 0 <= i < j < |r| && Stage(r[i].id, selected, available) == 0 == Stage(r[j].id, selected, available)
        ==> IndexOf(Ids(selected), r[i].id) < IndexOf(Ids(selected), r[j].id)
  {
    var r := Arranged(selected, available, items);
    var afterSelected := InsertAll([], Ids(selected));
    var afterSystem := InsertAll(afterSelected, SystemIds(available));
    var ids := SortedRouteIds(selected, available, items);
    ArrangedIds(selected, available, items);
    StageByPosition(selected, available, items);
    InsertAllExtends(afterSelected, SystemIds(available));
    InsertAllExtends(afterSystem, ResolvableIds(items, IndexById(selected + available)));
    InsertAllOrder([], Ids(selected));
    forall i, j | 0 <= i < j < |r| && Stage(r[i].id, selected, available) == 0 == Stage(r[j].id, selected, available)
      ensures IndexOf(Ids(selected), r[i].id) < IndexOf(Ids(selected), r[j].id)
    {
      assert r[i].id == Ids(r)[i] && r[j].id == Ids(r)[j];
      assert ids[..|afterSystem|][i] == afterSystem[i] && ids[..|afterSystem|][j] == afterSystem[j];
      assert afterSystem[..|afterSelected|][i] == afterSelected[i];
      assert afterSystem[..|afterSelected|][j] == afterSelected[j];
    }
  }

  /** System routes keep the order of their first place among the available system routes. */
  lemma ArrangedSystemOrder(selected: seq<Route>, available: seq<Route>, items: seq<Item>)
    ensures var r := Arranged(selected, available, items);
      forall i, j :: 0 <= i < j < |r| && Stage(r[i].id, selected, available) == 1 == Stage(r[j].id, selected, available)
        ==> IndexOf(SystemIds(available), r[i].id) < IndexOf(SystemIds(available), r[j].id)
  {
    var r := Arranged(selected, available, items);
    var afterSelected := InsertAll([], Ids(selected));
    var afterSystem := InsertAll(afterSelected, SystemIds(available));
    var ids := SortedRouteIds(selected, available, items);
    ArrangedIds(selected, available, items);
    StageByPosition(selected, available, items);
    InsertAllExtends(afterSystem, ResolvableIds(items, IndexById(selected + available)));
    InsertAllOrder(afterSelected, SystemIds(available));
    forall i, j | 0 <= i < j < |r| && Stage(r[i].id, selected, available) == 1 == Stage(r[j].id, selected, available)
      ensures IndexOf(SystemIds(available), r[i].id) < IndexOf(SystemIds(available), r[j].id)
    {
      assert r[i].id == Ids(r)[i] && r[j].id == Ids(r)[j];
      assert ids[..|afterSystem|][i] == afterSystem[i] && ids[..|afterSystem|][j] == afterSystem[j];
    }
  }

  /** Preference-ranked routes keep the order of the first items that name them. */
  lemma ArrangedPreferenceOrder(selected: seq<Route>, available: seq<Route>, items: seq<Item>)
    ensures var r := Arranged(selected, available, items);
      forall i, j :: 0 <= i < j < |r| && Stage(r[i].id, selected, available) == 2 == Stage(r[j].id, selected, available)
        ==> r[i].id in ItemRouteIds(items) && r[j].id in ItemRouteIds(items)
            && IndexOf(ItemRouteIds(items), r[i].id) < IndexOf(ItemRouteIds(items), r[j].id)
  {
    var r := Arranged(selected, available, items);
    var index := IndexById(selected + available);
    var res := ResolvableIds(items, index);
    var afterSystem := InsertAll(InsertAll([], Ids(selected)), SystemIds(available));
    var ids := InsertAll(afterSystem, res);
    ArrangedIds(selected, available, items);
    StageByPosition(selected, available, items);
    InsertAllOrder(afterSystem, res);
    forall i, j | 0 <= i < j < |r| && Stage(r[i].id, selected, available) == 2 == Stage(r[j].id, selected, available)
      ensures r[i].id in ItemRouteIds(items) && r[j].id in ItemRouteIds(items)
      ensures IndexOf(ItemRouteIds(items), r[i].id) < IndexOf(ItemRouteIds(items), r[j].id)
    {
      assert r[i].id == ids[i] && r[j].id == ids[j] by {
        assert Ids(r)[i] == r[i].id && Ids(r)[j] == r[j].id;
      }
      assert |afterSystem| <= i < j < |ids|;
      assert ids[i] in res && ids[j] in res && IndexOf(res, ids[i]) < IndexOf(res, ids[j]);
      ResolvableIdsOrderPair(items, index, ids[i], ids[j]);
    }
  }

  /**
    Within each group the routes keep an order: selected routes by their first place among the
    selected routes, system routes by their first place among the available system routes, and
    preference-ranked routes by the first preference item that names them.
   */
  lemma ArrangedOrderWithinStage(selected: seq<Route>, available: seq<Route>, items: seq<Item>)
    ensures var r := Arranged(selected, available, items);
      forall i, j :: 0 <= i < j < |r| && Stage(r[i].id, selected, available) == 0 == Stage(r[j].id, selected, available)
        ==> IndexOf(Ids(selected), r[i].id) < IndexOf(Ids(selected), r[j].id)
    ensures var r := Arranged(selected, available, items);
      forall i, j :: 0 <= i < j < |r| && Stage(r[i].id, selected, available) == 1 == Stage(r[j].id, selected, available)
        ==> IndexOf(SystemIds(available), r[i].id) < IndexOf(SystemIds(available), r[j].id)
    ensures var r := Arranged(selected, available, items);
      forall i, j :: 0 <= i < j < |r| && Stage(r[i].id, selected, available) == 2 == Stage(r[j].id, selected, available)
        ==> r[i].id in ItemRouteIds(items) && r[j].id in ItemRouteIds(items)
            && IndexOf(ItemRouteIds(items), r[i].id) < IndexOf(ItemRouteIds(items), r[j].id)
  {
    ArrangedSelectedOrder(selected, available, items);
    ArrangedSystemOrder(selected, available, items);
    ArrangedPreferenceOrder(selected, available, items);
  }

  /**
    Every arranged route is the first route with its id in selected followed by available,
    so on an id collision the selected route is returned.
   */
  lemma ArrangedPicksFirst(selected: seq<Route>, available: seq<Route>, items: seq<Item>)
    ensures var r := Arranged(selected, available, items); var sa := selected + available;
      forall i :: 0 <= i < |r| ==>
        exists k :: 0 <= k < |sa| && sa[k] == r[i] && forall j :: 0 <= j < k ==> sa[j].id != r[i].id
    ensures var r := Arranged(selected, available, items);
      forall i :: 0 <= i < |r| && r[i].id in Ids(selected) ==> r[i] in selected
  {
    var sa := selected + available;
    var index := IndexById(sa);
    var r := Arranged(selected, available, items);
    var ids := SortedRouteIds(selected, available, items);
    SortedIdsResolve(selected, available, items);
    IndexByIdKeys(sa);
    forall i | 0 <= i < |r|
      ensures exists k :: 0 <= k < |sa| && sa[k] == r[i] && forall j :: 0 <= j < k ==> sa[j].id != r[i].id
      ensures r[i].id in Ids(selected) ==> r[i] in selected
    {
      assert r[i] == index[ids[i]];
      var k := IndexByIdFirst(sa, ids[i]);
      if r[i].id in Ids(selected) {
        var s :| 0 <= s < |selected| && Ids(selected)[s] == r[i].id;
        assert sa[s].id == r[i].id;
        assert sa[k] == selected[k];
      }
    }
  }

  /** In a list with distinct ids, the index maps each route's id back to that route. */
  lemma IndexByIdOfDistinct(rs: seq<Route>, more: seq<Route>, i: nat)
    requires Distinct(Ids(rs)) && i < |rs|
    ensures rs[i].id in IndexById(rs + more) && IndexById(rs + more)[rs[i].id] == rs[i]
  {
    var sa := rs + more;
    var ids := Ids(rs);
    assert Ids(sa)[i] == rs[i].id;
    IndexByIdKeys(sa);
    var k := IndexByIdFirst(sa, rs[i].id);
    assert sa[i].id == rs[i].id;
    assert k <= i;
    assert sa[k] == rs[k] && ids[k] == rs[k].id && ids[i] == rs[i].id;
  }

  /** Without items, a list with distinct ids sorts to its own ids. */
  lemma SortedIdsOfDistinct(rs: seq<Route>)
    requires Distinct(Ids(rs))
    ensures SortedRouteIds(rs, rs, []) == Ids(rs)
  {
    var ids := Ids(rs);
    InsertAllOfDistinct(ids);
    SystemIdsSubset(rs);
    InsertAllAbsorbed(ids, SystemIds(rs));
    assert ResolvableIds([], IndexById(rs + rs)) == [];
  }

  /** Arranging a list with distinct ids against itself, without a preference, returns it unchanged. */
  lemma ArrangedIdempotent(rs: seq<Route>)
    requires Distinct(Ids(rs))
    ensures Arranged(rs, rs, []) == rs
  {
    SortedIdsOfDistinct(rs);
    var r := Arranged(rs, rs, []);
    assert |r| == |rs|;
    forall i | 0 <= i < |rs| ensures r[i] == rs[i] {
      IndexByIdOfDistinct(rs, rs, i);
      assert Ids(rs)[i] == rs[i].id;
    }
  }

  /** The index over selected [A, B] and available [B, C, D] maps each of the four ids to its first route. */
  lemma ArrangeExampleIndex(a: Route, b: Route, c: Route, d: Route)
    requires a.id == "A" && b.id == "B" && c.id == "C" && d.id == "D"
    ensures IndexById([a, b] + [b, c, d]) == map["A" := a, "B" := b, "C" := c, "D" := d]
  {
    var sa := [a, b] + [b, c, d];
    assert sa == [a, b, b, c, d];
    assert sa[..4] == [a, b, b, c];
    assert [a, b, b, c][..3] == [a, b, b];
    assert [a, b, b][..2] == [a, b];
    assert [a, b][..1] == [a];
    assert IndexById([a]) == map["A" := a];
    assert IndexById([a, b]) == map["A" := a, "B" := b];
    assert IndexById([a, b, b]) == map["A" := a, "B" := b];
    assert IndexById([a, b, b, c]) == map["A" := a, "B" := b, "C" := c];
  }

  lemma ArrangeExampleSelectedPass(a: Route, b: Route)
    requires a.id == "A" && b.id == "B"
    ensures InsertAll([], Ids([a, b])) == ["A", "B"]
  {
    assert Ids([a, b]) == ["A", "B"];
    InsertAllSnoc([], [], "A");
    InsertAllSnoc([], ["A"], "B");
  }

  lemma ArrangeExampleSystemPass(b: Route, c: Route, d: Route)
    requires d.id == "D" && !b.isSystem && !c.isSystem && d.isSystem
    ensures InsertAll(["A", "B"], SystemIds([b, c, d])) == ["A", "B", "D"]
  {
    var av := [b, c, d];
    assert av[..1] == [b] && av[..2] == [b, c];
    assert SystemIds([b]) == [];
    assert SystemIds([b, c]) == [];
    assert SystemIds(av) == ["D"];
    InsertAllSnoc(["A", "B"], [], "D");
  }

  lemma ArrangeExamplePreferencePass(index: map<string, Route>)
    requires "C" in index && "D" in index
    ensures InsertAll(["A", "B", "D"], ResolvableIds([Item("D", true), Item("C", false)], index)) == ["A", "B", "D", "C"]
  {
    var composed := [Item("D", true), Item("C", false)];
    assert composed[..1] == [Item("D", true)];
    assert ResolvableIds([Item("D", true)], index) == ["D"];
    assert ResolvableIds(composed, index) == ["D", "C"];
    InsertAllSnoc(["A", "B", "D"], [], "D");
    InsertAllSnoc(["A", "B", "D"], ["D"], "C");
  }

  /** With system route D, the three passes give the ids A, B (selected), D (system), C (preference). */
  lemma ArrangeExampleIds(a: Route, b: Route, c: Route, d: Route)
    requires a.id == "A" && b.id == "B" && c.id == "C" && d.id == "D"
    requires !b.isSystem && !c.isSystem && d.isSystem
    ensures SortedRouteIds([a, b], [b, c, d], [Item("D", true), Item("C", false)]) == ["A", "B", "D", "C"]
  {
    ArrangeExampleSelectedPass(a, b);
    ArrangeExampleSystemPass(b, c, d);
    ArrangeExampleIndex(a, b, c, d);
    ArrangeExamplePreferencePass(IndexById([a, b] + [b, c, d]));
  }

  /** Selected [A, B], available [B, C, D] with D a system route, items [C, suggested D]. */
  lemma ArrangeExample()
    ensures
      var a := Route("A", RemoteSpeaker, false, {}, "");
      var b := Route("B", RemoteTv, false, {}, "");
      var c := Route("C", RemoteSpeaker, false, {}, "");
      var d := Route("D", BuiltinSpeaker, true, {}, "");
      var items := [Item("C", false), Item("D", true)];
      Composed(items) == [Item("D", true), Item("C", false)]
      && Arranged([a, b], [b, c, d], Composed(items)) == [a, b, d, c]
  {
    var a := Route("A", RemoteSpeaker, false, {}, "");
    var b := Route("B", RemoteTv, false, {}, "");
    var c := Route("C", RemoteSpeaker, false, {}, "");
    var d := Route("D", BuiltinSpeaker, true, {}, "");
    var items := [Item("C", false), Item("D", true)];
    assert items[..1] == [Item("C", false)];
    assert Composed([Item("C", false)]) == [Item("C", false)];
    var composed := [Item("D", true), Item("C", false)];
    assert Composed(items) == composed;
    ArrangeExampleIndex(a, b, c, d);
    ArrangeExampleIds(a, b, c, d);
    var ids := SortedRouteIds([a, b], [b, c, d], composed);
    var index := IndexById([a, b] + [b, c, d]);
    var r := Arranged([a, b], [b, c, d], composed);
    assert r == seq(|ids|, i requires 0 <= i < |ids| => index[ids[i]]);
    assert r == [a, b, d, c];
  }

  /** Two suggested items come out in reverse order, ahead of the item that is not suggested. */
  lemma ComposeExample()
    ensures Composed([Item("X", true), Item("Y", true), Item("Z", false)])
      == [Item("Y", true), Item("X", true), Item("Z", false)]
  {
    var items := [Item("X", true), Item("Y", true), Item("Z", false)];
    assert items[..2] == [Item("X", true), Item("Y", true)];
    assert items[..2][..1] == [Item("X", true)];
    assert Composed([Item("X", true)]) == [Item("X", true)];
    assert Composed(items[..2]) == [Item("Y", true), Item("X", true)];
  }

  // ---------------------------------------------------------------------------------------
  // onRouteListingPreferenceUpdated

  /** The map the items' forEach leaves: each route id bound to the last item naming it. */
  function ItemIndex(items: seq<Item>): map<string, Item>
    decreases |items|
  {
    if items == [] then map[]
    else
      var it := items[|items| - 1];
      ItemIndex(items[..|items| - 1])[it.routeId := it]
  }

  /** The preference-item map after an update with `pref`; empty for a null preference. */
  function PreferenceItemMap(pref: Option<Preference>): map<string, Item>
  {
    match pref
    case None => map[]
    case Some(p) => ItemIndex(p.items)
  }

  /** The keys are exactly the items' route ids, and the item a key maps to carries that id. */
  lemma {:induction false} ItemIndexKeys(items: seq<Item>)
    ensures forall x :: x in ItemIndex(items) <==> exists k :: 0 <= k < |items| && items[k].routeId == x
    ensures forall x :: x in ItemIndex(items) ==> ItemIndex(items)[x].routeId == x && ItemIndex(items)[x] in items
    decreases |items|
  {
    if items != [] {
      var p := items[..|items| - 1];
      ItemIndexKeys(p);
      forall x | x in ItemIndex(items)
        ensures exists k :: 0 <= k < |items| && items[k].routeId == x
      {
        if x in ItemIndex(p) && x != items[|items| - 1].routeId {
          var k :| 0 <= k < |p| && p[k].routeId == x;
          assert items[k] == p[k];
        }
      }
      assert forall it :: it in p ==> it in items;
    }
  }

  /** A later item with the same route id overwrites an earlier one: the last one wins. */
  lemma {:induction false} ItemIndexLastWins(items: seq<Item>, i: nat)
    requires i < |items|
    requires forall j :: i < j < |items| ==> items[j].routeId != items[i].routeId
    ensures items[i].routeId in ItemIndex(items) && ItemIndex(items)[items[i].routeId] == items[i]
    decreases |items|
  {
    if i < |items| - 1 {
      var p := items[..|items| - 1];
      assert p[i] == items[i];
      forall j | i < j < |p| ensures p[j].routeId != p[i].routeId {
        assert p[j] == items[j];
      }
      ItemIndexLastWins(p, i);
    }
  }

  // ---------------------------------------------------------------------------------------
  // preferRouteListingOrdering and getLinkedItemComponentName

  /** The preference's own ordering is preferred when there is a preference that does not ask for system ordering. */
  function PreferRouteListingOrdering(pref: Option<Preference>): (prefer: bool)
    ensures pref.None? ==> !prefer
    ensures pref.Some? ==> (prefer <==> !pref.value.useSystemOrdering)
  {
    pref.Some? && !pref.value.useSystemOrdering
  }

  /** The component of the preference's linked item; None for a null preference. */
  function GetLinkedItemComponentName(pref: Option<Preference>): (name: Option<string>)
    ensures pref.None? ==> name.None?
    ensures name.Some? ==> pref.Some? && pref.value.linkedItemComponent == name
    ensures pref.Some? ==> name == pref.value.linkedItemComponent
  {
    if pref.None? then None else pref.value.linkedItemComponent
  }
}
