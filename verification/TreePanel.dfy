/**
 The Canvas tree panel: entries grouped by parent, the active path, and the recursive rendering.
 An entry without a parent is grouped under the name "root".
 */
module TreePanel {
  import opened Wrappers
  import opened Sorting
  import opened Forest

  datatype Item = Item(id: string, parentId: Option<string>)

  const ROOT := "root"

  function Key(item: Item): string {
    if item.parentId.Some? then item.parentId.value else ROOT
  }

  function ItemIds(items: seq<Item>): (r: seq<string>)
    ensures |r| == |items| && forall i :: 0 <= i < |r| ==> r[i] == items[i].id
  {
    seq(|items|, i requires 0 <= i < |items| => items[i].id)
  }

  /** The items grouped under `key`, in order. */
  function Children(items: seq<Item>, key: string): (r: seq<Item>)
    ensures |r| <= |items|
    ensures forall e :: e in r <==> e in items && Key(e) == key
  {
    if items == [] then []
    else if Key(items[0]) == key then [items[0]] + Children(items[1..], key)
    else Children(items[1..], key)
  }

  function Group(children: map<string, seq<Item>>, key: string): seq<Item> {
    if key in children then children[key] else []
  }

  method GroupByParent(items: seq<Item>) returns (children: map<string, seq<Item>>)
    ensures forall key :: Group(children, key) == Children(items, key)
  {
    children := map[];
    for i := 0 to |items|
      invariant forall key :: Group(children, key) == Children(items[..i], key)
    {
      var k := Key(items[i]);
      assert items[..i + 1] == items[..i] + [items[i]];
      forall key
        ensures Children(items[..i + 1], key) == Children(items[..i], key) + if key == k then [items[i]] else []
      {
        ChildrenAppend(items[..i], items[i], key);
      }
      ghost var before := children;
      children := children[k := Group(children, k) + [items[i]]];
      forall key ensures Group(children, key) == Children(items[..i + 1], key) {
        assert Group(before, key) == Children(items[..i], key);
      }
    }
    assert items[..|items|] == items;
  }

  lemma {:induction false} ChildrenAppend(items: seq<Item>, item: Item, key: string)
    ensures Children(items + [item], key) == Children(items, key) + if Key(item) == key then [item] else []
  {
    if items == [] {
      assert items + [item] == [item];
    } else {
      assert (items + [item])[1..] == items[1..] + [item];
      ChildrenAppend(items[1..], item, key);
    }
  }

  /** The group of a key is what has it for a parent, or no parent if the key is "root", in order. */
  lemma {:induction false} GroupInOrder(items: seq<Item>, key: string) returns (p: seq<nat>)
    ensures Selects(p, items, Children(items, key))
    ensures forall i: nat :: i in p <==>
              i < |items| && (items[i].parentId == Some(key) || (items[i].parentId == None && key == "root"))
  {
    if items == [] {
      p := [];
    } else {
      var q := GroupInOrder(items[1..], key);
      var first := Key(items[0]) == key;
      p := Shifted(q, first);
      assert Children(items, key) == (if first then [items[0]] else []) + Children(items[1..], key);
      assert [items[0]] + items[1..] == items;
      SelectsOneMore(q, items[0], items[1..], Children(items[1..], key), first);
      forall i: nat
        ensures i in p <==>
                i < |items| && (items[i].parentId == Some(key) || (items[i].parentId == None && key == "root"))
      {
        ShiftedIn(q, first, i);
      }
    }
  }

  // The active path

  function Find(items: seq<Item>, id: Option<string>): (r: Option<Item>)
    ensures r.Some? ==> r.value in items && id == Some(r.value.id)
    ensures r.None? ==> forall e :: e in items ==> id != Some(e.id)
  {
    if items == [] then None
    else if id == Some(items[0].id) then Some(items[0])
    else Find(items[1..], id)
  }

  /** The items list the visible entries of `g`, each once. */
  ghost predicate Lists(items: seq<Item>, g: Graph) {
    && Distinct(ItemIds(items))
    && (forall e :: e in items ==> e.id in g && g[e.id].parent == e.parentId)
    && (forall id :: id in g ==> id in ItemIds(items))
  }

  lemma ListedIsKnown(items: seq<Item>, g: Graph)
    requires Lists(items, g)
    ensures forall id :: id in ItemIds(items) <==> id in g
  {
    forall id | id in ItemIds(items) ensures id in g {
      var i :| 0 <= i < |items| && ItemIds(items)[i] == id;
      assert items[i] in items;
    }
  }

  lemma FindIsKnown(items: seq<Item>, g: Graph, id: Option<string>)
    requires Lists(items, g) && "" !in g
    ensures Find(items, id).Some? <==> Known(g, id)
    ensures Find(items, id).Some? ==> Find(items, id).value.parentId == g[id.value].parent
  {
    if Known(g, id) {
      var i :| 0 <= i < |items| && ItemIds(items)[i] == id.value;
      assert items[i] in items;
    }
  }

  /** The loop that collects the active set: exactly the chain from the leaf to its root. */
  method ActiveSet(items: seq<Item>, leaf: Option<string>, ghost g: Graph, ghost rank: map<string, nat>)
    returns (active: set<string>)
    requires Lists(items, g) && "" !in g && Ranked(g, rank)
    ensures active == set id | id in Chain(g, rank, leaf)
  {
    active := {};
    var cur := Find(items, leaf);
    ghost var at := leaf;
    FindIsKnown(items, g, at);
    while cur.Some?
      invariant cur == Find(items, at) && (cur.Some? <==> Known(g, at))
      invariant (set id | id in Chain(g, rank, leaf)) == active + set id | id in Chain(g, rank, at)
      decreases Height(g, rank, at)
    {
      var chain := Chain(g, rank, at);
      active := active + {cur.value.id};
      FindIsKnown(items, g, at);
      at := cur.value.parentId;
      assert chain == [cur.value.id] + Chain(g, rank, at);
      cur := Find(items, cur.value.parentId);
      FindIsKnown(items, g, at);
    }
  }

  // Rendering

  /** No entry is called "root", so the group of roots is not the group of any entry. */
  ghost predicate RootIsFree(g: Graph) {
    ROOT !in g
  }

  ghost predicate Below(rank: map<string, nat>, bound: nat) {
    forall id :: id in rank ==> rank[id] < bound
  }

  /** How far above the deepest entries the group `key` lies. */
  ghost function Depth(g: Graph, rank: map<string, nat>, bound: nat, key: string): nat
    requires Ranked(g, rank) && Below(rank, bound)
  {
    if key in g then bound - rank[key] else bound + 1
  }

  /** Renderable: the recursion comes to an end. */
  ghost predicate Renderable(items: seq<Item>, g: Graph, rank: map<string, nat>, bound: nat) {
    Lists(items, g) && Ranked(g, rank) && Below(rank, bound) && RootIsFree(g) && "" !in g
  }

  lemma ChildIsDeeper(items: seq<Item>, child: Item, g: Graph, rank: map<string, nat>, bound: nat)
    requires Renderable(items, g, rank, bound) && child in items
    ensures Depth(g, rank, bound, child.id) < Depth(g, rank, bound, Key(child))
  {
    if Key(child) in g {
      assert child.parentId == Some(Key(child));
      assert Known(g, g[child.id].parent);
    }
  }

  /** The ids in the order in which `render(key, _)` visits them. */
  function Render(items: seq<Item>, key: string, ghost g: Graph, ghost rank: map<string, nat>,
                  ghost bound: nat): seq<string>
    requires Renderable(items, g, rank, bound)
    decreases Depth(g, rank, bound, key), |items| + 1
  {
    RenderEach(items, Children(items, key), key, g, rank, bound)
  }

  function RenderEach(items: seq<Item>, group: seq<Item>, key: string, ghost g: Graph, ghost rank: map<string, nat>,
                      ghost bound: nat): seq<string>
    requires Renderable(items, g, rank, bound)
    requires |group| <= |items| && forall e :: e in group ==> e in items && Key(e) == key
    decreases Depth(g, rank, bound, key), |group|
  {
    if group == [] then []
    else
      assert group[0] in group;
      ChildIsDeeper(items, group[0], g, rank, bound);
      [group[0].id] + Render(items, group[0].id, g, rank, bound)
      + RenderEach(items, group[1..], key, g, rank, bound)
  }

  // Parents first

  /** One id is visited, and later on another. */
  ghost predicate Precedes(s: seq<string>, a: string, b: string) {
    exists i, j :: 0 <= i < j < |s| && s[i] == a && s[j] == b
  }

  lemma PrecedesInPart(before: seq<string>, s: seq<string>, behind: seq<string>, a: string, b: string)
    requires Precedes(s, a, b)
    ensures Precedes(before + s + behind, a, b)
  {
    var i, j :| 0 <= i < j < |s| && s[i] == a && s[j] == b;
    var all := before + s + behind;
    assert all[|before| + i] == a && all[|before| + j] == b;
  }

  lemma PrecedesAfterHead(a: string, s: seq<string>, behind: seq<string>, b: string)
    requires b in s
    ensures Precedes([a] + s + behind, a, b)
  {
    var j :| 0 <= j < |s| && s[j] == b;
    var all := [a] + s + behind;
    assert all[0] == a && all[j + 1] == b;
  }

  lemma {:induction false} GroupIsVisited(items: seq<Item>, group: seq<Item>, key: string, item: Item, g: Graph,
                                          rank: map<string, nat>, bound: nat)
    requires Renderable(items, g, rank, bound) && item in group
    requires |group| <= |items| && forall e :: e in group ==> e in items && Key(e) == key
    ensures item.id in RenderEach(items, group, key, g, rank, bound)
    decreases |group|
  {
    assert group[0] in group;
    ChildIsDeeper(items, group[0], g, rank, bound);
    if item != group[0] {
      GroupIsVisited(items, group[1..], key, item, g, rank, bound);
    }
  }

  /** Wherever an entry's parent is visited, the entry is visited after it. */
  lemma {:induction false} ParentsComeFirst(items: seq<Item>, key: string, item: Item, g: Graph,
                                            rank: map<string, nat>, bound: nat)
    requires Renderable(items, g, rank, bound) && item in items
    requires Key(item) in Render(items, key, g, rank, bound)
    ensures Precedes(Render(items, key, g, rank, bound), Key(item), item.id)
    decreases Depth(g, rank, bound, key), |items| + 1
  {
    ParentsFirstInGroup(items, Children(items, key), key, item, g, rank, bound);
  }

  lemma {:induction false} ParentsFirstInGroup(items: seq<Item>, group: seq<Item>, key: string, item: Item, g: Graph,
                                               rank: map<string, nat>, bound: nat)
    requires Renderable(items, g, rank, bound) && item in items
    requires |group| <= |items| && forall e :: e in group ==> e in items && Key(e) == key
    requires Key(item) in RenderEach(items, group, key, g, rank, bound)
    ensures Precedes(RenderEach(items, group, key, g, rank, bound), Key(item), item.id)
    decreases Depth(g, rank, bound, key), |group|
  {
    var first := group[0];
    assert first in group;
    ChildIsDeeper(items, first, g, rank, bound);
    var below, rest := Render(items, first.id, g, rank, bound), RenderEach(items, group[1..], key, g, rank, bound);
    if Key(item) == first.id {
      GroupIsVisited(items, Children(items, first.id), first.id, item, g, rank, bound);
      PrecedesAfterHead(first.id, below, rest, item.id);
    } else if Key(item) in below {
      ParentsComeFirst(items, first.id, item, g, rank, bound);
      PrecedesInPart([first.id], below, rest, Key(item), item.id);
    } else {
      ParentsFirstInGroup(items, group[1..], key, item, g, rank, bound);
      PrecedesInPart([first.id] + below, rest, [], Key(item), item.id);
      assert [first.id] + below + rest + [] == [first.id] + below + rest;
    }
  }

  // Every entry once

  /** How often `id` is visited below `key`. */
  ghost function Visits(items: seq<Item>, key: string, id: string, g: Graph, rank: map<string, nat>, bound: nat): nat
    requires Renderable(items, g, rank, bound)
  {
    multiset(Render(items, key, g, rank, bound))[id]
  }

  ghost function Once(b: bool): nat {
    if b then 1 else 0
  }

  /** Visits of `item` below `key`: one if it hangs there itself, and one for each visit of its parent. */
  lemma {:induction false} VisitedWithParent(items: seq<Item>, key: string, item: Item, g: Graph, rank: map<string,
                                             nat>, bound: nat)
    requires Renderable(items, g, rank, bound) && item in items
    ensures Visits(items, key, item.id, g, rank, bound)
         == Once(Key(item) == key) + Visits(items, key, Key(item), g, rank, bound)
    decreases Depth(g, rank, bound, key), |items| + 1
  {
    var group := Children(items, key);
    VisitedInGroup(items, group, key, item, g, rank, bound);
    ChildrenDistinct(items, key);
    assert item in group <==> Key(item) == key;
    CountInDistinct(group, item);
  }

  ghost function EachVisits(items: seq<Item>, group: seq<Item>, key: string, id: string, g: Graph, rank: map<string,
                            nat>, bound: nat): nat
    requires Renderable(items, g, rank, bound)
    requires |group| <= |items| && forall e :: e in group ==> e in items && Key(e) == key
  {
    multiset(RenderEach(items, group, key, g, rank, bound))[id]
  }

  lemma {:induction false} VisitedInGroup(items: seq<Item>, group: seq<Item>, key: string, item: Item, g: Graph,
                                          rank: map<string, nat>, bound: nat)
    requires Renderable(items, g, rank, bound) && item in items
    requires |group| <= |items| && forall e :: e in group ==> e in items && Key(e) == key
    ensures EachVisits(items, group, key, item.id, g, rank, bound)
         == multiset(group)[item] + EachVisits(items, group, key, Key(item), g, rank, bound)
    decreases Depth(g, rank, bound, key), |group|
  {
    if group != [] {
      var first := group[0];
      assert first in group;
      ChildIsDeeper(items, first, g, rank, bound);
      VisitedWithParent(items, first.id, item, g, rank, bound);
      VisitedInGroup(items, group[1..], key, item, g, rank, bound);
      EachSplits(items, group, key, item.id, g, rank, bound);
      EachSplits(items, group, key, Key(item), g, rank, bound);
      CountsHead(group, item);
      SameIdSameItem(items, first, item);
    }
  }

  lemma EachSplits(items: seq<Item>, group: seq<Item>, key: string, id: string, g: Graph, rank: map<string, nat>,
                   bound: nat)
    requires Renderable(items, g, rank, bound) && group != []
    requires |group| <= |items| && forall e :: e in group ==> e in items && Key(e) == key
    ensures EachVisits(items, group, key, id, g, rank, bound)
         == Once(group[0].id == id) + Visits(items, group[0].id, id, g, rank, bound)
            + EachVisits(items, group[1..], key, id, g, rank, bound)
  {
    assert group[0] in group;
    ChildIsDeeper(items, group[0], g, rank, bound);
    var a, b := Render(items, group[0].id, g, rank, bound), RenderEach(items, group[1..], key, g, rank, bound);
    assert RenderEach(items, group, key, g, rank, bound) == [group[0].id] + a + b;
    assert multiset([group[0].id] + a + b) == multiset{group[0].id} + multiset(a) + multiset(b);
  }

  lemma CountsHead(group: seq<Item>, item: Item)
    requires group != []
    ensures multiset(group)[item] == Once(group[0] == item) + multiset(group[1..])[item]
  {
    assert group == [group[0]] + group[1..];
  }

  lemma SameIdSameItem(items: seq<Item>, a: Item, b: Item)
    requires Distinct(ItemIds(items)) && a in items && b in items
    ensures a.id == b.id <==> a == b
  {
    var i :| 0 <= i < |items| && items[i] == a;
    var j :| 0 <= j < |items| && items[j] == b;
    if a.id == b.id {
      assert ItemIds(items)[i] == ItemIds(items)[j];
    }
  }

  lemma {:induction false} ChildrenDistinct(items: seq<Item>, key: string)
    requires Distinct(ItemIds(items))
    ensures Distinct(Children(items, key))
  {
    if items != [] {
      assert ItemIds(items)[1..] == ItemIds(items[1..]);
      ChildrenDistinct(items[1..], key);
      forall e | e in items[1..] ensures e != items[0] {
        var i :| 0 <= i < |items[1..]| && items[1..][i] == e;
        assert ItemIds(items)[i + 1] == e.id;
      }
    }
  }

  lemma {:induction false} CountInDistinct<T>(s: seq<T>, x: T)
    requires Distinct(s)
    ensures multiset(s)[x] == Once(x in s)
  {
    if s != [] {
      assert s == [s[0]] + s[1..];
      CountInDistinct(s[1..], x);
    }
  }

  /** Only ids of items are visited. */
  lemma {:induction false} VisitsItems(items: seq<Item>, key: string, id: string, g: Graph, rank: map<string, nat>,
                                       bound: nat)
    requires Renderable(items, g, rank, bound) && id !in ItemIds(items)
    ensures Visits(items, key, id, g, rank, bound) == 0
    decreases Depth(g, rank, bound, key), |items| + 1
  {
    GroupVisitsItems(items, Children(items, key), key, id, g, rank, bound);
  }

  lemma {:induction false} GroupVisitsItems(items: seq<Item>, group: seq<Item>, key: string, id: string, g: Graph,
                                            rank: map<string, nat>, bound: nat)
    requires Renderable(items, g, rank, bound) && id !in ItemIds(items)
    requires |group| <= |items| && forall e :: e in group ==> e in items && Key(e) == key
    ensures EachVisits(items, group, key, id, g, rank, bound) == 0
    decreases Depth(g, rank, bound, key), |group|
  {
    if group != [] {
      assert group[0] in group;
      ChildIsDeeper(items, group[0], g, rank, bound);
      var i :| 0 <= i < |items| && items[i] == group[0];
      assert ItemIds(items)[i] == group[0].id;
      EachSplits(items, group, key, id, g, rank, bound);
      VisitsItems(items, group[0].id, id, g, rank, bound);
      GroupVisitsItems(items, group[1..], key, id, g, rank, bound);
    }
  }

  /** The last entry of the chain upwards. */
  ghost predicate ReachesRoot(g: Graph, rank: map<string, nat>, id: string)
    requires Ranked(g, rank)
    decreases Height(g, rank, Some(id))
  {
    Known(g, Some(id)) && (g[id].parent.None? || g[id].parent == Some(ROOT)
                           || ReachesRoot(g, rank, g[id].parent.value))
  }

  /** An entry is visited once if its chain of parents ends at a root, and else not at all. */
  lemma {:induction false} VisitedWhenRooted(items: seq<Item>, id: string, g: Graph, rank: map<string, nat>, bound: nat)
    requires Renderable(items, g, rank, bound)
    ensures Visits(items, ROOT, id, g, rank, bound) == Once(ReachesRoot(g, rank, id))
    decreases Height(g, rank, Some(id))
  {
    ListedIsKnown(items, g);
    if id !in g {
      VisitsItems(items, ROOT, id, g, rank, bound);
    } else {
      var item := ItemOf(items, id);
      VisitedWithParent(items, ROOT, item, g, rank, bound);
      VisitedWhenRooted(items, Key(item), g, rank, bound);
    }
  }

  lemma ItemOf(items: seq<Item>, id: string) returns (item: Item)
    requires id in ItemIds(items)
    ensures item in items && item.id == id
  {
    var i :| 0 <= i < |items| && ItemIds(items)[i] == id;
    item := items[i];
  }

  ghost predicate RendersEachOnce(items: seq<Item>, g: Graph, rank: map<string, nat>, bound: nat)
    requires Renderable(items, g, rank, bound)
  {
    multiset(Render(items, ROOT, g, rank, bound)) == multiset(ItemIds(items))
  }

  /** Rendering from "root" visits every entry exactly once exactly when every chain ends at a root. */
  lemma RendersOnceExactlyWhenRooted(items: seq<Item>, g: Graph, rank: map<string, nat>, bound: nat)
    requires Renderable(items, g, rank, bound)
    ensures RendersEachOnce(items, g, rank, bound) <==> forall id :: id in g ==> ReachesRoot(g, rank, id)
  {
    forall id ensures Visits(items, ROOT, id, g, rank, bound) == Once(ReachesRoot(g, rank, id)) {
      VisitedWhenRooted(items, id, g, rank, bound);
    }
    forall id ensures multiset(ItemIds(items))[id] == Once(id in g) {
      CountInDistinct(ItemIds(items), id);
      ListedIsKnown(items, g);
    }
    if RendersEachOnce(items, g, rank, bound) {
      forall id | id in g ensures ReachesRoot(g, rank, id) {
        assert Visits(items, ROOT, id, g, rank, bound) == 1;
      }
    } else if forall id :: id in g ==> ReachesRoot(g, rank, id) {
      forall id ensures multiset(Render(items, ROOT, g, rank, bound))[id] == multiset(ItemIds(items))[id] {
        assert Visits(items, ROOT, id, g, rank, bound) == Once(ReachesRoot(g, rank, id));
      }
    }
  }

  lemma {:induction false} CutOffBelow(g: Graph, rank: map<string, nat>, id: string, below: string)
    requires Ranked(g, rank) && id in g && g[id].parent.Some? && g[id].parent != Some(ROOT) && g[id].parent.value !in g
    requires RootIsFree(g) && id in Chain(g, rank, Some(below))
    ensures !ReachesRoot(g, rank, below)
    decreases Height(g, rank, Some(below))
  {
    if below != id {
      CutOffBelow(g, rank, id, g[below].parent.value);
    }
  }

  /** An entry whose parent is unknown is not rendered, nor is anything below it. */
  lemma UnknownParentHidesAll(items: seq<Item>, g: Graph, rank: map<string, nat>, bound: nat, id: string, below: string)
    requires Renderable(items, g, rank, bound)
    requires id in g && g[id].parent.Some? && g[id].parent != Some(ROOT) && g[id].parent.value !in g
    requires id in Chain(g, rank, Some(below))
    ensures Visits(items, ROOT, below, g, rank, bound) == 0 && !RendersEachOnce(items, g, rank, bound)
  {
    CutOffBelow(g, rank, id, below);
    VisitedWhenRooted(items, below, g, rank, bound);
    RendersOnceExactlyWhenRooted(items, g, rank, bound);
    ChainIsKnown(g, rank, Some(below), id);
  }

  lemma {:induction false} ChainIsKnown(g: Graph, rank: map<string, nat>, start: Option<string>, id: string)
    requires Ranked(g, rank) && id in Chain(g, rank, start)
    ensures start.Some? && start.value in g
  {
  }

  lemma {:induction false} ClosedChainsAreRooted(g: Graph, rank: map<string, nat>, id: string)
    requires Ranked(g, rank) && ParentClosed(g) && id in g
    ensures ReachesRoot(g, rank, id)
    decreases Height(g, rank, Some(id))
  {
    if g[id].parent.Some? {
      ClosedChainsAreRooted(g, rank, g[id].parent.value);
    }
  }

  // What the panel shows of a projected session

  /** The entries of a tree as the panel receives them. */
  function ItemsOf(g: Graph, ids: seq<string>): (r: seq<Item>)
    requires forall id :: id in ids ==> id in g
    ensures |r| == |ids|
    ensures forall i :: 0 <= i < |r| ==> r[i] == Item(ids[i], g[ids[i]].parent)
  {
    seq(|ids|, i requires 0 <= i < |ids| => assert ids[i] in ids; Item(ids[i], g[ids[i]].parent))
  }

  /**
   The original active path without its hidden entries; when nothing is left of it, that of the last
   visible entry.
   */
  function ActivePath(g: Graph, ghost rank: map<string, nat>, visible: seq<string>, leaf: string): seq<string>
    requires Ranked(g, rank)
  {
    var path := VisibleOnly(g, Chain(g, rank, Some(leaf)));
    if path != [] || visible == [] then path else VisibleOnly(g, Chain(g, rank, Some(visible[|visible| - 1])))
  }

  /**
   For a parent-closed session tree, the panel of its public projection renders each visible entry
   once, and what it marks active is that path.
   */
  lemma PanelShowsProjection(g: Graph, ids: seq<string>, leaf: string, rank: map<string, nat>, bound: nat)
    requires Ranked(g, rank) && Below(rank, bound) && ParentClosed(g) && RootIsFree(g) && leaf != ""
    requires Distinct(ids) && forall id :: id in ids <==> id in g
    ensures Ranked(Project(g, rank), rank)
    ensures var p, visible := Project(g, rank), VisibleOnly(g, ids);
            && (forall id :: id in visible ==> id in p)
            && Renderable(ItemsOf(p, visible), p, rank, bound)
            && RendersEachOnce(ItemsOf(p, visible), p, rank, bound)
            && ItemIds(ItemsOf(p, visible)) == visible
            && Chain(p, rank, ProjectLeaf(g, rank, visible, Some(leaf))) == ActivePath(g, rank, visible, leaf)
  {
    ProjectionIsAForest(g, rank);
    var p, visible := Project(g, rank), VisibleOnly(g, ids);
    var items := ItemsOf(p, visible);
    VisibleDistinct(g, ids);
    ItemsAreListed(p, visible);
    assert Renderable(items, p, rank, bound);
    forall id | id in p ensures ReachesRoot(p, rank, id) {
      ClosedChainsAreRooted(p, rank, id);
    }
    RendersOnceExactlyWhenRooted(items, p, rank, bound);
    ActivePathShown(g, rank, ids, leaf);
  }

  lemma ItemsAreListed(p: Graph, visible: seq<string>)
    requires Distinct(visible) && forall id :: id in visible <==> id in p
    ensures ItemIds(ItemsOf(p, visible)) == visible && Lists(ItemsOf(p, visible), p)
  {
    var items := ItemsOf(p, visible);
    assert ItemIds(items) == visible;
    forall e | e in items ensures e.id in p && p[e.id].parent == e.parentId {
      var i :| 0 <= i < |items| && items[i] == e;
      assert visible[i] in visible;
    }
  }

  lemma ActivePathShown(g: Graph, rank: map<string, nat>, ids: seq<string>, leaf: string)
    requires Ranked(g, rank) && ParentClosed(g) && leaf != "" && forall id :: id in ids <==> id in g
    ensures Ranked(Project(g, rank), rank)
    ensures var visible := VisibleOnly(g, ids);
            Chain(Project(g, rank), rank, ProjectLeaf(g, rank, visible, Some(leaf)))
                == ActivePath(g, rank, visible, leaf)
  {
    ActivePathIsPreserved(g, rank, ids, leaf);
    if VisibleOnly(g, ids) != [] {
      LastVisiblePath(g, rank, ids);
    }
  }

  lemma LastVisiblePath(g: Graph, rank: map<string, nat>, ids: seq<string>)
    requires Ranked(g, rank) && VisibleOnly(g, ids) != []
    ensures Ranked(Project(g, rank), rank)
    ensures var visible := VisibleOnly(g, ids);
            var last := Some(visible[|visible| - 1]);
            Chain(Project(g, rank), rank, last) == VisibleOnly(g, Chain(g, rank, last))
  {
    var id := LastVisible(g, ids);
    HidingPreservesAncestry(g, rank, id);
  }

  lemma LastVisible(g: Graph, ids: seq<string>) returns (id: string)
    requires VisibleOnly(g, ids) != []
    ensures id in g && !g[id].hidden && id == VisibleOnly(g, ids)[|VisibleOnly(g, ids)| - 1]
  {
    var visible := VisibleOnly(g, ids);
    id := visible[|visible| - 1];
    assert id in visible;
  }

  lemma {:induction false} VisibleDistinct(g: Graph, ids: seq<string>)
    requires Distinct(ids)
    ensures Distinct(VisibleOnly(g, ids))
  {
    if ids != [] {
      VisibleDistinct(g, ids[1..]);
    }
  }
}
