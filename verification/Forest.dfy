/**
 Session trees as values: every entry names its parent, and hidden entries are to be taken out.

 A missing parent and an empty one end a chain alike, as both are falsy; so does a parent that is
 not in the tree.
 */
module Forest {
  import opened Wrappers

  datatype Node = Node(parent: Option<string>, hidden: bool)

  type Graph = map<string, Node>

  /** `if (parentId)`: a parent that is there and not empty. */
  function Truthy(id: Option<string>): Option<string> {
    if id == Some("") then None else id
  }

  predicate Known(g: Graph, id: Option<string>) {
    Truthy(id).Some? && id.value in g
  }

  predicate IsHidden(g: Graph, id: Option<string>) {
    Known(g, id) && g[id.value].hidden
  }

  /** `rank` falls from every entry to its parent. */
  ghost predicate Ranked(g: Graph, rank: map<string, nat>) {
    && g.Keys <= rank.Keys
    && forall id :: id in g && Known(g, g[id].parent) ==> rank[g[id].parent.value] < rank[id]
  }

  /** No chain of parents runs in a circle. */
  ghost predicate Acyclic(g: Graph) {
    exists rank :: Ranked(g, rank)
  }

  /** Every parent is an entry, and no entry has the empty name. */
  ghost predicate ParentClosed(g: Graph) {
    && "" !in g
    && forall id :: id in g && g[id].parent.Some? ==> g[id].parent.value in g
  }

  ghost function Height(g: Graph, rank: map<string, nat>, id: Option<string>): nat
    requires Ranked(g, rank)
  {
    if Known(g, id) then rank[id.value] + 1 else 0
  }

  /** The first entry from `id` upwards that is not hidden, or where the chain ends. */
  function Nearest(g: Graph, ghost rank: map<string, nat>, id: Option<string>): Option<string>
    requires Ranked(g, rank)
    decreases Height(g, rank, id)
  {
    if IsHidden(g, id) then Nearest(g, rank, g[id.value].parent) else id
  }

  /** The entries from `id` up to its root. */
  function Chain(g: Graph, ghost rank: map<string, nat>, id: Option<string>): seq<string>
    requires Ranked(g, rank)
    decreases Height(g, rank, id)
  {
    if Known(g, id) then [id.value] + Chain(g, rank, g[id.value].parent) else []
  }

  function VisibleOnly(g: Graph, ids: seq<string>): (r: seq<string>)
    ensures forall id :: id in r <==> id in ids && id in g && !g[id].hidden
  {
    if ids == [] then []
    else if ids[0] in g && !g[ids[0]].hidden then [ids[0]] + VisibleOnly(g, ids[1..])
    else VisibleOnly(g, ids[1..])
  }

  /** The tree without its hidden entries, every other one re-parented. */
  function Project(g: Graph, ghost rank: map<string, nat>): Graph
    requires Ranked(g, rank)
  {
    map id | id in g && !g[id].hidden :: Node(Truthy(Nearest(g, rank, g[id].parent)), false)
  }

  /** The active leaf after projection; `visible` lists the visible entries in order. */
  function ProjectLeaf(g: Graph, ghost rank: map<string, nat>, visible: seq<string>,
                       leaf: Option<string>): Option<string>
    requires Ranked(g, rank)
  {
    if Truthy(leaf).None? || leaf.value in visible then leaf
    else
      var active := Nearest(g, rank, if leaf.value in g then g[leaf.value].parent else None);
      Truthy(if active.Some? then active else if visible == [] then None else Some(visible[|visible| - 1]))
  }

  // What the functions above mean

  lemma {:induction false} NearestIsVisible(g: Graph, rank: map<string, nat>, id: Option<string>)
    requires Ranked(g, rank)
    ensures !IsHidden(g, Nearest(g, rank, id))
    ensures ParentClosed(g) && (id.Some? ==> id.value in g) ==>
              var n := Nearest(g, rank, id); n.Some? ==> n.value in g && n.value != ""
    ensures Height(g, rank, Nearest(g, rank, id)) <= Height(g, rank, id)
    decreases Height(g, rank, id)
  {
    if IsHidden(g, id) {
      NearestIsVisible(g, rank, g[id.value].parent);
    }
  }

  /** The projection is again a forest: the same rank serves, and parents stay entries. */
  lemma ProjectionIsAForest(g: Graph, rank: map<string, nat>)
    requires Ranked(g, rank)
    ensures Ranked(Project(g, rank), rank)
    ensures Acyclic(Project(g, rank))
    ensures ParentClosed(g) ==> ParentClosed(Project(g, rank))
    ensures forall id :: id in Project(g, rank) <==> id in g && !g[id].hidden
  {
    var p := Project(g, rank);
    forall id | id in p ensures Known(p, p[id].parent) ==> rank[p[id].parent.value] < rank[id] {
      NearestIsVisible(g, rank, g[id].parent);
    }
    assert Ranked(p, rank);
    if ParentClosed(g) {
      forall id | id in p && p[id].parent.Some? ensures p[id].parent.value in p {
        NearestIsVisible(g, rank, g[id].parent);
      }
    }
  }

  lemma TruthyChain(g: Graph, rank: map<string, nat>, id: Option<string>)
    requires Ranked(g, rank)
    ensures Chain(g, rank, Truthy(id)) == Chain(g, rank, id)
    ensures Nearest(g, rank, Truthy(id)) == if id == Some("") then None else Nearest(g, rank, id)
  {
  }

  /** The projected chain of the nearest visible entry is the original chain, hidden entries removed. */
  lemma {:induction false} NearestChain(g: Graph, rank: map<string, nat>, id: Option<string>)
    requires Ranked(g, rank) && Ranked(Project(g, rank), rank)
    ensures Chain(Project(g, rank), rank, Nearest(g, rank, id)) == VisibleOnly(g, Chain(g, rank, id))
    decreases Height(g, rank, id)
  {
    if Known(g, id) {
      var parent := g[id.value].parent;
      NearestChain(g, rank, parent);
      assert Chain(g, rank, id)[1..] == Chain(g, rank, parent);
      if !g[id.value].hidden {
        TruthyChain(Project(g, rank), rank, Nearest(g, rank, parent));
      }
    }
  }

  /** Hiding preserves ancestry. */
  lemma HidingPreservesAncestry(g: Graph, rank: map<string, nat>, id: string)
    requires Ranked(g, rank) && id in g && !g[id].hidden
    ensures Ranked(Project(g, rank), rank)
    ensures Chain(Project(g, rank), rank, Some(id)) == VisibleOnly(g, Chain(g, rank, Some(id)))
    ensures var chain := Chain(Project(g, rank), rank, Some(id)); id != "" ==> chain != [] && chain[0] == id
  {
    ProjectionIsAForest(g, rank);
    NearestChain(g, rank, Some(id));
  }

  /** Projecting what is already projected changes nothing. */
  lemma ProjectionIsIdempotent(g: Graph, rank: map<string, nat>)
    requires Ranked(g, rank)
    ensures Ranked(Project(g, rank), rank)
    ensures Project(Project(g, rank), rank) == Project(g, rank)
  {
    ProjectionIsAForest(g, rank);
    var p := Project(g, rank);
    forall id | id in p ensures Project(p, rank)[id] == p[id] {
      assert Nearest(p, rank, p[id].parent) == p[id].parent;
    }
  }

  /** The rank only proves that the walk ends; the projection does not depend on it. */
  lemma {:induction false} RanksDoNotMatter(g: Graph, rank: map<string, nat>, rank': map<string, nat>,
                                            id: Option<string>)
    requires Ranked(g, rank) && Ranked(g, rank')
    ensures Nearest(g, rank, id) == Nearest(g, rank', id)
    decreases Height(g, rank, id)
  {
    if IsHidden(g, id) {
      RanksDoNotMatter(g, rank, rank', g[id.value].parent);
    }
  }

  /** With parents in the tree, a visible entry on the chain is where the nearest one is found. */
  lemma {:induction false} NearestIsFirstVisible(g: Graph, rank: map<string, nat>, id: Option<string>)
    requires Ranked(g, rank) && ParentClosed(g) && (id.Some? ==> id.value in g)
    ensures var path := VisibleOnly(g, Chain(g, rank, id));
            Nearest(g, rank, id) == if path == [] then None else Some(path[0])
    decreases Height(g, rank, id)
  {
    if id.Some? {
      assert Known(g, id);
      var parent := g[id.value].parent;
      NearestIsFirstVisible(g, rank, parent);
      assert Chain(g, rank, id)[1..] == Chain(g, rank, parent);
    }
  }

  /**
   The projected active leaf is visible; the path to it is the original active path with hidden
   entries removed when any of them is visible, and otherwise it is the last visible entry, if any.
   */
  lemma ActivePathIsPreserved(g: Graph, rank: map<string, nat>, ids: seq<string>, leaf: string)
    requires Ranked(g, rank) && ParentClosed(g) && leaf != ""
    requires forall id :: id in ids <==> id in g
    ensures Ranked(Project(g, rank), rank)
    ensures var visible, path := VisibleOnly(g, ids), VisibleOnly(g, Chain(g, rank, Some(leaf)));
            var leaf' := ProjectLeaf(g, rank, visible, Some(leaf));
            && (leaf'.Some? ==> leaf'.value in Project(g, rank))
            && (path != [] ==> leaf' == Some(path[0]) && Chain(Project(g, rank), rank, leaf') == path)
            && (path == [] ==> leaf' == if visible == [] then None else Some(visible[|visible| - 1]))
  {
    ProjectionIsAForest(g, rank);
    LeafMovesUp(g, rank, ids, leaf);
    NearestChain(g, rank, Some(leaf));
    var path := VisibleOnly(g, Chain(g, rank, Some(leaf)));
    if leaf in g {
      NearestAboveLeaf(g, rank, leaf);
    }
    if path != [] {
      assert path[0] in path && path[0] in Project(g, rank);
    }
  }

  /** The leaf moves to the first visible entry above it, else to the last visible entry. */
  lemma LeafMovesUp(g: Graph, rank: map<string, nat>, ids: seq<string>, leaf: string)
    requires Ranked(g, rank) && ParentClosed(g) && leaf != ""
    requires forall id :: id in ids <==> id in g
    ensures var visible, path := VisibleOnly(g, ids), VisibleOnly(g, Chain(g, rank, Some(leaf)));
            && (forall id :: id in visible ==> id in g && !g[id].hidden)
            && ProjectLeaf(g, rank, visible, Some(leaf)) ==
                 if path != [] then Some(path[0]) else if visible == [] then None else Some(visible[|visible| - 1])
  {
    var visible := VisibleOnly(g, ids);
    if leaf in g {
      NearestAboveLeaf(g, rank, leaf);
    }
    if visible != [] {
      assert visible[|visible| - 1] in visible;
    }
  }

  lemma NearestAboveLeaf(g: Graph, rank: map<string, nat>, leaf: string)
    requires Ranked(g, rank) && ParentClosed(g) && leaf in g
    ensures var path := VisibleOnly(g, Chain(g, rank, Some(leaf)));
            && Nearest(g, rank, Some(leaf)) == (if path == [] then None else Some(path[0]))
            && (g[leaf].hidden ==> Nearest(g, rank, g[leaf].parent) == Nearest(g, rank, Some(leaf)))
  {
    NearestIsFirstVisible(g, rank, Some(leaf));
  }
}
