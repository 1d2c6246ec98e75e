/**
 `publicSessionSnapshot`: the hidden entries of a cloned session tree are taken out in place,
 while a map by id still refers to the very objects being rewritten.
 */
module SessionSnapshot {
  import opened Wrappers
  import opened Sorting
  import opened Forest

  class Entry {
    const id: string
    const hidden: bool
    var parentId: Option<string>

    constructor (id: string, hidden: bool, parentId: Option<string>)
      ensures this.id == id && this.hidden == hidden && this.parentId == parentId
    {
      this.id, this.hidden, this.parentId := id, hidden, parentId;
    }
  }

  class Tree {
    var entries: seq<Entry>
    var activeLeafId: Option<string>

    constructor (entries: seq<Entry>, activeLeafId: Option<string>)
      ensures this.entries == entries && this.activeLeafId == activeLeafId
    {
      this.entries, this.activeLeafId := entries, activeLeafId;
    }
  }

  function Ids(entries: seq<Entry>): (r: seq<string>)
    ensures |r| == |entries| && forall i :: 0 <= i < |r| ==> r[i] == entries[i].id
  {
    seq(|entries|, i requires 0 <= i < |entries| => entries[i].id)
  }

  predicate Listed(entries: seq<Entry>, id: string) {
    id in Ids(entries)
  }

  ghost predicate UniqueIds(entries: seq<Entry>) {
    forall i, j :: 0 <= i < j < |entries| ==> entries[i].id != entries[j].id
  }

  /** `g` is the tree the entries stand for. */
  ghost predicate Shows(entries: seq<Entry>, g: Graph)
    reads entries
  {
    && (forall e :: e in entries ==> e.id in g && g[e.id] == Node(e.parentId, e.hidden))
    && (forall id :: id in g ==> Listed(entries, id))
  }

  lemma EntryOf(entries: seq<Entry>, id: string) returns (e: Entry)
    requires id in Ids(entries)
    ensures e in entries && e.id == id
  {
    var i :| 0 <= i < |entries| && Ids(entries)[i] == id;
    e := entries[i];
  }

  lemma IdOf(entries: seq<Entry>, e: Entry)
    requires e in entries
    ensures e.id in Ids(entries)
  {
    var i :| 0 <= i < |entries| && entries[i] == e;
    assert Ids(entries)[i] == e.id;
  }

  /** The map refers to the entries themselves. */
  ghost predicate Indexes(byId: map<string, Entry>, entries: seq<Entry>) {
    && (forall id :: id in byId <==> id in Ids(entries))
    && (forall id :: id in byId ==> byId[id].id == id && byId[id] in entries)
  }

  /** `new Map(entries.map((entry) => [entry.id, entry]))`. */
  method ById(entries: seq<Entry>) returns (byId: map<string, Entry>)
    ensures Indexes(byId, entries)
  {
    byId := map[];
    for i := 0 to |entries|
      invariant forall id :: id in byId <==> id in Ids(entries[..i])
      invariant forall id :: id in byId ==> byId[id].id == id && byId[id] in entries
    {
      assert Ids(entries[..i + 1]) == Ids(entries[..i]) + [entries[i].id];
      byId := byId[entries[i].id := entries[i]];
    }
    assert entries[..|entries|] == entries;
  }

  method Visible(entries: seq<Entry>) returns (visible: seq<Entry>)
    ensures visible == VisibleEntries(entries)
  {
    visible := [];
    for i := 0 to |entries|
      invariant visible == VisibleEntries(entries[..i])
    {
      assert entries[..i + 1] == entries[..i] + [entries[i]];
      VisibleAppend(entries[..i], entries[i]);
      if !entries[i].hidden {
        visible := visible + [entries[i]];
      }
    }
    assert entries[..|entries|] == entries;
  }

  function VisibleEntries(entries: seq<Entry>): (r: seq<Entry>)
    ensures forall e :: e in r ==> e in entries && !e.hidden
    ensures forall e :: e in entries && !e.hidden ==> e in r
  {
    if entries == [] then []
    else if !entries[0].hidden then [entries[0]] + VisibleEntries(entries[1..])
    else VisibleEntries(entries[1..])
  }

  /** What is visible keeps its order: it is what stands at the positions of entries not hidden. */
  lemma {:induction false} VisibleEntriesInOrder(entries: seq<Entry>) returns (p: seq<nat>)
    ensures Selects(p, entries, VisibleEntries(entries))
    ensures forall i: nat :: i in p <==> i < |entries| && !entries[i].hidden
  {
    if entries == [] {
      p := [];
    } else {
      var q := VisibleEntriesInOrder(entries[1..]);
      p := Shifted(q, !entries[0].hidden);
      SelectsOneMore(q, entries[0], entries[1..], VisibleEntries(entries[1..]), !entries[0].hidden);
      assert [entries[0]] + entries[1..] == entries;
      assert [] + VisibleEntries(entries[1..]) == VisibleEntries(entries[1..]);
      forall i: nat ensures i in p <==> i < |entries| && !entries[i].hidden {
        ShiftedIn(q, !entries[0].hidden, i);
      }
    }
  }

  lemma {:induction false} VisibleAppend(entries: seq<Entry>, e: Entry)
    ensures VisibleEntries(entries + [e]) == VisibleEntries(entries) + if e.hidden then [] else [e]
  {
    if entries != [] {
      assert (entries + [e])[1..] == entries[1..] + [e];
      VisibleAppend(entries[1..], e);
    } else {
      assert entries + [e] == [e];
    }
  }

  lemma {:induction false} VisibleIdsUnique(entries: seq<Entry>)
    requires UniqueIds(entries)
    ensures UniqueIds(VisibleEntries(entries))
  {
    if entries != [] {
      VisibleIdsUnique(entries[1..]);
      var rest := VisibleEntries(entries[1..]);
      forall i | 0 <= i < |rest| ensures rest[i].id != entries[0].id {
        assert rest[i] in rest && rest[i] in entries[1..];
        var k :| 0 <= k < |entries[1..]| && entries[1..][k] == rest[i];
        assert entries[k + 1] == rest[i];
      }
    }
  }

  /** Hidden entries still have the parents they had in `g`. */
  ghost predicate HiddenIntact(byId: map<string, Entry>, g: Graph)
    reads byId.Values
  {
    && byId.Keys == g.Keys
    && (forall id :: id in byId ==> byId[id].hidden == g[id].hidden)
    && (forall id :: id in byId && byId[id].hidden ==> byId[id].parentId == g[id].parent)
  }

  lemma IndexedGraph(entries: seq<Entry>, byId: map<string, Entry>, g: Graph)
    requires Shows(entries, g) && Indexes(byId, entries)
    ensures HiddenIntact(byId, g)
    ensures forall id :: id in byId ==> byId[id].id == id && byId[id].parentId == g[id].parent
  {
    forall id ensures id in byId <==> id in g {
      if id in byId {
        assert byId[id] in entries;
      }
    }
  }

  /**
   The re-parenting loop.  It may take visible entries in any order: `byId` is read only at hidden
   entries, which the loop never writes.
   */
  method Reparent(byId: map<string, Entry>, order: seq<Entry>, ghost g: Graph, ghost rank: map<string, nat>)
    requires HiddenIntact(byId, g) && Ranked(g, rank)
    requires UniqueIds(order) && forall e :: e in order ==> !e.hidden && e.id in g && e.parentId == g[e.id].parent
    modifies order
    ensures HiddenIntact(byId, g)
    ensures forall e :: e in order ==> e.parentId == Truthy(Nearest(g, rank, g[e.id].parent))
  {
    for i := 0 to |order|
      invariant HiddenIntact(byId, g)
      invariant forall k :: i <= k < |order| ==> order[k].parentId == g[order[k].id].parent
      invariant forall k :: 0 <= k < i ==> order[k].parentId == Truthy(Nearest(g, rank, g[order[k].id].parent))
    {
      var entry := order[i];
      assert entry in order;
      var parentId := NearestVisible(byId, entry.parentId, g, rank);
      entry.parentId := Truthy(parentId);
    }
  }

  /** The inner walk, over the objects. */
  method NearestVisible(byId: map<string, Entry>, start: Option<string>, ghost g: Graph, ghost rank: map<string, nat>)
    returns (parentId: Option<string>)
    requires Ranked(g, rank) && HiddenIntact(byId, g)
    ensures parentId == Nearest(g, rank, start)
  {
    parentId := start;
    while Truthy(parentId).Some? && parentId.value in byId && byId[parentId.value].hidden
      invariant Nearest(g, rank, parentId) == Nearest(g, rank, start)
      decreases Height(g, rank, parentId)
    {
      assert parentId.value in g;
      parentId := byId[parentId.value].parentId;
    }
  }

  lemma IndexedVisible(original: seq<Entry>, byId: map<string, Entry>)
    requires Indexes(byId, original) && forall id :: id in byId ==> byId[id].id == id
    ensures forall id :: id in byId && !byId[id].hidden ==> id in Ids(VisibleEntries(original))
  {
    forall id | id in byId && !byId[id].hidden ensures id in Ids(VisibleEntries(original)) {
      IdOf(VisibleEntries(original), byId[id]);
    }
  }

  /** The map by id and the visible entries, before anything is changed. */
  method IndexEntries(original: seq<Entry>, ghost g: Graph)
    returns (byId: map<string, Entry>, visible: seq<Entry>)
    requires UniqueIds(original) && Shows(original, g)
    ensures visible == VisibleEntries(original) && UniqueIds(visible) && HiddenIntact(byId, g) && Flags(original, g)
    ensures forall e :: e in visible ==> e.id in g && e.parentId == g[e.id].parent
    ensures forall id :: id in byId && !byId[id].hidden ==> id in Ids(visible)
  {
    byId := ById(original);
    IndexedGraph(original, byId, g);
    visible := Visible(original);
    VisibleIdsUnique(original);
    IndexedVisible(original, byId);
    FlagsShown(original, g);
  }

  /** The first half: the visible entries, re-parented, and the map used on the way. */
  method ReparentVisible(original: seq<Entry>, ghost g: Graph, ghost rank: map<string, nat>)
    returns (byId: map<string, Entry>, visible: seq<Entry>)
    requires UniqueIds(original) && Shows(original, g) && Ranked(g, rank)
    modifies original
    ensures visible == VisibleEntries(original) && UniqueIds(visible)
    ensures Shows(visible, Project(g, rank)) && HiddenIntact(byId, g)
    ensures forall id :: id in byId && !byId[id].hidden ==> id in Ids(visible)
  {
    byId, visible := IndexEntries(original, g);
    assert forall e :: e in visible ==> e in original;
    Reparent(byId, visible, g, rank);
    ShowsProjection(original, visible, g, rank);
  }

  /** What the tree says of the entries apart from their parents. */
  ghost predicate Flags(entries: seq<Entry>, g: Graph) {
    && (forall e :: e in entries ==> e.id in g && g[e.id].hidden == e.hidden)
    && (forall id :: id in g ==> Listed(entries, id))
  }

  lemma FlagsShown(entries: seq<Entry>, g: Graph)
    requires Shows(entries, g)
    ensures Flags(entries, g)
    ensures forall e :: e in VisibleEntries(entries) ==> e.id in g && e.parentId == g[e.id].parent
  {
  }

  /** The body of the projection, on a tree of its own. */
  method HideEntries(tree: Tree, ghost g: Graph, ghost rank: map<string, nat>)
    requires UniqueIds(tree.entries) && Shows(tree.entries, g) && Ranked(g, rank)
    modifies tree, tree.entries
    ensures tree.entries == old(VisibleEntries(tree.entries)) && UniqueIds(tree.entries)
    ensures ShowsEntries(old(tree.entries), tree.entries)
    ensures Shows(tree.entries, Project(g, rank))
    ensures tree.activeLeafId == old(ProjectLeaf(g, rank, Ids(VisibleEntries(tree.entries)), tree.activeLeafId))
  {
    VisibleEntriesShown(tree.entries);
    var byId, visible := ReparentVisible(tree.entries, g, rank);
    tree.entries := visible;
    var leaf := VisibleLeaf(byId, visible, tree.activeLeafId, g, rank);
    tree.activeLeafId := leaf;
  }

  method VisibleLeaf(byId: map<string, Entry>, visible: seq<Entry>, leaf: Option<string>, ghost g: Graph,
                     ghost rank: map<string, nat>) returns (leaf': Option<string>)
    requires HiddenIntact(byId, g) && Ranked(g, rank)
    requires forall id :: id in byId && !byId[id].hidden ==> id in Ids(visible)
    ensures leaf' == ProjectLeaf(g, rank, Ids(visible), leaf)
  {
    leaf' := leaf;
    if Truthy(leaf).Some? && leaf.value !in Ids(visible) {
      var above := if leaf.value in byId then byId[leaf.value].parentId else None;
      var active := NearestVisible(byId, above, g, rank);
      leaf' := Truthy(if active.Some? then active
                      else if visible == [] then None else Some(visible[|visible| - 1].id));
    }
  }

  lemma ShowsProjection(original: seq<Entry>, visible: seq<Entry>, g: Graph, rank: map<string, nat>)
    requires Ranked(g, rank) && visible == VisibleEntries(original)
    requires Flags(original, g)
    requires forall e :: e in visible ==> e.parentId == Truthy(Nearest(g, rank, g[e.id].parent))
    ensures Shows(visible, Project(g, rank))
  {
    forall id | id in Project(g, rank) ensures id in Ids(visible) {
      var e := EntryOf(original, id);
      IdOf(visible, e);
    }
  }

  // The whole projection

  datatype Message = Message(id: string, hidden: bool)

  datatype Snapshot = Snapshot(messages: seq<Message>, tree: Option<Tree>)

  function VisibleMessages(messages: seq<Message>): (r: seq<Message>)
    ensures forall m :: m in r <==> m in messages && !m.hidden
  {
    if messages == [] then []
    else if !messages[0].hidden then [messages[0]] + VisibleMessages(messages[1..])
    else VisibleMessages(messages[1..])
  }

  lemma {:induction false} VisibleMessagesInOrder(messages: seq<Message>) returns (p: seq<nat>)
    ensures Selects(p, messages, VisibleMessages(messages))
    ensures forall i: nat :: i in p <==> i < |messages| && !messages[i].hidden
  {
    if messages == [] {
      p := [];
    } else {
      var q := VisibleMessagesInOrder(messages[1..]);
      p := Shifted(q, !messages[0].hidden);
      SelectsOneMore(q, messages[0], messages[1..], VisibleMessages(messages[1..]), !messages[0].hidden);
      assert [messages[0]] + messages[1..] == messages;
      assert [] + VisibleMessages(messages[1..]) == VisibleMessages(messages[1..]);
      forall i: nat ensures i in p <==> i < |messages| && !messages[i].hidden {
        ShiftedIn(q, !messages[0].hidden, i);
      }
    }
  }

  /** The messages that are not hidden, each once and in their order. */
  ghost predicate ShowsMessages(before: seq<Message>, after: seq<Message>) {
    exists p: seq<nat> ::
      && Selects(p, before, after)
      && forall i: nat :: i in p <==> i < |before| && !before[i].hidden
  }

  /** The ids of the entries that are not hidden, each once and in their order. */
  ghost predicate ShowsEntries(before: seq<Entry>, after: seq<Entry>) {
    exists p: seq<nat> ::
      && Selects(p, Ids(before), Ids(after))
      && forall i: nat :: i in p <==> i < |before| && !before[i].hidden
  }

  lemma VisibleEntriesShown(before: seq<Entry>)
    ensures ShowsEntries(before, VisibleEntries(before))
  {
    var p := VisibleEntriesInOrder(before);
    assert Selects(p, Ids(before), Ids(VisibleEntries(before)));
  }

  /** Copies with the same ids and flags show the same. */
  lemma CopiesShow(before: seq<Entry>, copy: seq<Entry>, after: seq<Entry>)
    requires ShowsEntries(copy, after) && Ids(copy) == Ids(before)
    requires forall i :: 0 <= i < |before| ==> before[i].hidden == copy[i].hidden
    ensures ShowsEntries(before, after)
  {
    var p: seq<nat> :| Selects(p, Ids(copy), Ids(after)) &&
                       forall i: nat :: i in p <==> i < |copy| && !copy[i].hidden;
    assert Selects(p, Ids(before), Ids(after));
  }

  /** `structuredClone` of a tree: new objects throughout. */
  method CloneTree(tree: Tree, ghost g: Graph) returns (copy: Tree)
    requires UniqueIds(tree.entries) && Shows(tree.entries, g)
    ensures fresh(copy) && fresh(copy.entries)
    ensures UniqueIds(copy.entries) && Shows(copy.entries, g) && Ids(copy.entries) == Ids(tree.entries)
    ensures copy.activeLeafId == tree.activeLeafId
  {
    var entries: seq<Entry> := [];
    for i := 0 to |tree.entries|
      invariant |entries| == i && fresh(entries)
      invariant forall k :: 0 <= k < i ==> entries[k].id == tree.entries[k].id && entries[k].id in g
      invariant forall k :: 0 <= k < i ==> g[entries[k].id] == Node(entries[k].parentId, entries[k].hidden)
    {
      var e := tree.entries[i];
      assert e in tree.entries;
      var clone := new Entry(e.id, e.hidden, e.parentId);
      entries := entries + [clone];
    }
    copy := new Tree(entries, tree.activeLeafId);
    CloneShows(tree.entries, entries, g);
  }

  lemma CloneShows(original: seq<Entry>, entries: seq<Entry>, g: Graph)
    requires UniqueIds(original) && Shows(original, g) && |entries| == |original|
    requires forall k :: 0 <= k < |entries| ==> entries[k].id == original[k].id && entries[k].id in g
    requires forall k :: 0 <= k < |entries| ==> g[entries[k].id] == Node(entries[k].parentId, entries[k].hidden)
    ensures UniqueIds(entries) && Shows(entries, g) && Ids(entries) == Ids(original)
  {
  }

  /** The snapshot handed in is left alone; the one handed out is its projection. */
  method PublicSessionSnapshot(snapshot: Snapshot, ghost g: Graph, ghost rank: map<string, nat>)
    returns (value: Snapshot)
    requires snapshot.tree.Some? ==>
               UniqueIds(snapshot.tree.value.entries) && Shows(snapshot.tree.value.entries, g) && Ranked(g, rank)
    ensures ShowsMessages(snapshot.messages, value.messages)
    ensures value.tree.Some? <==> snapshot.tree.Some?
    ensures value.tree.Some? ==>
              var before, after := snapshot.tree.value, value.tree.value;
              && fresh(after) && fresh(after.entries) && UniqueIds(after.entries)
              && ShowsEntries(before.entries, after.entries)
              && Ids(after.entries) == VisibleOnly(g, Ids(before.entries))
              && Shows(after.entries, Project(g, rank))
              && after.activeLeafId == ProjectLeaf(g, rank, Ids(after.entries), before.activeLeafId)
  {
    ghost var p := VisibleMessagesInOrder(snapshot.messages);
    value := Snapshot(VisibleMessages(snapshot.messages), None);
    if snapshot.tree.Some? {
      var tree := CloneTree(snapshot.tree.value, g);
      ghost var copy := tree.entries;
      SameFlags(snapshot.tree.value.entries, copy, g);
      VisibleIds(tree.entries, g);
      HideEntries(tree, g, rank);
      CopiesShow(snapshot.tree.value.entries, copy, tree.entries);
      value := value.(tree := Some(tree));
    }
  }

  lemma SameFlags(before: seq<Entry>, copy: seq<Entry>, g: Graph)
    requires Shows(before, g) && Shows(copy, g) && Ids(before) == Ids(copy)
    ensures forall i :: 0 <= i < |before| ==> before[i].hidden == copy[i].hidden
  {
    forall i | 0 <= i < |before| ensures before[i].hidden == copy[i].hidden {
      assert before[i] in before && copy[i] in copy;
      assert Ids(before)[i] == Ids(copy)[i];
    }
  }

  lemma {:induction false} VisibleIds(entries: seq<Entry>, g: Graph)
    requires forall e :: e in entries ==> e.id in g && g[e.id].hidden == e.hidden
    ensures Ids(VisibleEntries(entries)) == VisibleOnly(g, Ids(entries))
  {
    if entries != [] {
      assert Ids(entries)[1..] == Ids(entries[1..]);
      VisibleIds(entries[1..], g);
    }
  }
}
