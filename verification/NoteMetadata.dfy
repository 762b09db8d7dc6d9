/**
 Keeping what the rows of a note do not carry: metadata collected from the current
 tree by node id, and restored into the tree that was rebuilt from the rows.
 */
module NoteMetadata {
  import opened Wrappers
  import opened EditorDelta

  /** A node: its `$` object, if it has one, and its children. */
  datatype Node = Node(meta: Option<map<string, Json>>, children: seq<Node>)

  const ROW_OWNED_KEYS := {"id", "kind", "checked"}

  function IdOf(n: Node): Option<string> {
    if n.meta.Some? && "id" in n.meta.value && n.meta.value["id"].Str? then Some(n.meta.value["id"].s) else None
  }

  /** What a row does not carry. */
  function Extra(n: Node): map<string, Json> {
    if n.meta.Some? then n.meta.value - ROW_OWNED_KEYS else map[]
  }

  // ------------------------------------------------------- collecting, restoring

  /** Collects in document order; a later node of the same id replaces an earlier one. */
  function Collect(n: Node, sink: map<string, map<string, Json>>): map<string, map<string, Json>>
    decreases n, 0
  {
    CollectAll(n.children, if IdOf(n).Some? && Extra(n) != map[] then sink[IdOf(n).value := Extra(n)] else sink)
  }

  function CollectAll(nodes: seq<Node>, sink: map<string, map<string, Json>>): map<string, map<string, Json>>
    decreases nodes, 1
  {
    if nodes == [] then sink else CollectAll(nodes[1..], Collect(nodes[0], sink))
  }

  function RestoreHere(n: Node, saved: map<string, map<string, Json>>): Option<map<string, Json>> {
    if IdOf(n).Some? && IdOf(n).value in saved then Some(n.meta.value + saved[IdOf(n).value]) else n.meta
  }

  function Restore(n: Node, saved: map<string, map<string, Json>>): Node
    decreases n, 0
  {
    Node(RestoreHere(n, saved), RestoreAll(n.children, saved))
  }

  function RestoreAll(nodes: seq<Node>, saved: map<string, map<string, Json>>): (after: seq<Node>)
    ensures |after| == |nodes|
    decreases nodes, 1
  {
    if nodes == [] then [] else [Restore(nodes[0], saved)] + RestoreAll(nodes[1..], saved)
  }

  function Preserve(current: Node, rebuilt: Node): Node { Restore(rebuilt, Collect(current, map[])) }

  // ------------------------------------------------------------ what rows carry

  function RowPart(meta: map<string, Json>): map<string, Json> {
    map key | key in meta && (key == "id" || key == "kind" || key == "checked") :: meta[key]
  }

  /** A node as its row describes it. */
  function Bare(n: Node): Node
    decreases n, 0
  {
    Node(match n.meta case None => None case Some(meta) => Some(RowPart(meta)), BareAll(n.children))
  }

  function BareAll(nodes: seq<Node>): (bare: seq<Node>)
    ensures |bare| == |nodes|
    decreases nodes, 1
  {
    if nodes == [] then [] else [Bare(nodes[0])] + BareAll(nodes[1..])
  }

  /** The nodes of a tree in document order. */
  function Nodes(n: Node): seq<Node>
    decreases n, 0
  {
    [n] + AllNodes(n.children)
  }

  function AllNodes(nodes: seq<Node>): seq<Node>
    decreases nodes, 1
  {
    if nodes == [] then [] else Nodes(nodes[0]) + AllNodes(nodes[1..])
  }

  /** What has been collected after the listed nodes. */
  function Saved(listed: seq<Node>, sink: map<string, map<string, Json>>): map<string, map<string, Json>> {
    if listed == [] then sink
    else
      var n := listed[0];
      Saved(listed[1..], if IdOf(n).Some? && Extra(n) != map[] then sink[IdOf(n).value := Extra(n)] else sink)
  }

  lemma {:induction false} SavedAppend(a: seq<Node>, b: seq<Node>, sink: map<string, map<string, Json>>)
    ensures Saved(a + b, sink) == Saved(b, Saved(a, sink))
    decreases |a|
  {
    if a == [] {
      assert a + b == b;
    } else {
      assert (a + b)[1..] == a[1..] + b;
      var n := a[0];
      SavedAppend(a[1..], b, if IdOf(n).Some? && Extra(n) != map[] then sink[IdOf(n).value := Extra(n)] else sink);
    }
  }

  /** Walking the tree collects from its nodes in document order. */
  lemma {:induction false} CollectIsSaved(n: Node, sink: map<string, map<string, Json>>)
    ensures Collect(n, sink) == Saved(Nodes(n), sink)
    decreases n, 0
  {
    var next := if IdOf(n).Some? && Extra(n) != map[] then sink[IdOf(n).value := Extra(n)] else sink;
    CollectAllIsSaved(n.children, next);
    assert Nodes(n)[1..] == AllNodes(n.children);
  }

  lemma {:induction false} CollectAllIsSaved(nodes: seq<Node>, sink: map<string, map<string, Json>>)
    ensures CollectAll(nodes, sink) == Saved(AllNodes(nodes), sink)
    decreases nodes, 1
  {
    if nodes != [] {
      CollectIsSaved(nodes[0], sink);
      CollectAllIsSaved(nodes[1..], Collect(nodes[0], sink));
      SavedAppend(Nodes(nodes[0]), AllNodes(nodes[1..]), sink);
    }
  }

  /** Whether collected metadata gives back what the row lost. */
  predicate GivesBack(n: Node, saved: map<string, map<string, Json>>) {
    match IdOf(n)
    case None => Extra(n) == map[]
    case Some(id) => Extra(n) == if id in saved then saved[id] else map[]
  }

  ghost predicate AllGiveBack(nodes: seq<Node>, saved: map<string, map<string, Json>>) {
    forall i :: 0 <= i < |nodes| ==> GivesBack(nodes[i], saved)
  }

  /** No collected metadata has a key that rows carry. */
  ghost predicate SavedIsExtra(saved: map<string, map<string, Json>>) {
    forall id :: id in saved ==> saved[id] != map[] && saved[id].Keys !! ROW_OWNED_KEYS
  }

  lemma {:induction false} SavedStaysExtra(listed: seq<Node>, sink: map<string, map<string, Json>>)
    requires SavedIsExtra(sink)
    ensures SavedIsExtra(Saved(listed, sink))
    decreases |listed|
  {
    if listed != [] {
      var n := listed[0];
      SavedStaysExtra(listed[1..], if IdOf(n).Some? && Extra(n) != map[] then sink[IdOf(n).value := Extra(n)] else sink);
    }
  }

  lemma RestoreHereIff(n: Node, saved: map<string, map<string, Json>>)
    requires SavedIsExtra(saved)
    ensures IdOf(Bare(n)) == IdOf(n)
    ensures RestoreHere(Bare(n), saved) == n.meta <==> GivesBack(n, saved)
  {
    var bare := Bare(n);
    if n.meta.Some? {
      var meta := n.meta.value;
      assert bare.meta.Some? && bare.meta.value + Extra(n) == meta;
      var back := RestoreHere(bare, saved).value;
      assert back - ROW_OWNED_KEYS == (if IdOf(n).Some? && IdOf(n).value in saved then saved[IdOf(n).value] else map[]);
      assert back == bare.meta.value + (back - ROW_OWNED_KEYS);
    }
  }

  lemma {:induction false} RestoreIff(n: Node, saved: map<string, map<string, Json>>)
    requires SavedIsExtra(saved)
    ensures Restore(Bare(n), saved) == n <==> AllGiveBack(Nodes(n), saved)
    decreases n, 0
  {
    RestoreHereIff(n, saved);
    RestoreAllIff(n.children, saved);
    assert Nodes(n)[0] == n && Nodes(n)[1..] == AllNodes(n.children);
    assert AllGiveBack(Nodes(n), saved) <==> GivesBack(n, saved) && AllGiveBack(AllNodes(n.children), saved) by {
      GiveBackSplit([n], AllNodes(n.children), saved);
      assert [n][0] == n;
    }
  }

  lemma {:induction false} RestoreAllIff(nodes: seq<Node>, saved: map<string, map<string, Json>>)
    requires SavedIsExtra(saved)
    ensures RestoreAll(BareAll(nodes), saved) == nodes <==> AllGiveBack(AllNodes(nodes), saved)
    decreases nodes, 1
  {
    if nodes != [] {
      var first, rest := Restore(Bare(nodes[0]), saved), RestoreAll(BareAll(nodes[1..]), saved);
      RestoreIff(nodes[0], saved);
      RestoreAllIff(nodes[1..], saved);
      GiveBackSplit(Nodes(nodes[0]), AllNodes(nodes[1..]), saved);
      assert BareAll(nodes)[1..] == BareAll(nodes[1..]);
      assert ([first] + rest)[1..] == rest && nodes == [nodes[0]] + nodes[1..];
    }
  }

  lemma GiveBackSplit(a: seq<Node>, b: seq<Node>, saved: map<string, map<string, Json>>)
    ensures AllGiveBack(a + b, saved) <==> AllGiveBack(a, saved) && AllGiveBack(b, saved)
  {
    assert forall i :: 0 <= i < |a| ==> (a + b)[i] == a[i];
    assert forall i :: 0 <= i < |b| ==> (a + b)[|a| + i] == b[i];
  }

  /** Nodes of one id tell the same, and a node without one has nothing to tell. */
  ghost predicate TellsApart(nodes: seq<Node>) {
    && (forall i :: 0 <= i < |nodes| && IdOf(nodes[i]).None? ==> Extra(nodes[i]) == map[])
    && forall i, j :: 0 <= i < |nodes| && 0 <= j < |nodes| && IdOf(nodes[i]).Some? && IdOf(nodes[i]) == IdOf(nodes[j])
         ==> Extra(nodes[i]) == Extra(nodes[j])
  }

  /** What is saved under an id is what its last telling node told. */
  lemma {:induction false} SavedFrom(listed: seq<Node>, sink: map<string, map<string, Json>>, id: string)
    ensures id in Saved(listed, sink) ==>
              (id in sink && Saved(listed, sink)[id] == sink[id])
              || exists i :: 0 <= i < |listed| && IdOf(listed[i]) == Some(id) && Saved(listed, sink)[id] == Extra(listed[i])
    ensures id in sink ==> id in Saved(listed, sink)
    ensures forall i :: 0 <= i < |listed| && IdOf(listed[i]) == Some(id) && Extra(listed[i]) != map[]
              ==> id in Saved(listed, sink)
    decreases |listed|
  {
    if listed != [] {
      var n := listed[0];
      var next := if IdOf(n).Some? && Extra(n) != map[] then sink[IdOf(n).value := Extra(n)] else sink;
      SavedFrom(listed[1..], next, id);
      assert forall i :: 0 <= i < |listed[1..]| ==> listed[1..][i] == listed[i + 1];
      assert forall i :: 1 <= i < |listed| ==> listed[i] == listed[1..][i - 1];
    }
  }

  lemma SavedGivesBackIff(nodes: seq<Node>)
    ensures AllGiveBack(nodes, Saved(nodes, map[])) <==> TellsApart(nodes)
  {
    var saved := Saved(nodes, map[]);
    if TellsApart(nodes) {
      forall i | 0 <= i < |nodes| ensures GivesBack(nodes[i], saved) {
        if IdOf(nodes[i]).Some? {
          SavedFrom(nodes, map[], IdOf(nodes[i]).value);
        }
      }
    }
  }

  /** A tree rebuilt from its own rows is, with its metadata restored, the tree it
      was, exactly when nodes of one id tell the same. */
  lemma RebuildingKeepsNoteIff(current: Node)
    ensures Preserve(current, Bare(current)) == current <==> TellsApart(Nodes(current))
  {
    CollectIsSaved(current, map[]);
    SavedStaysExtra(Nodes(current), map[]);
    RestoreIff(current, Collect(current, map[]));
    SavedGivesBackIff(Nodes(current));
  }

  /** Whatever the rows say, restoring changes no row-owned key, no id and no shape. */
  lemma {:induction false} RestoreKeepsRows(n: Node, saved: map<string, map<string, Json>>)
    requires SavedIsExtra(saved)
    ensures Bare(Restore(n, saved)) == Bare(n)
    decreases n, 0
  {
    if n.meta.Some? {
      var back, was := RestoreHere(n, saved).value, n.meta.value;
      assert forall key :: key in ROW_OWNED_KEYS ==> (key in back <==> key in was) && (key in was ==> back[key] == was[key]);
      assert RowPart(back) == RowPart(was);
    }
    RestoreAllKeepsRows(n.children, saved);
  }

  lemma {:induction false} RestoreAllKeepsRows(nodes: seq<Node>, saved: map<string, map<string, Json>>)
    requires SavedIsExtra(saved)
    ensures BareAll(RestoreAll(nodes, saved)) == BareAll(nodes)
    decreases nodes, 1
  {
    if nodes != [] {
      RestoreKeepsRows(nodes[0], saved);
      RestoreAllKeepsRows(nodes[1..], saved);
      assert RestoreAll(nodes, saved)[1..] == RestoreAll(nodes[1..], saved);
    }
  }

  /** An edit of the rows keeps the edit. */
  lemma PreserveKeepsRows(current: Node, rebuilt: Node)
    ensures Bare(Preserve(current, rebuilt)) == Bare(rebuilt)
  {
    CollectIsSaved(current, map[]);
    SavedStaysExtra(Nodes(current), map[]);
    RestoreKeepsRows(rebuilt, Collect(current, map[]));
  }
}
