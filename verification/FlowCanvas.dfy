/** A flow saved from its canvas and opened again: the stored canvas and the stored operations against the graph they
    were made from. */
module FlowCanvas {
  import opened FlowModels
  import opened FlowGraph

  /** Each node has a key of its own. */
  ghost predicate DistinctKeys(nodes: seq<Node>) {
    forall i, j :: 0 <= i < j < |nodes| ==> NodeKey(nodes[i]) != NodeKey(nodes[j])
  }

  /** A graph of a flow, with the distinct ids that fromGraph demands. */
  ghost predicate Opened(ops: seq<Operation>, stored: seq<Node>, spot: string -> Spot, g: Graph) {
    IsGraph(ops, stored, spot, g) && DistinctNodes(g.nodes) && DistinctOps(ops)
  }

  // ---- the stored canvas -----------------------------------------------------------------------

  ghost predicate AllNormal(nodes: seq<Node>) {
    forall i :: 0 <= i < |nodes| ==> Normal(nodes[i]) == nodes[i]
  }

  ghost predicate KeysFound(nodes: seq<Node>, m: map<string, Node>) {
    forall i :: 0 <= i < |nodes| ==> NodeKey(nodes[i]) in m
  }

  ghost predicate EntriesFit(nodes: seq<Node>, m: map<string, Node>) {
    forall k :: k in m ==> m[k] in nodes && NodeKey(m[k]) == k
  }

  ghost predicate OwnEntries(nodes: seq<Node>, m: map<string, Node>) {
    forall i :: 0 <= i < |nodes| ==> NodeKey(nodes[i]) in m && m[NodeKey(nodes[i])] == nodes[i]
  }

  lemma SavedIsNormal(nodes: seq<Node>)
    ensures AllNormal(Saved(nodes)) && forall i :: 0 <= i < |nodes| ==> NodeKey(Saved(nodes)[i]) == NodeKey(nodes[i])
  {
    forall i | 0 <= i < |nodes|
      ensures Normal(Saved(nodes)[i]) == Saved(nodes)[i] && NodeKey(Saved(nodes)[i]) == NodeKey(nodes[i])
    {
      NormalizePathTwice(nodes[i].path);
      hide NormalizePath, Trim;
    }
  }

  /** The keys of a stored canvas are those of its nodes. */
  lemma {:induction false} StoredEntries(nodes: seq<Node>)
    requires AllNormal(nodes)
    ensures KeysFound(nodes, StoredByKey(nodes)) && EntriesFit(nodes, StoredByKey(nodes))
  {
    hide NodeKey, Normal;
    if nodes != [] {
      var n := |nodes| - 1;
      StoredEntries(nodes[..n]);
      assert Normal(nodes[n]) == nodes[n];
      assert forall x :: x in nodes[..n] ==> x in nodes;
    }
  }

  /** With distinct keys each node is found under its own. */
  lemma {:induction false} DistinctEntries(nodes: seq<Node>)
    requires AllNormal(nodes) && DistinctKeys(nodes)
    ensures OwnEntries(nodes, StoredByKey(nodes))
  {
    hide NodeKey, Normal;
    if nodes != [] {
      var n := |nodes| - 1;
      DistinctEntries(nodes[..n]);
      assert Normal(nodes[n]) == nodes[n];
    }
  }

  // ---- what is shown again ---------------------------------------------------------------------

  lemma {:induction false} NothingNew(m: map<string, Node>, stored: bool, ops: seq<Operation>, spot: string -> Spot)
    requires forall i :: 0 <= i < |ops| ==> SourceKey(ops[i]) in m && TargetKey(ops[i]) in m
    ensures ShowAll(m, stored, ops, spot) == m
  {
    if ops != [] {
      NothingNew(m, stored, ops[..|ops| - 1], spot);
      hide Key, ExtraNode, PlacedNode;
    }
  }

  /** The i-th operation stored, and the nodes its edge was drawn between. */
  lemma StoredOp(ops: seq<Operation>, stored: seq<Node>, spot: string -> Spot, g: Graph, i: nat)
    requires Opened(ops, stored, spot, g) && i < |g.edges|
    ensures HasEnds(g.edges[i], NodesById(g.nodes)) && |OpsFrom(g, ops)| == |g.edges| == |ops|
    ensures OpsFrom(g, ops)[i] == Back(g, ops, i)
    ensures var byKey := Shown(ops, stored, spot);
            && SourceKey(ops[i]) in byKey && TargetKey(ops[i]) in byKey
            && NodesById(g.nodes)[g.edges[i].source] == byKey[SourceKey(ops[i])]
            && NodesById(g.nodes)[g.edges[i].target] == byKey[TargetKey(ops[i])]
            && byKey[SourceKey(ops[i])] in g.nodes && byKey[TargetKey(ops[i])] in g.nodes
            && g.edges[i] == DrawnEdge(ops[i], byKey)
  {
    RoundTripKeepsOrder(ops, stored, spot, g);
    EdgesFindNodes(ops, stored, spot, g, i);
    hide Shown, NodesById, OpsById, ValidEdges, FromEdge, SourceKey, TargetKey, DrawnEdge;
  }

  lemma BackKeys(g: Graph, ops: seq<Operation>, i: nat)
    requires i < |g.edges| && HasEnds(g.edges[i], NodesById(g.nodes))
    ensures SourceKey(Back(g, ops, i)) == NodeKey(NodesById(g.nodes)[g.edges[i].source])
    ensures TargetKey(Back(g, ops, i)) == NodeKey(NodesById(g.nodes)[g.edges[i].target])
  {
    NormalizePathTwice(NodesById(g.nodes)[g.edges[i].source].path);
    NormalizePathTwice(NodesById(g.nodes)[g.edges[i].target].path);
    hide NodesById, OpsById, NormalizePath, Trim, NormalizeAction;
  }

  lemma SavedHasKey(nodes: seq<Node>, n: Node)
    requires n in nodes
    ensures NodeKey(n) in StoredByKey(Saved(nodes))
    ensures DistinctKeys(nodes) ==> StoredByKey(Saved(nodes))[NodeKey(n)] == Normal(n)
  {
    var i :| 0 <= i < |nodes| && nodes[i] == n;
    SavedIsNormal(nodes);
    StoredEntries(Saved(nodes));
    hide NodeKey, Normal, AllNormal, StoredByKey;
    assert NodeKey(Saved(nodes)[i]) == NodeKey(n);
    if DistinctKeys(nodes) {
      DistinctEntries(Saved(nodes));
    }
  }

  /** The stored canvas shows both ends of every stored operation. */
  lemma ShownAgain(ops: seq<Operation>, stored: seq<Node>, spot: string -> Spot, g: Graph, again: string -> Spot)
    requires Opened(ops, stored, spot, g)
    ensures Shown(OpsFrom(g, ops), Saved(g.nodes), again) == StoredByKey(Saved(g.nodes))
  {
    var back, m := OpsFrom(g, ops), StoredByKey(Saved(g.nodes));
    RoundTripKeepsOrder(ops, stored, spot, g);
    hide *;
    forall i | 0 <= i < |back|
      ensures SourceKey(back[i]) in m && TargetKey(back[i]) in m
    {
      StoredOp(ops, stored, spot, g, i);
      BackKeys(g, ops, i);
      SavedHasKey(g.nodes, NodesById(g.nodes)[g.edges[i].source]);
      SavedHasKey(g.nodes, NodesById(g.nodes)[g.edges[i].target]);
    }
    NothingNew(m, Saved(g.nodes) != [], back, again);
    ShownIs(back, Saved(g.nodes), again);
  }

  lemma ShownIs(ops: seq<Operation>, stored: seq<Node>, spot: string -> Spot)
    ensures Shown(ops, stored, spot) == ShowAll(StoredByKey(stored), stored != [], ops, spot)
  {
  }

  ghost predicate SameNodes(a: seq<Node>, b: seq<Node>) {
    forall n :: n in a <==> n in b
  }

  /** A flow that is saved and opened again shows exactly the saved locations, with their ids, labels and places, if
      and only if no two of them have the same key; otherwise one of the two is dropped. */
  lemma ReopenedNodes(ops: seq<Operation>, stored: seq<Node>, spot: string -> Spot, g: Graph,
                      again: string -> Spot, g2: Graph)
    requires Opened(ops, stored, spot, g) && IsGraph(OpsFrom(g, ops), Saved(g.nodes), again, g2)
    ensures SameNodes(g2.nodes, Saved(g.nodes)) <==> DistinctKeys(g.nodes)
  {
    ShownAgain(ops, stored, spot, g, again);
    GraphNodes(OpsFrom(g, ops), Saved(g.nodes), again, g2);
    hide Opened, IsGraph, OpsFrom, Shown;
    assert DistinctNodes(g.nodes) by { OpenedIsDistinct(ops, stored, spot, g); }
    ValuesAreSaved(g.nodes, g2.nodes);
  }

  lemma OpenedIsDistinct(ops: seq<Operation>, stored: seq<Node>, spot: string -> Spot, g: Graph)
    requires Opened(ops, stored, spot, g)
    ensures DistinctNodes(g.nodes) && DistinctOps(ops)
  {
  }

  ghost predicate AreValues(nodes: seq<Node>, m: map<string, Node>) {
    forall n :: n in nodes <==> exists k :: k in m && m[k] == n
  }

  lemma GraphNodes(ops: seq<Operation>, stored: seq<Node>, spot: string -> Spot, g: Graph)
    requires IsGraph(ops, stored, spot, g)
    ensures AreValues(g.nodes, Shown(ops, stored, spot))
  {
    hide Shown, DrawnEdge, SourceKey, TargetKey;
  }

  lemma ValuesAreSaved(nodes: seq<Node>, shown: seq<Node>)
    requires DistinctNodes(nodes) && AreValues(shown, StoredByKey(Saved(nodes)))
    ensures SameNodes(shown, Saved(nodes)) <==> DistinctKeys(nodes)
  {
    var saved := Saved(nodes);
    SavedIsNormal(nodes);
    StoredEntries(saved);
    if DistinctKeys(nodes) {
      DistinctEntries(saved);
      AllShown(saved, shown);
    } else {
      var i, j :| 0 <= i < j < |nodes| && NodeKey(nodes[i]) == NodeKey(nodes[j]);
      hide StoredByKey, NodeKey;
      assert saved[i].id != saved[j].id;
      assert saved[i] in saved && saved[j] in saved;
    }
  }

  lemma AllShown(saved: seq<Node>, shown: seq<Node>)
    requires AreValues(shown, StoredByKey(saved))
    requires EntriesFit(saved, StoredByKey(saved)) && OwnEntries(saved, StoredByKey(saved))
    ensures SameNodes(shown, saved)
  {
    hide StoredByKey, NodeKey;
    forall n | n in saved
      ensures n in shown
    {
      var i :| 0 <= i < |saved| && saved[i] == n;
    }
  }

  // ---- saving again ----------------------------------------------------------------------------

  /** With distinct keys the edges are drawn between the same locations again, and saving once more stores the same
      operations. */
  lemma SavingAgainChangesNothing(ops: seq<Operation>, stored: seq<Node>, spot: string -> Spot, g: Graph,
                                  again: string -> Spot, g2: Graph, i: nat)
    requires Opened(ops, stored, spot, g) && Opened(OpsFrom(g, ops), Saved(g.nodes), again, g2)
    requires DistinctKeys(g.nodes) && i < |ops|
    ensures |g2.edges| == |g.edges| == |ops| && |OpsFrom(g2, OpsFrom(g, ops))| == |OpsFrom(g, ops)| == |ops|
    ensures g2.edges[i] == g.edges[i].(operation := OpsFrom(g, ops)[i])
    ensures OpsFrom(g2, OpsFrom(g, ops))[i] == OpsFrom(g, ops)[i]
  {
    var back := OpsFrom(g, ops);
    StoredOp(ops, stored, spot, g, i);
    StoredOp(back, Saved(g.nodes), again, g2, i);
    ShownAgain(ops, stored, spot, g, again);
    BackKeys(g, ops, i);
    var src, dst := NodesById(g.nodes)[g.edges[i].source], NodesById(g.nodes)[g.edges[i].target];
    SavedHasKey(g.nodes, src);
    SavedHasKey(g.nodes, dst);
    OpenedIsDistinct(back, Saved(g.nodes), again, g2);
    OpFoundById(back, i);
    OpFoundById(ops, i);
    hide *;
    EdgeOf(ops[i], Shown(ops, stored, spot));
    EdgeOf(back[i], StoredByKey(Saved(g.nodes)));
    BackOf(g, ops, i);
    BackOf(g2, back, i);
    SavedTwice(ops[i], i, src, dst, OpsById(ops), OpsById(back));
    SameId(src);
    SameId(dst);
  }

  lemma SameId(n: Node)
    ensures Normal(n).id == n.id
  {
  }

  lemma EdgeOf(op: Operation, byKey: map<string, Node>)
    requires SourceKey(op) in byKey && TargetKey(op) in byKey
    ensures DrawnEdge(op, byKey)
      == Edge(op.id, byKey[SourceKey(op)].id, byKey[TargetKey(op)].id, NormalizeAction(op.action), op)
  {
  }

  lemma BackOf(g: Graph, ops: seq<Operation>, i: nat)
    requires i < |g.edges| && HasEnds(g.edges[i], NodesById(g.nodes))
    ensures Back(g, ops, i) == FromEdge(g.edges[i], i, NodesById(g.nodes)[g.edges[i].source],
                                        NodesById(g.nodes)[g.edges[i].target], OpsById(ops))
  {
  }

  /** fromGraph on an edge that toGraph drew for what fromGraph had stored. */
  lemma SavedTwice(op: Operation, i: nat, src: Node, dst: Node, previous: map<string, Operation>,
                   later: map<string, Operation>)
    requires op.id in previous && previous[op.id] == op
    requires var back := FromEdge(Edge(op.id, src.id, dst.id, NormalizeAction(op.action), op), i, src, dst, previous);
             back.id in later && later[back.id] == back
    ensures var e := Edge(op.id, src.id, dst.id, NormalizeAction(op.action), op);
            var back := FromEdge(e, i, src, dst, previous);
            var e2 := Edge(back.id, src.id, dst.id, NormalizeAction(back.action), back);
            e2 == e.(operation := back) && FromEdge(e2, i, Normal(src), Normal(dst), later) == back
  {
    NormalizeTwice(op.action);
    EmptyIsBlank();
    NormalizePathTwice(src.path);
    NormalizePathTwice(dst.path);
    hide NormalizeAction, Blank, NormalizePath, Trim;
    var a := NormalizeAction(op.action);
    assert op.syncConfig["action" := Text(a)]["action" := Text(a)] == op.syncConfig["action" := Text(a)];
  }

  // ---- when are the keys distinct? -------------------------------------------------------------

  /** An end of some operation. */
  ghost predicate IsEnd(ops: seq<Operation>, remote: string, path: string) {
    exists i :: 0 <= i < |ops| && EndOf(ops[i], remote, path)
  }

  predicate EndOf(op: Operation, remote: string, path: string) {
    || (op.sourceRemote == remote && op.sourcePath == path)
    || (op.targetRemote == remote && op.targetPath == path)
  }

  /** The key of the node shown for a local endpoint that the canvas does not cover: its path as a remote. */
  function WrongKey(path: string): string {
    Key(NormalizePath(path), "/")
  }

  lemma {:induction false} ShownForAnEnd(byKey: map<string, Node>, stored: bool, ops: seq<Operation>,
                                         spot: string -> Spot, key: string)
    returns (remote: string, path: string)
    requires key in ShowAll(byKey, stored, ops, spot) && key !in byKey
    ensures IsEnd(ops, remote, path) && Key(remote, path) == key
  {
    var n := |ops| - 1;
    var m := ShowAll(byKey, stored, ops[..n], spot);
    hide Key, ExtraNode, PlacedNode;
    if key in m {
      remote, path := ShownForAnEnd(byKey, stored, ops[..n], spot, key);
      var i :| 0 <= i < n && EndOf(ops[..n][i], remote, path);
      assert EndOf(ops[i], remote, path);
    } else if key == SourceKey(ops[n]) {
      remote, path := ops[n].sourceRemote, ops[n].sourcePath;
      assert EndOf(ops[n], remote, path);
    } else {
      remote, path := ops[n].targetRemote, ops[n].targetPath;
      assert EndOf(ops[n], remote, path);
    }
  }

  lemma EndIsShown(ops: seq<Operation>, stored: seq<Node>, spot: string -> Spot, remote: string, path: string)
    requires IsEnd(ops, remote, path)
    ensures Key(remote, path) in Shown(ops, stored, spot)
  {
    ShowsEndpoints(StoredByKey(stored), stored != [], ops, spot);
    hide ShowAll, StoredByKey, Key;
  }

  lemma EndIsNulFree(ops: seq<Operation>, remote: string, path: string)
    requires IsEnd(ops, remote, path) && NulFreeEnds(ops)
    ensures NulFree(remote) && NulFree(path)
  {
    var i :| 0 <= i < |ops| && EndOf(ops[i], remote, path);
    assert EndsNulFree(ops[i]);
  }

  /** The key of the node shown for an end: the end's own, or the wrong one. */
  lemma ShownEndKey(ops: seq<Operation>, stored: seq<Node>, spot: string -> Spot, remote: string, path: string)
    requires NulFreeEnds(ops) && IsEnd(ops, remote, path)
    ensures Key(remote, path) in Shown(ops, stored, spot)
    ensures NodeKey(Shown(ops, stored, spot)[Key(remote, path)])
      == if Shows(stored, remote, path) then Key(remote, path) else WrongKey(path)
  {
    var key := Key(remote, path);
    EndIsShown(ops, stored, spot, remote, path);
    EndIsNulFree(ops, remote, path);
    var n := Shown(ops, stored, spot)[key];
    ShowAllOrigins(StoredByKey(stored), stored != [], ops, ops, spot);
    assert Origin(StoredByKey(stored), stored != [], ops, spot, key, n);
    hide Origins, ShowAll, StoredByKey, Trim, NormalizePath, Blank, Key, ExtraNode, PlacedNode, NulFree;
    if key in StoredByKey(stored) {
      StoredKeys(stored, key);
    } else if stored != [] {
      ExtraKey(remote, path, spot);
    } else {
      var r, p :| Key(r, p) == key && NulFree(r) && NulFree(p) && n == PlacedNode(r, p, spot);
      PlacedKey(r, p, spot);
    }
  }

  lemma PlacedKey(remote: string, path: string, spot: string -> Spot)
    ensures NodeKey(PlacedNode(remote, path, spot)) == Key(remote, path)
  {
    TrimTwice(remote);
    NormalizePathTwice(path);
    hide Trim, NormalizePath;
  }

  lemma ExtraKey(remote: string, path: string, spot: string -> Spot)
    requires NulFree(remote) && NulFree(path)
    ensures NodeKey(ExtraNode(Key(remote, path), spot)) == if Blank(remote) then WrongKey(path) else Key(remote, path)
  {
    SplitsNormalKey(remote, path);
    PlacedKey(remote, path, spot);
    hide SplitKey, Trim, NormalizePath;
  }

  ghost predicate HasKey(m: map<string, Node>, keys: set<string>, n: Node) {
    exists k :: k in keys && k in m && m[k] == n
  }

  lemma {:induction false} AtMostTheKeys(nodes: seq<Node>, m: map<string, Node>, keys: set<string>)
    requires DistinctNodes(nodes) && forall n :: n in nodes ==> HasKey(m, keys, n)
    ensures |nodes| <= |keys|
  {
    if nodes != [] {
      var l := |nodes| - 1;
      assert HasKey(m, keys, nodes[l]);
      var k :| k in keys && k in m && m[k] == nodes[l];
      forall n | n in nodes[..l]
        ensures HasKey(m, keys - {k}, n)
      {
        assert HasKey(m, keys, n);
        assert n != nodes[l];
      }
      AtMostTheKeys(nodes[..l], m, keys - {k});
    }
  }

  /** Two keys show two nodes. */
  lemma ShownApart(nodes: seq<Node>, m: map<string, Node>, j: string, k: string)
    requires DistinctNodes(nodes) && |nodes| == |m| && AreValues(nodes, m) && j in m && k in m && j != k
    ensures m[j] != m[k]
  {
    if m[j] == m[k] {
      forall n | n in nodes
        ensures HasKey(m, m.Keys - {j}, n)
      {
        var i :| i in m && m[i] == n;
        if i == j {
          assert k in m.Keys - {j} && m[k] == n;
        }
      }
      AtMostTheKeys(nodes, m, m.Keys - {j});
    }
  }

  /** The node shown under a key has that key, or the wrong key of a local end that the canvas does not cover. */
  lemma EntryKey(ops: seq<Operation>, stored: seq<Node>, spot: string -> Spot, key: string)
    returns (remote: string, path: string)
    requires NulFreeEnds(ops) && key in Shown(ops, stored, spot)
    ensures NodeKey(Shown(ops, stored, spot)[key]) != key ==>
              && IsEnd(ops, remote, path) && Key(remote, path) == key && !Shows(stored, remote, path)
              && NodeKey(Shown(ops, stored, spot)[key]) == WrongKey(path)
  {
    remote, path := "", "";
    if key in StoredByKey(stored) {
      StoredKeys(stored, key);
      ShowAllGrows(StoredByKey(stored), stored != [], ops, spot);
    } else {
      remote, path := ShownForAnEnd(StoredByKey(stored), stored != [], ops, spot, key);
      ShownEndKey(ops, stored, spot, remote, path);
    }
    hide ShowAll, StoredByKey, Key, NodeKey, Shows, WrongKey, NulFreeEnds;
  }

  /** The wrong key tells the path, and no local end has it for its own. */
  lemma WrongKeysDiffer(remote: string, path: string, other: string)
    requires NulFree(remote) && NulFree(path) && Blank(remote)
    ensures WrongKey(path) == WrongKey(other) ==> Key(remote, path) == Key(remote, other)
    ensures Key(remote, path) != WrongKey(other)
  {
    NormalizePathTwice(path);
    NormalizePathTwice(other);
    NormalIsNulFree(remote, path);
    NoNulHere();
    hide NormalizePath, Trim, ComposePath;
    if WrongKey(path) == WrongKey(other) {
      SameKeySamePath(NormalizePath(path), "/", NormalizePath(other), "/");
    }
    if Key(remote, path) == WrongKey(other) {
      SameKeySamePath(remote, path, NormalizePath(other), "/");
    }
  }

  lemma NoNulHere()
    ensures NulFree("/")
  {
  }

  lemma ShownSize(ops: seq<Operation>, stored: seq<Node>, spot: string -> Spot, g: Graph)
    requires IsGraph(ops, stored, spot, g)
    ensures |g.nodes| == |Shown(ops, stored, spot)|
  {
  }

  /** A local end whose path, taken for a remote, is the key of another node. */
  ghost predicate Clashes(ops: seq<Operation>, stored: seq<Node>, spot: string -> Spot, remote: string, path: string) {
    IsEnd(ops, remote, path) && !Shows(stored, remote, path) && WrongKey(path) in Shown(ops, stored, spot)
  }

  lemma ClashMeansSameKey(ops: seq<Operation>, stored: seq<Node>, spot: string -> Spot, g: Graph,
                          remote: string, path: string)
    requires Opened(ops, stored, spot, g) && NulFreeEnds(ops) && Clashes(ops, stored, spot, remote, path)
    ensures !DistinctKeys(g.nodes)
  {
    var m := Shown(ops, stored, spot);
    var j, k := Key(remote, path), WrongKey(path);
    ShownEndKey(ops, stored, spot, remote, path);
    EndIsNulFree(ops, remote, path);
    LostIsBlank(stored, remote, path);
    WrongKeysDiffer(remote, path, path);
    var r, p := EntryKey(ops, stored, spot, k);
    if NodeKey(m[k]) != k {
      EndIsNulFree(ops, r, p);
      LostIsBlank(stored, r, p);
      WrongKeysDiffer(r, p, path);
      assert false;
    }
    OpenedIsDistinct(ops, stored, spot, g);
    GraphNodes(ops, stored, spot, g);
    ShownSize(ops, stored, spot, g);
    hide *;
    ShownApart(g.nodes, m, j, k);
    TwoNodes(g.nodes, m, j, k);
  }

  lemma LostIsBlank(stored: seq<Node>, remote: string, path: string)
    requires !Shows(stored, remote, path)
    ensures Blank(remote)
  {
  }

  lemma TwoNodes(nodes: seq<Node>, m: map<string, Node>, j: string, k: string)
    requires AreValues(nodes, m) && j in m && k in m && m[j] != m[k] && NodeKey(m[j]) == NodeKey(m[k])
    ensures !DistinctKeys(nodes)
  {
    hide NodeKey;
    assert m[j] in nodes && m[k] in nodes;
    var a :| 0 <= a < |nodes| && nodes[a] == m[j];
    var b :| 0 <= b < |nodes| && nodes[b] == m[k];
    assert a < b || b < a;
  }

  lemma SameKeyMeansClash(ops: seq<Operation>, stored: seq<Node>, spot: string -> Spot, j: string, k: string)
    returns (remote: string, path: string)
    requires NulFreeEnds(ops) && j in Shown(ops, stored, spot) && k in Shown(ops, stored, spot) && j != k
    requires NodeKey(Shown(ops, stored, spot)[j]) == NodeKey(Shown(ops, stored, spot)[k])
    ensures Clashes(ops, stored, spot, remote, path)
  {
    var m := Shown(ops, stored, spot);
    var r1, p1 := EntryKey(ops, stored, spot, j);
    var r2, p2 := EntryKey(ops, stored, spot, k);
    if NodeKey(m[j]) == j {
      remote, path := r2, p2;
    } else if NodeKey(m[k]) == k {
      remote, path := r1, p1;
    } else {
      remote, path := r1, p1;
      EndIsNulFree(ops, r1, p1);
      LostIsBlank(stored, r1, p1);
      LostIsBlank(stored, r2, p2);
      WrongKeysDiffer(r1, p1, p2);
      BlanksAreOne(r1, r2, p2);
      assert false;
    }
    hide Key, WrongKey, NodeKey, Shown, Shows, IsEnd;
  }

  lemma BlanksAreOne(r1: string, r2: string, path: string)
    requires Blank(r1) && Blank(r2)
    ensures Key(r1, path) == Key(r2, path)
  {
  }

  /** The locations of a graph have distinct keys if and only if no local end clashes. In particular they have when the
      canvas is empty or complete, and when every operation names its remotes. */
  lemma KeysAreDistinct(ops: seq<Operation>, stored: seq<Node>, spot: string -> Spot, g: Graph)
    requires Opened(ops, stored, spot, g) && NulFreeEnds(ops)
    ensures DistinctKeys(g.nodes) <==> forall remote, path :: !Clashes(ops, stored, spot, remote, path)
  {
    var m := Shown(ops, stored, spot);
    OpenedIsDistinct(ops, stored, spot, g);
    GraphNodes(ops, stored, spot, g);
    forall remote, path | Clashes(ops, stored, spot, remote, path)
      ensures !DistinctKeys(g.nodes)
    {
      ClashMeansSameKey(ops, stored, spot, g, remote, path);
    }
    if !DistinctKeys(g.nodes) {
      hide Opened, Shown, Clashes, NodeKey, NulFreeEnds;
      var a, b :| 0 <= a < b < |g.nodes| && NodeKey(g.nodes[a]) == NodeKey(g.nodes[b]);
      assert g.nodes[a] in g.nodes && g.nodes[b] in g.nodes;
      var j :| j in m && m[j] == g.nodes[a];
      var k :| k in m && m[k] == g.nodes[b];
      assert g.nodes[a].id != g.nodes[b].id;
      var remote, path := SameKeyMeansClash(ops, stored, spot, j, k);
    }
  }

  /** Such an end: the canvas shows a remote named like the local path. */
  lemma SomeEndClashes(op: Operation, n: Node, spot: string -> Spot)
    requires op.sourceRemote == "" && op.sourcePath == "/data" && n.remote == "/data" && n.path == "/"
    ensures Clashes([op], [n], spot, "", "/data")
  {
    TrimmedStays("/data");
    TrimmedStays("/");
    assert EndOf([op][0], "", "/data");
    var m := StoredByKey([n]);
    assert m == map[NodeKey(Normal(n)) := Normal(n)] by {
      assert [n][..|[n]| - 1] == [];
      assert StoredByKey([n][..|[n]| - 1]) == map[];
    }
    assert NodeKey(Normal(n))[0] == '/' && Key("", "/data")[0] == NUL;
    ShowAllGrows(m, true, [op], spot);
  }
}
