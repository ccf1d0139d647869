/** A flow as a canvas of locations and edges, and back. The canvas must not change what the flow executes. */
module FlowGraph {
  import opened FlowModels
  import opened FlowPaths

  /** A location. */
  datatype Node = Node(id: string, remote: string, path: string, labelText: string, x: real, y: real)

  /** The id made from a new node's key, and where the layout puts it. */
  datatype Spot = Spot(id: string, x: real, y: real)

  function NewNode(spot: Spot, remote: string, path: string): Node {
    Node(spot.id, remote, path, "", spot.x, spot.y)
  }

  datatype Edge = Edge(id: string, source: string, target: string, action: string, operation: Operation)

  datatype Graph = Graph(nodes: seq<Node>, edges: seq<Edge>)

  const NUL := '\0'

  predicate NulFree(s: string) {
    NUL !in s
  }

  function Key(remote: string, path: string): string {
    Trim(remote) + [NUL] + NormalizePath(path)
  }

  function NodeKey(n: Node): string {
    Key(n.remote, n.path)
  }

  /** A node's path is normalised whenever it is stored or read. */
  function Normal(n: Node): Node {
    n.(path := NormalizePath(n.path))
  }

  function SourceKey(op: Operation): string {
    Key(op.sourceRemote, op.sourcePath)
  }

  function TargetKey(op: Operation): string {
    Key(op.targetRemote, op.targetPath)
  }

  // ---- keys ------------------------------------------------------------------------------------

  lemma {:induction false} TrimMembers(s: string)
    ensures forall c :: c in TrimLeft(s) ==> c in s
    ensures forall c :: c in TrimRight(s) ==> c in s
    ensures forall c :: c in Trim(s) ==> c in s
  {
    LeftMembers(s);
    RightMembers(s);
    RightMembers(TrimLeft(s));
  }

  lemma {:induction false} LeftMembers(s: string)
    ensures forall c :: c in TrimLeft(s) ==> c in s
  {
    if s != "" && IsSpace(s[0]) {
      LeftMembers(s[1..]);
    }
  }

  lemma {:induction false} RightMembers(s: string)
    ensures forall c :: c in TrimRight(s) ==> c in s
  {
    if s != "" && IsSpace(s[|s| - 1]) {
      RightMembers(s[..|s| - 1]);
    }
  }

  lemma NormalIsNulFree(remote: string, path: string)
    requires NulFree(remote) && NulFree(path)
    ensures NulFree(Trim(remote)) && NulFree(NormalizePath(path))
  {
    TrimMembers(remote);
    TrimMembers(path);
  }

  /** Two parts joined by a NUL can be told apart if one pair is free of NULs. */
  lemma SplitAtNul(a: string, b: string, c: string, d: string)
    requires NulFree(a) && NulFree(b) && a + [NUL] + b == c + [NUL] + d
    ensures a == c && b == d
  {
    var s := a + [NUL] + b;
    assert s[|a|] == NUL;
    assert s[|c|] == NUL by { assert s == c + [NUL] + d; }
    assert forall i :: 0 <= i < |a| ==> s[i] == a[i] && a[i] in a;
    assert forall i :: |a| < i < |s| ==> s[i] == b[i - |a| - 1] && b[i - |a| - 1] in b;
    assert |a| == |c|;
    assert s[..|a|] == a && (c + [NUL] + d)[..|c|] == c;
    assert s[|a| + 1..] == b && (c + [NUL] + d)[|c| + 1..] == d;
  }

  /** Equal keys mean equal locations, so what rclone is given is the same. */
  lemma SameKeySamePath(r1: string, p1: string, r2: string, p2: string)
    requires NulFree(r1) && NulFree(p1) && Key(r1, p1) == Key(r2, p2)
    ensures ComposePath(r1, p1) == ComposePath(r2, p2)
    ensures Trim(r1) == Trim(r2) && NormalizePath(p1) == NormalizePath(p2)
  {
    hide Trim, NormalizePath, ComposePath;
    NormalIsNulFree(r1, p1);
    SplitAtNul(Trim(r1), NormalizePath(p1), Trim(r2), NormalizePath(p2));
    ComposeDependsOnNormal(r1, p1, r2, p2);
  }

  // ---- toGraph ---------------------------------------------------------------------------------

  /** The first NUL and what surrounds it, as split with maxSplits 1 does: an empty first part is omitted. */
  function FirstNul(key: string): (i: nat)
    ensures i <= |key| && NulFree(key[..i]) && (i < |key| ==> key[i] == NUL)
  {
    if key == "" || key[0] == NUL then 0
    else
      var i := FirstNul(key[1..]);
      assert key[..i + 1] == [key[0]] + key[1..][..i];
      i + 1
  }

  /** The remote and path read back from a key. */
  function SplitKey(key: string): (string, string) {
    var i := FirstNul(key);
    if i == |key| then (key, "/")
    else if i == 0 then SplitKey(key[1..])
    else (key[..i], if key[i + 1..] == "" then "/" else key[i + 1..])
  }

  /** The node made for an endpoint that a stored canvas does not show. */
  function ExtraNode(key: string, spot: string -> Spot): Node {
    var (remote, path) := SplitKey(key);
    NewNode(spot(key), remote, path)
  }

  /** The node made by the default layout. */
  function PlacedNode(remote: string, path: string, spot: string -> Spot): Node {
    NewNode(spot(Key(remote, path)), Trim(remote), NormalizePath(path))
  }

  lemma SplitsNormalKey(remote: string, path: string)
    requires NulFree(remote) && NulFree(path)
    ensures SplitKey(Key(remote, path))
      == if Blank(remote) then (NormalizePath(path), "/") else (Trim(remote), NormalizePath(path))
  {
    NormalIsNulFree(remote, path);
    NormalizePathTwice(path);
    hide Trim, NormalizePath;
    var r, p := Trim(remote), NormalizePath(path);
    var key := r + [NUL] + p;
    FirstNulAfter(r, p);
    assert key[..|r|] == r && key[|r| + 1..] == p;
    if r == "" {
      assert key[1..] == p;
      NoNul(p);
    }
  }

  lemma {:induction false} FirstNulAfter(a: string, b: string)
    requires NulFree(a)
    ensures FirstNul(a + [NUL] + b) == |a|
  {
    var s := a + [NUL] + b;
    if a != "" {
      assert s[0] == a[0] && a[0] in a;
      assert s[1..] == a[1..] + [NUL] + b;
      FirstNulAfter(a[1..], b);
    }
  }

  lemma NoNul(s: string)
    requires NulFree(s)
    ensures FirstNul(s) == |s| && SplitKey(s) == (s, "/")
  {
    assert forall i :: 0 <= i < |s| ==> s[i] in s;
  }

  /** Stored nodes by key; a later node with the same key replaces an earlier one. */
  function StoredByKey(stored: seq<Node>): map<string, Node> {
    if stored == [] then map[]
    else
      var node := Normal(stored[|stored| - 1]);
      StoredByKey(stored[..|stored| - 1])[NodeKey(node) := node]
  }

  /** Adds the node of an endpoint whose key is new. */
  function Show(byKey: map<string, Node>, stored: bool, remote: string, path: string, spot: string -> Spot)
    : map<string, Node>
  {
    var key := Key(remote, path);
    if key in byKey then byKey
    else byKey[key := if stored then ExtraNode(key, spot) else PlacedNode(remote, path, spot)]
  }

  function ShowAll(byKey: map<string, Node>, stored: bool, ops: seq<Operation>, spot: string -> Spot)
    : map<string, Node>
  {
    if ops == [] then byKey
    else
      var op := ops[|ops| - 1];
      var m := ShowAll(byKey, stored, ops[..|ops| - 1], spot);
      Show(Show(m, stored, op.sourceRemote, op.sourcePath, spot), stored, op.targetRemote, op.targetPath, spot)
  }

  /** byKey when the edges are drawn. */
  function Shown(ops: seq<Operation>, stored: seq<Node>, spot: string -> Spot): map<string, Node> {
    ShowAll(StoredByKey(stored), stored != [], ops, spot)
  }

  lemma ShowGrows(byKey: map<string, Node>, stored: bool, remote: string, path: string, spot: string -> Spot)
    ensures var m := Show(byKey, stored, remote, path, spot);
            Key(remote, path) in m && forall k :: k in byKey ==> k in m && m[k] == byKey[k]
  {
    hide Key, ExtraNode, PlacedNode;
  }

  lemma {:induction false} ShowAllGrows(byKey: map<string, Node>, stored: bool, ops: seq<Operation>,
                                        spot: string -> Spot)
    ensures var m := ShowAll(byKey, stored, ops, spot); forall k :: k in byKey ==> k in m && m[k] == byKey[k]
  {
    if ops != [] {
      hide Show;
      var op := ops[|ops| - 1];
      var m := ShowAll(byKey, stored, ops[..|ops| - 1], spot);
      ShowAllGrows(byKey, stored, ops[..|ops| - 1], spot);
      ShowGrows(m, stored, op.sourceRemote, op.sourcePath, spot);
      ShowGrows(Show(m, stored, op.sourceRemote, op.sourcePath, spot), stored, op.targetRemote, op.targetPath, spot);
    }
  }

  lemma {:induction false} ShowsEndpoint(byKey: map<string, Node>, stored: bool, ops: seq<Operation>,
                                         spot: string -> Spot, i: nat)
    requires i < |ops|
    ensures SourceKey(ops[i]) in ShowAll(byKey, stored, ops, spot)
    ensures TargetKey(ops[i]) in ShowAll(byKey, stored, ops, spot)
  {
    hide *;
    var n := |ops| - 1;
    LastShown(byKey, stored, ops, spot);
    ShowOpGrows(ShowAll(byKey, stored, ops[..n], spot), stored, ops[n], spot);
    if i < n {
      ShowsEndpoint(byKey, stored, ops[..n], spot, i);
    }
  }

  lemma LastShown(byKey: map<string, Node>, stored: bool, ops: seq<Operation>, spot: string -> Spot)
    requires ops != []
    ensures var op := ops[|ops| - 1];
            var m := ShowAll(byKey, stored, ops[..|ops| - 1], spot);
            ShowAll(byKey, stored, ops, spot)
              == Show(Show(m, stored, op.sourceRemote, op.sourcePath, spot), stored, op.targetRemote, op.targetPath,
                      spot)
  {
    hide Show;
  }

  lemma ShowOpGrows(m: map<string, Node>, stored: bool, op: Operation, spot: string -> Spot)
    ensures var m1 := Show(m, stored, op.sourceRemote, op.sourcePath, spot);
            var m2 := Show(m1, stored, op.targetRemote, op.targetPath, spot);
            SourceKey(op) in m2 && TargetKey(op) in m2 && forall k :: k in m ==> k in m2
  {
    hide Show, Key;
    ShowGrows(m, stored, op.sourceRemote, op.sourcePath, spot);
    ShowGrows(Show(m, stored, op.sourceRemote, op.sourcePath, spot), stored, op.targetRemote, op.targetPath, spot);
  }

  lemma ShowsEndpoints(byKey: map<string, Node>, stored: bool, ops: seq<Operation>, spot: string -> Spot)
    ensures var m := ShowAll(byKey, stored, ops, spot);
            forall i :: 0 <= i < |ops| ==> SourceKey(ops[i]) in m && TargetKey(ops[i]) in m
  {
    forall i | 0 <= i < |ops|
      ensures var m := ShowAll(byKey, stored, ops, spot); SourceKey(ops[i]) in m && TargetKey(ops[i]) in m
    {
      ShowsEndpoint(byKey, stored, ops, spot, i);
    }
  }

  function DrawnEdge(op: Operation, byKey: map<string, Node>): Edge
    requires SourceKey(op) in byKey && TargetKey(op) in byKey
  {
    Edge(op.id, byKey[SourceKey(op)].id, byKey[TargetKey(op)].id, NormalizeAction(op.action), op)
  }

  /** The graph of a flow: its nodes in some order, one edge for each operation in the operations' order. */
  ghost predicate IsGraph(ops: seq<Operation>, stored: seq<Node>, spot: string -> Spot, g: Graph) {
    var byKey := Shown(ops, stored, spot);
    && |g.nodes| == |byKey| && (forall n :: n in g.nodes <==> exists k :: k in byKey && byKey[k] == n)
    && |g.edges| == |ops|
    && (forall i :: 0 <= i < |ops| ==>
          SourceKey(ops[i]) in byKey && TargetKey(ops[i]) in byKey && g.edges[i] == DrawnEdge(ops[i], byKey))
  }

  /** toGraph. The dictionary's values come in any order. */
  method ToGraph(ops: seq<Operation>, stored: seq<Node>, spot: string -> Spot) returns (g: Graph)
    ensures IsGraph(ops, stored, spot, g)
  {
    hide NodeKey, Key, Show;
    var byKey: map<string, Node> := map[];
    for i := 0 to |stored|
      invariant byKey == StoredByKey(stored[..i])
    {
      assert stored[..i + 1][..i] == stored[..i];
      var node := Normal(stored[i]);
      byKey := byKey[NodeKey(node) := node];
    }
    assert stored[..|stored|] == stored;
    ghost var start := byKey;
    for i := 0 to |ops|
      invariant byKey == ShowAll(start, stored != [], ops[..i], spot)
    {
      assert ops[..i + 1][..i] == ops[..i];
      byKey := Show(byKey, stored != [], ops[i].sourceRemote, ops[i].sourcePath, spot);
      byKey := Show(byKey, stored != [], ops[i].targetRemote, ops[i].targetPath, spot);
    }
    assert ops[..|ops|] == ops;
    ShowsEndpoints(start, stored != [], ops, spot);
    assert byKey == Shown(ops, stored, spot);
    hide ShowAll, StoredByKey, Shown, SourceKey, TargetKey, DrawnEdge;
    var edges := DrawEdges(ops, byKey);
    var nodes := Values(byKey);
    g := Graph(nodes, edges);
  }

  /** The last loop of toGraph; every endpoint is shown by now, so no operation is skipped. */
  method DrawEdges(ops: seq<Operation>, byKey: map<string, Node>) returns (edges: seq<Edge>)
    requires forall i :: 0 <= i < |ops| ==> SourceKey(ops[i]) in byKey && TargetKey(ops[i]) in byKey
    ensures |edges| == |ops| && forall j :: 0 <= j < |ops| ==> edges[j] == DrawnEdge(ops[j], byKey)
  {
    hide *;
    edges := [];
    for i := 0 to |ops|
      invariant |edges| == i && forall j :: 0 <= j < i ==> edges[j] == DrawnEdge(ops[j], byKey)
    {
      edges := edges + [DrawnEdge(ops[i], byKey)];
    }
  }

  method Values(m: map<string, Node>) returns (nodes: seq<Node>)
    ensures |nodes| == |m|
    ensures forall n :: n in nodes <==> exists k :: k in m && m[k] == n
  {
    nodes := [];
    var rest := m.Keys;
    while rest != {}
      invariant rest <= m.Keys && |nodes| + |rest| == |m|
      invariant forall n :: n in nodes <==> exists k :: k in m && k !in rest && m[k] == n
      decreases |rest|
    {
      var k :| k in rest;
      nodes := nodes + [m[k]];
      rest := rest - {k};
    }
  }

  // ---- fromGraph -------------------------------------------------------------------------------

  ghost predicate DistinctNodes(nodes: seq<Node>) {
    forall i, j :: 0 <= i < j < |nodes| ==> nodes[i].id != nodes[j].id
  }

  ghost predicate DistinctOps(ops: seq<Operation>) {
    forall i, j :: 0 <= i < j < |ops| ==> ops[i].id != ops[j].id
  }

  /** Dictionary(uniqueKeysWithValues:) of nodes. */
  function NodesById(nodes: seq<Node>): map<string, Node> {
    if nodes == [] then map[] else NodesById(nodes[..|nodes| - 1])[nodes[|nodes| - 1].id := nodes[|nodes| - 1]]
  }

  function OpsById(ops: seq<Operation>): map<string, Operation> {
    if ops == [] then map[] else OpsById(ops[..|ops| - 1])[ops[|ops| - 1].id := ops[|ops| - 1]]
  }

  function FromEdge(e: Edge, i: nat, src: Node, dst: Node, previous: map<string, Operation>): Operation {
    var op := if e.id in previous then previous[e.id] else e.operation;
    var action := NormalizeAction(if e.action == "" then op.action else e.action);
    op.(id := e.id, sourceRemote := src.remote, sourcePath := NormalizePath(src.path),
        targetRemote := dst.remote, targetPath := NormalizePath(dst.path),
        action := action, syncConfig := op.syncConfig["action" := Text(action)], sortOrder := i)
  }

  /** Edges whose two ends exist. */
  function ValidEdges(edges: seq<Edge>, byId: map<string, Node>): seq<Edge> {
    if edges == [] then []
    else
      var v := ValidEdges(edges[..|edges| - 1], byId);
      var e := edges[|edges| - 1];
      if e.source in byId && e.target in byId then v + [e] else v
  }

  lemma {:induction false} ValidEdgesHaveEnds(edges: seq<Edge>, byId: map<string, Node>)
    ensures forall i :: 0 <= i < |ValidEdges(edges, byId)| ==>
              ValidEdges(edges, byId)[i].source in byId && ValidEdges(edges, byId)[i].target in byId
  {
    if edges != [] {
      ValidEdgesHaveEnds(edges[..|edges| - 1], byId);
    }
  }

  /** The operations that fromGraph gives back: one for each edge between existing nodes. */
  function OpsFrom(g: Graph, previousOps: seq<Operation>): (ops: seq<Operation>)
    ensures |ops| == |ValidEdges(g.edges, NodesById(g.nodes))|
  {
    var byId, previous := NodesById(g.nodes), OpsById(previousOps);
    var valid := ValidEdges(g.edges, byId);
    ValidEdgesHaveEnds(g.edges, byId);
    seq(|valid|, i requires 0 <= i < |valid| =>
      FromEdge(valid[i], i, byId[valid[i].source], byId[valid[i].target], previous))
  }

  /** The nodes of the canvas that is stored. */
  function Saved(nodes: seq<Node>): (r: seq<Node>)
    ensures |r| == |nodes|
  {
    seq(|nodes|, i requires 0 <= i < |nodes| => Normal(nodes[i]))
  }

  /** fromGraph. */
  method FromGraph(g: Graph, previousOps: seq<Operation>) returns (ops: seq<Operation>, canvas: seq<Node>)
    requires DistinctNodes(g.nodes) && DistinctOps(previousOps)
    ensures ops == OpsFrom(g, previousOps) && canvas == Saved(g.nodes) && |canvas| == |g.nodes|
    ensures forall i :: 0 <= i < |canvas| ==> canvas[i] == g.nodes[i].(path := NormalizePath(g.nodes[i].path))
  {
    hide FromEdge;
    var byId: map<string, Node> := map[];
    for i := 0 to |g.nodes|
      invariant byId == NodesById(g.nodes[..i])
    {
      assert g.nodes[..i + 1][..i] == g.nodes[..i];
      byId := byId[g.nodes[i].id := g.nodes[i]];
    }
    assert g.nodes[..|g.nodes|] == g.nodes;
    var previous: map<string, Operation> := map[];
    for i := 0 to |previousOps|
      invariant previous == OpsById(previousOps[..i])
    {
      assert previousOps[..i + 1][..i] == previousOps[..i];
      previous := previous[previousOps[i].id := previousOps[i]];
    }
    assert previousOps[..|previousOps|] == previousOps;
    var valid: seq<Edge> := [];
    for i := 0 to |g.edges|
      invariant valid == ValidEdges(g.edges[..i], byId)
    {
      assert g.edges[..i + 1][..i] == g.edges[..i];
      if g.edges[i].source in byId && g.edges[i].target in byId {
        valid := valid + [g.edges[i]];
      }
    }
    assert g.edges[..|g.edges|] == g.edges;
    ValidEdgesHaveEnds(g.edges, byId);
    ops := [];
    for i := 0 to |valid|
      invariant |ops| == i && forall j :: 0 <= j < i ==>
        ops[j] == FromEdge(valid[j], j, byId[valid[j].source], byId[valid[j].target], previous)
    {
      ops := ops + [FromEdge(valid[i], i, byId[valid[i].source], byId[valid[i].target], previous)];
    }
    canvas := SaveNodes(g.nodes);
  }

  method SaveNodes(nodes: seq<Node>) returns (canvas: seq<Node>)
    ensures canvas == Saved(nodes)
  {
    canvas := [];
    for i := 0 to |nodes|
      invariant canvas == Saved(nodes)[..i]
    {
      canvas := canvas + [Normal(nodes[i])];
    }
  }

  // ---- the round trip --------------------------------------------------------------------------

  lemma {:induction false} NodeFoundById(nodes: seq<Node>, n: Node)
    requires DistinctNodes(nodes) && n in nodes
    ensures n.id in NodesById(nodes) && NodesById(nodes)[n.id] == n
  {
    var m := |nodes| - 1;
    if n != nodes[m] {
      assert n in nodes[..m];
      var i :| 0 <= i < m && nodes[i] == n;
      NodeFoundById(nodes[..m], n);
    }
  }

  lemma {:induction false} OpFoundById(ops: seq<Operation>, i: nat)
    requires DistinctOps(ops) && i < |ops|
    ensures ops[i].id in OpsById(ops) && OpsById(ops)[ops[i].id] == ops[i]
  {
    var m := |ops| - 1;
    if i < m {
      OpFoundById(ops[..m], i);
    }
  }

  ghost predicate HasEnds(e: Edge, byId: map<string, Node>) {
    e.source in byId && e.target in byId
  }

  lemma {:induction false} AllEdgesValid(edges: seq<Edge>, byId: map<string, Node>)
    requires forall i :: 0 <= i < |edges| ==> HasEnds(edges[i], byId)
    ensures ValidEdges(edges, byId) == edges
  {
    if edges != [] {
      var n := |edges| - 1;
      AllEdgesValid(edges[..n], byId);
      assert HasEnds(edges[n], byId);
      assert edges == edges[..n] + [edges[n]];
    }
  }

  /** The edge of every operation leads back to the nodes it was drawn between. */
  lemma EdgesFindNodes(ops: seq<Operation>, stored: seq<Node>, spot: string -> Spot, g: Graph, i: nat)
    requires IsGraph(ops, stored, spot, g) && DistinctNodes(g.nodes) && i < |ops|
    ensures var byKey, byId := Shown(ops, stored, spot), NodesById(g.nodes);
            && SourceKey(ops[i]) in byKey && TargetKey(ops[i]) in byKey
            && g.edges[i].source in byId && byId[g.edges[i].source] == byKey[SourceKey(ops[i])]
            && g.edges[i].target in byId && byId[g.edges[i].target] == byKey[TargetKey(ops[i])]
  {
    hide Shown, SourceKey, TargetKey, NodesById;
    var byKey := Shown(ops, stored, spot);
    assert g.edges[i] == DrawnEdge(ops[i], byKey);
    assert byKey[SourceKey(ops[i])] in g.nodes && byKey[TargetKey(ops[i])] in g.nodes;
    NodeFoundById(g.nodes, byKey[SourceKey(ops[i])]);
    NodeFoundById(g.nodes, byKey[TargetKey(ops[i])]);
  }

  /** What the node shown for an endpoint stands for. */
  ghost predicate Stands(n: Node, remote: string, path: string) {
    ComposePath(n.remote, n.path) == ComposePath(remote, path)
  }

  ghost predicate Covered(stored: seq<Node>, remote: string, path: string) {
    stored == [] || Key(remote, path) in StoredByKey(stored)
  }

  lemma {:induction false} StoredKeys(stored: seq<Node>, key: string)
    requires key in StoredByKey(stored)
    ensures NodeKey(StoredByKey(stored)[key]) == key
  {
    var n := |stored| - 1;
    var node := Normal(stored[n]);
    if NodeKey(node) != key {
      StoredKeys(stored[..n], key);
    }
  }

  /** Every entry of byKey is a stored node, a placed node or an extra node made for its own key. */
  ghost predicate Origin(byKey: map<string, Node>, stored: bool, ops: seq<Operation>, spot: string -> Spot,
                         key: string, n: Node) {
    || (key in byKey && n == byKey[key])
    || (key !in byKey && stored && n == ExtraNode(key, spot))
    || (key !in byKey && !stored
        && exists r, p :: Key(r, p) == key && NulFree(r) && NulFree(p) && n == PlacedNode(r, p, spot))
  }

  ghost predicate NulFreeEnds(ops: seq<Operation>) {
    forall i :: 0 <= i < |ops| ==> EndsNulFree(ops[i])
  }

  ghost predicate EndsNulFree(op: Operation) {
    NulFree(op.sourceRemote) && NulFree(op.sourcePath) && NulFree(op.targetRemote) && NulFree(op.targetPath)
  }

  ghost predicate Origins(byKey: map<string, Node>, m: map<string, Node>, stored: bool, ops: seq<Operation>,
                          spot: string -> Spot) {
    forall key :: key in m ==> Origin(byKey, stored, ops, spot, key, m[key])
  }

  lemma ShowOrigins(byKey: map<string, Node>, m: map<string, Node>, stored: bool, ops: seq<Operation>,
                    spot: string -> Spot, remote: string, path: string)
    requires Origins(byKey, m, stored, ops, spot) && NulFree(remote) && NulFree(path)
    requires forall k :: k in byKey ==> k in m
    ensures Origins(byKey, Show(m, stored, remote, path, spot), stored, ops, spot)
  {
    hide Key, ExtraNode, PlacedNode, NulFree;
  }

  lemma {:induction false} ShowAllOrigins(byKey: map<string, Node>, stored: bool, ops: seq<Operation>,
                                          all: seq<Operation>, spot: string -> Spot)
    requires NulFreeEnds(ops)
    ensures Origins(byKey, ShowAll(byKey, stored, ops, spot), stored, all, spot)
  {
    if ops != [] {
      hide Show, Origins, NulFree;
      var n := |ops| - 1;
      var op := ops[n];
      assert EndsNulFree(op);
      assert forall i :: 0 <= i < n ==> ops[..n][i] == ops[i];
      ShowAllOrigins(byKey, stored, ops[..n], all, spot);
      ShowAllGrows(byKey, stored, ops[..n], spot);
      var m := ShowAll(byKey, stored, ops[..n], spot);
      ShowOrigins(byKey, m, stored, all, spot, op.sourceRemote, op.sourcePath);
      ShowGrows(m, stored, op.sourceRemote, op.sourcePath, spot);
      ShowOrigins(byKey, Show(m, stored, op.sourceRemote, op.sourcePath, spot), stored, all, spot, op.targetRemote,
                  op.targetPath);
    } else {
      FirstOrigins(byKey, stored, all, spot);
    }
  }

  lemma FirstOrigins(byKey: map<string, Node>, stored: bool, ops: seq<Operation>, spot: string -> Spot)
    ensures Origins(byKey, byKey, stored, ops, spot)
  {
  }

  /** An endpoint is given back as it was exactly when the canvas shows it or its remote is not blank: the key of
      a local endpoint is split wrongly, and its path becomes a remote. */
  lemma EndpointStands(ops: seq<Operation>, stored: seq<Node>, spot: string -> Spot, remote: string, path: string)
    requires NulFreeEnds(ops) && NulFree(remote) && NulFree(path)
    requires Key(remote, path) in Shown(ops, stored, spot)
    ensures Stands(Shown(ops, stored, spot)[Key(remote, path)], remote, path)
      <==> Covered(stored, remote, path) || !Blank(remote)
  {
    var key := Key(remote, path);
    var n := Shown(ops, stored, spot)[key];
    ShowAllOrigins(StoredByKey(stored), stored != [], ops, ops, spot);
    assert Origin(StoredByKey(stored), stored != [], ops, spot, key, n);
    hide Origins, ShowAll, StoredByKey, Trim, ComposePath, NormalizePath, Blank, Key, ExtraNode, PlacedNode;
    if key in StoredByKey(stored) {
      StoredKeys(stored, key);
      SameKeySamePath(remote, path, n.remote, n.path);
    } else if stored != [] {
      ExtraStands(remote, path, spot);
    } else {
      var r, p :| Key(r, p) == key && NulFree(r) && NulFree(p) && n == PlacedNode(r, p, spot);
      SameKeySamePath(remote, path, r, p);
      PlacedStands(r, p, spot);
    }
  }

  lemma PlacedStands(remote: string, path: string, spot: string -> Spot)
    ensures Stands(PlacedNode(remote, path, spot), remote, path)
  {
    TrimTwice(remote);
    NormalizePathTwice(path);
    hide Trim, NormalizePath;
    ComposeDependsOnNormal(Trim(remote), NormalizePath(path), remote, path);
  }

  lemma ExtraStands(remote: string, path: string, spot: string -> Spot)
    requires NulFree(remote) && NulFree(path)
    ensures Stands(ExtraNode(Key(remote, path), spot), remote, path) <==> !Blank(remote)
  {
    SplitsNormalKey(remote, path);
    if !Blank(remote) {
      PlacedStands(remote, path, spot);
      hide Key, Blank, NormalizePath, Trim, ComposePath, SplitKey;
    } else {
      LocalIsLost(remote, path);
      hide Key, Blank, NormalizePath, Trim, ComposePath, SplitKey;
    }
  }

  /** Without its remote, a local path is taken for the name of a remote. */
  lemma LocalIsLost(remote: string, path: string)
    requires Blank(remote)
    ensures ComposePath(NormalizePath(path), "/") != ComposePath(remote, path)
  {
    NormalizePathTwice(path);
    TrimmedStays("/");
    var p := NormalizePath(path);
    hide Trim;
    assert ComposePath(remote, path) == p;
    if p != "local" {
      assert |p + ":"| > |p|;
    }
  }

  /** In the same cases, and no other, the node is the endpoint itself: the same remote and the same path. */
  lemma EndpointIsSame(ops: seq<Operation>, stored: seq<Node>, spot: string -> Spot, remote: string, path: string)
    requires NulFreeEnds(ops) && NulFree(remote) && NulFree(path)
    requires Key(remote, path) in Shown(ops, stored, spot)
    ensures var n := Shown(ops, stored, spot)[Key(remote, path)];
            SameEndpoint(n.remote, NormalizePath(n.path), remote, path) <==>
            (Covered(stored, remote, path) || !Blank(remote))
  {
    var key := Key(remote, path);
    var n := Shown(ops, stored, spot)[key];
    ShowAllOrigins(StoredByKey(stored), stored != [], ops, ops, spot);
    assert Origin(StoredByKey(stored), stored != [], ops, spot, key, n);
    NormalizePathTwice(n.path);
    hide Origins, ShowAll, StoredByKey, Trim, ComposePath, NormalizePath, Blank, Key, ExtraNode, PlacedNode;
    if key in StoredByKey(stored) {
      StoredKeys(stored, key);
      SameKeySamePath(remote, path, n.remote, n.path);
    } else if stored != [] {
      ExtraIsSame(remote, path, spot);
    } else {
      var r, p :| Key(r, p) == key && NulFree(r) && NulFree(p) && n == PlacedNode(r, p, spot);
      SameKeySamePath(remote, path, r, p);
      PlacedIsSame(r, p, spot);
    }
  }

  lemma PlacedIsSame(remote: string, path: string, spot: string -> Spot)
    ensures var n := PlacedNode(remote, path, spot); SameEndpoint(n.remote, n.path, remote, path)
  {
    TrimTwice(remote);
    NormalizePathTwice(path);
    hide Trim, NormalizePath;
  }

  lemma ExtraIsSame(remote: string, path: string, spot: string -> Spot)
    requires NulFree(remote) && NulFree(path)
    ensures var n := ExtraNode(Key(remote, path), spot);
            SameEndpoint(n.remote, n.path, remote, path) <==> !Blank(remote)
  {
    SplitsNormalKey(remote, path);
    NormalizePathTwice(path);
    TrimTwice(remote);
    hide Key, SplitKey, NormalizePath, Trim;
  }

  /** The i-th operation after a round trip. */
  function Back(g: Graph, ops: seq<Operation>, i: nat): Operation
    requires i < |g.edges| && g.edges[i].source in NodesById(g.nodes) && g.edges[i].target in NodesById(g.nodes)
  {
    FromEdge(g.edges[i], i, NodesById(g.nodes)[g.edges[i].source], NodesById(g.nodes)[g.edges[i].target], OpsById(ops))
  }

  /** No operation is lost or moved. */
  lemma RoundTripKeepsOrder(ops: seq<Operation>, stored: seq<Node>, spot: string -> Spot, g: Graph)
    requires IsGraph(ops, stored, spot, g) && DistinctNodes(g.nodes)
    ensures ValidEdges(g.edges, NodesById(g.nodes)) == g.edges && |g.edges| == |ops|
  {
    hide Shown, SourceKey, TargetKey, NodesById;
    forall i | 0 <= i < |g.edges|
      ensures HasEnds(g.edges[i], NodesById(g.nodes))
    {
      EdgesFindNodes(ops, stored, spot, g, i);
    }
    AllEdgesValid(g.edges, NodesById(g.nodes));
  }

  /** The canvas has a place for both ends of an operation, or they name a remote. */
  ghost predicate Shows(stored: seq<Node>, remote: string, path: string) {
    Covered(stored, remote, path) || !Blank(remote)
  }

  /** What toGraph followed by fromGraph does to each operation: the id and the settings stay, each path handed
      to rclone stays exactly when the canvas covers the endpoint or its remote is not blank, and the action
      stays exactly unless a blank action column stood for a sync_config action other than push. */
  lemma RoundTrip(ops: seq<Operation>, stored: seq<Node>, spot: string -> Spot, g: Graph, i: nat)
    requires IsGraph(ops, stored, spot, g) && DistinctNodes(g.nodes) && DistinctOps(ops) && NulFreeEnds(ops)
    requires i < |ops|
    ensures i < |g.edges| && g.edges[i].source in NodesById(g.nodes) && g.edges[i].target in NodesById(g.nodes)
    ensures var op, back := ops[i], Back(g, ops, i);
            && back.id == op.id && back.flowID == op.flowID && back.isExpanded == op.isExpanded && back.sortOrder == i
            && back.syncConfig - {"action"} == op.syncConfig - {"action"}
            && (Shows(stored, op.sourceRemote, op.sourcePath) <==>
                ComposePath(back.sourceRemote, back.sourcePath) == ComposePath(op.sourceRemote, op.sourcePath))
            && (Shows(stored, op.targetRemote, op.targetPath) <==>
                ComposePath(back.targetRemote, back.targetPath) == ComposePath(op.targetRemote, op.targetPath))
            && (Shows(stored, op.sourceRemote, op.sourcePath) <==>
                SameEndpoint(back.sourceRemote, back.sourcePath, op.sourceRemote, op.sourcePath))
            && (Shows(stored, op.targetRemote, op.targetPath) <==>
                SameEndpoint(back.targetRemote, back.targetPath, op.targetRemote, op.targetPath))
            && (ResolvedAction(back) == ResolvedAction(op) <==> (Blank(op.action) ==> ResolvedAction(op) == "push"))
  {
    var op := ops[i];
    var byKey := Shown(ops, stored, spot);
    EdgesFindNodes(ops, stored, spot, g, i);
    OpFoundById(ops, i);
    hide Shown, NodesById, OpsById;
    var src, dst := byKey[SourceKey(op)], byKey[TargetKey(op)];
    assert g.edges[i] == DrawnEdge(op, byKey);
    assert EndsNulFree(op);
    EndpointStands(ops, stored, spot, op.sourceRemote, op.sourcePath);
    EndpointStands(ops, stored, spot, op.targetRemote, op.targetPath);
    EndpointIsSame(ops, stored, spot, op.sourceRemote, op.sourcePath);
    EndpointIsSame(ops, stored, spot, op.targetRemote, op.targetPath);
    var back := Back(g, ops, i);
    FromEdgeParts(op, i, src, dst, OpsById(ops));
    NormalNodeStands(src, op.sourceRemote, op.sourcePath);
    NormalNodeStands(dst, op.targetRemote, op.targetPath);
    hide ComposePath, NormalizePath, Key, Blank, ResolvedAction, FromEdge, DrawnEdge, NulFree, Covered;
  }

  lemma NormalNodeStands(n: Node, remote: string, path: string)
    ensures ComposePath(n.remote, NormalizePath(n.path)) == ComposePath(remote, path) <==> Stands(n, remote, path)
  {
    NormalizePathTwice(n.path);
    hide NormalizePath, ComposePath;
    ComposeDependsOnNormal(n.remote, NormalizePath(n.path), n.remote, n.path);
  }

  /** fromGraph on an edge drawn by toGraph. */
  lemma FromEdgeParts(op: Operation, i: nat, src: Node, dst: Node, previous: map<string, Operation>)
    requires op.id in previous && previous[op.id] == op
    ensures var back := FromEdge(Edge(op.id, src.id, dst.id, NormalizeAction(op.action), op), i, src, dst, previous);
            && back.id == op.id && back.flowID == op.flowID && back.isExpanded == op.isExpanded && back.sortOrder == i
            && back.sourceRemote == src.remote && back.sourcePath == NormalizePath(src.path)
            && back.targetRemote == dst.remote && back.targetPath == NormalizePath(dst.path)
            && back.syncConfig - {"action"} == op.syncConfig - {"action"}
            && (ResolvedAction(back) == ResolvedAction(op) <==> (Blank(op.action) ==> ResolvedAction(op) == "push"))
  {
    NormalizeTwice(op.action);
    if Blank(op.action) {
      BlankIsPush(op.action);
    }
    hide NormalizeAction, Blank, NormalizePath;
    assert Blank("") by { EmptyIsBlank(); }
    var a := NormalizeAction(op.action);
    assert (op.syncConfig["action" := Text(a)]) - {"action"} == op.syncConfig - {"action"};
  }

  lemma EmptyIsBlank()
    ensures Blank("")
  {
  }

  /** A flow whose operations are normalised and whose canvas is empty or complete executes the same after a
      round trip: every operation keeps its place, id, action and both paths, and is still normalised. */
  lemma RoundTripExecutesTheSame(ops: seq<Operation>, stored: seq<Node>, spot: string -> Spot, g: Graph, i: nat)
    requires IsGraph(ops, stored, spot, g) && DistinctNodes(g.nodes) && DistinctOps(ops) && NulFreeEnds(ops)
    requires i < |ops|
    requires ops[i] == WithNormalAction(ops[i])
    requires Covered(stored, ops[i].sourceRemote, ops[i].sourcePath)
    requires Covered(stored, ops[i].targetRemote, ops[i].targetPath)
    ensures ValidEdges(g.edges, NodesById(g.nodes)) == g.edges && |g.edges| == |ops|
    ensures g.edges[i].source in NodesById(g.nodes) && g.edges[i].target in NodesById(g.nodes)
    ensures var op, back := ops[i], Back(g, ops, i);
            && back.id == op.id && ResolvedAction(back) == ResolvedAction(op)
            && ComposePath(back.sourceRemote, back.sourcePath) == ComposePath(op.sourceRemote, op.sourcePath)
            && ComposePath(back.targetRemote, back.targetPath) == ComposePath(op.targetRemote, op.targetPath)
            && SameEndpoint(back.sourceRemote, back.sourcePath, op.sourceRemote, op.sourcePath)
            && SameEndpoint(back.targetRemote, back.targetPath, op.targetRemote, op.targetPath)
            && back.syncConfig - {"action"} == op.syncConfig - {"action"}
            && back == WithNormalAction(back)
  {
    RoundTripKeepsOrder(ops, stored, spot, g);
    RoundTrip(ops, stored, spot, g, i);
    NormalActionIsFilled(ops[i]);
    BackIsNormal(g, ops, i);
    hide *;
  }

  lemma NormalActionIsFilled(op: Operation)
    requires op == WithNormalAction(op)
    ensures !Blank(op.action)
  {
    NormalizeTwice(op.action);
    NormalizeTwice(ConfigAction(op));
    ActionsAreTrimmed();
    hide Trim;
  }

  lemma BackIsNormal(g: Graph, ops: seq<Operation>, i: nat)
    requires i < |g.edges| && g.edges[i].source in NodesById(g.nodes) && g.edges[i].target in NodesById(g.nodes)
    ensures Back(g, ops, i) == WithNormalAction(Back(g, ops, i))
  {
    hide NodesById, OpsById;
    var e := g.edges[i];
    var op := if e.id in OpsById(ops) then OpsById(ops)[e.id] else e.operation;
    NormalizeTwice(if e.action == "" then op.action else e.action);
    hide NormalizeAction, Blank, NormalizePath;
    AlignedIsNormal(Back(g, ops, i));
  }

  lemma AlignedIsNormal(op: Operation)
    requires NormalizeAction(op.action) == op.action && !Blank(op.action)
    requires "action" in op.syncConfig && op.syncConfig["action"] == Text(op.action)
    ensures op == WithNormalAction(op)
  {
    hide NormalizeAction, Blank;
    assert op.syncConfig["action" := Text(op.action)] == op.syncConfig;
  }

  // ---- entries of the two dictionaries ---------------------------------------------------------

  /** Of the stored nodes with a key the last one counts. */
  lemma {:induction false} LastStoredCounts(stored: seq<Node>, key: string) returns (i: nat)
    requires key in StoredByKey(stored)
    ensures i < |stored| && Key(stored[i].remote, NormalizePath(stored[i].path)) == key
    ensures StoredByKey(stored)[key] == stored[i].(path := NormalizePath(stored[i].path))
    ensures forall j :: i < j < |stored| ==> Key(stored[j].remote, NormalizePath(stored[j].path)) != key
  {
    hide Key, NormalizePath;
    var n := |stored| - 1;
    if Key(stored[n].remote, NormalizePath(stored[n].path)) == key {
      i := n;
    } else {
      i := LastStoredCounts(stored[..n], key);
    }
  }

  /** A node that no stored one provides is made where the layout says, without a label. */
  lemma NewNodesAreBlank(ops: seq<Operation>, stored: seq<Node>, spot: string -> Spot, key: string)
    requires NulFreeEnds(ops) && key in Shown(ops, stored, spot) && key !in StoredByKey(stored)
    ensures var n, s := Shown(ops, stored, spot)[key], spot(key);
            n.id == s.id && n.x == s.x && n.y == s.y && n.labelText == ""
  {
    ShowAllOrigins(StoredByKey(stored), stored != [], ops, ops, spot);
    assert Origin(StoredByKey(stored), stored != [], ops, spot, key, Shown(ops, stored, spot)[key]);
    hide Origins, ShowAll, StoredByKey, Key, SplitKey;
  }

  /** fromGraph takes exactly the edges between existing nodes, each as often as it is there. */
  lemma {:induction false} EdgesTaken(edges: seq<Edge>, byId: map<string, Node>, e: Edge)
    ensures multiset(ValidEdges(edges, byId))[e]
      == if e.source in byId && e.target in byId then multiset(edges)[e] else 0
  {
    if edges != [] {
      var n := |edges| - 1;
      EdgesTaken(edges[..n], byId, e);
      assert edges == edges[..n] + [edges[n]];
    }
  }
}
