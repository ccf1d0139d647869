/** topoLayers: layers of edges peeled off by counting the pending edges into each node. */
module BoardTopo {
  import opened BoardGraph

  datatype Layering = Layers(layers: seq<seq<Edge>>) | CycleDetected(left: nat)

  // ---- sorting, as the library call does it ----------------------------------------------------

  function Insert(e: Edge, s: seq<Edge>): (r: seq<Edge>)
    ensures multiset(r) == multiset(s) + multiset{e} && |r| == |s| + 1
  {
    if s == [] || !Less(s[0].id, e.id) then [e] + s
    else assert s == [s[0]] + s[1..]; [s[0]] + Insert(e, s[1..])
  }

  function Sort(s: seq<Edge>): (r: seq<Edge>)
    ensures multiset(r) == multiset(s) && |r| == |s|
  {
    if s == [] then []
    else assert s == s[..|s| - 1] + [s[|s| - 1]]; Insert(s[|s| - 1], Sort(s[..|s| - 1]))
  }

  lemma {:induction false} InsertSorted(e: Edge, s: seq<Edge>)
    requires SortedById(s) && forall x :: x in s ==> x.id != e.id
    ensures SortedById(Insert(e, s))
  {
    if s == [] {
    } else if !Less(s[0].id, e.id) {
      LessTotal(s[0].id, e.id);
      assert s[0] in s;
      forall i | 0 < i < |s|
        ensures Less(e.id, s[i].id)
      {
        LessTransitive(e.id, s[0].id, s[i].id);
      }
    } else {
      InsertSorted(e, s[1..]);
      var r := Insert(e, s[1..]);
      forall i | 0 <= i < |r|
        ensures Less(s[0].id, r[i].id)
      {
        assert r[i] in multiset(r);
        assert r[i] == e || r[i] in s[1..];
      }
    }
  }

  lemma {:induction false} SortSorted(s: seq<Edge>)
    requires DistinctIds(s)
    ensures SortedById(Sort(s))
  {
    if s != [] {
      var n := |s| - 1;
      SortSorted(s[..n]);
      forall x | x in Sort(s[..n])
        ensures x.id != s[n].id
      {
        assert x in multiset(Sort(s[..n]));
        assert x in s[..n];
      }
      InsertSorted(s[n], Sort(s[..n]));
    }
  }

  // ---- counting --------------------------------------------------------------------------------

  /** Pending edges into a node. */
  function InDegree(edges: seq<Edge>, pending: seq<bool>, v: string): nat
    requires |edges| == |pending|
  {
    if edges == [] then 0
    else
      var n := |edges| - 1;
      InDegree(edges[..n], pending[..n], v) + if pending[n] && edges[n].target == v then 1 else 0
  }

  lemma {:induction false} ClearOne(edges: seq<Edge>, pending: seq<bool>, i: nat, v: string)
    requires i < |edges| == |pending| && pending[i]
    ensures InDegree(edges, pending[i := false], v)
      == InDegree(edges, pending, v) - if edges[i].target == v then 1 else 0
  {
    var n := |edges| - 1;
    if i == n {
      assert pending[i := false][..n] == pending[..n];
    } else {
      ClearOne(edges[..n], pending[..n], i, v);
      assert pending[i := false][..n] == pending[..n][i := false];
    }
  }

  lemma {:induction false} InDegreeZero(edges: seq<Edge>, pending: seq<bool>, v: string)
    requires |edges| == |pending|
    ensures InDegree(edges, pending, v) == 0 <==> forall i :: 0 <= i < |edges| && pending[i] ==> edges[i].target != v
  {
    if edges != [] {
      var n := |edges| - 1;
      InDegreeZero(edges[..n], pending[..n], v);
      if i :| 0 <= i < n && pending[i] && edges[i].target == v {
        assert edges[..n][i].target == v && pending[..n][i];
      }
    }
  }

  function Degree(indeg: map<string, int>, v: string): int {
    if v in indeg then indeg[v] else 0
  }

  ghost predicate Counts(edges: seq<Edge>, pending: seq<bool>, indeg: map<string, int>)
    requires |edges| == |pending|
  {
    forall v :: Degree(indeg, v) == InDegree(edges, pending, v)
  }

  function Ones(n: nat): seq<bool> {
    seq(n, i => true)
  }

  /** The first two loops. */
  method CountEdges(nodes: seq<string>, edges: seq<Edge>) returns (indeg: map<string, int>)
    ensures Counts(edges, Ones(|edges|), indeg)
  {
    indeg := map[];
    for i := 0 to |nodes|
      invariant forall v :: v in indeg ==> indeg[v] == 0
    {
      indeg := indeg[nodes[i] := 0];
    }
    for i := 0 to |edges|
      invariant Counts(edges[..i], Ones(i), indeg)
    {
      assert edges[..i + 1][..i] == edges[..i] && Ones(i + 1)[..i] == Ones(i);
      indeg := indeg[edges[i].target := Degree(indeg, edges[i].target) + 1];
    }
    assert edges[..|edges|] == edges;
  }

  // ---- one round -------------------------------------------------------------------------------

  /** Pending edges whose source no pending edge leads to, in list order. */
  function Ready(edges: seq<Edge>, pending: seq<bool>, indeg: map<string, int>, n: nat): seq<Edge>
    requires |edges| == |pending| && n <= |edges|
  {
    if n == 0 then []
    else
      var r := Ready(edges, pending, indeg, n - 1);
      if pending[n - 1] && Degree(indeg, edges[n - 1].source) == 0 then r + [edges[n - 1]] else r
  }

  lemma {:induction false} ReadyMembers(edges: seq<Edge>, pending: seq<bool>, indeg: map<string, int>, n: nat, e: Edge)
    requires |edges| == |pending| && n <= |edges|
    ensures e in Ready(edges, pending, indeg, n)
      <==> exists i :: 0 <= i < n && edges[i] == e && pending[i] && Degree(indeg, e.source) == 0
  {
    if n > 0 {
      ReadyMembers(edges, pending, indeg, n - 1, e);
    }
  }

  lemma {:induction false} ReadyDistinct(edges: seq<Edge>, pending: seq<bool>, indeg: map<string, int>, n: nat)
    requires |edges| == |pending| && n <= |edges| && DistinctIds(edges)
    ensures DistinctIds(Ready(edges, pending, indeg, n))
  {
    if n > 0 {
      var r := Ready(edges, pending, indeg, n - 1);
      ReadyDistinct(edges, pending, indeg, n - 1);
      forall e | e in r
        ensures e.id != edges[n - 1].id
      {
        ReadyMembers(edges, pending, indeg, n - 1, e);
      }
    }
  }

  /** The pending edges, in list order. */
  function Pending(edges: seq<Edge>, pending: seq<bool>): seq<Edge>
    requires |edges| == |pending|
  {
    if edges == [] then []
    else
      var n := |edges| - 1;
      var r := Pending(edges[..n], pending[..n]);
      if pending[n] then r + [edges[n]] else r
  }

  lemma {:induction false} PendingClearOne(edges: seq<Edge>, pending: seq<bool>, i: nat)
    requires i < |edges| == |pending| && pending[i]
    ensures multiset(Pending(edges, pending)) == multiset(Pending(edges, pending[i := false])) + multiset{edges[i]}
  {
    var n := |edges| - 1;
    var p := pending[i := false];
    if i == n {
      assert p[..n] == pending[..n];
    } else {
      PendingClearOne(edges[..n], pending[..n], i);
      assert p[..n] == pending[..n][i := false];
    }
  }

  lemma {:induction false} PendingMembers(edges: seq<Edge>, pending: seq<bool>, e: Edge)
    requires |edges| == |pending|
    ensures e in Pending(edges, pending) <==> exists i :: 0 <= i < |edges| && pending[i] && edges[i] == e
  {
    if edges != [] {
      var n := |edges| - 1;
      PendingMembers(edges[..n], pending[..n], e);
      if i :| 0 <= i < n && pending[i] && edges[i] == e {
        assert edges[..n][i] == e && pending[..n][i];
      }
    }
  }

  lemma {:induction false} AllPending(edges: seq<Edge>)
    ensures Pending(edges, Ones(|edges|)) == edges
  {
    if edges != [] {
      var n := |edges| - 1;
      AllPending(edges[..n]);
      assert Ones(|edges|)[..n] == Ones(n);
      assert edges == edges[..n] + [edges[n]];
    }
  }

  /** What the rounds before round k = |layers| have established. */
  ghost predicate Sound(edges: seq<Edge>, pending: seq<bool>, layers: seq<seq<Edge>>)
    requires |edges| == |pending|
  {
    && Split(edges, pending, layers)
    && Sorted(layers)
    && Placed(edges, layers)
    && AllDeep(edges, pending, |layers|)
  }

  ghost predicate Split(edges: seq<Edge>, pending: seq<bool>, layers: seq<seq<Edge>>)
    requires |edges| == |pending|
  {
    multiset(edges) == multiset(Flatten(layers)) + multiset(Pending(edges, pending))
  }

  ghost predicate Sorted(layers: seq<seq<Edge>>) {
    forall k :: 0 <= k < |layers| ==> layers[k] != [] && SortedById(layers[k])
  }

  ghost predicate Placed(edges: seq<Edge>, layers: seq<seq<Edge>>) {
    forall k, i :: 0 <= k < |layers| && 0 <= i < |layers[k]| ==> LongestInto(edges, layers[k][i].source, k)
  }

  ghost predicate AllDeep(edges: seq<Edge>, pending: seq<bool>, k: nat)
    requires |edges| == |pending|
  {
    forall i :: 0 <= i < |edges| && pending[i] ==> Deep(edges, edges[i].source, k)
  }

  ghost predicate Deep(edges: seq<Edge>, v: string, k: nat) {
    exists c :: ChainInto(edges, c, v) && |c| == k
  }

  /** An edge that is no longer pending is in a layer. */
  lemma PlacedOrPending(edges: seq<Edge>, pending: seq<bool>, layers: seq<seq<Edge>>, e: Edge)
    requires |edges| == |pending| && Sound(edges, pending, layers) && e in edges
    ensures || (exists i :: 0 <= i < |edges| && pending[i] && edges[i] == e)
            || (exists k :: 0 <= k < |layers| && e in layers[k])
  {
    assert e in multiset(edges);
    PendingMembers(edges, pending, e);
    InFlatten(layers, e);
  }

  /** The depth of a ready edge is the number of the round. */
  lemma ReadyDepth(edges: seq<Edge>, pending: seq<bool>, layers: seq<seq<Edge>>, e: Edge)
    requires |edges| == |pending| && Sound(edges, pending, layers)
    requires Deep(edges, e.source, |layers|)
    requires forall i :: 0 <= i < |edges| && pending[i] ==> edges[i].target != e.source
    ensures LongestInto(edges, e.source, |layers|)
  {
    forall c | ChainInto(edges, c, e.source)
      ensures |c| <= |layers|
    {
      if c != [] {
        Shorten(edges, c, e.source);
        var x := c[|c| - 1];
        PlacedOrPending(edges, pending, layers, x);
        var k :| 0 <= k < |layers| && x in layers[k];
        var i :| 0 <= i < |layers[k]| && layers[k][i] == x;
        assert LongestInto(edges, x.source, k);
      }
    }
  }

  /** A pending edge that is not ready waits for a pending edge, so its source is one edge deeper. */
  lemma WaitingDepth(edges: seq<Edge>, pending: seq<bool>, layers: seq<seq<Edge>>, indeg: map<string, int>, i: nat)
    requires |edges| == |pending| && Sound(edges, pending, layers) && Counts(edges, pending, indeg)
    requires i < |edges| && Degree(indeg, edges[i].source) != 0
    ensures Deep(edges, edges[i].source, |layers| + 1)
    ensures exists j :: 0 <= j < |edges| && pending[j] && edges[j].target == edges[i].source
  {
    InDegreeZero(edges, pending, edges[i].source);
    var j :| 0 <= j < |edges| && pending[j] && edges[j].target == edges[i].source;
    assert Deep(edges, edges[j].source, |layers|);
    var c :| ChainInto(edges, c, edges[j].source) && |c| == |layers|;
    Extend(edges, c, edges[j]);
  }

  lemma MemberOfSort(s: seq<Edge>, e: Edge)
    ensures e in Sort(s) <==> e in s
  {
    assert e in s <==> e in multiset(s);
    assert e in Sort(s) <==> e in multiset(Sort(s));
  }

  ghost predicate Cleared(edges: seq<Edge>, pending: seq<bool>, layer: seq<Edge>, after: seq<bool>)
    requires |edges| == |pending| == |after|
  {
    && (forall i :: 0 <= i < |edges| ==> (after[i] <==> pending[i] && edges[i] !in layer))
    && multiset(Pending(edges, pending)) == multiset(Pending(edges, after)) + multiset(layer)
  }

  /** One round keeps everything established so far and adds one layer. */
  lemma Round(edges: seq<Edge>, pending: seq<bool>, layers: seq<seq<Edge>>, indeg: map<string, int>, layer: seq<Edge>,
              after: seq<bool>)
    requires |edges| == |pending| == |after| && DistinctIds(edges)
    requires Sound(edges, pending, layers) && Counts(edges, pending, indeg)
    requires layer == Sort(Ready(edges, pending, indeg, |edges|)) && layer != []
    requires Cleared(edges, pending, layer, after)
    ensures Sound(edges, after, layers + [layer])
  {
    hide *;
    RoundSplits(edges, pending, layers, layer, after);
    RoundSorts(edges, pending, layers, indeg, layer);
    RoundPlaces(edges, pending, layers, indeg, layer);
    RoundDeepens(edges, pending, layers, indeg, layer, after);
    Together(edges, after, layers + [layer]);
  }

  lemma Together(edges: seq<Edge>, pending: seq<bool>, layers: seq<seq<Edge>>)
    requires |edges| == |pending|
    requires Split(edges, pending, layers) && Sorted(layers) && Placed(edges, layers)
    requires AllDeep(edges, pending, |layers|)
    ensures Sound(edges, pending, layers)
  {
  }

  lemma RoundSplits(edges: seq<Edge>, pending: seq<bool>, layers: seq<seq<Edge>>, layer: seq<Edge>, after: seq<bool>)
    requires |edges| == |pending| == |after| && Sound(edges, pending, layers) && Cleared(edges, pending, layer, after)
    ensures Split(edges, after, layers + [layer])
  {
    hide Pending, Placed, Sorted, AllDeep;
    assert (layers + [layer])[..|layers|] == layers;
  }

  lemma RoundSorts(edges: seq<Edge>, pending: seq<bool>, layers: seq<seq<Edge>>, indeg: map<string, int>,
                   layer: seq<Edge>)
    requires |edges| == |pending| && DistinctIds(edges) && Sound(edges, pending, layers)
    requires layer == Sort(Ready(edges, pending, indeg, |edges|)) && layer != []
    ensures Sorted(layers + [layer])
  {
    ReadyDistinct(edges, pending, indeg, |edges|);
    SortSorted(Ready(edges, pending, indeg, |edges|));
    hide Ready, Sort, SortedById, Split, Placed, AllDeep;
  }

  lemma RoundPlaces(edges: seq<Edge>, pending: seq<bool>, layers: seq<seq<Edge>>, indeg: map<string, int>,
                    layer: seq<Edge>)
    requires |edges| == |pending| && Sound(edges, pending, layers) && Counts(edges, pending, indeg)
    requires layer == Sort(Ready(edges, pending, indeg, |edges|))
    ensures Placed(edges, layers + [layer])
  {
    hide Ready, Sort, LongestInto, Split, Sorted, Deep, InDegree, Degree;
    forall i | 0 <= i < |layer|
      ensures LongestInto(edges, layer[i].source, |layers|)
    {
      ReadyIsPlaced(edges, pending, layers, indeg, layer[i]);
    }
  }

  lemma ReadyIsPlaced(edges: seq<Edge>, pending: seq<bool>, layers: seq<seq<Edge>>, indeg: map<string, int>, e: Edge)
    requires |edges| == |pending| && Sound(edges, pending, layers) && Counts(edges, pending, indeg)
    requires e in Sort(Ready(edges, pending, indeg, |edges|))
    ensures LongestInto(edges, e.source, |layers|)
  {
    hide Ready, Sort, LongestInto, Split, Sorted, Deep, InDegree, Degree;
    MemberOfSort(Ready(edges, pending, indeg, |edges|), e);
    ReadyMembers(edges, pending, indeg, |edges|, e);
    InDegreeZero(edges, pending, e.source);
    ReadyDepth(edges, pending, layers, e);
  }

  lemma RoundDeepens(edges: seq<Edge>, pending: seq<bool>, layers: seq<seq<Edge>>, indeg: map<string, int>,
                     layer: seq<Edge>, after: seq<bool>)
    requires |edges| == |pending| == |after| && Sound(edges, pending, layers) && Counts(edges, pending, indeg)
    requires layer == Sort(Ready(edges, pending, indeg, |edges|)) && Cleared(edges, pending, layer, after)
    ensures AllDeep(edges, after, |layers + [layer]|)
  {
    hide Sound, Counts, Deep, Ready, Sort, Degree, Pending;
    forall i | 0 <= i < |edges| && after[i]
      ensures Deep(edges, edges[i].source, |layers| + 1)
    {
      MemberOfSort(Ready(edges, pending, indeg, |edges|), edges[i]);
      ReadyMembers(edges, pending, indeg, |edges|, edges[i]);
      WaitingDepth(edges, pending, layers, indeg, i);
    }
  }

  /** Without a ready edge, the pending edges are stuck. */
  lemma NothingReady(edges: seq<Edge>, pending: seq<bool>, layers: seq<seq<Edge>>, indeg: map<string, int>)
    requires |edges| == |pending| && DistinctIds(edges)
    requires Sound(edges, pending, layers) && Counts(edges, pending, indeg)
    requires Ready(edges, pending, indeg, |edges|) == [] && |Flatten(layers)| < |edges|
    ensures HasCycle(edges)
    ensures |edges| - |Flatten(layers)| == |Unordered(edges)|
  {
    var left := Pending(edges, pending);
    var rest := set e | e in left;
    SplitCounts(edges, pending, layers);
    hide Sound, Counts, Pending, Ready, DistinctIds, Stuck, HasCycle, Unordered, Flatten;
    PendingIsStuck(edges, pending, layers, indeg);
    StuckHasCycle(edges, rest);
    StuckIsAllUnordered(edges, pending, layers, rest);
    PendingDistinct(edges, pending);
    DistinctCount(left);
  }

  lemma SplitCounts(edges: seq<Edge>, pending: seq<bool>, layers: seq<seq<Edge>>)
    requires |edges| == |pending| && Sound(edges, pending, layers)
    ensures |edges| == |Flatten(layers)| + |Pending(edges, pending)|
  {
    hide Placed, Sorted, AllDeep, Pending, Flatten;
    assert |multiset(edges)| == |edges| && |multiset(Pending(edges, pending))| == |Pending(edges, pending)|;
    assert |multiset(Flatten(layers))| == |Flatten(layers)|;
  }

  lemma PendingIsStuck(edges: seq<Edge>, pending: seq<bool>, layers: seq<seq<Edge>>, indeg: map<string, int>)
    requires |edges| == |pending| && Sound(edges, pending, layers) && Counts(edges, pending, indeg)
    requires Ready(edges, pending, indeg, |edges|) == [] && Pending(edges, pending) != []
    ensures Stuck(edges, set e | e in Pending(edges, pending))
  {
    var rest := set e | e in Pending(edges, pending);
    hide Sound, Counts, Pending, Ready, Degree, Deep;
    assert Pending(edges, pending)[0] in rest;
    forall e | e in rest
      ensures e in edges && HasEarlier(rest, e)
    {
      PendingMembers(edges, pending, e);
      var i :| 0 <= i < |edges| && pending[i] && edges[i] == e;
      ReadyMembers(edges, pending, indeg, |edges|, e);
      WaitingDepth(edges, pending, layers, indeg, i);
      var j :| 0 <= j < |edges| && pending[j] && edges[j].target == e.source;
      PendingMembers(edges, pending, edges[j]);
    }
  }

  /** The edges no layering can place. */
  ghost function Unordered(edges: seq<Edge>): set<Edge> {
    set e | e in edges && !Ordered(edges, e)
  }

  lemma StuckIsAllUnordered(edges: seq<Edge>, pending: seq<bool>, layers: seq<seq<Edge>>, rest: set<Edge>)
    requires |edges| == |pending| && Sound(edges, pending, layers) && Stuck(edges, rest)
    requires forall e :: e in rest <==> e in Pending(edges, pending)
    ensures rest == Unordered(edges)
  {
    forall e | e in edges
      ensures e in rest <==> !Ordered(edges, e)
    {
      if e in rest {
        StuckIsUnordered(edges, rest, e);
      } else {
        PendingMembers(edges, pending, e);
        PlacedOrPending(edges, pending, layers, e);
        var k :| 0 <= k < |layers| && e in layers[k];
        var i :| 0 <= i < |layers[k]| && layers[k][i] == e;
        assert LongestInto(edges, e.source, k);
      }
    }
  }

  lemma {:induction false} PendingDistinct(edges: seq<Edge>, pending: seq<bool>)
    requires |edges| == |pending| && DistinctIds(edges)
    ensures DistinctIds(Pending(edges, pending))
  {
    if edges != [] {
      var n := |edges| - 1;
      PendingDistinct(edges[..n], pending[..n]);
      forall e | e in Pending(edges[..n], pending[..n])
        ensures e.id != edges[n].id
      {
        PendingMembers(edges[..n], pending[..n], e);
      }
    }
  }

  lemma {:induction false} DistinctCount(s: seq<Edge>)
    requires DistinctIds(s)
    ensures |set e | e in s| == |s|
  {
    if s != [] {
      var n := |s| - 1;
      DistinctCount(s[..n]);
      assert (set e | e in s) == (set e | e in s[..n]) + {s[n]};
      assert s[n] !in s[..n];
    }
  }

  /** The first pending edge with the given id, the number of edges if there is none. */
  method FindPending(edges: seq<Edge>, pending: array<bool>, id: string) returns (i: nat)
    requires pending.Length == |edges|
    ensures i <= |edges| && NoneBefore(edges, pending[..], id, i)
    ensures i < |edges| ==> pending[i] && edges[i].id == id
  {
    i := 0;
    while i < |edges| && !(pending[i] && edges[i].id == id)
      invariant 0 <= i <= |edges| && NoneBefore(edges, pending[..], id, i)
    {
      i := i + 1;
    }
  }

  ghost predicate NoneBefore(edges: seq<Edge>, pending: seq<bool>, id: string, i: nat)
    requires i <= |edges| == |pending|
  {
    forall j :: 0 <= j < i ==> !(pending[j] && edges[j].id == id)
  }

  /** Clears the pending flag of each edge of the layer, found by its id, and counts it out of its target. */
  method ClearLayer(edges: seq<Edge>, pending: array<bool>, layer: seq<Edge>, indeg: map<string, int>)
    returns (after: map<string, int>)
    requires pending.Length == |edges|
    modifies pending
    ensures DistinctIds(edges) && DistinctIds(layer) && Counts(edges, old(pending[..]), indeg)
         && (forall e :: e in layer ==> e in Pending(edges, old(pending[..])))
        ==> Counts(edges, pending[..], after) && Cleared(edges, old(pending[..]), layer, pending[..])
  {
    ghost var before := pending[..];
    ghost var sound := DistinctIds(edges) && DistinctIds(layer) && Counts(edges, before, indeg)
                       && forall e :: e in layer ==> e in Pending(edges, before);
    hide *;
    after := indeg;
    ClearedNone(edges, before);
    assert layer[..0] == [];
    for k := 0 to |layer|
      invariant sound ==> Counts(edges, pending[..], after) && Cleared(edges, before, layer[..k], pending[..])
    {
      var e := layer[k];
      ghost var now := pending[..];
      var i := FindPending(edges, pending, e.id);
      if sound {
        FoundAt(edges, before, layer, k, now, i);
        ClearedMore(edges, before, layer, k, now, i, after);
      }
      if i < |edges| {
        pending[i] := false;
        assert pending[..] == now[i := false];
      }
      after := after[e.target := Degree(after, e.target) - 1];
    }
    assert layer[..|layer|] == layer;
  }

  lemma ClearedNone(edges: seq<Edge>, pending: seq<bool>)
    requires |edges| == |pending|
    ensures Cleared(edges, pending, [], pending)
  {
  }

  lemma FoundAt(edges: seq<Edge>, before: seq<bool>, layer: seq<Edge>, k: nat, now: seq<bool>, i: nat)
    requires |edges| == |before| == |now| && i <= |edges| && k < |layer|
    requires DistinctIds(edges) && DistinctIds(layer) && layer[k] in Pending(edges, before)
    requires Cleared(edges, before, layer[..k], now)
    requires NoneBefore(edges, now, layer[k].id, i)
    requires i < |edges| ==> now[i] && edges[i].id == layer[k].id
    ensures i < |edges| && edges[i] == layer[k] && now[i]
  {
    PendingMembers(edges, before, layer[k]);
    var j :| 0 <= j < |edges| && before[j] && edges[j] == layer[k];
    assert layer[k] !in layer[..k];
    assert now[j];
  }

  lemma ClearedMore(edges: seq<Edge>, before: seq<bool>, layer: seq<Edge>, k: nat, now: seq<bool>, i: nat,
                    indeg: map<string, int>)
    requires |edges| == |before| == |now| && i < |edges| && k < |layer|
    requires DistinctIds(edges) && Cleared(edges, before, layer[..k], now) && Counts(edges, now, indeg)
    requires edges[i] == layer[k] && now[i]
    ensures Cleared(edges, before, layer[..k + 1], now[i := false])
    ensures Counts(edges, now[i := false], indeg[layer[k].target := Degree(indeg, layer[k].target) - 1])
  {
    PendingClearOne(edges, now, i);
    assert layer[..k + 1] == layer[..k] + [layer[k]];
    var e := layer[k];
    var after := indeg[e.target := Degree(indeg, e.target) - 1];
    forall v
      ensures Degree(after, v) == InDegree(edges, now[i := false], v)
    {
      ClearOne(edges, now, i, v);
      assert Degree(indeg, v) == InDegree(edges, now, v);
    }
  }

  /** topoLayers. It ends for every input. With distinct ids it succeeds exactly when the board has no cycle,
      with a layering of all its edges; otherwise it reports how many edges no layering can place. */
  method TopoLayers(nodes: seq<string>, edges: seq<Edge>) returns (r: Layering)
    ensures DistinctIds(edges) ==> (r.CycleDetected? <==> HasCycle(edges))
    ensures DistinctIds(edges) && r.Layers? ==> IsLayering(edges, r.layers)
    ensures DistinctIds(edges) && r.CycleDetected? ==> r.left == |Unordered(edges)|
  {
    var indeg := CountEdges(nodes, edges);
    var pending := new bool[|edges|](i => true);
    assert pending[..] == Ones(|edges|);
    NoRoundsYet(edges);
    hide *;
    var layers: seq<seq<Edge>> := [];
    var processed := 0;
    while processed < |edges|
      invariant processed == |Flatten(layers)|
      invariant DistinctIds(edges) ==> Sound(edges, pending[..], layers) && Counts(edges, pending[..], indeg)
      decreases |edges| - processed
    {
      var layer := CollectReady(edges, pending, indeg);
      if layer == [] {
        if DistinctIds(edges) {
          NothingReady(edges, pending[..], layers, indeg);
        }
        return CycleDetected(|edges| - processed);
      }
      ghost var before, ready, counted := pending[..], layer, indeg;
      layer := Sort(layer);
      indeg := ClearLayer(edges, pending, layer, indeg);
      if DistinctIds(edges) {
        ReadyToClear(edges, before, counted, ready);
        Round(edges, before, layers, counted, layer, pending[..]);
      }
      FlattenMore(layers, layer);
      layers := layers + [layer];
      processed := processed + |layer|;
    }
    if DistinctIds(edges) {
      Complete(edges, pending[..], layers);
    }
    return Layers(layers);
  }

  /** The inner loop that gathers one layer. */
  method CollectReady(edges: seq<Edge>, pending: array<bool>, indeg: map<string, int>) returns (layer: seq<Edge>)
    requires pending.Length == |edges|
    ensures layer == Ready(edges, pending[..], indeg, |edges|)
  {
    layer := [];
    for i := 0 to |edges|
      invariant layer == Ready(edges, pending[..], indeg, i)
    {
      if pending[i] {
        if Degree(indeg, edges[i].source) == 0 {
          layer := layer + [edges[i]];
        }
      }
    }
  }

  lemma FlattenMore(layers: seq<seq<Edge>>, layer: seq<Edge>)
    ensures |Flatten(layers + [layer])| == |Flatten(layers)| + |layer|
  {
    assert (layers + [layer])[..|layers|] == layers;
  }

  lemma NoRoundsYet(edges: seq<Edge>)
    ensures Sound(edges, Ones(|edges|), []) && |Flatten([])| == 0
  {
    AllPending(edges);
    forall i | 0 <= i < |edges|
      ensures Deep(edges, edges[i].source, 0)
    {
      assert ChainInto(edges, [], edges[i].source);
    }
  }

  lemma ReadyToClear(edges: seq<Edge>, pending: seq<bool>, indeg: map<string, int>, ready: seq<Edge>)
    requires |edges| == |pending| && DistinctIds(edges)
    requires ready == Ready(edges, pending, indeg, |edges|)
    ensures DistinctIds(Sort(ready)) && forall e :: e in Sort(ready) ==> e in Pending(edges, pending)
  {
    ReadyDistinct(edges, pending, indeg, |edges|);
    SortSorted(ready);
    forall i, j | 0 <= i < j < |Sort(ready)|
      ensures Sort(ready)[i].id != Sort(ready)[j].id
    {
      LessTotal(Sort(ready)[i].id, Sort(ready)[j].id);
    }
    forall e | e in Sort(ready)
      ensures e in Pending(edges, pending)
    {
      MemberOfSort(ready, e);
      ReadyMembers(edges, pending, indeg, |edges|, e);
      PendingMembers(edges, pending, e);
    }
  }

  lemma Complete(edges: seq<Edge>, pending: seq<bool>, layers: seq<seq<Edge>>)
    requires |edges| == |pending| && Sound(edges, pending, layers) && |Flatten(layers)| >= |edges|
    ensures IsLayering(edges, layers) && !HasCycle(edges)
  {
    SplitCounts(edges, pending, layers);
    assert Pending(edges, pending) == [];
    assert multiset(Flatten(layers)) == multiset(edges);
    hide LongestInto, SortedById, Flatten, Pending, AllDeep;
    assert IsLayering(edges, layers);
    LayeringIsAcyclic(edges, layers);
  }
}
