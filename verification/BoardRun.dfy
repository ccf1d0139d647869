/** runBoard: edges one at a time, layer by layer, until an error stops the run or all have been tried. */
module BoardRun {
  import opened BoardGraph
  import opened BoardTopo

  datatype Attempt = Attempt(edge: Edge, ok: bool)

  datatype Outcome =
    | Completed
    | CompletedWithErrors
    | Stopped(edge: Edge)
    | Cancelled
    | MissingNode(edge: Edge)
    | Cyclic(left: nat)

  function Edges(trace: seq<Attempt>): (s: seq<Edge>)
    ensures |s| == |trace| && forall i :: 0 <= i < |s| ==> s[i] == trace[i].edge
  {
    seq(|trace|, i requires 0 <= i < |trace| => trace[i].edge)
  }

  ghost predicate AllOk(trace: seq<Attempt>) {
    forall i :: 0 <= i < |trace| ==> trace[i].ok
  }

  predicate Known(nodes: seq<string>, e: Edge) {
    e.source in nodes && e.target in nodes
  }

  /** What the trace of a run says, given the order of the edges: they are tried in that order, each at most
      once, with the outcome of its own attempt; and the result tells how the run ended. */
  ghost predicate Explains(nodes: seq<string>, order: seq<Edge>, stopOnError: bool, cancelled: nat -> bool,
                           succeeds: nat -> bool, trace: seq<Attempt>, result: Outcome)
  {
    && Edges(trace) <= order
    && (forall i :: 0 <= i < |trace| ==>
          && trace[i].ok == succeeds(i) && !cancelled(i)
          && trace[i].edge.source in nodes && trace[i].edge.target in nodes)
    && (stopOnError ==> forall i :: 0 <= i < |trace| - 1 ==> trace[i].ok)
    && match result
       case Completed => Edges(trace) == order && AllOk(trace)
       case CompletedWithErrors => Edges(trace) == order && !AllOk(trace) && !stopOnError
       case Stopped(e) => stopOnError && trace != [] && !trace[|trace| - 1].ok && e == trace[|trace| - 1].edge
       case Cancelled => |trace| < |order| && cancelled(|trace|) && (stopOnError ==> AllOk(trace))
       case MissingNode(e) =>
         && |trace| < |order| && e == order[|trace|] && (e.source !in nodes || e.target !in nodes)
         && !cancelled(|trace|) && (stopOnError ==> AllOk(trace))
       case Cyclic(_) => false
  }

  /** The state between two edges: `tried` edges in order, so far without a reason to stop. */
  ghost predicate Running(nodes: seq<string>, order: seq<Edge>, stopOnError: bool, cancelled: nat -> bool,
                          succeeds: nat -> bool, trace: seq<Attempt>, failed: bool)
  {
    && Edges(trace) <= order
    && (forall i :: 0 <= i < |trace| ==> trace[i].ok == succeeds(i) && Known(nodes, trace[i].edge) && !cancelled(i))
    && (failed <==> !AllOk(trace))
    && (stopOnError ==> !failed)
  }

  lemma TryOne(nodes: seq<string>, order: seq<Edge>, stopOnError: bool, cancelled: nat -> bool, succeeds: nat -> bool,
               trace: seq<Attempt>, failed: bool)
    requires Running(nodes, order, stopOnError, cancelled, succeeds, trace, failed) && |trace| < |order|
    ensures cancelled(|trace|) ==> Explains(nodes, order, stopOnError, cancelled, succeeds, trace, Cancelled)
    ensures var e, ok := order[|trace|], succeeds(|trace|);
            var more := trace + [Attempt(e, ok)];
            && (!cancelled(|trace|) && !Known(nodes, e) ==>
                  Explains(nodes, order, stopOnError, cancelled, succeeds, trace, MissingNode(e)))
            && (!cancelled(|trace|) && Known(nodes, e) && stopOnError && !ok ==>
                  Explains(nodes, order, stopOnError, cancelled, succeeds, more, Stopped(e)))
            && (!cancelled(|trace|) && Known(nodes, e) && (ok || !stopOnError) ==>
                  && Running(nodes, order, stopOnError, cancelled, succeeds, more, failed || !ok)
                  && Edges(more) == Edges(trace) + [e])
  {
    var e, ok := order[|trace|], succeeds(|trace|);
    var more := trace + [Attempt(e, ok)];
    assert Edges(more) == Edges(trace) + [e];
    assert order[..|trace|] == Edges(trace);
    assert order[..|more|] == Edges(more);
    if !ok {
      assert !more[|trace|].ok;
    }
    assert forall i :: 0 <= i < |trace| ==> more[i] == trace[i];
    if !AllOk(trace) {
      var i :| 0 <= i < |trace| && !trace[i].ok;
      assert !more[i].ok;
    }
  }

  /** runBoard. `cancelled(i)` is the token's state and `succeeds(i)` the transfer's outcome at the i-th edge. */
  method RunBoard(nodes: seq<string>, edges: seq<Edge>, stopOnError: bool, cancelled: nat -> bool,
                  succeeds: nat -> bool)
    returns (trace: seq<Attempt>, result: Outcome, ghost layers: seq<seq<Edge>>)
    ensures DistinctIds(edges) ==> (result.Cyclic? <==> HasCycle(edges))
    ensures result.Cyclic? ==> trace == []
    ensures DistinctIds(edges) && !result.Cyclic? ==> IsLayering(edges, layers)
    ensures !result.Cyclic? ==> Explains(nodes, Flatten(layers), stopOnError, cancelled, succeeds, trace, result)
  {
    trace := [];
    var topo := TopoLayers(nodes, edges);
    if topo.CycleDetected? {
      return [], Cyclic(topo.left), [];
    }
    layers := topo.layers;
    ghost var order := Flatten(layers);
    var failed := false;
    assert layers[..0] == [];
    assert layers[..|layers|] == layers;
    hide *;
    NothingTried(nodes, order, stopOnError, cancelled, succeeds);
    for k := 0 to |topo.layers|
      invariant Edges(trace) == Flatten(layers[..k])
      invariant Running(nodes, order, stopOnError, cancelled, succeeds, trace, failed)
    {
      NextLayer(layers, k);
      FlattenPrefix(layers, k + 1);
      var end: Progress;
      trace, failed, end := RunLayer(nodes, order, topo.layers[k], stopOnError, cancelled, succeeds, trace, failed);
      if end.Ended? {
        result := end.outcome;
        return;
      }
    }
    AllTried(nodes, order, stopOnError, cancelled, succeeds, trace, failed);
    result := if failed then CompletedWithErrors else Completed;
  }

  datatype Progress = Going | Ended(outcome: Outcome)

  /** The inner loop over the edges of one layer. */
  method RunLayer(nodes: seq<string>, ghost order: seq<Edge>, layer: seq<Edge>, stopOnError: bool,
                  cancelled: nat -> bool, succeeds: nat -> bool, tried: seq<Attempt>, failedBefore: bool)
    returns (trace: seq<Attempt>, failed: bool, end: Progress)
    requires Running(nodes, order, stopOnError, cancelled, succeeds, tried, failedBefore)
    requires Edges(tried) + layer <= order
    ensures end.Ended? ==>
      !end.outcome.Cyclic? && Explains(nodes, order, stopOnError, cancelled, succeeds, trace, end.outcome)
    ensures end.Going? ==>
      && Edges(trace) == Edges(tried) + layer
      && Running(nodes, order, stopOnError, cancelled, succeeds, trace, failed)
  {
    hide *;
    trace, failed := tried, failedBefore;
    assert layer[..0] == [];
    for i := 0 to |layer|
      invariant Edges(trace) == Edges(tried) + layer[..i]
      invariant Running(nodes, order, stopOnError, cancelled, succeeds, trace, failed)
    {
      InOrder(order, Edges(tried), layer, i);
      TryOne(nodes, order, stopOnError, cancelled, succeeds, trace, failed);
      if cancelled(|trace|) {
        return trace, failed, Ended(Cancelled);
      }
      var edge := layer[i];
      if !Known(nodes, edge) {
        return trace, failed, Ended(MissingNode(edge));
      }
      var ok := succeeds(|trace|);
      trace := trace + [Attempt(edge, ok)];
      if !ok {
        if stopOnError {
          return trace, failed, Ended(Stopped(edge));
        }
        failed := true;
      }
    }
    assert layer[..|layer|] == layer;
    end := Going;
  }

  lemma InOrder(order: seq<Edge>, done: seq<Edge>, layer: seq<Edge>, i: nat)
    requires done + layer <= order && i < |layer|
    ensures |done| + i < |order| && order[|done| + i] == layer[i] && layer[..i + 1] == layer[..i] + [layer[i]]
  {
    assert (done + layer)[|done| + i] == layer[i];
  }

  lemma NothingTried(nodes: seq<string>, order: seq<Edge>, stopOnError: bool, cancelled: nat -> bool,
                     succeeds: nat -> bool)
    ensures Running(nodes, order, stopOnError, cancelled, succeeds, [], false) && Edges([]) == Flatten([])
  {
  }

  lemma AllTried(nodes: seq<string>, order: seq<Edge>, stopOnError: bool, cancelled: nat -> bool, succeeds: nat -> bool,
                 trace: seq<Attempt>, failed: bool)
    requires Running(nodes, order, stopOnError, cancelled, succeeds, trace, failed) && Edges(trace) == order
    ensures Explains(nodes, order, stopOnError, cancelled, succeeds, trace,
                     if failed then CompletedWithErrors else Completed)
  {
  }

  lemma NextLayer(layers: seq<seq<Edge>>, k: nat)
    requires k < |layers|
    ensures Flatten(layers[..k + 1]) == Flatten(layers[..k]) + layers[k]
  {
    assert layers[..k + 1][..k] == layers[..k];
  }

  lemma {:induction false} FlattenPrefix(layers: seq<seq<Edge>>, k: nat)
    requires k <= |layers|
    ensures Flatten(layers[..k]) <= Flatten(layers)
    decreases |layers| - k
  {
    if k == |layers| {
      assert layers[..k] == layers;
    } else {
      FlattenPrefix(layers, k + 1);
      NextLayer(layers, k);
    }
  }

  // ---- what the order guarantees ---------------------------------------------------------------

  /** x must be transferred before e: a chain starting with x leads into e's source. */
  ghost predicate Upstream(edges: seq<Edge>, x: Edge, e: Edge) {
    exists c :: c != [] && c[0] == x && ChainInto(edges, c, e.source)
  }

  lemma UpstreamIsEarlier(edges: seq<Edge>, layers: seq<seq<Edge>>, x: Edge, e: Edge, j: nat, k: nat)
    requires IsLayering(edges, layers) && Upstream(edges, x, e)
    requires j < |layers| && k < |layers| && x in layers[j] && e in layers[k]
    ensures j < k
  {
    var c :| c != [] && c[0] == x && ChainInto(edges, c, e.source);
    var i :| 0 <= i < |layers[j]| && layers[j][i] == x;
    var n :| 0 <= n < |layers[k]| && layers[k][n] == e;
    assert LongestInto(edges, x.source, j) && LongestInto(edges, e.source, k);
    var d :| ChainInto(edges, d, x.source) && |d| == j;
    Join(edges, d, c, e.source);
  }

  lemma {:induction false} PositionInFlatten(layers: seq<seq<Edge>>, n: nat) returns (k: nat, i: nat)
    requires n < |Flatten(layers)|
    ensures k < |layers| && i < |layers[k]| && layers[k][i] == Flatten(layers)[n] && n == |Flatten(layers[..k])| + i
  {
    var m := |layers| - 1;
    if n < |Flatten(layers[..m])| {
      k, i := PositionInFlatten(layers[..m], n);
      assert layers[..m][..k] == layers[..k];
    } else {
      k, i := m, n - |Flatten(layers[..m])|;
    }
  }

  lemma {:induction false} EarlierLayersFirst(layers: seq<seq<Edge>>, j: nat, k: nat)
    requires j <= k <= |layers|
    ensures Flatten(layers[..j]) <= Flatten(layers[..k])
  {
    FlattenPrefix(layers[..k], j);
    assert layers[..k][..j] == layers[..j];
  }

  /** Everything upstream of the n-th edge of the order comes before it. */
  lemma UpstreamComesFirst(edges: seq<Edge>, layers: seq<seq<Edge>>, n: nat, x: Edge)
    requires IsLayering(edges, layers) && n < |Flatten(layers)| && x in edges
    requires Upstream(edges, x, Flatten(layers)[n])
    ensures x in Flatten(layers)[..n]
  {
    hide IsLayering, Upstream, Flatten, ChainInto;
    var k, i := PositionInFlatten(layers, n);
    LayersHoldEdges(edges, layers, x);
    var j :| 0 <= j < |layers| && x in layers[j];
    UpstreamIsEarlier(edges, layers, x, layers[k][i], j, k);
    NextLayer(layers, j);
    EarlierLayersFirst(layers, j + 1, k);
    EarlierLayersFirst(layers, k, |layers|);
    assert layers[..|layers|] == layers;
    assert x in Flatten(layers[..j + 1]);
    assert Flatten(layers[..k]) <= Flatten(layers)[..n];
  }

  /** With stopOnError no edge is started after the first failure, whatever is upstream of it: a failed attempt is
      the last one and ends the run. */
  lemma NoneAfterFailure(nodes: seq<string>, order: seq<Edge>, cancelled: nat -> bool, succeeds: nat -> bool,
                         trace: seq<Attempt>, result: Outcome, m: nat)
    requires Explains(nodes, order, true, cancelled, succeeds, trace, result) && m < |trace|
    ensures !trace[m].ok <==> m == |trace| - 1 && result == Stopped(trace[m].edge)
  {
  }

  /** With stopOnError an edge is started only after every edge upstream of it has succeeded. */
  lemma StartsAfterUpstream(nodes: seq<string>, edges: seq<Edge>, layers: seq<seq<Edge>>, cancelled: nat -> bool,
                            succeeds: nat -> bool, trace: seq<Attempt>, result: Outcome, n: nat, x: Edge)
    requires IsLayering(edges, layers) && x in edges
    requires Explains(nodes, Flatten(layers), true, cancelled, succeeds, trace, result)
    requires n < |trace| && Upstream(edges, x, trace[n].edge)
    ensures exists m :: 0 <= m < n && trace[m] == Attempt(x, true)
  {
    hide IsLayering, Upstream, Flatten;
    assert Flatten(layers)[n] == Edges(trace)[n];
    UpstreamComesFirst(edges, layers, n, x);
    var m :| 0 <= m < n && Flatten(layers)[..n][m] == x;
    assert Edges(trace)[m] == Flatten(layers)[m] == x;
    NoneAfterFailure(nodes, Flatten(layers), cancelled, succeeds, trace, result, m);
  }

  /** Without stopOnError, an uncancelled run over known nodes tries each edge exactly once and ends with an
      error exactly when some edge failed. */
  lemma TriesEverything(nodes: seq<string>, edges: seq<Edge>, layers: seq<seq<Edge>>, cancelled: nat -> bool,
                        succeeds: nat -> bool, trace: seq<Attempt>, result: Outcome)
    requires IsLayering(edges, layers)
    requires Explains(nodes, Flatten(layers), false, cancelled, succeeds, trace, result)
    requires forall i: nat :: !cancelled(i)
    requires forall e :: e in edges ==> e.source in nodes && e.target in nodes
    ensures multiset(Edges(trace)) == multiset(edges)
    ensures result == if AllOk(trace) then Completed else CompletedWithErrors
  {
    NoneMissing(nodes, edges, Flatten(layers));
    hide IsLayering, Flatten;
    AllTriedUnless(nodes, Flatten(layers), cancelled, succeeds, trace, result);
    hide Explains, Edges;
  }

  /** Nothing ends a run without stopOnError early but a cancellation or a missing node. */
  lemma AllTriedUnless(nodes: seq<string>, order: seq<Edge>, cancelled: nat -> bool, succeeds: nat -> bool,
                       trace: seq<Attempt>, result: Outcome)
    requires Explains(nodes, order, false, cancelled, succeeds, trace, result)
    ensures result.Cancelled? ==> cancelled(|trace|)
    ensures result.MissingNode? ==>
              result.edge in order && (result.edge.source !in nodes || result.edge.target !in nodes)
    ensures !result.Cancelled? && !result.MissingNode? ==>
              Edges(trace) == order && result == if AllOk(trace) then Completed else CompletedWithErrors
  {
    hide Edges, AllOk;
  }

  lemma NoneMissing(nodes: seq<string>, edges: seq<Edge>, order: seq<Edge>)
    requires multiset(order) == multiset(edges)
    requires forall e :: e in edges ==> e.source in nodes && e.target in nodes
    ensures forall e :: e in order ==> e.source in nodes && e.target in nodes
  {
    SameMembers(order, edges);
  }

  /** No run tries an edge twice. */
  lemma TriedOnce(nodes: seq<string>, edges: seq<Edge>, layers: seq<seq<Edge>>, stopOnError: bool,
                  cancelled: nat -> bool, succeeds: nat -> bool, trace: seq<Attempt>, result: Outcome, i: nat, j: nat)
    requires DistinctIds(edges) && IsLayering(edges, layers)
    requires Explains(nodes, Flatten(layers), stopOnError, cancelled, succeeds, trace, result)
    requires i < j < |trace|
    ensures trace[i].edge != trace[j].edge
  {
    hide Known, AllOk;
    var order := Flatten(layers);
    assert order[i] == Edges(trace)[i] && order[j] == Edges(trace)[j];
    OnceInDistinct(edges, order[i]);
    assert multiset(order)[order[i]] == multiset(edges)[order[i]];
    OnceInSequence(order, i, j);
  }

  lemma OnceInSequence(s: seq<Edge>, i: nat, j: nat)
    requires i < j < |s| && multiset(s)[s[i]] <= 1
    ensures s[i] != s[j]
  {
    assert s == s[..i] + [s[i]] + s[i + 1..j] + [s[j]] + s[j + 1..];
  }

  lemma {:induction false} OnceInDistinct(s: seq<Edge>, e: Edge)
    requires DistinctIds(s)
    ensures multiset(s)[e] <= 1
  {
    if s != [] {
      var n := |s| - 1;
      OnceInDistinct(s[..n], e);
      assert s == s[..n] + [s[n]];
      if s[n] == e {
        assert e !in s[..n];
      }
    }
  }
}
