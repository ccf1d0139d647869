/** The edges of a board, chains of edges, and what it means to put edges into topological layers. */
module BoardGraph {
  datatype Edge = Edge(id: string, source: string, target: string, action: string)

  ghost predicate DistinctIds(edges: seq<Edge>) {
    forall i, j :: 0 <= i < j < |edges| ==> edges[i].id != edges[j].id
  }

  // ---- chains ----------------------------------------------------------------------------------

  /** Edges one after another, the last one ending at v. */
  ghost predicate ChainInto(edges: seq<Edge>, c: seq<Edge>, v: string) {
    && (forall i :: 0 <= i < |c| ==> c[i] in edges)
    && (forall i, j :: 0 <= i < j < |c| && j == i + 1 ==> c[i].target == c[j].source)
    && (c != [] ==> c[|c| - 1].target == v)
  }

  /** The longest chain into v has exactly k edges. */
  ghost predicate LongestInto(edges: seq<Edge>, v: string, k: nat) {
    && (exists c :: ChainInto(edges, c, v) && |c| == k)
    && (forall c :: ChainInto(edges, c, v) ==> |c| <= k)
  }

  /** A closed chain; one edge from a node to itself is the shortest. */
  ghost predicate HasCycle(edges: seq<Edge>) {
    exists c :: IsCycle(edges, c)
  }

  ghost predicate IsCycle(edges: seq<Edge>, c: seq<Edge>) {
    c != [] && ChainInto(edges, c, c[0].source)
  }

  lemma Single(edges: seq<Edge>, e: Edge)
    requires e in edges
    ensures ChainInto(edges, [e], e.target)
  {
  }

  lemma Extend(edges: seq<Edge>, c: seq<Edge>, e: Edge)
    requires ChainInto(edges, c, e.source) && e in edges
    ensures ChainInto(edges, c + [e], e.target)
  {
  }

  lemma Shorten(edges: seq<Edge>, c: seq<Edge>, v: string)
    requires ChainInto(edges, c, v) && c != []
    ensures var e := c[|c| - 1]; e in edges && e.target == v && ChainInto(edges, c[..|c| - 1], e.source)
  {
  }

  lemma Join(edges: seq<Edge>, a: seq<Edge>, b: seq<Edge>, v: string)
    requires b != [] && ChainInto(edges, a, b[0].source) && ChainInto(edges, b, v)
    ensures ChainInto(edges, a + b, v)
  {
  }

  /** A cycle can be walked round any number of times. */
  lemma {:induction false} Rounds(edges: seq<Edge>, cycle: seq<Edge>, n: nat) returns (c: seq<Edge>)
    requires IsCycle(edges, cycle)
    ensures ChainInto(edges, c, cycle[0].source) && |c| >= n
  {
    if n == 0 {
      c := [];
    } else {
      var d := Rounds(edges, cycle, n - 1);
      Join(edges, d, cycle, cycle[0].source);
      c := d + cycle;
    }
  }

  /** A node on a cycle has no longest chain. */
  lemma CycleHasNoDepth(edges: seq<Edge>, cycle: seq<Edge>, k: nat)
    requires IsCycle(edges, cycle)
    ensures !LongestInto(edges, cycle[0].source, k)
  {
    var c := Rounds(edges, cycle, k + 1);
  }

  // ---- a set of edges nobody can leave backwards -----------------------------------------------

  ghost predicate HasEarlier(rest: set<Edge>, e: Edge) {
    exists x :: x in rest && x.target == e.source
  }

  lemma Earlier(rest: set<Edge>, e: Edge) returns (x: Edge)
    requires HasEarlier(rest, e)
    ensures x in rest && x.target == e.source
  {
    x :| x in rest && x.target == e.source;
  }

  ghost predicate Stuck(edges: seq<Edge>, rest: set<Edge>) {
    && rest != {}
    && (forall e :: e in rest ==> e in edges)
    && (forall e :: e in rest ==> HasEarlier(rest, e))
  }

  /** Walking backwards inside a stuck set goes on for as long as one likes. */
  lemma {:induction false} BackwardWalk(edges: seq<Edge>, rest: set<Edge>, n: nat) returns (c: seq<Edge>)
    requires Stuck(edges, rest) && n > 0
    ensures |c| == n && ChainInto(edges, c, c[n - 1].target) && forall i :: 0 <= i < n ==> c[i] in rest
  {
    hide ChainInto, HasEarlier;
    if n == 1 {
      var e :| e in rest;
      Single(edges, e);
      c := [e];
    } else {
      var d := BackwardWalk(edges, rest, n - 1);
      var x := Earlier(rest, d[0]);
      c := [x] + d;
      Single(edges, x);
      Join(edges, [x], d, d[n - 2].target);
    }
  }

  /** A sequence longer than the set it draws from repeats an element. */
  lemma {:induction false} Pigeonhole(c: seq<Edge>, rest: set<Edge>) returns (i: nat, j: nat)
    requires |c| > |rest| && forall k :: 0 <= k < |c| ==> c[k] in rest
    ensures i < j < |c| && c[i] == c[j]
    decreases |c|
  {
    var n := |c| - 1;
    if k :| 0 <= k < n && c[k] == c[n] {
      i, j := k, n;
    } else {
      assert forall k :: 0 <= k < n ==> c[..n][k] in rest - {c[n]};
      i, j := Pigeonhole(c[..n], rest - {c[n]});
    }
  }

  /** So a stuck set contains a cycle. */
  lemma StuckHasCycle(edges: seq<Edge>, rest: set<Edge>)
    requires Stuck(edges, rest)
    ensures HasCycle(edges)
  {
    hide Stuck;
    var c := BackwardWalk(edges, rest, |rest| + 1);
    var i, j := Pigeonhole(c, rest);
    var cycle := c[i..j];
    assert c[j - 1].target == c[j].source;
    assert ChainInto(edges, cycle, c[j].source);
    assert IsCycle(edges, cycle);
  }

  /** Every edge of a stuck set has chains of any length leading into it. */
  lemma {:induction false} StuckIsDeep(edges: seq<Edge>, rest: set<Edge>, e: Edge, n: nat)
    requires Stuck(edges, rest) && e in rest
    ensures exists c :: ChainInto(edges, c, e.source) && |c| == n
    decreases n
  {
    if n == 0 {
      assert ChainInto(edges, [], e.source);
    } else {
      var x := Earlier(rest, e);
      StuckIsDeep(edges, rest, x, n - 1);
      var c :| ChainInto(edges, c, x.source) && |c| == n - 1;
      Extend(edges, c, x);
    }
  }

  /** An edge with a layer: the chains into its source are bounded. */
  ghost predicate Ordered(edges: seq<Edge>, e: Edge) {
    exists k: nat :: LongestInto(edges, e.source, k)
  }

  lemma StuckIsUnordered(edges: seq<Edge>, rest: set<Edge>, e: Edge)
    requires Stuck(edges, rest) && e in rest
    ensures !Ordered(edges, e)
  {
    if k: nat :| LongestInto(edges, e.source, k) {
      StuckIsDeep(edges, rest, e, k + 1);
    }
  }

  // ---- order of ids ----------------------------------------------------------------------------

  /** Lexicographic order of strings by character. */
  predicate Less(a: string, b: string) {
    b != "" && (a == "" || a[0] < b[0] || (a[0] == b[0] && Less(a[1..], b[1..])))
  }

  lemma {:induction false} LessTotal(a: string, b: string)
    ensures Less(a, b) || a == b || Less(b, a)
    ensures !(Less(a, b) && Less(b, a)) && !Less(a, a)
  {
    if a != "" && b != "" {
      LessTotal(a[1..], b[1..]);
      if a[0] == b[0] && a[1..] == b[1..] {
        assert a == [a[0]] + a[1..] && b == [b[0]] + b[1..];
      }
    }
    if a != "" {
      LessTotal(a[1..], a[1..]);
    }
  }

  /** One text is a proper prefix of the other, or has the smaller character where they first differ. */
  ghost predicate Before(a: string, b: string, k: nat) {
    && k <= |a| && k < |b| && a[..k] == b[..k]
    && (k == |a| || a[k] < b[k])
  }

  lemma {:induction false} LessSpelled(a: string, b: string)
    ensures Less(a, b) <==> exists k: nat :: Before(a, b, k)
  {
    if Less(a, b) {
      if a == "" || a[0] < b[0] {
        assert Before(a, b, 0);
      } else {
        LessSpelled(a[1..], b[1..]);
        var k: nat :| Before(a[1..], b[1..], k);
        assert a[..k + 1] == [a[0]] + a[1..][..k] && b[..k + 1] == [b[0]] + b[1..][..k];
        assert Before(a, b, k + 1);
      }
    }
    forall k: nat | Before(a, b, k)
      ensures Less(a, b)
    {
      if k > 0 {
        LessSpelled(a[1..], b[1..]);
        assert a[0] == a[..k][0] && b[0] == b[..k][0];
        assert a[1..][..k - 1] == a[..k][1..] && b[1..][..k - 1] == b[..k][1..];
        assert Before(a[1..], b[1..], k - 1);
      }
    }
  }

  lemma {:induction false} LessTransitive(a: string, b: string, c: string)
    requires Less(a, b) && Less(b, c)
    ensures Less(a, c)
  {
    if a != "" && a[0] == b[0] == c[0] {
      LessTransitive(a[1..], b[1..], c[1..]);
    }
  }

  ghost predicate SortedById(s: seq<Edge>) {
    forall i, j :: 0 <= i < j < |s| ==> Less(s[i].id, s[j].id)
  }

  // ---- layers ----------------------------------------------------------------------------------

  function Flatten(layers: seq<seq<Edge>>): seq<Edge> {
    if layers == [] then [] else Flatten(layers[..|layers| - 1]) + layers[|layers| - 1]
  }

  /** Every edge occurs exactly once, each layer is non-empty and sorted by id, and the number of an edge's
      layer is the length of the longest chain of edges into its source. */
  ghost predicate IsLayering(edges: seq<Edge>, layers: seq<seq<Edge>>) {
    && multiset(Flatten(layers)) == multiset(edges)
    && (forall k :: 0 <= k < |layers| ==> layers[k] != [] && SortedById(layers[k]))
    && (forall k, i :: 0 <= k < |layers| && 0 <= i < |layers[k]| ==> LongestInto(edges, layers[k][i].source, k))
  }

  lemma {:induction false} InFlatten(layers: seq<seq<Edge>>, e: Edge)
    ensures e in Flatten(layers) <==> exists k :: 0 <= k < |layers| && e in layers[k]
  {
    if layers != [] {
      var n := |layers| - 1;
      InFlatten(layers[..n], e);
      if k :| 0 <= k < n && e in layers[k] {
        assert e in layers[..n][k];
      }
    }
  }

  lemma LayersHoldEdges(edges: seq<Edge>, layers: seq<seq<Edge>>, e: Edge)
    requires IsLayering(edges, layers)
    ensures e in edges <==> exists k :: 0 <= k < |layers| && e in layers[k]
  {
    InFlatten(layers, e);
    assert e in edges <==> e in multiset(edges);
    assert e in Flatten(layers) <==> e in multiset(Flatten(layers));
  }

  /** A board with a cycle has no layering. */
  lemma LayeringIsAcyclic(edges: seq<Edge>, layers: seq<seq<Edge>>)
    requires IsLayering(edges, layers)
    ensures !HasCycle(edges)
  {
    if HasCycle(edges) {
      var c :| IsCycle(edges, c);
      LayersHoldEdges(edges, layers, c[0]);
      var k :| 0 <= k < |layers| && c[0] in layers[k];
      CycleHasNoDepth(edges, c, k);
    }
  }

  lemma DepthIsUnique(edges: seq<Edge>, others: seq<Edge>, v: string, k: nat, n: nat)
    requires forall e :: e in edges <==> e in others
    requires LongestInto(edges, v, k) && LongestInto(others, v, n)
    ensures k == n
  {
    var c :| ChainInto(edges, c, v) && |c| == k;
    var d :| ChainInto(others, d, v) && |d| == n;
    assert ChainInto(others, c, v) && ChainInto(edges, d, v);
  }

  /** Edges of one layering are in the same layer of any other layering of the same edges. */
  lemma SameLayer(edges: seq<Edge>, layers: seq<seq<Edge>>, others: seq<Edge>, otherLayers: seq<seq<Edge>>, k: nat,
                  e: Edge)
    requires IsLayering(edges, layers) && IsLayering(others, otherLayers) && multiset(edges) == multiset(others)
    requires k < |layers| && e in layers[k]
    ensures k < |otherLayers| && e in otherLayers[k]
  {
    SameMembers(edges, others);
    LayersHoldEdges(edges, layers, e);
    LayersHoldEdges(others, otherLayers, e);
    var n :| 0 <= n < |otherLayers| && e in otherLayers[n];
    var i :| 0 <= i < |layers[k]| && layers[k][i] == e;
    var j :| 0 <= j < |otherLayers[n]| && otherLayers[n][j] == e;
    DepthIsUnique(edges, others, e.source, k, n);
  }

  lemma SameMembers(edges: seq<Edge>, others: seq<Edge>)
    requires multiset(edges) == multiset(others)
    ensures forall e :: e in edges <==> e in others
  {
    forall e
      ensures e in edges <==> e in others
    {
      assert e in edges <==> e in multiset(edges);
      assert e in others <==> e in multiset(others);
    }
  }

  /** Sorted lists with the same members are equal. */
  lemma {:induction false} SortedUnique(a: seq<Edge>, b: seq<Edge>)
    requires SortedById(a) && SortedById(b) && forall e :: e in a <==> e in b
    ensures a == b
  {
    BothEmpty(a, b);
    if a != [] {
      assert a[0] in a && a[0] in b;
      assert b[0] in b && b[0] in a;
      LessTotal(a[0].id, b[0].id);
      FirstIsLeast(a, b[0]);
      FirstIsLeast(b, a[0]);
      forall e
        ensures e in a[1..] <==> e in b[1..]
      {
        TailMembers(a, e);
        TailMembers(b, e);
      }
      SortedUnique(a[1..], b[1..]);
    }
  }

  lemma BothEmpty(a: seq<Edge>, b: seq<Edge>)
    requires forall e :: e in a <==> e in b
    ensures a == [] <==> b == []
  {
    assert a != [] ==> a[0] in b;
    assert b != [] ==> b[0] in a;
  }

  lemma FirstIsLeast(a: seq<Edge>, e: Edge)
    requires SortedById(a) && e in a
    ensures a[0] == e || Less(a[0].id, e.id)
  {
  }

  lemma TailMembers(a: seq<Edge>, e: Edge)
    requires SortedById(a) && a != []
    ensures e in a[1..] <==> e in a && e != a[0]
  {
    if e in a && e != a[0] {
      var i :| 0 <= i < |a| && a[i] == e;
      assert a[1..][i - 1] == e;
    }
    LessTotal(a[0].id, a[0].id);
  }

  /** The layering does not depend on the order in which the edges are listed. */
  lemma LayeringIsUnique(edges: seq<Edge>, layers: seq<seq<Edge>>, others: seq<Edge>, otherLayers: seq<seq<Edge>>)
    requires IsLayering(edges, layers) && IsLayering(others, otherLayers) && multiset(edges) == multiset(others)
    ensures layers == otherLayers
  {
    LayersMatch(edges, layers, others, otherLayers);
    LayersMatch(others, otherLayers, edges, layers);
    forall k | 0 <= k < |layers|
      ensures k < |otherLayers| && layers[k] == otherLayers[k]
    {
      SortedUnique(layers[k], otherLayers[k]);
    }
  }

  lemma LayersMatch(edges: seq<Edge>, layers: seq<seq<Edge>>, others: seq<Edge>, otherLayers: seq<seq<Edge>>)
    requires IsLayering(edges, layers) && IsLayering(others, otherLayers) && multiset(edges) == multiset(others)
    ensures |layers| <= |otherLayers|
    ensures forall k, e :: 0 <= k < |layers| && e in layers[k] ==> e in otherLayers[k]
  {
    forall k, e | 0 <= k < |layers| && e in layers[k]
      ensures k < |otherLayers| && e in otherLayers[k]
    {
      SameLayer(edges, layers, others, otherLayers, k, e);
    }
    if layers != [] {
      var k := |layers| - 1;
      assert layers[k][0] in layers[k];
    }
  }
}
