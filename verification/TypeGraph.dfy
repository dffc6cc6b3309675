/** The type graph that print-introspected-doxygen.cc walks: attributes that lead to another type,
    registered children and aggregations, as one ordered list of labelled edges per type. */
module TypeGraph {

  type TypeId = nat

  /** What the checker of an attribute lets the traversal follow. */
  datatype Checker = Pointer(pointee: TypeId) | Container(item: TypeId) | Plain

  datatype Attribute = Attribute(name: string, checker: Checker)

  datatype TypeInfo = TypeInfo(name: string, attributes: seq<Attribute>)

  /** `children` holds the pairs (t, u) with t.IsChildOf(u). */
  datatype Graph = Graph(
    info: map<TypeId, TypeInfo>,
    registered: seq<TypeId>,
    children: set<(TypeId, TypeId)>,
    objectType: TypeId,
    aggregates: seq<(TypeId, TypeId)>)
  {
    function Name(t: TypeId): string {
      if t in info then info[t].name else ""
    }

    function Attributes(t: TypeId): seq<Attribute> {
      if t in info then info[t].attributes else []
    }
  }

  datatype Edge = Edge(name: string, target: TypeId)

  // ---------- Edges, in the order in which they are followed ----------

  /** Pointers to the root class Object are not followed. */
  function AttributeEdge(g: Graph, a: Attribute): seq<Edge> {
    match a.checker
    case Pointer(pointee) => if pointee == g.objectType then [] else [Edge(a.name, pointee)]
    case Container(item) => [Edge(a.name + "/[i]", item)]
    case Plain => []
  }

  function AttributeEdges(g: Graph, t: TypeId, n: nat): seq<Edge>
    requires n <= |g.Attributes(t)|
  {
    if n == 0 then [] else AttributeEdges(g, t, n - 1) + AttributeEdge(g, g.Attributes(t)[n - 1])
  }

  function ChildEdge(g: Graph, t: TypeId, child: TypeId): seq<Edge> {
    if (child, t) in g.children then [Edge("$" + g.Name(child), child)] else []
  }

  function ChildEdges(g: Graph, t: TypeId, n: nat): seq<Edge>
    requires n <= |g.registered|
  {
    if n == 0 then [] else ChildEdges(g, t, n - 1) + ChildEdge(g, t, g.registered[n - 1])
  }

  /** A type aggregated to itself leads to itself. */
  function AggregateEdge(g: Graph, t: TypeId, pair: (TypeId, TypeId)): seq<Edge> {
    if pair.0 != t && pair.1 != t then []
    else
      var other := if pair.1 == t then pair.0 else pair.1;
      [Edge("$" + g.Name(other), other)]
  }

  function AggregateEdges(g: Graph, t: TypeId, n: nat): seq<Edge>
    requires n <= |g.aggregates|
  {
    if n == 0 then [] else AggregateEdges(g, t, n - 1) + AggregateEdge(g, t, g.aggregates[n - 1])
  }

  function Edges(g: Graph, t: TypeId): seq<Edge> {
    AttributeEdges(g, t, |g.Attributes(t)|) + ChildEdges(g, t, |g.registered|) + AggregateEdges(g, t, |g.aggregates|)
  }

  lemma EdgeCount(g: Graph, t: TypeId)
    ensures AggregateEdges(g, t, 0) == []
    ensures |Edges(g, t)| == |AttributeEdges(g, t, |g.Attributes(t)|)| + |ChildEdges(g, t, |g.registered|)|
                              + |AggregateEdges(g, t, |g.aggregates|)|
  {
  }

  lemma {:induction false} AttributeEdgesGrow(g: Graph, t: TypeId, m: nat, n: nat)
    requires m <= n <= |g.Attributes(t)|
    ensures AttributeEdges(g, t, m) <= AttributeEdges(g, t, n)
  {
    if m < n { AttributeEdgesGrow(g, t, m, n - 1); }
  }

  lemma {:induction false} ChildEdgesGrow(g: Graph, t: TypeId, m: nat, n: nat)
    requires m <= n <= |g.registered|
    ensures ChildEdges(g, t, m) <= ChildEdges(g, t, n)
  {
    if m < n { ChildEdgesGrow(g, t, m, n - 1); }
  }

  lemma {:induction false} AggregateEdgesGrow(g: Graph, t: TypeId, m: nat, n: nat)
    requires m <= n <= |g.aggregates|
    ensures AggregateEdges(g, t, m) <= AggregateEdges(g, t, n)
  {
    if m < n { AggregateEdgesGrow(g, t, m, n - 1); }
  }

  /** Where the edge of an attribute stands among all edges of the type. */
  lemma AttributeEdgeAt(g: Graph, t: TypeId, i: nat)
    requires i < |g.Attributes(t)|
    ensures |AttributeEdges(g, t, i + 1)| == |AttributeEdges(g, t, i)| + |AttributeEdge(g, g.Attributes(t)[i])|
    ensures |AttributeEdges(g, t, i + 1)| <= |Edges(g, t)|
    ensures AttributeEdge(g, g.Attributes(t)[i]) != [] ==>
              Edges(g, t)[|AttributeEdges(g, t, i)|] == AttributeEdge(g, g.Attributes(t)[i])[0]
  {
    AttributeEdgesGrow(g, t, i + 1, |g.Attributes(t)|);
  }

  lemma ChildEdgeAt(g: Graph, t: TypeId, i: nat)
    requires i < |g.registered|
    ensures var before := |AttributeEdges(g, t, |g.Attributes(t)|)| + |ChildEdges(g, t, i)|;
            && |AttributeEdges(g, t, |g.Attributes(t)|)| + |ChildEdges(g, t, i + 1)|
                 == before + |ChildEdge(g, t, g.registered[i])| <= |Edges(g, t)|
            && (ChildEdge(g, t, g.registered[i]) != [] ==>
                  Edges(g, t)[before] == ChildEdge(g, t, g.registered[i])[0])
  {
    ChildEdgesGrow(g, t, i + 1, |g.registered|);
  }

  lemma AggregateEdgeAt(g: Graph, t: TypeId, i: nat)
    requires i < |g.aggregates|
    ensures var start := |AttributeEdges(g, t, |g.Attributes(t)|)| + |ChildEdges(g, t, |g.registered|)|;
            var before := start + |AggregateEdges(g, t, i)|;
            && start + |AggregateEdges(g, t, i + 1)|
                 == before + |AggregateEdge(g, t, g.aggregates[i])| <= |Edges(g, t)|
            && (AggregateEdge(g, t, g.aggregates[i]) != [] ==>
                  Edges(g, t)[before] == AggregateEdge(g, t, g.aggregates[i])[0])
  {
    AggregateEdgesGrow(g, t, i + 1, |g.aggregates|);
  }

  // ---------- Only finitely many types can be reached ----------

  function Target(c: Checker): set<TypeId> {
    match c
    case Pointer(pointee) => {pointee}
    case Container(item) => {item}
    case Plain => {}
  }

  function Nodes(g: Graph): set<TypeId> {
    (set t, a, u | t in g.info && a in g.info[t].attributes && u in Target(a.checker) :: u)
    + (set t | t in g.registered)
    + (set p | p in g.aggregates :: p.0) + (set p | p in g.aggregates :: p.1)
  }

  ghost predicate Inside(g: Graph, es: seq<Edge>) {
    forall i | 0 <= i < |es| :: es[i].target in Nodes(g)
  }

  lemma {:induction false} AttributesInside(g: Graph, t: TypeId, n: nat)
    requires n <= |g.Attributes(t)|
    ensures Inside(g, AttributeEdges(g, t, n))
  {
    if n > 0 {
      AttributesInside(g, t, n - 1);
      var a := g.Attributes(t)[n - 1];
      if AttributeEdge(g, a) != [] {
        var u := AttributeEdge(g, a)[0].target;
        assert t in g.info && a in g.info[t].attributes && u in Target(a.checker);
      }
    }
  }

  lemma {:induction false} ChildrenInside(g: Graph, t: TypeId, n: nat)
    requires n <= |g.registered|
    ensures Inside(g, ChildEdges(g, t, n))
  {
    if n > 0 {
      ChildrenInside(g, t, n - 1);
      assert g.registered[n - 1] in g.registered;
    }
  }

  lemma {:induction false} AggregatesInside(g: Graph, t: TypeId, n: nat)
    requires n <= |g.aggregates|
    ensures Inside(g, AggregateEdges(g, t, n))
  {
    if n > 0 {
      AggregatesInside(g, t, n - 1);
      assert g.aggregates[n - 1] in g.aggregates;
    }
  }

  lemma EdgesInside(g: Graph, t: TypeId)
    ensures Inside(g, Edges(g, t))
  {
    AttributesInside(g, t, |g.Attributes(t)|);
    ChildrenInside(g, t, |g.registered|);
    AggregatesInside(g, t, |g.aggregates|);
    hide Nodes, AttributeEdges, ChildEdges, AggregateEdges;
  }

  /** Types not yet on the ancestor stack: the measure on which the recursion descends. */
  function Rank(g: Graph, anc: set<TypeId>, t: TypeId): nat {
    |Nodes(g) - anc| + if t in Nodes(g) then 0 else 1
  }

  lemma RankDescends(g: Graph, anc: set<TypeId>, t: TypeId, i: nat)
    requires t !in anc && i < |Edges(g, t)|
    ensures Rank(g, anc + {t}, Edges(g, t)[i].target) < Rank(g, anc, t)
  {
    EdgesInside(g, t);
    hide Nodes, Edges;
    var left := Nodes(g) - anc;
    if t in Nodes(g) {
      assert left == (Nodes(g) - (anc + {t})) + {t};
    } else {
      assert left == Nodes(g) - (anc + {t});
    }
  }
}
