/** Which edges a type of the graph has, read off the tables: from attributes, then from registered
    children, then from aggregations, each in table order, one edge per matching entry. */
module GraphEdges {
  import opened TypeGraph

  /** A place in one of the three tables. */
  datatype Entry = AttributeEntry(i: nat) | ChildEntry(j: nat) | AggregateEntry(k: nat)

  ghost predicate Precedes(x: Entry, y: Entry) {
    match (x, y)
    case (AttributeEntry(i), AttributeEntry(i')) => i < i'
    case (ChildEntry(j), ChildEntry(j')) => j < j'
    case (AggregateEntry(k), AggregateEntry(k')) => k < k'
    case (AttributeEntry(_), _) => true
    case (ChildEntry(_), AggregateEntry(_)) => true
    case _ => false
  }

  ghost function NameOf(g: Graph, t: TypeId): string {
    if t in g.info then g.info[t].name else ""
  }

  /** The edge that a table entry gives type t: to the pointee of a pointer attribute unless that is
      the root class, to the items of a container attribute, to a registered type derived from t, and
      to the partner in an aggregation. */
  ghost predicate Gives(g: Graph, t: TypeId, x: Entry, e: Edge) {
    match x
    case AttributeEntry(i) =>
      t in g.info && i < |g.info[t].attributes| &&
      var a := g.info[t].attributes[i];
      (exists p :: a.checker == Pointer(p) && p != g.objectType && e == Edge(a.name, p)) ||
      (exists u :: a.checker == Container(u) && e == Edge(a.name + "/[i]", u))
    case ChildEntry(j) =>
      j < |g.registered| &&
      (g.registered[j], t) in g.children && e == Edge("$" + NameOf(g, g.registered[j]), g.registered[j])
    case AggregateEntry(k) =>
      k < |g.aggregates| &&
      exists u :: (g.aggregates[k] == (t, u) || g.aggregates[k] == (u, t)) && e == Edge("$" + NameOf(g, u), u)
  }

  /** The entries listed are those that give an edge, in table order, and these are the edges. */
  ghost predicate Listed(g: Graph, t: TypeId, xs: seq<Entry>, es: seq<Edge>) {
    && |xs| == |es|
    && (forall n | 0 <= n < |es| :: Gives(g, t, xs[n], es[n]))
    && (forall m, n | 0 <= m < n < |xs| :: Precedes(xs[m], xs[n]))
  }

  /** An entry gives one edge at the most. */
  lemma GivesOne(g: Graph, t: TypeId, x: Entry, e: Edge, f: Edge)
    requires Gives(g, t, x, e) && Gives(g, t, x, f)
    ensures e == f
  {
  }

  lemma ListMore(g: Graph, t: TypeId, xs: seq<Entry>, es: seq<Edge>, x: Entry, e: Edge)
    requires Listed(g, t, xs, es) && Gives(g, t, x, e) && forall y | y in xs :: Precedes(y, x)
    ensures Listed(g, t, xs + [x], es + [e])
  {
    hide Gives, Precedes;
    assert forall m | 0 <= m < |xs| :: xs[m] in xs;
  }

  lemma ListedNone(g: Graph, t: TypeId)
    ensures Listed(g, t, [], []) && forall es: seq<Edge> :: es + [] == es
  {
  }

  // ---------- The three tables in turn ----------

  lemma AttributeGives(g: Graph, t: TypeId, i: nat)
    requires i < |g.Attributes(t)|
    ensures var es := AttributeEdge(g, g.Attributes(t)[i]);
            if es == [] then forall e :: !Gives(g, t, AttributeEntry(i), e)
            else |es| == 1 && Gives(g, t, AttributeEntry(i), es[0])
  {
  }

  lemma ChildGives(g: Graph, t: TypeId, j: nat)
    requires j < |g.registered|
    ensures var es := ChildEdge(g, t, g.registered[j]);
            if es == [] then forall e :: !Gives(g, t, ChildEntry(j), e)
            else |es| == 1 && Gives(g, t, ChildEntry(j), es[0])
  {
  }

  lemma AggregateGives(g: Graph, t: TypeId, k: nat)
    requires k < |g.aggregates|
    ensures var es := AggregateEdge(g, t, g.aggregates[k]);
            if es == [] then forall e :: !Gives(g, t, AggregateEntry(k), e)
            else |es| == 1 && Gives(g, t, AggregateEntry(k), es[0])
  {
    var pair := g.aggregates[k];
    var other := if pair.1 == t then pair.0 else pair.1;
    if pair.0 == t || pair.1 == t { assert pair == (t, other) || pair == (other, t); }
  }

  lemma {:induction false} AttributesListed(g: Graph, t: TypeId, n: nat) returns (xs: seq<Entry>)
    requires n <= |g.Attributes(t)|
    ensures Listed(g, t, xs, AttributeEdges(g, t, n))
    ensures forall x | x in xs :: x.AttributeEntry? && x.i < n
    ensures forall i: nat, e | i < n && Gives(g, t, AttributeEntry(i), e) :: AttributeEntry(i) in xs
  {
    hide Gives, Listed;
    ListedNone(g, t);
    xs := [];
    if n > 0 {
      xs := AttributesListed(g, t, n - 1);
      AttributeGives(g, t, n - 1);
      var es := AttributeEdge(g, g.Attributes(t)[n - 1]);
      if es != [] {
        ListMore(g, t, xs, AttributeEdges(g, t, n - 1), AttributeEntry(n - 1), es[0]);
        assert es == [es[0]];
        xs := xs + [AttributeEntry(n - 1)];
      }
    }
  }

  lemma {:induction false} ChildrenListed(g: Graph, t: TypeId, n: nat, before: seq<Entry>, es: seq<Edge>)
    returns (xs: seq<Entry>)
    requires n <= |g.registered| && Listed(g, t, before, es) && forall x | x in before :: x.AttributeEntry?
    ensures Listed(g, t, before + xs, es + ChildEdges(g, t, n))
    ensures forall x | x in xs :: x.ChildEntry? && x.j < n
    ensures forall j: nat, e | j < n && Gives(g, t, ChildEntry(j), e) :: ChildEntry(j) in xs
  {
    hide Gives, Listed;
    ListedNone(g, t);
    xs := [];
    assert before + xs == before;
    if n > 0 {
      xs := ChildrenListed(g, t, n - 1, before, es);
      ChildGives(g, t, n - 1);
      var more := ChildEdge(g, t, g.registered[n - 1]);
      if more != [] {
        ListMore(g, t, before + xs, es + ChildEdges(g, t, n - 1), ChildEntry(n - 1), more[0]);
        Regroup(before, xs, [ChildEntry(n - 1)]);
        Regroup(es, ChildEdges(g, t, n - 1), more);
        assert more == [more[0]];
        xs := xs + [ChildEntry(n - 1)];
      }
    }
  }

  lemma {:induction false} AggregatesListed(g: Graph, t: TypeId, n: nat, before: seq<Entry>, es: seq<Edge>)
    returns (xs: seq<Entry>)
    requires n <= |g.aggregates| && Listed(g, t, before, es) && forall x | x in before :: !x.AggregateEntry?
    ensures Listed(g, t, before + xs, es + AggregateEdges(g, t, n))
    ensures forall x | x in xs :: x.AggregateEntry? && x.k < n
    ensures forall k: nat, e | k < n && Gives(g, t, AggregateEntry(k), e) :: AggregateEntry(k) in xs
  {
    hide Gives, Listed;
    ListedNone(g, t);
    xs := [];
    assert before + xs == before;
    if n > 0 {
      xs := AggregatesListed(g, t, n - 1, before, es);
      AggregateGives(g, t, n - 1);
      var more := AggregateEdge(g, t, g.aggregates[n - 1]);
      if more != [] {
        ListMore(g, t, before + xs, es + AggregateEdges(g, t, n - 1), AggregateEntry(n - 1), more[0]);
        Regroup(before, xs, [AggregateEntry(n - 1)]);
        Regroup(es, AggregateEdges(g, t, n - 1), more);
        assert more == [more[0]];
        xs := xs + [AggregateEntry(n - 1)];
      }
    }
  }

  lemma Regroup<T>(a: seq<T>, b: seq<T>, c: seq<T>)
    ensures (a + b) + c == a + (b + c)
  {
  }

  // ---------- All edges ----------

  /** The edges of a type are those its table entries give, one each, in table order. */
  lemma EdgesAreListed(g: Graph, t: TypeId) returns (xs: seq<Entry>)
    ensures Listed(g, t, xs, Edges(g, t))
    ensures forall x, e | Gives(g, t, x, e) :: x in xs
  {
    hide Gives, Listed, AttributeEdges, ChildEdges, AggregateEdges;
    var attributes := AttributesListed(g, t, |g.Attributes(t)|);
    var children := ChildrenListed(g, t, |g.registered|, attributes, AttributeEdges(g, t, |g.Attributes(t)|));
    var aggregates := AggregatesListed(g, t, |g.aggregates|, attributes + children,
      AttributeEdges(g, t, |g.Attributes(t)|) + ChildEdges(g, t, |g.registered|));
    xs := attributes + children + aggregates;
    forall x, e | Gives(g, t, x, e) ensures x in xs { EntryInTable(g, t, x, e); }
  }

  lemma EntryInTable(g: Graph, t: TypeId, x: Entry, e: Edge)
    requires Gives(g, t, x, e)
    ensures match x
            case AttributeEntry(i) => i < |g.Attributes(t)|
            case ChildEntry(j) => j < |g.registered|
            case AggregateEntry(k) => k < |g.aggregates|
  {
  }

  /** So an edge is there exactly when some entry gives it. */
  lemma EdgeIff(g: Graph, t: TypeId, e: Edge)
    ensures e in Edges(g, t) <==> exists x :: Gives(g, t, x, e)
  {
    var xs := EdgesAreListed(g, t);
    hide Gives, Edges;
    if e in Edges(g, t) {
      var n :| 0 <= n < |Edges(g, t)| && Edges(g, t)[n] == e;
      assert Gives(g, t, xs[n], e);
    }
    if x :| Gives(g, t, x, e) {
      var n :| 0 <= n < |xs| && xs[n] == x;
      GivesOne(g, t, x, e, Edges(g, t)[n]);
    }
  }
}
