/** When the collector records a path more than once: in general, and on graphs whose names allow a
    path to be read back, where an edge that a type has twice is the only reason. */
module RepeatedPaths {
  import opened TypeGraph
  import opened SimpleWalks
  import opened ConfigPaths

  // ---------- Paths recorded more than once ----------

  /** The type that step p of a walk leaves. */
  function StepType(g: Graph, t: TypeId, w: Walk, p: nat): (at: TypeId)
    requires IsWalk(g, t, w) && p < |w|
    ensures w[p] < |Edges(g, at)|
    decreases |w|
  {
    if p == 0 then t else StepType(g, Edges(g, t)[w[0]].target, w[1..], p - 1)
  }

  /** Step p of the walk could also be taken over another, equal edge. */
  ghost predicate HasTwin(g: Graph, t: TypeId, w: Walk, p: nat, k: nat)
    requires IsWalk(g, t, w) && p < |w|
  {
    var es := Edges(g, StepType(g, t, w, p));
    k != w[p] && k < |es| && es[k] == es[w[p]]
  }

  lemma {:induction false} EqualStep(g: Graph, t: TypeId, w: Walk, p: nat, k: nat)
    requires IsWalk(g, t, w) && p < |w|
    requires var es := Edges(g, StepType(g, t, w, p)); k < |es| && es[k] == es[w[p]]
    ensures IsWalk(g, t, w[p := k]) && Visited(g, t, w[p := k]) == Visited(g, t, w)
    ensures End(g, t, w[p := k]) == End(g, t, w) && Names(g, t, w[p := k]) == Names(g, t, w)
    decreases |w|
  {
    hide Edges;
    if p == 0 {
      assert w[0 := k][1..] == w[1..];
    } else {
      EqualStep(g, Edges(g, t)[w[0]].target, w[1..], p - 1, k);
      assert w[p := k][1..] == w[1..][p - 1 := k];
    }
  }

  /** Nothing is recorded twice exactly when no two simple walks leave the same record. */
  lemma RecordedOnceIff(g: Graph, root: TypeId)
    ensures Distinct(FromRoot(g, root)) <==>
              forall v, w | IsSimpleWalk(g, root, {}, v) && IsSimpleWalk(g, root, {}, w) && v != w ::
                RecordOf(g, root, [], v) != RecordOf(g, root, [], w)
  {
    var ws, out := Walks(g, root, {}), FromRoot(g, root);
    WalksInPreorder(g, root, {});
    hide Walks, RecordOf, IsSimpleWalk, InPreorder;
    forall i | 0 <= i < |ws| ensures IsSimpleWalk(g, root, {}, ws[i]) {
      WalksAreTheSimpleWalks(g, root, {}, ws[i]);
    }
    forall v | IsSimpleWalk(g, root, {}, v) ensures v in ws {
      WalksAreTheSimpleWalks(g, root, {}, v);
    }
    assert forall i | 0 <= i < |ws| :: out[i] == RecordOf(g, root, [], ws[i]);
  }

  /** Where a type has the same edge twice, every simple walk that takes it has a double with the
      same record, so the output holds duplicates. */
  lemma EqualEdgesRepeatPath(g: Graph, root: TypeId, w: Walk, p: nat, k: nat)
    requires IsSimpleWalk(g, root, {}, w) && p < |w| && HasTwin(g, root, w, p, k)
    ensures IsSimpleWalk(g, root, {}, w[p := k])
    ensures RecordOf(g, root, [], w[p := k]) == RecordOf(g, root, [], w)
    ensures !Distinct(FromRoot(g, root))
  {
    EqualStep(g, root, w, p, k);
    hide Visited, Edges;
    assert w[p := k] != w;
    RecordedOnceIff(g, root);
  }

  // ---------- Where names are unambiguous, equal edges are the only reason ----------

  const ITEM := "[i]"

  /** A single part of a path, and not the one that stands for the items of a container. */
  predicate IsPart(s: string) {
    '/' !in s && s != ITEM
  }

  /** A part, or that of a container followed by the one for its items. */
  ghost predicate IsName(s: string) {
    IsPart(s) || (|s| >= 4 && s[|s| - 4..] == "/" + ITEM && IsPart(s[..|s| - 4]))
  }

  /** Paths can be read back: names are parts, and those of the edges of one type tell them apart. */
  ghost predicate WellNamed(g: Graph) {
    && (forall t, i | 0 <= i < |Edges(g, t)| :: IsName(Edges(g, t)[i].name))
    && (forall t, i, j | 0 <= i < |Edges(g, t)| && 0 <= j < |Edges(g, t)| ::
          Edges(g, t)[i].name == Edges(g, t)[j].name ==> Edges(g, t)[i] == Edges(g, t)[j])
  }

  /** What stands before the first slash. */
  function Head(s: string): string {
    if s == "" || s[0] == '/' then "" else [s[0]] + Head(s[1..])
  }

  predicate StartsPart(s: string) {
    s == "" || s[0] == '/'
  }

  lemma {:induction false} HeadOf(x: string, rest: string)
    requires '/' !in x && StartsPart(rest)
    ensures Head(x + rest) == x
  {
    if x == "" {
      assert x + rest == rest;
    } else {
      HeadOf(x[1..], rest);
      assert (x + rest)[1..] == x[1..] + rest;
    }
  }

  lemma {:induction false} SpellFront(path: seq<string>)
    requires path != []
    ensures Spell(path) == "/" + (path[0] + Spell(path[1..]))
    ensures StartsPart(Spell(path[1..]))
  {
    if |path| == 1 {
      assert path[..0] == [] && path[1..] == [] && path[0] + "" == path[0];
    } else {
      var init, last := path[..|path| - 1], path[|path| - 1];
      SpellFront(init);
      assert path[1..][..|path| - 2] == init[1..];
      assert "/" + (path[0] + Spell(init[1..])) + "/" + last == "/" + (path[0] + (Spell(init[1..]) + "/" + last));
    }
  }

  /** The part a name begins with, and whether it is that of a container. */
  lemma NameSplit(s: string) returns (x: string, tail: string)
    requires IsName(s)
    ensures s == x + tail && IsPart(x) && (tail == "" || tail == "/" + ITEM)
  {
    if IsPart(s) {
      x, tail := s, "";
    } else {
      x, tail := s[..|s| - 4], s[|s| - 4..];
    }
  }

  lemma CancelFront(x: string, a: string, b: string)
    ensures x + a == x + b <==> a == b
  {
    assert (x + a)[|x|..] == a && (x + b)[|x|..] == b;
  }

  lemma Regroup(a: string, b: string, c: string)
    ensures (a + b) + c == a + (b + c) && "" + c == c
  {
  }

  /** A path that goes on with a name never goes on with the items of a container. */
  lemma NotItems(path: seq<string>, rest: string)
    requires (forall i | 0 <= i < |path| :: IsName(path[i])) && StartsPart(rest)
    ensures Spell(path) != "/" + (ITEM + rest)
  {
    hide Spell, IsName, Head;
    if path == [] {
      SpellNothing(path);
    } else {
      SpellFront(path);
      var x, tail := NameSplit(path[0]);
      var after := Spell(path[1..]);
      PartStarts(tail, after);
      Regroup(x, tail, after);
      HeadOf(x, tail + after);
      HeadOf(ITEM, rest);
      CancelFront("/", x + (tail + after), ITEM + rest);
    }
  }

  lemma SpellNothing(path: seq<string>)
    requires path == []
    ensures Spell(path) == ""
  {
  }

  lemma PartStarts(tail: string, rest: string)
    requires (tail == "" || tail == "/" + ITEM) && StartsPart(rest)
    ensures StartsPart(tail + rest)
  {
    Regroup("", "", rest);
  }

  /** Names that spell the same path are the same. */
  lemma {:induction false} SpellInjective(a: seq<string>, b: seq<string>)
    requires forall i | 0 <= i < |a| :: IsName(a[i])
    requires forall i | 0 <= i < |b| :: IsName(b[i])
    requires Spell(a) == Spell(b)
    ensures a == b
  {
    hide Spell, IsName;
    if a != [] { SpellFront(a); } else { SpellNothing(a); }
    if b != [] { SpellFront(b); } else { SpellNothing(b); }
    if a != [] && b != [] {
      SameFront(a[0], Spell(a[1..]), b[0], Spell(b[1..]), a[1..], b[1..]);
      SpellInjective(a[1..], b[1..]);
    }
  }

  lemma SameFront(s: string, rest: string, s': string, rest': string, path: seq<string>, path': seq<string>)
    requires IsName(s) && IsName(s') && "/" + (s + rest) == "/" + (s' + rest')
    requires rest == Spell(path) && rest' == Spell(path') && StartsPart(rest) && StartsPart(rest')
    requires forall i | 0 <= i < |path| :: IsName(path[i])
    requires forall i | 0 <= i < |path'| :: IsName(path'[i])
    ensures s == s' && rest == rest'
  {
    hide IsName, Spell, Head;
    var x, tail := NameSplit(s);
    var x', tail' := NameSplit(s');
    PartStarts(tail, rest);
    PartStarts(tail', rest');
    hide IsPart, StartsPart;
    CancelFront("/", s + rest, s' + rest');
    Regroup(x, tail, rest);
    Regroup(x', tail', rest');
    SameHead(x, tail + rest, x', tail' + rest');
    if tail == tail' {
      CancelFront(tail, rest, rest');
    } else if tail == "" {
      Regroup("/", ITEM, rest');
      Regroup("", "", rest);
      NotItems(path, rest');
    } else {
      Regroup("/", ITEM, rest);
      Regroup("", "", rest');
      NotItems(path', rest);
    }
  }

  lemma SameHead(x: string, after: string, x': string, after': string)
    requires IsPart(x) && IsPart(x') && StartsPart(after) && StartsPart(after')
    requires x + after == x' + after'
    ensures x == x' && after == after'
  {
    HeadOf(x, after);
    HeadOf(x', after');
    CancelFront(x, after, after');
  }

  lemma {:induction false} NamesOfWalk(g: Graph, t: TypeId, w: Walk)
    requires WellNamed(g) && IsWalk(g, t, w)
    ensures |Names(g, t, w)| == |w| && forall i | 0 <= i < |w| :: IsName(Names(g, t, w)[i])
    decreases |w|
  {
    if w != [] { NamesOfWalk(g, Edges(g, t)[w[0]].target, w[1..]); }
  }

  /** Two walks with the same names part at a step where one has the choice between equal edges. */
  lemma {:induction false} WhereTheyPart(g: Graph, t: TypeId, v: Walk, w: Walk) returns (p: nat)
    requires WellNamed(g) && IsWalk(g, t, v) && IsWalk(g, t, w) && v != w && Names(g, t, v) == Names(g, t, w)
    ensures p < |v| && p < |w| && HasTwin(g, t, w, p, v[p])
    decreases |v|
  {
    NamesOfWalk(g, t, v);
    NamesOfWalk(g, t, w);
    assert Names(g, t, v)[0] == Names(g, t, w)[0];
    assert Edges(g, t)[v[0]] == Edges(g, t)[w[0]];
    if v[0] == w[0] {
      var u := Edges(g, t)[v[0]].target;
      assert v == [v[0]] + v[1..] && w == [w[0]] + w[1..];
      assert Names(g, u, v[1..]) == Names(g, t, v)[1..] == Names(g, u, w[1..]);
      p := WhereTheyPart(g, u, v[1..], w[1..]);
      p := p + 1;
    } else {
      p := 0;
    }
  }

  /** Where paths can be read back, nothing is recorded twice exactly when no simple walk takes an
      edge that its type has twice. */
  lemma RecordedOnceIffNoTwin(g: Graph, root: TypeId)
    requires WellNamed(g)
    ensures Distinct(FromRoot(g, root)) <==>
              forall w, p: nat, k: nat | IsSimpleWalk(g, root, {}, w) && p < |w| :: !HasTwin(g, root, w, p, k)
  {
    hide WellNamed, Edges;
    if w, p: nat, k: nat :| IsSimpleWalk(g, root, {}, w) && p < |w| && HasTwin(g, root, w, p, k) {
      EqualEdgesRepeatPath(g, root, w, p, k);
    } else {
      RecordedOnceIff(g, root);
      forall v, w | IsSimpleWalk(g, root, {}, v) && IsSimpleWalk(g, root, {}, w) && v != w
        ensures RecordOf(g, root, [], v) != RecordOf(g, root, [], w)
      {
        if RecordOf(g, root, [], v) == RecordOf(g, root, [], w) {
          SameRecordSameNames(g, root, v, w);
          var p := WhereTheyPart(g, root, v, w);
        }
      }
    }
  }

  lemma PathOfRecord(g: Graph, root: TypeId, w: Walk)
    ensures RecordOf(g, root, [], w).1 == Spell(Names(g, root, w))
  {
    hide Spell, Names, End;
    assert [] + Names(g, root, w) == Names(g, root, w);
  }

  lemma SameRecordSameNames(g: Graph, root: TypeId, v: Walk, w: Walk)
    requires WellNamed(g) && IsWalk(g, root, v) && IsWalk(g, root, w)
    requires RecordOf(g, root, [], v) == RecordOf(g, root, [], w)
    ensures Names(g, root, v) == Names(g, root, w)
  {
    hide WellNamed, IsName, Spell, End, Names, RecordOf, IsWalk, Edges;
    NamesOfWalk(g, root, v);
    NamesOfWalk(g, root, w);
    PathOfRecord(g, root, v);
    PathOfRecord(g, root, w);
    SpellInjective(Names(g, root, v), Names(g, root, w));
  }

  /** So a graph in which no type has the same edge twice has every path recorded once. */
  lemma NothingTwiceWithoutRepeats(g: Graph, root: TypeId)
    requires WellNamed(g) && forall t :: Distinct(Edges(g, t))
    ensures Distinct(FromRoot(g, root))
  {
    hide WellNamed, Edges;
    RecordedOnceIffNoTwin(g, root);
    forall w, p: nat, k: nat | IsSimpleWalk(g, root, {}, w) && p < |w| ensures !HasTwin(g, root, w, p, k) {
      assert Distinct(Edges(g, StepType(g, root, w, p)));
    }
  }

  // ---------- Unambiguous names, on the tables of the graph ----------

  /** Attributes of one type have different names, and types in reach have, none of which holds a
      slash; attribute names do not begin like type names in a path, nor stand for items. */
  ghost predicate DistinctNames(g: Graph) {
    && (forall t, a | a in g.Attributes(t) :: IsPart(a.name) && (a.name == "" || a.name[0] != '$'))
    && (forall t, a, b | a in g.Attributes(t) && b in g.Attributes(t) && a.name == b.name :: a == b)
    && (forall t :: '/' !in g.Name(t))
    && (forall t, u | t in Nodes(g) && u in Nodes(g) && g.Name(t) == g.Name(u) :: t == u)
  }

  ghost predicate FromAttribute(g: Graph, t: TypeId, e: Edge) {
    exists a :: a in g.Attributes(t) && AttributeEdge(g, a) == [e]
  }

  ghost predicate FromType(g: Graph, e: Edge) {
    e == Edge("$" + g.Name(e.target), e.target)
  }

  lemma {:induction false} AttributeEdgesFrom(g: Graph, t: TypeId, n: nat, e: Edge)
    requires n <= |g.Attributes(t)| && e in AttributeEdges(g, t, n)
    ensures FromAttribute(g, t, e)
  {
    var a := g.Attributes(t)[n - 1];
    if e in AttributeEdge(g, a) {
      assert AttributeEdge(g, a) == [e];
    } else {
      AttributeEdgesFrom(g, t, n - 1, e);
    }
  }

  lemma {:induction false} ChildEdgesFrom(g: Graph, t: TypeId, n: nat, e: Edge)
    requires n <= |g.registered| && e in ChildEdges(g, t, n)
    ensures FromType(g, e)
  {
    if e !in ChildEdge(g, t, g.registered[n - 1]) { ChildEdgesFrom(g, t, n - 1, e); }
  }

  lemma {:induction false} AggregateEdgesFrom(g: Graph, t: TypeId, n: nat, e: Edge)
    requires n <= |g.aggregates| && e in AggregateEdges(g, t, n)
    ensures FromType(g, e)
  {
    if e !in AggregateEdge(g, t, g.aggregates[n - 1]) { AggregateEdgesFrom(g, t, n - 1, e); }
  }

  lemma EdgeFrom(g: Graph, t: TypeId, i: nat)
    requires i < |Edges(g, t)|
    ensures Edges(g, t)[i].target in Nodes(g)
    ensures FromAttribute(g, t, Edges(g, t)[i]) || FromType(g, Edges(g, t)[i])
  {
    EdgesInside(g, t);
    var e := Edges(g, t)[i];
    hide AttributeEdges, ChildEdges, AggregateEdges, Nodes, FromAttribute, FromType;
    if e in AttributeEdges(g, t, |g.Attributes(t)|) {
      AttributeEdgesFrom(g, t, |g.Attributes(t)|, e);
    } else if e in ChildEdges(g, t, |g.registered|) {
      ChildEdgesFrom(g, t, |g.registered|, e);
    } else {
      AggregateEdgesFrom(g, t, |g.aggregates|, e);
    }
  }

  lemma AttributeName(g: Graph, t: TypeId, e: Edge) returns (a: Attribute)
    requires DistinctNames(g) && FromAttribute(g, t, e)
    ensures a in g.Attributes(t) && AttributeEdge(g, a) == [e] && IsPart(a.name) && IsName(e.name)
    ensures e.name == a.name || e.name == a.name + ("/" + ITEM)
    ensures e.name == "" || e.name[0] != '$'
  {
    a :| a in g.Attributes(t) && AttributeEdge(g, a) == [e];
    if a.checker.Container? { assert e.name == a.name + ("/" + ITEM); }
  }

  lemma TypeName(g: Graph, e: Edge)
    requires DistinctNames(g) && FromType(g, e)
    ensures IsName(e.name) && e.name != "" && e.name[0] == '$' && e.name[1..] == g.Name(e.target)
  {
    assert e.name[0] != ITEM[0];
  }

  lemma SameNameSameEdge(g: Graph, t: TypeId, i: nat, j: nat)
    requires DistinctNames(g) && i < |Edges(g, t)| && j < |Edges(g, t)|
    requires Edges(g, t)[i].name == Edges(g, t)[j].name
    ensures Edges(g, t)[i] == Edges(g, t)[j]
  {
    var e, f := Edges(g, t)[i], Edges(g, t)[j];
    EdgeFrom(g, t, i);
    EdgeFrom(g, t, j);
    hide Edges, Nodes, IsName, FromAttribute;
    if FromType(g, e) && FromType(g, f) {
      TypeName(g, e);
      TypeName(g, f);
    } else if FromAttribute(g, t, e) && FromAttribute(g, t, f) {
      var a := AttributeName(g, t, e);
      var b := AttributeName(g, t, f);
      hide DistinctNames;
      SameAttribute(a.name, b.name, e.name);
      assert a == b by { assert DistinctNames(g); }
    } else if FromType(g, e) {
      TypeName(g, e);
      var b := AttributeName(g, t, f);
    } else {
      TypeName(g, f);
      var a := AttributeName(g, t, e);
    }
  }

  lemma SameAttribute(x: string, x': string, name: string)
    requires IsPart(x) && IsPart(x')
    requires (name == x || name == x + ("/" + ITEM)) && (name == x' || name == x' + ("/" + ITEM))
    ensures x == x'
  {
    assert x + "" == x && x' + "" == x';
    SameHead(x, if name == x then "" else "/" + ITEM, x', if name == x' then "" else "/" + ITEM);
  }

  /** Such a graph is well named. */
  lemma DistinctNamesSuffice(g: Graph)
    requires DistinctNames(g)
    ensures WellNamed(g)
  {
    hide Edges, Nodes;
    forall t, i: nat | i < |Edges(g, t)| ensures IsName(Edges(g, t)[i].name) {
      EdgeFrom(g, t, i);
      if FromType(g, Edges(g, t)[i]) {
        TypeName(g, Edges(g, t)[i]);
      } else {
        var a := AttributeName(g, t, Edges(g, t)[i]);
      }
    }
    forall t, i: nat, j: nat | i < |Edges(g, t)| && j < |Edges(g, t)| && Edges(g, t)[i].name == Edges(g, t)[j].name
      ensures Edges(g, t)[i] == Edges(g, t)[j]
    {
      SameNameSameEdge(g, t, i, j);
    }
  }

  // ---------- Examples ----------

  const NODE: TypeId := 1
  const ICMP: TypeId := 2
  const PROTOCOL := "ns3::Icmpv4L4Protocol"

  /** Node with a protocol aggregated to it, recorded twice as GetTypicalAggregations does. */
  function TwiceAggregated(): Graph {
    Graph(map[NODE := TypeInfo("ns3::Node", []), ICMP := TypeInfo(PROTOCOL, [])], [], {}, 0,
          [(NODE, ICMP), (NODE, ICMP)])
  }

  lemma TwiceAggregatedEdges()
    ensures var e := Edge("$" + PROTOCOL, ICMP); Edges(TwiceAggregated(), NODE) == [e, e]
  {
    hide PROTOCOL;
    var g := TwiceAggregated();
    var e := Edge("$" + PROTOCOL, ICMP);
    assert AggregateEdge(g, NODE, (NODE, ICMP)) == [e];
    assert AggregateEdges(g, NODE, 0) == [] && AggregateEdges(g, NODE, 1) == [e];
    assert AggregateEdges(g, NODE, 2) == [e, e];
  }

  /** Its path is recorded twice: two simple walks from the node spell it. */
  lemma AggregatedTwice()
    ensures var g := TwiceAggregated();
            && IsSimpleWalk(g, NODE, {}, [0]) && IsSimpleWalk(g, NODE, {}, [1])
            && RecordOf(g, NODE, [], [0]) == RecordOf(g, NODE, [], [1]) == (ICMP, "/" + ("$" + PROTOCOL))
            && !Distinct(FromRoot(g, NODE))
  {
    hide PROTOCOL, FromRoot, TwiceAggregated, Edges, Spell;
    TwiceAggregatedEdges();
    var g, name := TwiceAggregated(), "$" + PROTOCOL;
    OneStep(g, NODE, 0);
    SpellOne(name);
    assert [0][0 := 1] == [1];
    hide Names, Visited, End, IsWalk;
    EqualEdgesRepeatPath(g, NODE, [0], 0, 1);
  }

  lemma OneStep(g: Graph, t: TypeId, k: nat)
    requires k < |Edges(g, t)|
    ensures var e := Edges(g, t)[k];
            && IsWalk(g, t, [k]) && Visited(g, t, [k]) == [t, e.target] && End(g, t, [k]) == e.target
            && [] + Names(g, t, [k]) == [e.name]
  {
    hide Edges;
    var e := Edges(g, t)[k];
    assert [k][1..] == [] && Visited(g, e.target, []) == [e.target] && Names(g, e.target, []) == [];
  }

  lemma SpellOne(name: string)
    ensures Spell([name]) == "/" + name
  {
    assert [name][..0] == [] && Spell([]) == "" && "" + "/" == "/";
  }

  /** Where a name holds a slash, different walks may spell one path without any repeated edge. */
  function Ambiguous(): Graph {
    Graph(map[0 := TypeInfo("r", [Attribute("a", Pointer(1)), Attribute("a/b", Pointer(2))]),
              1 := TypeInfo("s", [Attribute("b", Pointer(2))])], [], {}, 3, [])
  }

  lemma AmbiguousEdges(t: TypeId)
    ensures Edges(Ambiguous(), 0) == [Edge("a", 1), Edge("a/b", 2)]
    ensures Edges(Ambiguous(), 1) == [Edge("b", 2)]
    ensures t > 1 ==> Edges(Ambiguous(), t) == []
  {
    var g := Ambiguous();
    assert AttributeEdges(g, 0, 0) == [] && AttributeEdges(g, 0, 1) == [Edge("a", 1)];
    assert AttributeEdges(g, 0, 2) == [Edge("a", 1), Edge("a/b", 2)];
    assert AttributeEdges(g, 1, 0) == [] && AttributeEdges(g, 1, 1) == [Edge("b", 2)];
  }

  lemma NamesCanClash()
    ensures (forall t :: Distinct(Edges(Ambiguous(), t))) && !Distinct(FromRoot(Ambiguous(), 0))
  {
    hide Ambiguous, FromRoot, Edges, Spell;
    var g := Ambiguous();
    forall t ensures Distinct(Edges(g, t)) {
      AmbiguousEdges(t);
      assert "a" != "a/b" by { assert |"a"| != |"a/b"|; }
    }
    AmbiguousEdges(0);
    OneStep(g, 0, 1);
    OneStep(g, 1, 0);
    assert [0, 0][1..] == [0];
    assert Visited(g, 0, [0, 0]) == [0] + [1, 2] == [0, 1, 2] && Names(g, 0, [0, 0]) == ["a"] + ["b"] == ["a", "b"];
    assert IsSimpleWalk(g, 0, {}, [0, 0]) && IsSimpleWalk(g, 0, {}, [1]);
    PathOfRecord(g, 0, [0, 0]);
    PathOfRecord(g, 0, [1]);
    SpellClash();
    hide Names, Visited, IsSimpleWalk;
    assert RecordOf(g, 0, [], [0, 0]) == RecordOf(g, 0, [], [1]);
    RecordedOnceIff(g, 0);
  }

  lemma SpellClash()
    ensures Spell(["a", "b"]) == Spell(["a/b"])
  {
    SpellOne("a");
    SpellOne("a/b");
    assert ["a", "b"][..1] == ["a"];
    assert "/" + "a" + "/" + "b" == "/" + "a/b";
  }
}
