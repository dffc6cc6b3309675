/** StaticInformation of print-introspected-doxygen.cc: the recursive collector of configuration
    paths, with its two explicit stacks and its growing output. */
module ConfigPaths {
  import opened TypeGraph
  import opened SimpleWalks
  import opened Places

  type Record = (TypeId, string)

  /** A configuration path as it is written. */
  function Spell(path: seq<string>): string {
    if path == [] then "" else Spell(path[..|path| - 1]) + "/" + path[|path| - 1]
  }

  /** What a walk from t records: the type it ends at and the path it spells below `path`. */
  function RecordOf(g: Graph, t: TypeId, path: seq<string>, w: Walk): Record {
    (End(g, t, w), Spell(path + Names(g, t, w)))
  }

  function Records(g: Graph, t: TypeId, path: seq<string>, ws: seq<Walk>): seq<Record> {
    seq(|ws|, i requires 0 <= i < |ws| => RecordOf(g, t, path, ws[i]))
  }

  function PathsTo(output: seq<Record>, t: TypeId): seq<string> {
    if output == [] then []
    else
      var rest := PathsTo(output[..|output| - 1], t);
      if output[|output| - 1].0 == t then rest + [output[|output| - 1].1] else rest
  }

  lemma RecordsAppend(g: Graph, t: TypeId, path: seq<string>, xs: seq<Walk>, ys: seq<Walk>)
    ensures Records(g, t, path, xs + ys) == Records(g, t, path, xs) + Records(g, t, path, ys)
  {
    hide RecordOf;
  }

  /** What is recorded below an edge is what is recorded from its target, one name further on. */
  lemma RecordsBelow(g: Graph, t: TypeId, path: seq<string>, k: nat, ws: seq<Walk>)
    requires k < |Edges(g, t)|
    ensures Records(g, t, path, Prefixed(k, ws))
         == Records(g, Edges(g, t)[k].target, path + [Edges(g, t)[k].name], ws)
  {
    hide RecordOf, Edges;
    var e := Edges(g, t)[k];
    forall i | 0 <= i < |ws|
      ensures RecordOf(g, t, path, [k] + ws[i]) == RecordOf(g, e.target, path + [e.name], ws[i])
    {
      RecordBelow(g, t, path, k, ws[i]);
    }
  }

  lemma RecordBelow(g: Graph, t: TypeId, path: seq<string>, k: nat, w: Walk)
    requires k < |Edges(g, t)|
    ensures var e := Edges(g, t)[k];
            RecordOf(g, t, path, [k] + w) == RecordOf(g, e.target, path + [e.name], w)
  {
    hide Edges, Spell;
    var e := Edges(g, t)[k];
    assert ([k] + w)[1..] == w;
    var names := Names(g, e.target, w);
    assert path + ([e.name] + names) == (path + [e.name]) + names;
  }

  /** What is recorded across one edge. */
  function Below(g: Graph, e: Edge, path: seq<string>, anc: set<TypeId>): seq<Record> {
    Records(g, e.target, path + [e.name], Walks(g, e.target, anc))
  }

  /** All that is recorded up to the n-th edge of t. */
  function Progress(g: Graph, t: TypeId, path: seq<string>, anc: set<TypeId>, n: nat): seq<Record>
    requires t !in anc && n <= |Edges(g, t)|
  {
    Records(g, t, path, [[]] + WalksVia(g, t, anc, n))
  }

  lemma ProgressNext(g: Graph, t: TypeId, path: seq<string>, anc: set<TypeId>, n: nat)
    requires t !in anc && n < |Edges(g, t)|
    ensures Progress(g, t, path, anc, n + 1) == Progress(g, t, path, anc, n) + Below(g, Edges(g, t)[n], path, anc + {t})
  {
    var e := Edges(g, t)[n];
    var below := Walks(g, e.target, anc + {t});
    RecordsBelow(g, t, path, n, below);
    RecordsAppend(g, t, path, [[]] + WalksVia(g, t, anc, n), Prefixed(n, below));
    assert [[]] + WalksVia(g, t, anc, n + 1) == ([[]] + WalksVia(g, t, anc, n)) + Prefixed(n, below);
  }

  lemma ProgressEnds(g: Graph, t: TypeId, path: seq<string>, anc: set<TypeId>)
    requires t !in anc
    ensures Progress(g, t, path, anc, 0) == [(t, Spell(path))]
    ensures Progress(g, t, path, anc, |Edges(g, t)|) == Records(g, t, path, Walks(g, t, anc))
  {
    assert path + Names(g, t, []) == path;
    assert [[]] + WalksVia(g, t, anc, 0) == [[]];
  }

  class StaticInformation {
    const graph: Graph
    var output: seq<Record>
    var currentPath: seq<string>
    var alreadyProcessed: seq<TypeId>

    constructor (graph: Graph)
      ensures this.graph == graph && output == [] && currentPath == [] && alreadyProcessed == []
    {
      this.graph := graph;
      output, currentPath, alreadyProcessed := [], [], [];
    }

    ghost function Ancestors(): set<TypeId>
      reads this`alreadyProcessed
    {
      set t | t in alreadyProcessed
    }

    /** The two stacks are in step, and no type is its own ancestor. */
    ghost predicate StacksAgree()
      reads this`alreadyProcessed, this`currentPath
    {
      |currentPath| == |alreadyProcessed| && Distinct(alreadyProcessed)
    }

    method HasAlreadyBeenProcessed(tid: TypeId) returns (found: bool)
      ensures found <==> tid in alreadyProcessed
    {
      for i := 0 to |alreadyProcessed|
        invariant tid !in alreadyProcessed[..i]
      {
        if alreadyProcessed[i] == tid {
          return true;
        }
      }
      return false;
    }

    method GetCurrentPath() returns (path: string)
      ensures path == Spell(currentPath)
    {
      path := "";
      for i := 0 to |currentPath|
        invariant path == Spell(currentPath[..i])
      {
        assert currentPath[..i + 1][..i] == currentPath[..i];
        path := path + "/" + currentPath[i];
      }
      assert currentPath[..|currentPath|] == currentPath;
    }

    method RecordOutput(tid: TypeId)
      modifies this`output
      ensures output == old(output) + [(tid, Spell(currentPath))]
    {
      var path := GetCurrentPath();
      output := output + [(tid, path)];
    }

    /** Following one edge: push, recurse, pop. */
    method Descend(tid: TypeId, name: string, target: TypeId, ghost n: nat)
      requires StacksAgree() && tid !in alreadyProcessed
      requires n < |Edges(graph, tid)| && Edges(graph, tid)[n] == Edge(name, target)
      modifies this`output, this`currentPath, this`alreadyProcessed
      ensures currentPath == old(currentPath) && alreadyProcessed == old(alreadyProcessed)
      ensures output == old(output) + Below(graph, Edge(name, target), currentPath, Ancestors() + {tid})
      decreases Rank(graph, Ancestors(), tid), 0
    {
      hide Records, Walks, Edges, Spell;
      RankDescends(graph, Ancestors(), tid, n);
      currentPath := currentPath + [name];
      alreadyProcessed := alreadyProcessed + [tid];
      assert Ancestors() == old(Ancestors()) + {tid};
      hide Rank, Nodes;
      DoGather(target);
      alreadyProcessed := alreadyProcessed[..|alreadyProcessed| - 1];
      currentPath := currentPath[..|currentPath| - 1];
      assert alreadyProcessed == old(alreadyProcessed);
    }

    /** Records every simple walk from tid below the current ancestors, each once, in depth-first
        preorder; leaves both stacks as they were and only extends the output. It terminates on
        every type graph, cyclic or not. */
    method DoGather(tid: TypeId)
      requires StacksAgree()
      modifies this`output, this`currentPath, this`alreadyProcessed
      ensures currentPath == old(currentPath) && alreadyProcessed == old(alreadyProcessed)
      ensures output == old(output) + Records(graph, tid, currentPath, Walks(graph, tid, Ancestors()))
      decreases Rank(graph, Ancestors(), tid), 4
    {
      hide Rank, Edges, Spell, Progress, WalksVia;
      var processed := HasAlreadyBeenProcessed(tid);
      if processed {
        return;
      }
      ProgressEnds(graph, tid, currentPath, Ancestors());
      hide Records, Walks;
      RecordOutput(tid);
      GatherAttributes(tid, old(output));
      GatherChildren(tid, old(output));
      GatherAggregates(tid, old(output));
    }

    /** How far the recording of tid has come. */
    ghost predicate Recorded(tid: TypeId, before: seq<Record>, n: nat)
      reads this
    {
      && tid !in alreadyProcessed
      && n <= |Edges(graph, tid)|
      && output == before + Progress(graph, tid, currentPath, Ancestors(), n)
    }

    ghost function AttributeEnd(tid: TypeId): nat {
      |AttributeEdges(graph, tid, |graph.Attributes(tid)|)|
    }

    ghost function ChildEnd(tid: TypeId): nat {
      AttributeEnd(tid) + |ChildEdges(graph, tid, |graph.registered|)|
    }

    /** Following the next edge of tid takes the recording one step further. */
    method Follow(tid: TypeId, name: string, target: TypeId, ghost before: seq<Record>, ghost n: nat)
      requires StacksAgree() && Recorded(tid, before, n)
      requires n < |Edges(graph, tid)| && Edges(graph, tid)[n] == Edge(name, target)
      modifies this`output, this`currentPath, this`alreadyProcessed
      ensures currentPath == old(currentPath) && alreadyProcessed == old(alreadyProcessed)
      ensures Recorded(tid, before, n + 1)
      decreases Rank(graph, Ancestors(), tid), 1
    {
      hide Progress, Below, Edges, Rank;
      ProgressNext(graph, tid, currentPath, Ancestors(), n);
      Descend(tid, name, target, n);
    }

    method GatherAttributes(tid: TypeId, ghost before: seq<Record>)
      requires StacksAgree() && Recorded(tid, before, 0)
      modifies this`output, this`currentPath, this`alreadyProcessed
      ensures currentPath == old(currentPath) && alreadyProcessed == old(alreadyProcessed)
      ensures Recorded(tid, before, AttributeEnd(tid))
      decreases Rank(graph, Ancestors(), tid), 2
    {
      hide Recorded, Edges, Rank;
      var attributes := graph.Attributes(tid);
      for i := 0 to |attributes|
        invariant currentPath == old(currentPath) && alreadyProcessed == old(alreadyProcessed)
        invariant Recorded(tid, before, |AttributeEdges(graph, tid, i)|)
      {
        ghost var n := |AttributeEdges(graph, tid, i)|;
        AttributeEdgeAt(graph, tid, i);
        var info := attributes[i];
        match info.checker {
          case Pointer(pointee) =>
            if pointee != graph.objectType {
              Follow(tid, info.name, pointee, before, n);
            }
          case Container(item) =>
            Follow(tid, info.name + "/[i]", item, before, n);
          case Plain =>
        }
      }
    }

    method GatherChildren(tid: TypeId, ghost before: seq<Record>)
      requires StacksAgree() && Recorded(tid, before, AttributeEnd(tid))
      modifies this`output, this`currentPath, this`alreadyProcessed
      ensures currentPath == old(currentPath) && alreadyProcessed == old(alreadyProcessed)
      ensures Recorded(tid, before, ChildEnd(tid))
      decreases Rank(graph, Ancestors(), tid), 2
    {
      hide Recorded, Edges, Rank;
      for j := 0 to |graph.registered|
        invariant currentPath == old(currentPath) && alreadyProcessed == old(alreadyProcessed)
        invariant Recorded(tid, before, AttributeEnd(tid) + |ChildEdges(graph, tid, j)|)
      {
        ghost var n := AttributeEnd(tid) + |ChildEdges(graph, tid, j)|;
        ChildEdgeAt(graph, tid, j);
        var child := graph.registered[j];
        if (child, tid) in graph.children {
          Follow(tid, "$" + graph.Name(child), child, before, n);
        }
      }
    }

    method GatherAggregates(tid: TypeId, ghost before: seq<Record>)
      requires StacksAgree() && Recorded(tid, before, ChildEnd(tid))
      modifies this`output, this`currentPath, this`alreadyProcessed
      ensures currentPath == old(currentPath) && alreadyProcessed == old(alreadyProcessed)
      ensures Recorded(tid, before, |Edges(graph, tid)|)
      decreases Rank(graph, Ancestors(), tid), 3
    {
      hide Recorded, Rank, Edges, AggregateEdges;
      EdgeCount(graph, tid);
      for j := 0 to |graph.aggregates|
        invariant currentPath == old(currentPath) && alreadyProcessed == old(alreadyProcessed)
        invariant Recorded(tid, before, ChildEnd(tid) + |AggregateEdges(graph, tid, j)|)
      {
        FollowAggregate(tid, before, j);
      }
    }

    method FollowAggregate(tid: TypeId, ghost before: seq<Record>, j: nat)
      requires j < |graph.aggregates|
      requires StacksAgree() && Recorded(tid, before, ChildEnd(tid) + |AggregateEdges(graph, tid, j)|)
      modifies this`output, this`currentPath, this`alreadyProcessed
      ensures currentPath == old(currentPath) && alreadyProcessed == old(alreadyProcessed)
      ensures Recorded(tid, before, ChildEnd(tid) + |AggregateEdges(graph, tid, j + 1)|)
      decreases Rank(graph, Ancestors(), tid), 2
    {
      hide Recorded, Rank, Edges, AggregateEdges, AttributeEdges, ChildEdges;
      ghost var n := ChildEnd(tid) + |AggregateEdges(graph, tid, j)|;
      AggregateEdgeAt(graph, tid, j);
      var item := graph.aggregates[j];
      if item.0 == tid || item.1 == tid {
        var other := item.1;
        if item.1 == tid {
          other := item.0;
        }
        Follow(tid, "$" + graph.Name(other), other, before, n);
      }
    }

    /** Gathering from every root namespace object, in turn. The call that should remove duplicates
        afterwards works on a copy and leaves the output as it is. */
    method GatherRoots(roots: seq<TypeId>)
      requires currentPath == [] && alreadyProcessed == []
      modifies this`output, this`currentPath, this`alreadyProcessed
      ensures currentPath == [] && alreadyProcessed == []
      ensures output == old(output) + AllRecords(graph, roots)
    {
      hide Records, Walks, Rank, Nodes, Edges;
      for i := 0 to |roots|
        invariant currentPath == [] && alreadyProcessed == []
        invariant output == old(output) + AllRecords(graph, roots[..i])
      {
        assert roots[..i + 1][..i] == roots[..i];
        assert Ancestors() == {};
        DoGather(roots[i]);
      }
      assert roots[..|roots|] == roots;
    }

    /** The recorded paths of a type, in the order in which they were recorded. */
    method Get(tid: TypeId) returns (paths: seq<string>)
      ensures paths == PathsTo(output, tid)
    {
      paths := [];
      for i := 0 to |output|
        invariant paths == PathsTo(output[..i], tid)
      {
        assert output[..i + 1][..i] == output[..i];
        if output[i].0 == tid {
          paths := paths + [output[i].1];
        }
      }
      assert output[..|output|] == output;
    }
  }

  function AllRecords(g: Graph, roots: seq<TypeId>): seq<Record> {
    if roots == [] then []
    else AllRecords(g, roots[..|roots| - 1]) + FromRoot(g, roots[|roots| - 1])
  }

  /** What DoGather appends when it starts from a root with empty stacks. */
  function FromRoot(g: Graph, root: TypeId): seq<Record> {
    Records(g, root, [], Walks(g, root, {}))
  }

  // ---------- What the recorded paths are ----------

  lemma {:induction false} PathsToMember(output: seq<Record>, t: TypeId, p: string)
    ensures p in PathsTo(output, t) <==> (t, p) in output
  {
    if output != [] {
      var init, last := output[..|output| - 1], output[|output| - 1];
      PathsToMember(init, t, p);
      assert (t, p) in output <==> (t, p) in init || (t, p) == last;
    }
  }

  /** The recorded paths of a type are those of its records, in the order of the records, one each. */
  lemma {:induction false} PathsToAre(output: seq<Record>, t: TypeId) returns (at: seq<nat>)
    ensures Ascending(at, |output|) && |PathsTo(output, t)| == |at|
    ensures forall n | 0 <= n < |at| :: PathsTo(output, t)[n] == output[at[n]].1
    ensures forall k: nat :: k in at <==> k < |output| && output[k].0 == t
  {
    hide Ascending;
    at := [];
    NoPlaces();
    if output != [] {
      var last := |output| - 1;
      at := PathsToAre(output[..last], t);
      AscendingMore(at, last);
      if output[last].0 == t { at := at + [last]; }
    }
  }

  /** Starting from a root, exactly the paths of simple walks are recorded, each with the type at
      which its walk ends. */
  lemma RecordedIffSimpleWalk(g: Graph, root: TypeId, t: TypeId, p: string)
    ensures p in PathsTo(FromRoot(g, root), t) <==>
              exists w :: IsSimpleWalk(g, root, {}, w) && End(g, root, w) == t && Spell(Names(g, root, w)) == p
  {
    var ws := Walks(g, root, {});
    var out := FromRoot(g, root);
    PathsToMember(out, t, p);
    hide Walks, Spell, Names, End, IsSimpleWalk, PathsTo;
    assert forall w :: [] + Names(g, root, w) == Names(g, root, w);
    if (t, p) in out {
      var i :| 0 <= i < |out| && out[i] == (t, p);
      WalksAreTheSimpleWalks(g, root, {}, ws[i]);
    }
    if w :| IsSimpleWalk(g, root, {}, w) && End(g, root, w) == t && Spell(Names(g, root, w)) == p {
      WalksAreTheSimpleWalks(g, root, {}, w);
      var i :| 0 <= i < |ws| && ws[i] == w;
      assert out[i] == (t, p);
    }
  }

  /** A type has a recorded path exactly when some walk leads to it from the root: cutting the
      traversal at ancestors loses paths with loops, but no type. */
  lemma RecordedIffReachable(g: Graph, root: TypeId, t: TypeId)
    ensures PathsTo(FromRoot(g, root), t) != [] <==> exists w :: IsWalk(g, root, w) && End(g, root, w) == t
  {
    var paths := PathsTo(FromRoot(g, root), t);
    if paths != [] {
      RecordedIffSimpleWalk(g, root, t, paths[0]);
      var w :| IsSimpleWalk(g, root, {}, w) && End(g, root, w) == t && Spell(Names(g, root, w)) == paths[0];
      assert IsWalk(g, root, w);
    }
    if w :| IsWalk(g, root, w) && End(g, root, w) == t {
      var s := CutLoops(g, root, {}, w);
      RecordedIffSimpleWalk(g, root, t, Spell(Names(g, root, s)));
    }
  }

  /** The i-th record is that of the i-th simple walk in depth-first preorder. */
  lemma RecordedInPreorder(g: Graph, root: TypeId)
    ensures var ws := Walks(g, root, {});
            && |FromRoot(g, root)| == |ws| && InPreorder(ws) && Distinct(ws)
            && forall i | 0 <= i < |ws| :: IsSimpleWalk(g, root, {}, ws[i]) &&
                 FromRoot(g, root)[i] == (End(g, root, ws[i]), Spell(Names(g, root, ws[i])))
  {
    var ws := Walks(g, root, {});
    WalksInPreorder(g, root, {});
    hide Walks, Spell, Names, End, IsSimpleWalk;
    forall i | 0 <= i < |ws|
      ensures IsSimpleWalk(g, root, {}, ws[i])
      ensures FromRoot(g, root)[i] == (End(g, root, ws[i]), Spell(Names(g, root, ws[i])))
    {
      WalksAreTheSimpleWalks(g, root, {}, ws[i]);
      assert [] + Names(g, root, ws[i]) == Names(g, root, ws[i]);
    }
  }
}
