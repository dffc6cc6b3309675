/** Simple labelled walks of the type graph: which ones there are, in which order a depth-first
    traversal meets them, and what each spells. A walk is the list of edge indices taken. */
module SimpleWalks {
  import opened TypeGraph

  type Walk = seq<nat>

  ghost predicate IsWalk(g: Graph, t: TypeId, w: Walk)
    decreases |w|
  {
    w == [] || (w[0] < |Edges(g, t)| && IsWalk(g, Edges(g, t)[w[0]].target, w[1..]))
  }

  function Visited(g: Graph, t: TypeId, w: Walk): seq<TypeId>
    decreases |w|
  {
    if w == [] || w[0] >= |Edges(g, t)| then [t] else [t] + Visited(g, Edges(g, t)[w[0]].target, w[1..])
  }

  function End(g: Graph, t: TypeId, w: Walk): TypeId
    decreases |w|
  {
    if w == [] || w[0] >= |Edges(g, t)| then t else End(g, Edges(g, t)[w[0]].target, w[1..])
  }

  function Names(g: Graph, t: TypeId, w: Walk): seq<string>
    decreases |w|
  {
    if w == [] || w[0] >= |Edges(g, t)| then []
    else [Edges(g, t)[w[0]].name] + Names(g, Edges(g, t)[w[0]].target, w[1..])
  }

  ghost predicate Distinct<T>(s: seq<T>) {
    forall i, j | 0 <= i < j < |s| :: s[i] != s[j]
  }

  /** A walk that meets no type twice and none of the given ones. */
  ghost predicate IsSimpleWalk(g: Graph, t: TypeId, anc: set<TypeId>, w: Walk) {
    && IsWalk(g, t, w)
    && Distinct(Visited(g, t, w))
    && forall v | v in Visited(g, t, w) :: v !in anc
  }

  /** Step by step: each type but the first is the target of the edge taken from the one before, the
      names are those of the edges, and the end is the last type. */
  lemma {:induction false} WalkStepByStep(g: Graph, t: TypeId, w: Walk)
    requires IsWalk(g, t, w)
    ensures |Visited(g, t, w)| == |w| + 1 && |Names(g, t, w)| == |w|
    ensures Visited(g, t, w)[0] == t && End(g, t, w) == Visited(g, t, w)[|w|]
    ensures forall p | 0 <= p < |w| ::
              var es := Edges(g, Visited(g, t, w)[p]);
              w[p] < |es| && Visited(g, t, w)[p + 1] == es[w[p]].target && Names(g, t, w)[p] == es[w[p]].name
    decreases |w|
  {
    hide Edges;
    if w != [] {
      var u, tail := Edges(g, t)[w[0]].target, w[1..];
      WalkStepByStep(g, u, tail);
      var vs, us := Visited(g, t, w), Visited(g, u, tail);
      var names := Names(g, t, w);
      assert vs == [t] + us && names == [Edges(g, t)[w[0]].name] + Names(g, u, tail);
      hide Visited, Names, IsWalk;
      forall p | 0 <= p < |w|
        ensures w[p] < |Edges(g, vs[p])|
        ensures vs[p + 1] == Edges(g, vs[p])[w[p]].target && names[p] == Edges(g, vs[p])[w[p]].name
      {
        if p > 0 {
          assert w[p] == tail[p - 1] && vs[p] == us[p - 1] && vs[p + 1] == us[p];
          assert names[p] == Names(g, u, tail)[p - 1];
        }
      }
    }
  }

  /** Conversely, whatever can be taken step by step is a walk. */
  lemma {:induction false} StepsAreWalk(g: Graph, w: Walk, vs: seq<TypeId>)
    requires |vs| == |w| + 1
    requires forall p | 0 <= p < |w| :: w[p] < |Edges(g, vs[p])| && vs[p + 1] == Edges(g, vs[p])[w[p]].target
    ensures IsWalk(g, vs[0], w) && Visited(g, vs[0], w) == vs
    decreases |w|
  {
    hide Edges;
    if w != [] {
      forall p | 0 <= p < |w[1..]|
        ensures w[1..][p] < |Edges(g, vs[1..][p])| && vs[1..][p + 1] == Edges(g, vs[1..][p])[w[1..][p]].target
      {
        assert w[1..][p] == w[p + 1] && vs[1..][p] == vs[p + 1] && vs[1..][p + 1] == vs[p + 2];
      }
      StepsAreWalk(g, w[1..], vs[1..]);
      assert vs == [vs[0]] + vs[1..];
    }
  }

  // ---------- The walks a depth-first traversal meets ----------

  function Prefixed(k: nat, ws: seq<Walk>): seq<Walk> {
    seq(|ws|, i requires 0 <= i < |ws| => [k] + ws[i])
  }

  /** The walks met from t below the ancestors `anc`, in the order in which they are met. */
  function Walks(g: Graph, t: TypeId, anc: set<TypeId>): seq<Walk>
    decreases Rank(g, anc, t), |Edges(g, t)| + 1
  {
    if t in anc then [] else [[]] + WalksVia(g, t, anc, |Edges(g, t)|)
  }

  /** Those that begin with one of the first n edges of t. */
  function WalksVia(g: Graph, t: TypeId, anc: set<TypeId>, n: nat): seq<Walk>
    requires t !in anc && n <= |Edges(g, t)|
    decreases Rank(g, anc, t), n
  {
    if n == 0 then []
    else
      var u := Edges(g, t)[n - 1].target;
      assert Rank(g, anc + {t}, u) < Rank(g, anc, t) by { RankDescends(g, anc, t, n - 1); }
      WalksVia(g, t, anc, n - 1) + Prefixed(n - 1, Walks(g, u, anc + {t}))
  }

  lemma PrefixedMember(k: nat, ws: seq<Walk>, w: Walk)
    ensures w in Prefixed(k, ws) <==> w != [] && w[0] == k && w[1..] in ws
  {
    var ps := Prefixed(k, ws);
    if w in ps {
      var i :| 0 <= i < |ps| && ps[i] == w;
      assert w[1..] == ws[i];
    }
    if w != [] && w[0] == k && w[1..] in ws {
      var i :| 0 <= i < |ws| && ws[i] == w[1..];
      assert ps[i] == w;
    }
  }

  lemma {:induction false} ViaMember(g: Graph, t: TypeId, anc: set<TypeId>, n: nat, w: Walk)
    requires t !in anc && n <= |Edges(g, t)|
    ensures w in WalksVia(g, t, anc, n) <==>
              w != [] && w[0] < n && w[1..] in Walks(g, Edges(g, t)[w[0]].target, anc + {t})
  {
    hide WalksVia, Walks, Prefixed, Rank, Edges;
    if n == 0 {
      NoneVia(g, t, anc);
    } else {
      ViaIs(g, t, anc, n);
      ViaMember(g, t, anc, n - 1, w);
      PrefixedMember(n - 1, Walks(g, Edges(g, t)[n - 1].target, anc + {t}), w);
    }
  }

  lemma DistinctCons(t: TypeId, s: seq<TypeId>)
    ensures Distinct([t] + s) <==> t !in s && Distinct(s)
  {
    var ts := [t] + s;
    assert forall i | 0 <= i < |s| :: ts[i + 1] == s[i];
    if Distinct(ts) {
      forall i, j | 0 <= i < j < |s| ensures s[i] != s[j] {
        assert ts[i + 1] != ts[j + 1];
      }
      forall i | 0 <= i < |s| ensures s[i] != t {
        assert ts[0] != ts[i + 1];
      }
    }
  }

  lemma NoneTwice()
    ensures Distinct<TypeId>([]) && forall t: TypeId :: [t] + [] == [t]
  {
  }

  /** The traversal meets exactly the simple walks: each is one, and every one is met. */
  lemma {:induction false} WalksAreTheSimpleWalks(g: Graph, t: TypeId, anc: set<TypeId>, w: Walk)
    ensures w in Walks(g, t, anc) <==> IsSimpleWalk(g, t, anc, w)
    decreases Rank(g, anc, t)
  {
    hide WalksVia, Edges, Rank, Distinct;
    if t in anc {
      assert Visited(g, t, w)[0] == t;
    } else {
      ViaMember(g, t, anc, |Edges(g, t)|, w);
      if w != [] && w[0] < |Edges(g, t)| {
        RankDescends(g, anc, t, w[0]);
        WalksAreTheSimpleWalks(g, Edges(g, t)[w[0]].target, anc + {t}, w[1..]);
        SimpleStep(g, t, anc, w);
      } else {
        assert w == [] ==> Visited(g, t, w) == [t] && Distinct([t]) by { DistinctCons(t, []); NoneTwice(); }
      }
    }
  }

  /** A walk is simple when its first step leaves t for a walk that is simple without t. */
  lemma SimpleStep(g: Graph, t: TypeId, anc: set<TypeId>, w: Walk)
    requires t !in anc && w != [] && w[0] < |Edges(g, t)|
    ensures IsSimpleWalk(g, t, anc, w) <==> IsSimpleWalk(g, Edges(g, t)[w[0]].target, anc + {t}, w[1..])
  {
    var rest := Visited(g, Edges(g, t)[w[0]].target, w[1..]);
    assert Visited(g, t, w) == [t] + rest;
    assert IsWalk(g, t, w) <==> IsWalk(g, Edges(g, t)[w[0]].target, w[1..]);
    DistinctCons(t, rest);
    hide Visited, Edges, Distinct, IsWalk;
    assert forall v :: v in [t] + rest <==> v == t || v in rest;
  }

  // ---------- Each once, in depth-first preorder ----------

  /** The preorder: a walk before its extensions, and earlier edges before later ones. */
  ghost predicate Before(a: Walk, b: Walk) {
    b != [] && (a == [] || a[0] < b[0] || (a[0] == b[0] && Before(a[1..], b[1..])))
  }

  /** That is, a is the beginning of b, or the first step in which they differ is the smaller one. */
  lemma {:induction false} BeforeIff(a: Walk, b: Walk)
    ensures Before(a, b) <==>
              (a != b && a <= b) ||
              exists p :: 0 <= p < |a| && p < |b| && a[..p] == b[..p] && a[p] < b[p]
  {
    if a != [] && b != [] && a[0] == b[0] {
      BeforeIff(a[1..], b[1..]);
      BeforeShift(a, b);
    } else if a != [] && b != [] {
      assert a[..0] == b[..0];
      assert forall p | 0 < p < |a| && p < |b| :: a[..p][0] == a[0] && b[..p][0] == b[0];
    }
  }

  lemma BeforeShift(a: Walk, b: Walk)
    requires a != [] && b != [] && a[0] == b[0]
    ensures a != b && a <= b <==> a[1..] != b[1..] && a[1..] <= b[1..]
    ensures (exists p :: 0 <= p < |a| && p < |b| && a[..p] == b[..p] && a[p] < b[p]) <==>
            (exists p :: 0 <= p < |a[1..]| && p < |b[1..]| && a[1..][..p] == b[1..][..p] && a[1..][p] < b[1..][p])
  {
    assert a == [a[0]] + a[1..] && b == [b[0]] + b[1..];
    if p :| 0 <= p < |a| && p < |b| && a[..p] == b[..p] && a[p] < b[p] {
      assert a[1..][..p - 1] == a[..p][1..] && b[1..][..p - 1] == b[..p][1..];
      assert a[1..][p - 1] < b[1..][p - 1];
    }
    if p :| 0 <= p < |a[1..]| && p < |b[1..]| && a[1..][..p] == b[1..][..p] && a[1..][p] < b[1..][p] {
      assert a[..p + 1] == [a[0]] + a[1..][..p] && b[..p + 1] == [b[0]] + b[1..][..p];
      assert a[p + 1] < b[p + 1];
    }
  }

  ghost predicate InPreorder(ws: seq<Walk>) {
    forall i, j | 0 <= i < j < |ws| :: Before(ws[i], ws[j])
  }

  lemma {:induction false} BeforeIsStrict(a: Walk)
    ensures !Before(a, a)
  {
    if a != [] { BeforeIsStrict(a[1..]); }
  }

  lemma PrefixedInPreorder(k: nat, ws: seq<Walk>)
    requires InPreorder(ws)
    ensures InPreorder(Prefixed(k, ws))
  {
    var ps := Prefixed(k, ws);
    forall i, j | 0 <= i < j < |ps| ensures Before(ps[i], ps[j]) {
      assert ps[i][1..] == ws[i] && ps[j][1..] == ws[j];
    }
  }

  lemma AppendInPreorder(xs: seq<Walk>, ys: seq<Walk>)
    requires InPreorder(xs) && InPreorder(ys)
    requires forall x, y | x in xs && y in ys :: Before(x, y)
    ensures InPreorder(xs + ys)
  {
    var zs := xs + ys;
    forall i, j | 0 <= i < j < |zs| ensures Before(zs[i], zs[j]) {
      if i < |xs| <= j { assert xs[i] in xs && ys[j - |xs|] in ys; }
    }
  }

  lemma NoneVia(g: Graph, t: TypeId, anc: set<TypeId>)
    requires t !in anc
    ensures WalksVia(g, t, anc, 0) == []
  {
  }

  lemma NoneInPreorder(g: Graph, t: TypeId, anc: set<TypeId>)
    requires t !in anc
    ensures InPreorder(WalksVia(g, t, anc, 0))
  {
  }

  lemma ViaIs(g: Graph, t: TypeId, anc: set<TypeId>, n: nat)
    requires t !in anc && 0 < n <= |Edges(g, t)|
    ensures WalksVia(g, t, anc, n)
         == WalksVia(g, t, anc, n - 1) + Prefixed(n - 1, Walks(g, Edges(g, t)[n - 1].target, anc + {t}))
  {
    hide Edges, Rank, Prefixed, Walks;
  }

  lemma {:induction false} ViaInPreorder(g: Graph, t: TypeId, anc: set<TypeId>, n: nat)
    requires t !in anc && n <= |Edges(g, t)|
    ensures InPreorder(WalksVia(g, t, anc, n))
    decreases Rank(g, anc, t), n
  {
    hide Walks, WalksVia, Prefixed, InPreorder, Rank, Edges;
    if n == 0 {
      NoneInPreorder(g, t, anc);
    } else {
      RankDescends(g, anc, t, n - 1);
      var u := Edges(g, t)[n - 1].target;
      var xs, below := WalksVia(g, t, anc, n - 1), Walks(g, u, anc + {t});
      ViaIs(g, t, anc, n);
      ViaInPreorder(g, t, anc, n - 1);
      WalksInPreorder(g, u, anc + {t});
      PrefixedInPreorder(n - 1, below);
      forall x, y | x in xs && y in Prefixed(n - 1, below) ensures Before(x, y) {
        ViaMember(g, t, anc, n - 1, x);
        PrefixedMember(n - 1, below, y);
      }
      AppendInPreorder(xs, Prefixed(n - 1, below));
    }
  }

  /** The walks are met in strict preorder, hence none of them twice. */
  lemma {:induction false} WalksInPreorder(g: Graph, t: TypeId, anc: set<TypeId>)
    ensures InPreorder(Walks(g, t, anc))
    ensures Distinct(Walks(g, t, anc))
    decreases Rank(g, anc, t), |Edges(g, t)| + 1
  {
    var ws := Walks(g, t, anc);
    if t !in anc {
      var n := |Edges(g, t)|;
      ViaInPreorder(g, t, anc, n);
      forall x, y | x in [[]] && y in WalksVia(g, t, anc, n) ensures Before(x, y) {
        ViaMember(g, t, anc, n, y);
      }
      AppendInPreorder([[]], WalksVia(g, t, anc, n));
    }
    forall i, j | 0 <= i < j < |ws| ensures ws[i] != ws[j] {
      BeforeIsStrict(ws[i]);
    }
  }

  lemma {:induction false} BeforeIsTransitive(a: Walk, b: Walk, c: Walk)
    requires Before(a, b) && Before(b, c)
    ensures Before(a, c)
  {
    if a != [] && a[0] == b[0] == c[0] {
      BeforeIsTransitive(a[1..], b[1..], c[1..]);
    }
  }

  lemma InTail(ws: seq<Walk>, w: Walk)
    requires InPreorder(ws) && ws != []
    ensures w in ws[1..] <==> w in ws && w != ws[0]
  {
    BeforeIsStrict(w);
    hide Before;
    assert forall v :: v in ws <==> v == ws[0] || v in ws[1..];
    if w in ws[1..] {
      var i :| 0 < i < |ws| && ws[i] == w;
    }
  }

  /** Preorder leaves no choice: there is only one such list of the same walks. */
  lemma {:induction false} PreorderIsUnique(xs: seq<Walk>, ys: seq<Walk>)
    requires InPreorder(xs) && InPreorder(ys) && forall w :: w in xs <==> w in ys
    ensures xs == ys
  {
    assert forall i | 0 <= i < |xs| :: xs[i] in xs;
    assert forall i | 0 <= i < |ys| :: ys[i] in ys;
    if xs != [] && ys != [] {
      assert xs[0] in ys && ys[0] in xs;
      if xs[0] != ys[0] {
        BeforeIsTransitive(xs[0], ys[0], xs[0]);
        BeforeIsStrict(xs[0]);
      }
      forall w ensures w in xs[1..] <==> w in ys[1..] {
        InTail(xs, w);
        InTail(ys, w);
      }
      PreorderIsUnique(xs[1..], ys[1..]);
    }
  }

  // ---------- Every reachable type is met ----------

  /** A walk that avoids `anc` can be cut down to a simple one with the same ends. */
  lemma {:induction false} CutLoops(g: Graph, t: TypeId, anc: set<TypeId>, w: Walk) returns (s: Walk)
    requires IsWalk(g, t, w) && forall v | v in Visited(g, t, w) :: v !in anc
    ensures IsSimpleWalk(g, t, anc, s) && End(g, t, s) == End(g, t, w)
    decreases |w|
  {
    if t == End(g, t, w) {
      s := [];
    } else {
      var k, rest := LastStepFrom(g, t, t, w);
      var u := Edges(g, t)[k].target;
      var tail := CutLoops(g, u, anc + {t}, rest);
      s := [k] + tail;
      assert s[1..] == tail;
      DistinctCons(t, Visited(g, u, tail));
    }
  }

  /** The step with which a walk leaves vertex x for the last time, and what comes after it. */
  lemma {:induction false} LastStepFrom(g: Graph, x: TypeId, t: TypeId, w: Walk) returns (k: nat, rest: Walk)
    requires IsWalk(g, t, w) && x in Visited(g, t, w) && x != End(g, t, w)
    ensures k < |Edges(g, x)| && |rest| < |w|
    ensures IsWalk(g, Edges(g, x)[k].target, rest) && End(g, Edges(g, x)[k].target, rest) == End(g, t, w)
    ensures x !in Visited(g, Edges(g, x)[k].target, rest)
    ensures forall v | v in Visited(g, Edges(g, x)[k].target, rest) :: v in Visited(g, t, w)
    decreases |w|
  {
    var u := Edges(g, t)[w[0]].target;
    if x in Visited(g, u, w[1..]) {
      k, rest := LastStepFrom(g, x, u, w[1..]);
    } else {
      k, rest := w[0], w[1..];
    }
  }
}
