/** remove_trailing_whitespace_changes on values. Where a chunk's i-th source line is its i-th
    destination line plus one blank, that blank is put back; both views share the context lines,
    so an extended context line changes the source side too. */
module PatchRewrite {
  import opened PatchFormat
  import opened Places

  // ---------- The two views of a chunk, as positions in its line list ----------

  function SrcAt(ls: seq<Line>): seq<nat> {
    if ls == [] then []
    else SrcAt(ls[..|ls| - 1]) + if InSrc(ls[|ls| - 1]) then [|ls| - 1] else []
  }

  function DstAt(ls: seq<Line>): seq<nat> {
    if ls == [] then []
    else DstAt(ls[..|ls| - 1]) + if InDst(ls[|ls| - 1]) then [|ls| - 1] else []
  }

  lemma {:induction false} SrcAtIs(ls: seq<Line>)
    ensures Ascending(SrcAt(ls), |ls|) && |SrcAt(ls)| == SrcLen(ls)
    ensures forall k: nat :: k in SrcAt(ls) <==> k < |ls| && InSrc(ls[k])
  {
    if ls != [] {
      SrcAtIs(ls[..|ls| - 1]);
    }
  }

  lemma {:induction false} DstAtIs(ls: seq<Line>)
    ensures Ascending(DstAt(ls), |ls|) && |DstAt(ls)| == DstLen(ls)
    ensures forall k: nat :: k in DstAt(ls) <==> k < |ls| && InDst(ls[k])
  {
    if ls != [] {
      DstAtIs(ls[..|ls| - 1]);
    }
  }

  function Pairs(ls: seq<Line>): nat {
    if |SrcAt(ls)| <= |DstAt(ls)| then |SrcAt(ls)| else |DstAt(ls)|
  }

  /** The loop over the source lines runs past the end of the destination lines. */
  predicate RunsShort(ls: seq<Line>) {
    |DstAt(ls)| < |SrcAt(ls)|
  }

  // ---------- One chunk ----------

  predicate IsBlank(c: char) {
    c == ' ' || c == '\t'
  }

  /** s is d plus one blank. The pattern's first group is greedy, so it leaves just one blank to
      the second; texts hold no newline. */
  predicate Extends(s: string, d: string) {
    s != "" && IsBlank(s[|s| - 1]) && s[..|s| - 1] == d
  }

  lemma ExtendsIff(s: string, d: string)
    ensures Extends(s, d) <==> s == d + " " || s == d + "\t"
  {
    if Extends(s, d) { assert s == d + [s[|s| - 1]]; }
    assert (d + " ")[..|d|] == d && (d + "\t")[..|d|] == d;
  }

  function ExtendOne(ls: seq<Line>, s: nat, d: nat): (r: seq<Line>)
    requires s < |ls| && d < |ls|
    ensures |r| == |ls|
  {
    if Extends(ls[s].text, ls[d].text) then ls[d := ls[d].(text := ls[s].text)] else ls
  }

  /** The chunk's lines after the first n pairs. The positions are taken before the loop. */
  function Rewritten(ls: seq<Line>, n: nat): (r: seq<Line>)
    requires n <= Pairs(ls)
    ensures |r| == |ls|
  {
    if n == 0 then ls
    else
      SrcAtIs(ls);
      DstAtIs(ls);
      ExtendOne(Rewritten(ls, n - 1), SrcAt(ls)[n - 1], DstAt(ls)[n - 1])
  }

  function RewriteLines(ls: seq<Line>): seq<Line> {
    Rewritten(ls, Pairs(ls))
  }

  /** A pair touches its own destination line only. */
  lemma {:induction false} Unvisited(ls: seq<Line>, n: nat, k: nat)
    requires n <= Pairs(ls) && k < |ls|
    requires forall j | 0 <= j < n :: DstAt(ls)[j] != k
    ensures Rewritten(ls, n)[k] == ls[k]
  {
    if n > 0 {
      SrcAtIs(ls);
      DstAtIs(ls);
      Unvisited(ls, n - 1, k);
    }
  }

  /** Line i of the destination view is settled by pair i alone. */
  lemma {:induction false} Settled(ls: seq<Line>, i: nat, n: nat)
    requires i < n <= Pairs(ls)
    ensures DstAt(ls)[i] < |ls|
    ensures Rewritten(ls, n)[DstAt(ls)[i]] == Rewritten(ls, i + 1)[DstAt(ls)[i]]
  {
    SrcAtIs(ls);
    DstAtIs(ls);
    if i + 1 < n {
      Settled(ls, i, n - 1);
    }
  }

  /** No rewriting adds, drops or reorders a line, or changes its kind; a text changes by one blank
      at its end at the most, and only on the destination side. */
  lemma OneBlankAtMost(ls: seq<Line>, k: nat)
    requires k < |ls|
    ensures |RewriteLines(ls)| == |ls| && RewriteLines(ls)[k].kind == ls[k].kind
    ensures RewriteLines(ls)[k] == ls[k] || (InDst(ls[k]) && Extends(RewriteLines(ls)[k].text, ls[k].text))
  {
    SrcAtIs(ls);
    DstAtIs(ls);
    if i :| 0 <= i < Pairs(ls) && DstAt(ls)[i] == k {
      Settled(ls, i, Pairs(ls));
      Unvisited(ls, i, k);
    } else {
      Unvisited(ls, Pairs(ls), k);
    }
  }

  // ---------- When the source side stays as it is ----------

  /** The destination line of pair i is a context line one blank short of its source line. */
  predicate ContextGetsBlank(ls: seq<Line>, i: nat)
    requires i < Pairs(ls)
  {
    SrcAtIs(ls);
    DstAtIs(ls);
    ls[DstAt(ls)[i]].kind == Both && Extends(ls[SrcAt(ls)[i]].text, ls[DstAt(ls)[i]].text)
  }

  predicate SourceKept(ls: seq<Line>) {
    forall i | 0 <= i < Pairs(ls) :: !ContextGetsBlank(ls, i)
  }

  ghost predicate SameSource(before: seq<Line>, after: seq<Line>) {
    |after| == |before| && forall k | 0 <= k < |before| && InSrc(before[k]) :: after[k] == before[k]
  }

  /** Before its turn, a pair has its original destination line. */
  lemma PairIs(ls: seq<Line>, i: nat)
    requires i < Pairs(ls)
    ensures SrcAt(ls)[i] < |ls| && DstAt(ls)[i] < |ls|
    ensures InSrc(ls[SrcAt(ls)[i]]) && InDst(ls[DstAt(ls)[i]])
    ensures Rewritten(ls, i)[DstAt(ls)[i]] == ls[DstAt(ls)[i]]
  {
    SrcAtIs(ls);
    DstAtIs(ls);
    assert SrcAt(ls)[i] in SrcAt(ls) && DstAt(ls)[i] in DstAt(ls);
    Unvisited(ls, i, DstAt(ls)[i]);
  }

  lemma {:induction false} KeptUpTo(ls: seq<Line>, n: nat)
    requires n <= Pairs(ls)
    requires forall i | 0 <= i < n :: !ContextGetsBlank(ls, i)
    ensures SameSource(ls, Rewritten(ls, n))
  {
    if n > 0 {
      KeptUpTo(ls, n - 1);
      PairIs(ls, n - 1);
      hide SrcAt, DstAt;
      var s, d := SrcAt(ls)[n - 1], DstAt(ls)[n - 1];
      assert Rewritten(ls, n) == ExtendOne(Rewritten(ls, n - 1), s, d);
      hide Rewritten;
      assert !ContextGetsBlank(ls, n - 1);
    }
  }

  /** The source view survives exactly when no context line gets a blank. */
  lemma SourceUnchangedIff(ls: seq<Line>)
    ensures SameSource(ls, RewriteLines(ls)) <==> SourceKept(ls)
  {
    SrcAtIs(ls);
    DstAtIs(ls);
    if SourceKept(ls) {
      KeptUpTo(ls, Pairs(ls));
    } else {
      var i := FirstContextExtended(ls);
      var d := DstAt(ls)[i];
      KeptUpTo(ls, i);
      assert SrcAt(ls)[i] in SrcAt(ls);
      Unvisited(ls, i, d);
      Settled(ls, i, Pairs(ls));
      assert |RewriteLines(ls)[d].text| == |ls[d].text| + 1;
    }
  }

  lemma FirstContextExtended(ls: seq<Line>) returns (i: nat)
    requires !SourceKept(ls)
    ensures i < Pairs(ls) && ContextGetsBlank(ls, i)
    ensures forall j | 0 <= j < i :: !ContextGetsBlank(ls, j)
  {
    i := 0;
    while !ContextGetsBlank(ls, i)
      invariant i < Pairs(ls)
      invariant forall j | 0 <= j < i :: !ContextGetsBlank(ls, j)
      decreases Pairs(ls) - i
    {
      i := i + 1;
    }
  }

  // ---------- What every destination line becomes ----------

  /** The text that the source line of pair i has when its turn comes: an earlier pair whose
      destination line it is may have put a blank behind it. */
  ghost function TurnText(ls: seq<Line>, i: nat): string
    requires i < Pairs(ls)
  {
    SrcAtIs(ls);
    var own := ls[SrcAt(ls)[i]].text;
    if exists j: nat :: j < i && DstAt(ls)[j] == SrcAt(ls)[i] then
      var j: nat :| j < i && DstAt(ls)[j] == SrcAt(ls)[i];
      if Extends(TurnText(ls, j), own) then TurnText(ls, j) else own
    else own
  }

  lemma {:induction false} TurnTextIs(ls: seq<Line>, i: nat)
    requires i < Pairs(ls)
    ensures SrcAt(ls)[i] < |ls| && Rewritten(ls, i)[SrcAt(ls)[i]].text == TurnText(ls, i)
  {
    PairIs(ls, i);
    if j: nat :| j < i && DstAt(ls)[j] == SrcAt(ls)[i] {
      OnlyPairOf(ls, j);
      TurnTextIs(ls, j);
      PairIs(ls, j);
      Settled(ls, j, i);
    } else {
      Unvisited(ls, i, SrcAt(ls)[i]);
    }
  }

  /** The positions differ, so a line is the destination line of one pair only. */
  lemma OnlyPairOf(ls: seq<Line>, j: nat)
    requires j < Pairs(ls)
    ensures forall k | 0 <= k < |DstAt(ls)| && DstAt(ls)[k] == DstAt(ls)[j] :: k == j
  {
    DstAtIs(ls);
  }

  /** Every destination line becomes the source line it is paired with, as that one is at its turn,
      exactly when that is it plus one blank; where the source side is kept, as it was. */
  lemma DestinationGetsBlankIff(ls: seq<Line>, i: nat)
    requires i < Pairs(ls)
    ensures SrcAt(ls)[i] < |ls| && DstAt(ls)[i] < |ls|
    ensures var d, text := ls[DstAt(ls)[i]], TurnText(ls, i);
            RewriteLines(ls)[DstAt(ls)[i]] == if Extends(text, d.text) then d.(text := text) else d
    ensures SourceKept(ls) ==> TurnText(ls, i) == ls[SrcAt(ls)[i]].text
  {
    PairIs(ls, i);
    TurnTextIs(ls, i);
    Settled(ls, i, Pairs(ls));
    if SourceKept(ls) { KeptUpTo(ls, i); }
  }

  /** Every context line stands at the same place in both views. */
  ghost predicate Aligned(ls: seq<Line>) {
    forall i, j | 0 <= i < |SrcAt(ls)| && 0 <= j < |DstAt(ls)| :: SrcAt(ls)[i] == DstAt(ls)[j] ==> i == j
  }

  lemma AlignedKeepsSource(ls: seq<Line>)
    requires Aligned(ls)
    ensures SourceKept(ls) && SameSource(ls, RewriteLines(ls))
  {
    SrcAtIs(ls);
    DstAtIs(ls);
    forall i | 0 <= i < Pairs(ls) && ls[DstAt(ls)[i]].kind == Both
      ensures !ContextGetsBlank(ls, i)
    {
      assert DstAt(ls)[i] in SrcAt(ls) by { assert DstAt(ls)[i] in DstAt(ls); }
      var j :| 0 <= j < |SrcAt(ls)| && SrcAt(ls)[j] == DstAt(ls)[i];
      assert j == i;
    }
    SourceUnchangedIff(ls);
  }

  lemma ThreeLines(ls: seq<Line>)
    requires |ls| == 3 && ls[0].kind == Src && ls[1].kind == Both && ls[2].kind == Dst
    ensures SrcAt(ls) == [0, 1] && DstAt(ls) == [1, 2]
    ensures RewriteLines(ls) == ExtendOne(ExtendOne(ls, 0, 1), 1, 2)
  {
    assert ls[..2][..1] == [ls[0]] && ls[..2] == [ls[0], ls[1]] && ls[..1][..0] == [];
    assert SrcAt(ls[..1]) == [0] && SrcAt(ls[..2]) == [0, 1] && SrcAt(ls) == [0, 1];
    assert DstAt(ls[..1]) == [] && DstAt(ls[..2]) == [1] && DstAt(ls) == [1, 2];
    assert Rewritten(ls, 0) == ls;
    assert Rewritten(ls, 1) == ExtendOne(ls, 0, 1);
  }

  /** Not every chunk keeps its source side: here a context line is paired with a source line that
      precedes it, and gains a blank in both views. */
  lemma MisalignedChunkChangesSource()
    ensures var ls := [Line(Src, "x "), Line(Both, "x"), Line(Dst, "y")];
            !RunsShort(ls) && !SameSource(ls, RewriteLines(ls)) && RewriteLines(ls)[1] == Line(Both, "x ")
  {
    var ls := [Line(Src, "x "), Line(Both, "x"), Line(Dst, "y")];
    ThreeLines(ls);
    assert RewriteLines(ls) == ls[1 := Line(Both, "x ")];
  }

  lemma {:induction false} SamePositions(a: seq<Line>, b: seq<Line>)
    requires |a| == |b| && forall k | 0 <= k < |a| :: a[k].kind == b[k].kind
    ensures SrcAt(a) == SrcAt(b) && DstAt(a) == DstAt(b)
  {
    if a != [] {
      SamePositions(a[..|a| - 1], b[..|b| - 1]);
    }
  }

  lemma RewriteKeepsPositions(ls: seq<Line>)
    ensures SrcAt(RewriteLines(ls)) == SrcAt(ls) && DstAt(RewriteLines(ls)) == DstAt(ls)
  {
    forall k | 0 <= k < |ls| ensures RewriteLines(ls)[k].kind == ls[k].kind {
      OneBlankAtMost(ls, k);
    }
    SamePositions(RewriteLines(ls), ls);
  }

  // ---------- A second pass ----------

  /** Pair i would get a blank if the pass began with it. */
  predicate CanExtend(ls: seq<Line>, i: nat)
    requires i < Pairs(ls)
  {
    SrcAtIs(ls);
    DstAtIs(ls);
    Extends(ls[SrcAt(ls)[i]].text, ls[DstAt(ls)[i]].text)
  }

  lemma {:induction false} NothingToExtend(ls: seq<Line>, n: nat)
    requires n <= Pairs(ls) && forall i | 0 <= i < n :: !CanExtend(ls, i)
    ensures Rewritten(ls, n) == ls
  {
    if n > 0 {
      NothingToExtend(ls, n - 1);
      assert !CanExtend(ls, n - 1);
    }
  }

  lemma {:induction false} NothingExtended(ls: seq<Line>, n: nat)
    requires n <= Pairs(ls) && RewriteLines(ls) == ls
    ensures Rewritten(ls, n) == ls && forall i | 0 <= i < n :: !CanExtend(ls, i)
  {
    if n > 0 {
      NothingExtended(ls, n - 1);
      PairIs(ls, n - 1);
      Settled(ls, n - 1, Pairs(ls));
    }
  }

  /** The source line of pair i is the destination line of a later pair and gets a blank there; the
      destination line of pair i, which is then the same without that blank, came too early. */
  ghost predicate ChangesAgain(ls: seq<Line>, i: nat, j: nat)
    requires i < j < Pairs(ls)
  {
    SrcAtIs(ls);
    DstAtIs(ls);
    var c, d := ls[SrcAt(ls)[i]].text, ls[DstAt(ls)[i]].text;
    SrcAt(ls)[i] == DstAt(ls)[j] && Extends(TurnText(ls, j), c) && (c == d || Extends(c, d))
  }

  /** One pass over the chunk is enough. */
  ghost predicate RewriteSettles(ls: seq<Line>) {
    forall i: nat, j: nat | i < j < Pairs(ls) :: !ChangesAgain(ls, i, j)
  }

  lemma CanExtendAfter(ls: seq<Line>, i: nat)
    requires i < Pairs(ls) == Pairs(RewriteLines(ls))
    ensures CanExtend(RewriteLines(ls), i) <==> exists j: nat :: i < j < Pairs(ls) && ChangesAgain(ls, i, j)
  {
    var r := RewriteLines(ls);
    RewriteKeepsPositions(ls);
    PairIs(ls, i);
    TurnTextIs(ls, i);
    DestinationGetsBlankIff(ls, i);
    var s := SrcAt(ls)[i];
    if j: nat :| j < Pairs(ls) && DstAt(ls)[j] == s {
      OnlyPairOf(ls, j);
      DestinationGetsBlankIff(ls, j);
      if j < i {
        Settled(ls, j, i);
        Settled(ls, j, Pairs(ls));
      } else {
        Unvisited(ls, i, s);
        assert TurnText(ls, i) == ls[s].text;
        if j > i { assert CanExtend(r, i) <==> ChangesAgain(ls, i, j); }
      }
    } else {
      Unvisited(ls, i, s);
      Unvisited(ls, Pairs(ls), s);
    }
  }

  /** A second pass changes nothing exactly when no pair came too early, which is so whenever the
      source side is kept. */
  lemma RewriteTwice(ls: seq<Line>)
    ensures RewriteLines(RewriteLines(ls)) == RewriteLines(ls) <==> RewriteSettles(ls)
    ensures SourceKept(ls) ==> RewriteSettles(ls)
  {
    var r := RewriteLines(ls);
    RewriteKeepsPositions(ls);
    hide SrcAt, DstAt, Rewritten;
    if i: nat :| i < Pairs(r) && CanExtend(r, i) {
      CanExtendAfter(ls, i);
      if RewriteLines(r) == r { NothingExtended(r, Pairs(r)); }
    } else {
      NothingToExtend(r, Pairs(r));
      forall i: nat, j: nat | i < j < Pairs(ls) ensures !ChangesAgain(ls, i, j) {
        CanExtendAfter(ls, i);
        assert !CanExtend(r, i);
      }
    }
    if SourceKept(ls) {
      forall i: nat, j: nat | i < j < Pairs(ls) ensures !ChangesAgain(ls, i, j) {
        KeptChangesOnce(ls, i, j);
      }
    }
  }

  lemma KeptChangesOnce(ls: seq<Line>, i: nat, j: nat)
    requires SourceKept(ls) && i < j < Pairs(ls)
    ensures !ChangesAgain(ls, i, j)
  {
    PairIs(ls, i);
    PairIs(ls, j);
    DestinationGetsBlankIff(ls, j);
    assert !ContextGetsBlank(ls, j);
  }

  /** A chunk that a first pass and then a second one change. */
  lemma SecondPassCanChange()
    ensures var ls := [Line(Dst, "x "), Line(Both, "x "), Line(Src, "x  ")];
            && !RunsShort(ls)
            && RewriteLines(ls) == ls[1 := Line(Both, "x  ")]
            && RewriteLines(RewriteLines(ls)) == ls[0 := Line(Dst, "x  ")][1 := Line(Both, "x  ")]
  {
    var ls := [Line(Dst, "x "), Line(Both, "x "), Line(Src, "x  ")];
    LaterExample(ls);
    LaterExample(ls[1 := Line(Both, "x  ")]);
  }

  lemma LaterExample(ls: seq<Line>)
    requires |ls| == 3 && ls[0].kind == Dst && ls[1].kind == Both && ls[2].kind == Src
    ensures SrcAt(ls) == [1, 2] && DstAt(ls) == [0, 1]
    ensures RewriteLines(ls) == ExtendOne(ExtendOne(ls, 1, 0), 2, 1)
  {
    assert ls[..2][..1] == [ls[0]] && ls[..2] == [ls[0], ls[1]] && ls[..1][..0] == [];
    assert SrcAt(ls[..1]) == [] && SrcAt(ls[..2]) == [1] && SrcAt(ls) == [1, 2];
    assert DstAt(ls[..1]) == [0] && DstAt(ls[..2]) == [0, 1] && DstAt(ls) == [0, 1];
    assert Rewritten(ls, 0) == ls;
    assert Rewritten(ls, 1) == ExtendOne(ls, 1, 0);
  }

  // ---------- A whole patch set ----------

  /** The chunks in order; the loop over a chunk whose destination list runs short ends the whole
      pass, with that chunk's pairs done and nothing after it touched. */
  function RewriteChunks(cs: seq<Chunk>): (seq<Chunk>, bool) {
    if cs == [] then ([], false)
    else
      var c := cs[0].(lines := RewriteLines(cs[0].lines));
      if RunsShort(cs[0].lines) then ([c] + cs[1..], true)
      else var (rest, stopped) := RewriteChunks(cs[1..]); ([c] + rest, stopped)
  }

  function RewritePatches(ps: seq<Patch>): seq<Patch> {
    if ps == [] then []
    else
      var (cs, stopped) := RewriteChunks(ps[0].chunks);
      [ps[0].(chunks := cs)] + if stopped then ps[1..] else RewritePatches(ps[1..])
  }

  ghost predicate AnyShort(cs: seq<Chunk>) {
    exists j :: 0 <= j < |cs| && RunsShort(cs[j].lines)
  }

  lemma {:induction false} ChunksRewritten(cs: seq<Chunk>)
    ensures RewriteChunks(cs).1 == AnyShort(cs)
    ensures |RewriteChunks(cs).0| == |cs|
    ensures forall j | 0 <= j < |cs| ::
              RewriteChunks(cs).0[j] == if AnyShort(cs[..j]) then cs[j] else cs[j].(lines := RewriteLines(cs[j].lines))
  {
    hide RewriteLines, RunsShort, AnyShort;
    if cs == [] {
      NoneShort(cs);
    } else {
      ChunksRewritten(cs[1..]);
      ShortSplit(cs);
      NoneShort(cs[..0]);
      forall j | 0 < j < |cs|
        ensures AnyShort(cs[..j]) <==> RunsShort(cs[0].lines) || AnyShort(cs[1..][..j - 1])
      {
        ShortSplit(cs[..j]);
        assert cs[..j][1..] == cs[1..][..j - 1];
      }
      forall j | 0 < j < |cs|
        ensures RewriteChunks(cs).0[j] == if RunsShort(cs[0].lines) then cs[j] else RewriteChunks(cs[1..]).0[j - 1]
      {
      }
      hide RewriteChunks;
      assert forall j | 0 < j < |cs| :: cs[j] == cs[1..][j - 1];
    }
  }

  lemma NoneShort(cs: seq<Chunk>)
    requires cs == []
    ensures !AnyShort(cs)
  {
  }

  lemma ShortSplit(cs: seq<Chunk>)
    requires cs != []
    ensures AnyShort(cs) <==> RunsShort(cs[0].lines) || AnyShort(cs[1..])
  {
    hide RunsShort;
    if j :| 0 <= j < |cs| && RunsShort(cs[j].lines) {
      if j > 0 { assert RunsShort(cs[1..][j - 1].lines); }
    }
    if j :| 0 <= j < |cs[1..]| && RunsShort(cs[1..][j].lines) {
      assert RunsShort(cs[j + 1].lines);
    }
  }

  /** The pass has not yet ended when it comes to patch i. */
  ghost predicate Reached(ps: seq<Patch>, i: nat)
    requires i <= |ps|
  {
    forall h | 0 <= h < i :: !AnyShort(ps[h].chunks)
  }

  /** What the pass does to a patch set: the headers and the numbers of patches and chunks stay, and
      a chunk is rewritten exactly when no chunk before it ran short. */
  lemma {:induction false} PatchesRewritten(ps: seq<Patch>)
    ensures |RewritePatches(ps)| == |ps|
    ensures forall i | 0 <= i < |ps| ::
              RewritePatches(ps)[i] == if Reached(ps, i) then ps[i].(chunks := RewriteChunks(ps[i].chunks).0) else ps[i]
  {
    hide RewriteChunks, AnyShort, Reached;
    if ps != [] {
      var rest := ps[1..];
      PatchesRewritten(rest);
      ChunksRewritten(ps[0].chunks);
      FirstReached(ps);
      forall i | 0 < i < |ps|
        ensures RewritePatches(ps)[i] ==
                  if Reached(ps, i) then ps[i].(chunks := RewriteChunks(ps[i].chunks).0) else ps[i]
      {
        ReachedNext(ps, i);
        assert ps[i] == rest[i - 1];
      }
    }
  }

  lemma FirstReached(ps: seq<Patch>)
    ensures Reached(ps, 0)
  {
  }

  lemma ReachedNext(ps: seq<Patch>, i: nat)
    requires 0 < i <= |ps|
    ensures Reached(ps, i) <==> !AnyShort(ps[0].chunks) && Reached(ps[1..], i - 1)
  {
    hide AnyShort;
    var rest := ps[1..];
    assert forall h | 0 <= h < i - 1 :: rest[h] == ps[h + 1];
    if !Reached(ps, i) {
      var h :| 0 <= h < i && AnyShort(ps[h].chunks);
      if h > 0 { assert AnyShort(rest[h - 1].chunks); }
    }
  }

  /** The pass gets to chunk j of patch i. */
  ghost predicate Processed(ps: seq<Patch>, i: nat, j: nat) {
    i < |ps| && j < |ps[i].chunks| && Reached(ps, i) && !AnyShort(ps[i].chunks[..j])
  }

  lemma PatchRewritten(ps: seq<Patch>, i: nat)
    requires i < |ps|
    ensures |RewritePatches(ps)| == |ps|
    ensures RewritePatches(ps)[i] == ps[i].(chunks := RewritePatches(ps)[i].chunks)
    ensures |RewritePatches(ps)[i].chunks| == |ps[i].chunks|
    ensures forall j | 0 <= j < |ps[i].chunks| ::
              RewritePatches(ps)[i].chunks[j] ==
                if Processed(ps, i, j) then ps[i].chunks[j].(lines := RewriteLines(ps[i].chunks[j].lines))
                else ps[i].chunks[j]
  {
    hide RewritePatches, RewriteChunks, RewriteLines, AnyShort, Reached;
    PatchesRewritten(ps);
    ChunksRewritten(ps[i].chunks);
  }

  lemma SameShort(as': seq<Chunk>, bs: seq<Chunk>)
    requires |as'| == |bs| && forall j | 0 <= j < |as'| :: RunsShort(as'[j].lines) == RunsShort(bs[j].lines)
    ensures AnyShort(as') == AnyShort(bs)
  {
    hide RunsShort;
    if j :| 0 <= j < |bs| && RunsShort(bs[j].lines) { assert RunsShort(as'[j].lines); }
  }

  /** A second pass stops where the first one did. */
  lemma ShortAgain(ps: seq<Patch>, i: nat)
    requires i < |ps|
    ensures |RewritePatches(ps)| == |ps| && |RewritePatches(ps)[i].chunks| == |ps[i].chunks|
    ensures forall n | 0 <= n <= |ps[i].chunks| ::
              AnyShort(RewritePatches(ps)[i].chunks[..n]) == AnyShort(ps[i].chunks[..n])
    ensures AnyShort(RewritePatches(ps)[i].chunks) == AnyShort(ps[i].chunks)
  {
    PatchRewritten(ps, i);
    var cs, rs := ps[i].chunks, RewritePatches(ps)[i].chunks;
    forall j | 0 <= j < |cs| ensures RunsShort(rs[j].lines) == RunsShort(cs[j].lines) {
      RewriteKeepsPositions(cs[j].lines);
    }
    hide RewritePatches, RewriteLines, AnyShort, RunsShort;
    forall n | 0 <= n <= |cs| ensures AnyShort(rs[..n]) == AnyShort(cs[..n]) {
      SameShort(rs[..n], cs[..n]);
    }
    SameShort(rs, cs);
  }

  lemma ProcessedInside(ps: seq<Patch>, i: nat, j: nat)
    requires Processed(ps, i, j)
    ensures i < |ps| && j < |ps[i].chunks|
  {
  }

  lemma ProcessedAgain(ps: seq<Patch>, i: nat, j: nat)
    ensures Processed(RewritePatches(ps), i, j) <==> Processed(ps, i, j)
  {
    PatchesRewritten(ps);
    hide RewritePatches, AnyShort;
    if i < |ps| {
      forall h: nat | h <= i
        ensures AnyShort(RewritePatches(ps)[h].chunks) == AnyShort(ps[h].chunks)
        ensures |RewritePatches(ps)[h].chunks| == |ps[h].chunks|
      {
        ShortAgain(ps, h);
      }
      ShortAgain(ps, i);
    }
  }

  /** A second pass over a patch set changes nothing exactly when in no chunk that the pass gets to a
      pair came too early. */
  lemma RewritePatchesTwice(ps: seq<Patch>)
    ensures RewritePatches(RewritePatches(ps)) == RewritePatches(ps) <==>
              forall i: nat, j: nat | Processed(ps, i, j) :: RewriteSettles(ps[i].chunks[j].lines)
  {
    var rs := RewritePatches(ps);
    PatchesRewritten(ps);
    PatchesRewritten(rs);
    hide RewritePatches, RewriteLines, RewriteSettles, Reached, AnyShort, RewriteChunks;
    if RewritePatches(rs) == rs {
      forall i: nat, j: nat | Processed(ps, i, j) ensures RewriteSettles(ps[i].chunks[j].lines) {
        ChunkAgain(ps, i, j);
      }
    } else {
      var i: nat :| i < |ps| && RewritePatches(rs)[i] != rs[i];
      PatchRewritten(ps, i);
      PatchRewritten(rs, i);
      var j: nat :| j < |ps[i].chunks| && RewritePatches(rs)[i].chunks[j] != rs[i].chunks[j];
      ChunkAgain(ps, i, j);
    }
  }

  lemma ChunkAgain(ps: seq<Patch>, i: nat, j: nat)
    requires i < |ps| && j < |ps[i].chunks|
    ensures |RewritePatches(ps)| == |RewritePatches(RewritePatches(ps))| == |ps|
    ensures |RewritePatches(ps)[i].chunks| == |RewritePatches(RewritePatches(ps))[i].chunks| == |ps[i].chunks|
    ensures RewritePatches(RewritePatches(ps))[i].chunks[j] == RewritePatches(ps)[i].chunks[j] <==>
              (Processed(ps, i, j) ==> RewriteSettles(ps[i].chunks[j].lines))
  {
    hide RewritePatches, RewriteLines, RewriteSettles, Reached, AnyShort;
    PatchRewritten(ps, i);
    PatchRewritten(RewritePatches(ps), i);
    ProcessedAgain(ps, i, j);
    hide Processed;
    RewriteTwice(ps[i].chunks[j].lines);
  }

}
