/** The classes of check-style.py: lines, chunks and patches as objects that are updated in place,
    the parser that builds them, the writers, and the pass that changes line objects which a
    chunk's source and destination lists share. Each is proved against PatchFormat and
    PatchRewrite. */
module PatchObjects {
  import opened Options
  import V = PatchFormat
  import opened Text
  import opened PatchRoundTrip
  import opened PatchRewrite

  class PatchChunkLine {
    ghost const owner: PatchChunk  // the chunk this line was added to, and where
    ghost const at: nat
    const kind: V.Kind
    var line: string

    constructor (kind: V.Kind, line: string, ghost owner: PatchChunk, ghost at: nat)
      ensures this.kind == kind && this.line == line && this.owner == owner && this.at == at
    {
      this.kind, this.line, this.owner, this.at := kind, line, owner, at;
    }

    ghost function View(): V.Line
      reads this
    {
      V.Line(kind, line)
    }

    method AppendToLine(s: string)
      modifies this`line
      ensures line == old(line) + s
    {
      line := line + s;
    }

    method IsSrc() returns (b: bool)
      ensures b == V.InSrc(View())
    {
      b := kind == V.Src || kind == V.Both;
    }

    method IsDst() returns (b: bool)
      ensures b == V.InDst(View())
    {
      b := kind == V.Dst || kind == V.Both;
    }

    method Write(f: TextFile)
      modifies f
      ensures f.content == old(f.content) + V.PrintLine(View())
    {
      f.Write([V.Mark(kind)] + line + "\n");
    }
  }

  class PatchChunk {
    ghost const owner: Patch
    ghost const at: nat
    const srcPos: nat
    const dstPos: nat
    var lines: seq<PatchChunkLine>

    constructor (srcPos: nat, dstPos: nat, ghost owner: Patch, ghost at: nat)
      ensures this.owner == owner && this.at == at && Valid() && View() == V.Chunk(srcPos, dstPos, [])
      ensures lines == []
    {
      this.srcPos, this.dstPos, this.owner, this.at := srcPos, dstPos, owner, at;
      lines := [];
    }

    ghost predicate Valid()
      reads this
    {
      forall k | 0 <= k < |lines| :: lines[k].owner == this && lines[k].at == k
    }

    ghost function LineViews(): (ls: seq<V.Line>)
      reads this, lines
      ensures |ls| == |lines|
      ensures forall k | 0 <= k < |lines| :: ls[k] == lines[k].View()
    {
      seq(|lines|, k requires 0 <= k < |lines| reads this, lines => lines[k].View())
    }

    ghost function View(): V.Chunk
      reads this, lines
    {
      V.Chunk(srcPos, dstPos, LineViews())
    }

    method AddLine(line: PatchChunkLine)
      requires Valid() && line.owner == this && line.at == |lines|
      modifies this`lines
      ensures Valid() && lines == old(lines) + [line]
      ensures View() == old(View()).(lines := old(LineViews()) + [line.View()])
    {
      lines := lines + [line];
    }

    /** The source lines: the line objects themselves, not copies. */
    method Src() returns (src: seq<PatchChunkLine>)
      ensures |src| == |SrcAt(LineViews())|
      ensures forall i | 0 <= i < |src| :: SrcAt(LineViews())[i] < |lines| && src[i] == lines[SrcAt(LineViews())[i]]
    {
      src := [];
      ghost var ls := LineViews();
      for k := 0 to |lines|
        invariant ls == LineViews()
        invariant |src| == |SrcAt(ls[..k])|
        invariant forall i | 0 <= i < |src| :: SrcAt(ls[..k])[i] < k && src[i] == lines[SrcAt(ls[..k])[i]]
      {
        assert ls[..k + 1][..k] == ls[..k];
        var inView := lines[k].IsSrc();
        if inView {
          src := src + [lines[k]];
        }
      }
      assert ls[..|lines|] == ls;
    }

    method Dst() returns (dst: seq<PatchChunkLine>)
      ensures |dst| == |DstAt(LineViews())|
      ensures forall i | 0 <= i < |dst| :: DstAt(LineViews())[i] < |lines| && dst[i] == lines[DstAt(LineViews())[i]]
    {
      dst := [];
      ghost var ls := LineViews();
      for k := 0 to |lines|
        invariant ls == LineViews()
        invariant |dst| == |DstAt(ls[..k])|
        invariant forall i | 0 <= i < |dst| :: DstAt(ls[..k])[i] < k && dst[i] == lines[DstAt(ls[..k])[i]]
      {
        assert ls[..k + 1][..k] == ls[..k];
        var inView := lines[k].IsDst();
        if inView {
          dst := dst + [lines[k]];
        }
      }
      assert ls[..|lines|] == ls;
    }

    /** One pair: s and d may be the same object, and either may be a context line. */
    method ExtendPair(s: PatchChunkLine, d: PatchChunkLine)
      requires Valid() && s in lines && d in lines
      modifies d`line
      ensures s.at < |lines| && d.at < |lines|
      ensures LineViews() == ExtendOne(old(LineViews()), s.at, d.at)
    {
      if s.line != "" && IsBlank(s.line[|s.line| - 1]) && s.line[..|s.line| - 1] == d.line {
        assert s.line == d.line + [s.line[|s.line| - 1]];
        d.AppendToLine([s.line[|s.line| - 1]]);
      }
      assert LineViews() == ExtendOne(old(LineViews()), s.at, d.at);
    }

    /** Puts back the trailing blanks of one chunk. The lists hold the chunk's own line objects, so
        an extended context line is seen through both. The loop fails where the destination lines
        run out, after the pairs before that. */
    method RemoveTrailingWhitespaceChanges() returns (failed: bool)
      requires Valid()
      modifies lines
      ensures LineViews() == RewriteLines(old(LineViews())) && failed == RunsShort(old(LineViews()))
    {
      var src := Src();
      var dst := Dst();
      failed := ExtendPairs(src, dst);
    }

    method ExtendPairs(src: seq<PatchChunkLine>, dst: seq<PatchChunkLine>) returns (failed: bool)
      requires Valid()
      requires |src| == |SrcAt(LineViews())| && |dst| == |DstAt(LineViews())|
      requires forall i | 0 <= i < |src| :: SrcAt(LineViews())[i] < |lines| && src[i] == lines[SrcAt(LineViews())[i]]
      requires forall i | 0 <= i < |dst| :: DstAt(LineViews())[i] < |lines| && dst[i] == lines[DstAt(LineViews())[i]]
      modifies lines
      ensures LineViews() == RewriteLines(old(LineViews())) && failed == RunsShort(old(LineViews()))
    {
      hide SrcAt, DstAt, ExtendOne, Rewritten;
      ghost var ls := LineViews();
      RewrittenNone(ls);
      for i := 0 to |src|
        invariant i <= Pairs(ls) && LineViews() == Rewritten(ls, i)
      {
        if i >= |dst| {
          return true;
        }
        RewrittenNext(ls, i);
        ExtendPair(src[i], dst[i]);
      }
      failed := false;
    }

    method Write(f: TextFile)
      requires Valid()
      modifies f
      ensures f.content == old(f.content) + Join(V.PrintChunk(View()))
    {
      hide V.PrintHeader, V.PrintLine, Join, SrcAt, DstAt, V.SrcLen, V.DstLen;
      ghost var ls := LineViews();
      var src := Src();
      var dst := Dst();
      SrcAtIs(ls);
      DstAtIs(ls);
      var header := V.Header(srcPos, |src|, dstPos, |dst|);
      f.Write(V.PrintHeader(header));
      WriteLines(f);
      assert V.PrintChunk(View()) == [V.PrintHeader(header)] + V.PrintLines(ls);
      JoinConcat([V.PrintHeader(header)], V.PrintLines(ls));
      JoinOne(V.PrintHeader(header));
    }

    method WriteLines(f: TextFile)
      modifies f
      ensures f.content == old(f.content) + Join(V.PrintLines(LineViews()))
    {
      hide V.PrintLine, Join;
      ghost var ls := LineViews();
      ghost var start := f.content;
      EmptyJoin();
      for k := 0 to |lines|
        invariant LineViews() == ls
        invariant f.content == start + Join(V.PrintLines(ls[..k]))
      {
        lines[k].Write(f);
        assert V.PrintLines(ls[..k + 1]) == V.PrintLines(ls[..k]) + [V.PrintLine(ls[k])];
        JoinConcat(V.PrintLines(ls[..k]), [V.PrintLine(ls[k])]);
        JoinOne(V.PrintLine(ls[k]));
      }
      assert ls[..|lines|] == ls;
    }
  }

  lemma EmptyJoin()
    ensures Join(V.PrintLines([])) == "" && Join([]) == ""
  {
  }

  lemma RewriteChunksNext(cs: seq<V.Chunk>, j: nat)
    requires j < |cs|
    ensures var c := cs[j].(lines := RewriteLines(cs[j].lines));
            RewriteChunks(cs[j..]) ==
            if RunsShort(cs[j].lines) then ([c] + cs[j + 1..], true)
            else ([c] + RewriteChunks(cs[j + 1..]).0, RewriteChunks(cs[j + 1..]).1)
  {
    hide RewriteLines, RunsShort;
    assert cs[j..][0] == cs[j] && cs[j..][1..] == cs[j + 1..];
  }

  lemma ReplaceNext<T>(done: seq<T>, all: seq<T>, x: T)
    requires |done| < |all|
    ensures (done + all[|done|..])[|done|] == all[|done|]
    ensures (done + all[|done|..])[|done| := x] == (done + [x]) + all[|done| + 1..]
  {
  }

  lemma Shift<T>(a: seq<T>, x: T, b: seq<T>)
    ensures a + ([x] + b) == (a + [x]) + b
  {
  }

  lemma RewriteChunksEnd()
    ensures RewriteChunks([]) == ([], false) && RewritePatches([]) == []
  {
  }

  lemma RewritePatchesNext(vs: seq<V.Patch>, i: nat)
    requires i < |vs|
    ensures var v := vs[i].(chunks := RewriteChunks(vs[i].chunks).0);
            RewritePatches(vs[i..]) ==
            [v] + if RewriteChunks(vs[i].chunks).1 then vs[i + 1..] else RewritePatches(vs[i + 1..])
  {
    hide RewriteChunks;
    assert vs[i..][0] == vs[i] && vs[i..][1..] == vs[i + 1..];
  }

  lemma RewrittenNone(ls: seq<V.Line>)
    ensures Rewritten(ls, 0) == ls
  {
  }

  lemma RewrittenNext(ls: seq<V.Line>, i: nat)
    requires i < Pairs(ls)
    ensures SrcAt(ls)[i] < |ls| && DstAt(ls)[i] < |ls|
    ensures Rewritten(ls, i + 1) == ExtendOne(Rewritten(ls, i), SrcAt(ls)[i], DstAt(ls)[i])
  {
    SrcAtIs(ls);
    DstAtIs(ls);
  }

  lemma JoinOne(s: string)
    ensures Join([s]) == s
  {
    assert [s][1..] == [];
    assert s + "" == s;
  }

  class Patch {
    ghost const at: nat
    var src: string
    var dst: string
    var chunks: seq<PatchChunk>

    constructor (ghost at: nat)
      ensures this.at == at && src == "" && dst == "" && chunks == []
    {
      this.at := at;
      src, dst, chunks := "", "", [];
    }

    ghost predicate Valid()
      reads this, chunks
    {
      forall j | 0 <= j < |chunks| :: chunks[j].owner == this && chunks[j].at == j && chunks[j].Valid()
    }

    /** The lines of the chunks are among ls. */
    ghost predicate LinesIn(ls: set<PatchChunkLine>)
      reads this, chunks
    {
      forall j | 0 <= j < |chunks| :: forall l | l in chunks[j].lines :: l in ls
    }

    ghost function ChunkViews(ls: set<PatchChunkLine>): (cs: seq<V.Chunk>)
      requires LinesIn(ls)
      reads this, chunks, ls
      ensures |cs| == |chunks|
    {
      seq(|chunks|, j requires 0 <= j < |chunks| && LinesIn(ls) reads this, chunks, ls => chunks[j].View())
    }

    ghost function View(ls: set<PatchChunkLine>): V.Patch
      requires LinesIn(ls)
      reads this, chunks, ls
    {
      V.Patch(src, dst, ChunkViews(ls))
    }

    method StartChunk(srcPos: nat, dstPos: nat, ghost ls: set<PatchChunkLine>) returns (chunk: PatchChunk)
      requires Valid() && LinesIn(ls)
      modifies this`chunks
      ensures fresh(chunk) && Valid() && LinesIn(ls) && chunks == old(chunks) + [chunk]
      ensures View(ls) == V.AddChunk(old(View(ls)), V.Chunk(srcPos, dstPos, []))
    {
      chunk := new PatchChunk(srcPos, dstPos, this, |chunks|);
      chunks := chunks + [chunk];
    }

    /** Adding a line to the last chunk leaves the other chunks alone. */
    method AddLineToLast(chunk: PatchChunk, kind: V.Kind, text: string, ghost ls: set<PatchChunkLine>)
      returns (ghost line: PatchChunkLine)
      requires Valid() && LinesIn(ls) && chunks != [] && chunk == chunks[|chunks| - 1]
      modifies chunk`lines
      ensures fresh(line)
      ensures Valid() && LinesIn(ls + {line})
      ensures View(ls + {line}) == V.AddLine(old(View(ls)), V.Line(kind, text))
    {
      assert chunk.Valid();
      var l := new PatchChunkLine(kind, text, chunk, |chunk.lines|);
      chunk.AddLine(l);
      line := l;
      assert forall j | 0 <= j < |chunks| - 1 :: chunks[j] != chunk;
    }

    /** The patch's own line objects. */
    ghost function OwnLines(): set<PatchChunkLine>
      reads this, chunks
    {
      set c, l | c in chunks && l in c.lines :: l
    }

    /** Rewriting one chunk leaves the other chunks alone. */
    method RewriteChunk(j: nat, ghost ls: set<PatchChunkLine>) returns (failed: bool)
      requires Valid() && LinesIn(ls) && j < |chunks|
      modifies chunks[j].lines
      ensures var before := old(ChunkViews(ls));
              ChunkViews(ls) == before[j := before[j].(lines := RewriteLines(before[j].lines))]
      ensures failed == RunsShort(old(ChunkViews(ls))[j].lines)
    {
      hide RewriteLines, RunsShort;
      assert chunks[j].Valid();
      failed := chunks[j].RemoveTrailingWhitespaceChanges();
      forall h | 0 <= h < |chunks| && h != j ensures chunks[h].View() == old(chunks[h].View()) {
        assert chunks[h].Valid() && chunks[h].at == h && chunks[j].at == j;
        forall k | 0 <= k < |chunks[h].lines| ensures chunks[h].lines[k].View() == old(chunks[h].lines[k].View()) {
          assert chunks[h].lines[k].owner == chunks[h];
          assert chunks[h].lines[k] !in chunks[j].lines;
        }
        assert chunks[h].LineViews() == old(chunks[h].LineViews());
      }
    }

    method RewriteAllChunks(ghost ls: set<PatchChunkLine>) returns (failed: bool)
      requires Valid() && LinesIn(ls)
      modifies OwnLines()
      ensures (ChunkViews(ls), failed) == RewriteChunks(old(ChunkViews(ls)))
    {
      hide RewriteLines, RunsShort, RewriteChunks, ChunkViews;
      ghost var cs := ChunkViews(ls);
      ghost var done := [];
      assert cs[0..] == cs;
      for j := 0 to |chunks|
        invariant |done| == j && ChunkViews(ls) == done + cs[j..]
        invariant RewriteChunks(cs).0 == done + RewriteChunks(cs[j..]).0
        invariant RewriteChunks(cs).1 == RewriteChunks(cs[j..]).1
      {
        RewriteChunksNext(cs, j);
        ghost var before := ChunkViews(ls);
        ghost var c := cs[j].(lines := RewriteLines(cs[j].lines));
        ReplaceNext(done, cs, c);
        assert chunks[j] in chunks;
        assert forall l | l in chunks[j].lines :: l in old(OwnLines());
        failed := RewriteChunk(j, ls);
        if failed {
          Shift(done, c, cs[j + 1..]);
          return;
        }
        Shift(done, c, RewriteChunks(cs[j + 1..]).0);
        done := done + [c];
      }
      assert RewriteChunks(cs[|cs|..]) == ([], false) by { RewriteChunksEnd(); }
      failed := false;
    }

    method Write(f: TextFile, ghost ls: set<PatchChunkLine>)
      requires Valid() && LinesIn(ls)
      modifies f
      ensures f.content == old(f.content) + Join(V.PrintPatch(View(ls)))
    {
      hide Join, V.PrintChunks;
      var a, b := "--- " + src + "\n", "+++ " + dst + "\n";
      f.Write(a);
      f.Write(b);
      WriteChunks(f, ls);
      JoinOne(a);
      JoinOne(b);
      JoinConcat([a], [b]);
      assert [a] + [b] == [a, b];
      JoinConcat([a, b], V.PrintChunks(ChunkViews(ls)));
    }

    method WriteChunks(f: TextFile, ghost ls: set<PatchChunkLine>)
      requires Valid() && LinesIn(ls)
      modifies f
      ensures f.content == old(f.content) + Join(V.PrintChunks(ChunkViews(ls)))
    {
      hide Join, V.PrintChunk;
      ghost var cs := ChunkViews(ls);
      ghost var start := f.content;
      EmptyJoin();
      for j := 0 to |chunks|
        invariant ChunkViews(ls) == cs
        invariant f.content == start + Join(V.PrintChunks(cs[..j]))
      {
        assert chunks[j].Valid();
        chunks[j].Write(f);
        assert cs[..j + 1][..j] == cs[..j];
        JoinConcat(V.PrintChunks(cs[..j]), V.PrintChunk(cs[j]));
      }
      assert cs[..|chunks|] == cs;
    }
  }

  // ---------- Patch sets ----------

  /** The list of patches the parser returns. Every object in it knows its owner and its place
      there, so no two places share an object. */
  class PatchSet {
    var patches: seq<Patch>
    ghost var chunkSet: set<PatchChunk>
    ghost var lineSet: set<PatchChunkLine>

    ghost predicate Valid()
      reads this, patches, chunkSet
    {
      forall i | 0 <= i < |patches| ::
        && patches[i].at == i
        && (forall c | c in patches[i].chunks :: c in chunkSet)
        && patches[i].Valid() && patches[i].LinesIn(lineSet)
    }

    ghost function View(): (vs: seq<V.Patch>)
      requires Valid()
      reads this, patches, chunkSet, lineSet
      ensures |vs| == |patches|
    {
      seq(|patches|, i requires 0 <= i < |patches| && Valid() reads this, patches, chunkSet, lineSet =>
            patches[i].View(lineSet))
    }

    constructor ()
      ensures Valid() && View() == [] && patches == [] && chunkSet == {} && lineSet == {}
    {
      patches, chunkSet, lineSet := [], {}, {};
    }

    method StartPatch(src: string) returns (patch: Patch)
      requires Valid()
      modifies this
      ensures Valid() && fresh(patch) && patches == old(patches) + [patch]
      ensures chunkSet == old(chunkSet) && lineSet == old(lineSet)
      ensures View() == old(View()) + [V.Patch(src, "", [])]
    {
      patch := new Patch(|patches|);
      patch.src := src;
      patches := patches + [patch];
    }

    method SetDst(patch: Patch, dst: string)
      requires Valid() && patches != [] && patch == patches[|patches| - 1]
      modifies patch`dst
      ensures Valid()
      ensures View() == old(View())[|patches| - 1 := old(View())[|patches| - 1].(dst := dst)]
    {
      patch.dst := dst;
      assert patch.ChunkViews(lineSet) == old(patch.ChunkViews(lineSet));
      forall i | 0 <= i < |patches| - 1 ensures patches[i].View(lineSet) == old(patches[i].View(lineSet)) {
        assert patches[i] != patch;
        assert patches[i].ChunkViews(lineSet) == old(patches[i].ChunkViews(lineSet));
      }
    }

    method StartChunk(patch: Patch, srcPos: nat, dstPos: nat) returns (chunk: PatchChunk)
      requires Valid() && patches != [] && patch == patches[|patches| - 1]
      modifies this`chunkSet, patch`chunks
      ensures Valid() && fresh(chunk) && chunkSet == old(chunkSet) + {chunk}
      ensures patch.chunks == old(patch.chunks) + [chunk]
      ensures var last := |patches| - 1;
              View() == old(View())[last := V.AddChunk(old(View())[last], V.Chunk(srcPos, dstPos, []))]
    {
      hide V.AddChunk;
      chunk := patch.StartChunk(srcPos, dstPos, lineSet);
      chunkSet := chunkSet + {chunk};
      forall i | 0 <= i < |patches| - 1
        ensures patches[i].Valid() && patches[i].LinesIn(lineSet)
        ensures patches[i].View(lineSet) == old(patches[i].View(lineSet))
      {
        assert old(patches[i].Valid()) && patches[i].at == i && patches[i] != patch;
        assert patches[i].ChunkViews(lineSet) == old(patches[i].ChunkViews(lineSet));
      }
      assert Valid();
    }

    /** Adding a line to the current chunk, the last one of patch o. */
    method AddLine(ghost o: nat, patch: Patch, chunk: PatchChunk, kind: V.Kind, text: string)
      requires Valid() && o < |patches| && patches[o] == patch
      requires patch.chunks != [] && chunk == patch.chunks[|patch.chunks| - 1]
      modifies this`lineSet, chunk`lines
      ensures Valid() && old(lineSet) <= lineSet && fresh(lineSet - old(lineSet))
      ensures View() == old(View())[o := V.AddLine(old(View())[o], V.Line(kind, text))]
    {
      hide V.AddLine;
      ghost var line := patch.AddLineToLast(chunk, kind, text, lineSet);
      lineSet := lineSet + {line};
      forall i | 0 <= i < |patches| && i != o
        ensures patches[i].Valid() && patches[i].LinesIn(lineSet)
        ensures patches[i].View(lineSet) == old(patches[i].View(lineSet))
      {
        assert old(patches[i].Valid()) && old(patch.Valid());
        assert chunk.owner == patch && patches[i].at == i && patch.at == o;
        assert chunk !in patches[i].chunks;
        assert patches[i].ChunkViews(lineSet) == old(patches[i].ChunkViews(lineSet));
      }
      assert Valid();
    }

    method RewritePatch(i: nat) returns (failed: bool)
      requires Valid() && i < |patches|
      modifies patches[i].OwnLines()
      ensures Valid()
      ensures View() == old(View())[i := old(View())[i].(chunks := RewriteChunks(old(View())[i].chunks).0)]
      ensures failed == RewriteChunks(old(View())[i].chunks).1
    {
      hide RewriteChunks;
      assert patches[i].Valid();
      failed := patches[i].RewriteAllChunks(lineSet);
      forall h | 0 <= h < |patches| && h != i
        ensures patches[h].View(lineSet) == old(patches[h].View(lineSet))
      {
        assert patches[h].Valid() && patches[h].at == h && patches[i].at == i;
        forall j | 0 <= j < |patches[h].chunks|
          ensures patches[h].chunks[j].View() == old(patches[h].chunks[j].View())
        {
          var c := patches[h].chunks[j];
          assert c.owner == patches[h] && c.Valid();
          assert forall k | 0 <= k < |c.lines| :: c.lines[k] !in patches[i].OwnLines();
          assert c.LineViews() == old(c.LineViews());
        }
        assert patches[h].ChunkViews(lineSet) == old(patches[h].ChunkViews(lineSet));
      }
    }

    method RewriteAll()
      requires Valid()
      modifies lineSet
      ensures Valid() && View() == RewritePatches(old(View()))
    {
      hide RewriteChunks, RewritePatches, View;
      ghost var vs := View();
      ghost var done := [];
      assert vs[0..] == vs;
      for i := 0 to |patches|
        invariant Valid() && |done| == i && View() == done + vs[i..]
        invariant RewritePatches(vs) == done + RewritePatches(vs[i..])
      {
        RewritePatchesNext(vs, i);
        ghost var before := View();
        ghost var v := vs[i].(chunks := RewriteChunks(vs[i].chunks).0);
        ReplaceNext(done, vs, v);
        var failed := RewritePatch(i);
        if failed {
          Shift(done, v, vs[i + 1..]);
          return;
        }
        Shift(done, v, RewritePatches(vs[i + 1..]));
        done := done + [v];
      }
      assert RewritePatches(vs[|vs|..]) == [] by { RewriteChunksEnd(); }
    }
  }

  // ---------- Parsing ----------

  lemma ParseNext(lines: seq<string>, i: nat, st: V.State)
    requires i < |lines| && V.GoodState(st) && V.ParseFrom(V.START, lines[..i]) == V.Ok(st)
    ensures V.ParseFrom(V.START, lines[..i + 1]) == V.StepItem(st, V.Classify(lines[i]))
    ensures V.StepItem(st, V.Classify(lines[i])).Err? ==>
              V.Parse(lines) == V.Err(V.StepItem(st, V.Classify(lines[i])).error)
  {
    assert V.GoodState(V.START);
    hide V.StepItem, V.Classify, V.GoodState;
    assert lines[..i + 1] == lines[..i] + [lines[i]];
    ParseConcat(V.START, lines[..i], [lines[i]]);
    ParseOne(st, lines[i]);
    assert lines == lines[..i + 1] + lines[i + 1..];
    ParseConcat(V.START, lines[..i + 1], lines[i + 1..]);
  }

  lemma ChunkStartStep(st: V.State, a: nat, b: nat)
    requires V.GoodState(st)
    ensures st.patches == [] ==> V.StepItem(st, V.ChunkStart(a, b)) == V.Err(V.NoPatch)
    ensures st.patches != [] ==>
              (var last := |st.patches| - 1;
               var patch := V.AddChunk(st.patches[last], V.Chunk(a, b, []));
               V.StepItem(st, V.ChunkStart(a, b)) == V.Ok(V.State(st.patches[last := patch], Some(last))))
  {
  }

  lemma DstFileStep(st: V.State, name: string)
    requires V.GoodState(st)
    ensures st.patches == [] ==> V.StepItem(st, V.DstFile(name)) == V.Err(V.NoPatch)
    ensures st.patches != [] ==>
              (var last := |st.patches| - 1;
               var patch := st.patches[last].(dst := name);
               V.StepItem(st, V.DstFile(name)) == V.Ok(st.(patches := st.patches[last := patch])))
  {
  }

  lemma LineStep(st: V.State, l: V.Line)
    requires V.GoodState(st)
    ensures st.owner == None ==> V.StepItem(st, V.Text(l)) == V.Err(V.NoChunk)
    ensures st.owner.Some? ==>
              (var o := st.owner.value;
               V.StepItem(st, V.Text(l)) == V.Ok(st.(patches := st.patches[o := V.AddLine(st.patches[o], l)])))
  {
  }

  /** The parser's variables. The current chunk need not be in the current patch: it survives a new
      file header until the next chunk header. */
  class Parser {
    const patchset: PatchSet
    var currentPatch: Patch?
    var currentChunk: PatchChunk?
    var home: Patch?        // the patch that holds the current chunk
    ghost var state: V.State

    constructor ()
      ensures Valid() && state == V.START
      ensures fresh(patchset) && patchset.patches == [] && patchset.chunkSet == {} && patchset.lineSet == {}
    {
      patchset := new PatchSet();
      currentPatch, currentChunk, home := null, null, null;
      state := V.START;
    }

    ghost predicate Valid()
      reads this, patchset, patchset.patches, patchset.chunkSet, patchset.lineSet
    {
      && patchset.Valid() && V.GoodState(state) && state.patches == patchset.View()
      && Linked(state.owner)
    }

    /** The current patch is the last one, and the current chunk the last one of patch `owner`. */
    ghost predicate Linked(owner: Option<nat>)
      reads this, patchset, patchset.patches
    {
      && (if patchset.patches == [] then currentPatch == null
          else currentPatch == patchset.patches[|patchset.patches| - 1])
      && match owner
         case None => currentChunk == null
         case Some(o) => o < |patchset.patches| && home == patchset.patches[o] && home.chunks != [] &&
                         currentChunk == home.chunks[|home.chunks| - 1] && currentChunk in patchset.chunkSet
    }

    /** Everything a line may change. */
    ghost function Footprint(): set<object>
      reads this, patchset
    {
      {this, patchset} + (set p | p in patchset.patches :: p) + patchset.chunkSet
    }

    /** What one item does to the parser, or the error it raises. */
    ghost predicate Fed(before: V.State, item: V.Item, error: Option<V.Error>)
      reads this, patchset, patchset.patches, patchset.chunkSet, patchset.lineSet
      requires V.GoodState(before)
    {
      match V.StepItem(before, item)
      case Err(e) => error == Some(e)
      case Ok(next) => error == None && Valid() && state == next
    }

    method FeedSrcFile(name: string)
      requires Valid()
      modifies this, patchset
      ensures Fed(old(state), V.SrcFile(name), None)
      ensures fresh(Footprint() - old(Footprint())) && patchset.lineSet == old(patchset.lineSet)
    {
      ghost var next := V.StepItem(state, V.SrcFile(name)).value;
      assert next.patches == state.patches + [V.Patch(name, "", [])] && next.owner == state.owner;
      hide PatchSet.Valid, PatchSet.View, V.StepItem, V.GoodState;
      currentPatch := patchset.StartPatch(name);
      assert Linked(next.owner);
      hide Linked;
      state := next;
    }

    method FeedDstFile(name: string) returns (error: Option<V.Error>)
      requires Valid()
      modifies Footprint()
      ensures Fed(old(state), V.DstFile(name), error)
      ensures fresh(Footprint() - old(Footprint())) && patchset.lineSet == old(patchset.lineSet)
    {
      hide PatchSet.Valid, PatchSet.View, V.StepItem, V.GoodState;
      DstFileStep(state, name);
      if currentPatch == null {
        return Some(V.NoPatch);
      }
      ghost var next := V.StepItem(state, V.DstFile(name)).value;
      assert currentPatch in patchset.patches;
      patchset.SetDst(currentPatch, name);
      assert Linked(next.owner);
      hide Linked;
      state := next;
      error := None;
    }

    method FeedChunkStart(a: nat, b: nat) returns (error: Option<V.Error>)
      requires Valid()
      modifies Footprint()
      ensures Fed(old(state), V.ChunkStart(a, b), error)
      ensures fresh(Footprint() - old(Footprint())) && patchset.lineSet == old(patchset.lineSet)
    {
      hide PatchSet.Valid, PatchSet.View, V.StepItem, V.GoodState, V.AddChunk;
      ChunkStartStep(state, a, b);
      if currentPatch == null {
        return Some(V.NoPatch);
      }
      ghost var next := V.StepItem(state, V.ChunkStart(a, b)).value;
      assert currentPatch in patchset.patches;
      var chunk := patchset.StartChunk(currentPatch, a, b);
      currentChunk, home := chunk, currentPatch;
      assert home.chunks[|home.chunks| - 1] == chunk;
      assert Linked(next.owner);
      hide Linked;
      state := next;
      error := None;
    }

    method FeedLine(l: V.Line) returns (error: Option<V.Error>)
      requires Valid()
      modifies Footprint()
      ensures Fed(old(state), V.Text(l), error)
      ensures fresh(Footprint() - old(Footprint())) && fresh(patchset.lineSet - old(patchset.lineSet))
    {
      hide PatchSet.Valid, PatchSet.View, V.StepItem, V.GoodState, V.AddLine;
      LineStep(state, l);
      if currentChunk == null {
        return Some(V.NoChunk);
      }
      ghost var next := V.StepItem(state, V.Text(l)).value;
      ghost var o := state.owner.value;
      patchset.AddLine(o, home, currentChunk, l.kind, l.text);
      assert Linked(next.owner);
      hide Linked;
      state := next;
      error := None;
    }

    method Feed(line: string) returns (error: Option<V.Error>)
      requires Valid()
      modifies Footprint()
      ensures Fed(old(state), V.Classify(line), error)
      ensures fresh(Footprint() - old(Footprint())) && fresh(patchset.lineSet - old(patchset.lineSet))
    {
      var item := V.Classify(line);
      hide V.Classify, Valid;
      match item {
        case SrcFile(name) =>
          FeedSrcFile(name);
          error := None;
        case DstFile(name) =>
          error := FeedDstFile(name);
        case ChunkStart(a, b) =>
          error := FeedChunkStart(a, b);
        case Text(l) =>
          error := FeedLine(l);
        case Junk =>
          error := Some(V.BadLine);
      }
    }
  }

  /** Reads a patch set line by line, or stops at the first line that raises. */
  method ParsePatchset(lines: seq<string>) returns (r: V.Result<PatchSet>)
    ensures match V.Parse(lines)
            case Err(e) => r == V.Err(e)
            case Ok(vs) => r.Ok? && r.value.Valid() && r.value.View() == vs &&
                           fresh(r.value) && fresh(r.value.lineSet)
  {
    hide V.Classify, V.ParseFrom, V.StepItem, V.GoodState, PatchSet.Valid, PatchSet.View, Parser.Linked;
    var parser := new Parser();
    EmptyParse(lines);
    for i := 0 to |lines|
      invariant parser.Valid() && V.ParseFrom(V.START, lines[..i]) == V.Ok(parser.state)
      invariant fresh(parser.Footprint()) && fresh(parser.patchset.lineSet)
    {
      ParseNext(lines, i, parser.state);
      var error := parser.Feed(lines[i]);
      if error.Some? {
        return V.Err(error.value);
      }
    }
    assert lines[..|lines|] == lines;
    r := V.Ok(parser.patchset);
  }

  lemma EmptyParse(lines: seq<string>)
    ensures V.ParseFrom(V.START, lines[..0]) == V.Ok(V.START)
  {
  }

  // ---------- The whole pass ----------

  /** Parses a patch set and puts back the trailing blanks its chunks would remove. */
  method RemoveTrailingWhitespaceChanges(lines: seq<string>) returns (r: V.Result<PatchSet>)
    ensures match V.Parse(lines)
            case Err(e) => r == V.Err(e)
            case Ok(vs) => r.Ok? && r.value.Valid() && r.value.View() == RewritePatches(vs)
  {
    hide V.Parse, RewritePatches;
    r := ParsePatchset(lines);
    if r.Ok? {
      r.value.RewriteAll();
    }
  }
}
