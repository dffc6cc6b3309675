/** Whether a patch set whose trailing blanks have been put back can still be printed: the exact
    condition, for one chunk and for a whole patch set. */
module PatchReprint {
  import opened PatchFormat
  import opened PatchRoundTrip
  import opened PatchRewrite

  // ---------- One chunk ----------

  /** A destination line "++" becomes "++ ", which prints like a file header. */
  ghost predicate BecomesHeader(ls: seq<Line>, i: nat)
    requires i < Pairs(ls)
  {
    SrcAtIs(ls);
    DstAtIs(ls);
    ls[DstAt(ls)[i]] == Line(Dst, "++") && TurnText(ls, i) == "++ "
  }

  ghost predicate NoHeader(ls: seq<Line>) {
    forall i | 0 <= i < Pairs(ls) :: !BecomesHeader(ls, i)
  }

  lemma ExtendedIsPrintable(before: Line, after: Line)
    requires after.kind == before.kind && InDst(before) && Extends(after.text, before.text)
    ensures PrintableLine(after) <==> PrintableLine(before) && !(before == Line(Dst, "++") && after.text == "++ ")
  {
    var t := after.text;
    assert t == before.text + [t[|t| - 1]];
    assert "++ "[..2] == "++";
    if before.kind == Dst && "++ " <= t && !("++ " <= before.text) {
      assert |t| == 3;
    }
  }

  lemma LinePrintableIff(ls: seq<Line>, k: nat)
    requires k < |ls|
    ensures |RewriteLines(ls)| == |ls|
    ensures PrintableLine(RewriteLines(ls)[k]) <==>
              PrintableLine(ls[k]) && forall i | 0 <= i < Pairs(ls) && DstAt(ls)[i] == k :: !BecomesHeader(ls, i)
  {
    OneBlankAtMost(ls, k);
    hide RewriteLines, PrintableLine, SrcAt;
    if i: nat :| i < Pairs(ls) && DstAt(ls)[i] == k {
      OnlyPairOf(ls, i);
      DestinationGetsBlankIff(ls, i);
      assert Extends("++ ", "++");
      if RewriteLines(ls)[k] != ls[k] { ExtendedIsPrintable(ls[k], RewriteLines(ls)[k]); }
    } else {
      Unvisited(ls, Pairs(ls), k);
    }
  }

  /** A rewritten chunk can be printed exactly when the chunk could and none of its lines becomes a
      file header. */
  lemma RewrittenPrintableIff(ls: seq<Line>)
    ensures PrintableLines(RewriteLines(ls)) <==> PrintableLines(ls) && NoHeader(ls)
  {
    forall k: nat | k < |ls|
      ensures |RewriteLines(ls)| == |ls|
      ensures PrintableLine(RewriteLines(ls)[k]) <==>
                PrintableLine(ls[k]) && forall i | 0 <= i < Pairs(ls) && DstAt(ls)[i] == k :: !BecomesHeader(ls, i)
    {
      LinePrintableIff(ls, k);
    }
    DstAtIs(ls);
    hide RewriteLines, PrintableLine, BecomesHeader, DstAt, SrcAt;
  }

  // ---------- A whole patch set ----------

  /** No line of a chunk that the pass gets to becomes a file header. */
  ghost predicate NoHeaders(ps: seq<Patch>) {
    forall i: nat, j: nat | Processed(ps, i, j) :: NoHeader(ps[i].chunks[j].lines)
  }

  /** The rewritten patch set can be printed exactly when the patch set could and no line of a chunk
      that the pass gets to becomes a file header. */
  lemma RewrittenSetPrintableIff(ps: seq<Patch>)
    ensures Printable(RewritePatches(ps)) <==> Printable(ps) && NoHeaders(ps)
  {
    var rs := RewritePatches(ps);
    PatchesRewritten(ps);
    hide RewritePatches, RewriteLines, Reached, AnyShort, PrintableLines, NoHeader;
    forall i: nat | i < |ps|
      ensures PrintablePatch(rs[i]) <==>
                PrintablePatch(ps[i]) &&
                forall j: nat | Processed(ps, i, j) :: NoHeader(ps[i].chunks[j].lines)
    {
      PatchPrintableIff(ps, i);
    }
    hide Processed, PrintablePatch;
    if Printable(rs) {
      forall i: nat, j: nat | Processed(ps, i, j) ensures NoHeader(ps[i].chunks[j].lines) {
        assert i < |ps| by { ProcessedInside(ps, i, j); }
        assert PrintablePatch(rs[i]);
      }
    }
  }

  lemma PatchPrintableIff(ps: seq<Patch>, i: nat)
    requires i < |ps|
    ensures |RewritePatches(ps)| == |ps|
    ensures PrintablePatch(RewritePatches(ps)[i]) <==>
              PrintablePatch(ps[i]) && forall j: nat | Processed(ps, i, j) :: NoHeader(ps[i].chunks[j].lines)
  {
    PatchRewritten(ps, i);
    hide RewritePatches, RewriteLines, Reached, AnyShort, PrintableLines, NoHeader;
    var cs, rs := ps[i].chunks, RewritePatches(ps)[i].chunks;
    forall j: nat | j < |cs|
      ensures PrintableLines(rs[j].lines) <==>
                PrintableLines(cs[j].lines) && (Processed(ps, i, j) ==> NoHeader(cs[j].lines))
    {
      RewrittenPrintableIff(cs[j].lines);
    }
  }

  /** Whatever is parsed, what the pass makes of it prints to a text that parses back to it exactly
      when no line of a chunk that the pass gets to becomes a file header. */
  lemma RoundTripSurvivesIff(lines: seq<string>, ps: seq<Patch>)
    requires Parse(lines) == Ok(ps)
    ensures Parse(Print(RewritePatches(ps))) == Ok(RewritePatches(ps)) <==> NoHeaders(ps)
  {
    hide RewritePatches, Parse, Print, NoHeaders, Printable;
    ParsedIsPrintable(lines, ps);
    RewrittenSetPrintableIff(ps);
    RoundTripIffPrintable(RewritePatches(ps));
  }

  /** In particular it does when no destination line is a bare "++". */
  lemma PrintableWithoutBarePlus(ps: seq<Patch>)
    requires Printable(ps)
    requires forall p, c | p in ps && c in p.chunks :: Line(Dst, "++") !in c.lines
    ensures Printable(RewritePatches(ps))
  {
    forall i: nat, j: nat | Processed(ps, i, j) ensures NoHeader(ps[i].chunks[j].lines) {
      var ls := ps[i].chunks[j].lines;
      assert ps[i] in ps && ps[i].chunks[j] in ps[i].chunks;
      DstAtIs(ls);
    }
    hide RewritePatches, Printable, Processed, NoHeader;
    RewrittenSetPrintableIff(ps);
  }

  // ---------- Patches that cannot be printed any more ----------

  const BARE_PLUS := [Line(Src, "++ "), Line(Dst, "++")]
  const HEADER_LIKE := [Line(Src, "++ "), Line(Dst, "++ ")]

  lemma BarePlusRewritten()
    ensures !RunsShort(BARE_PLUS) && RewriteLines(BARE_PLUS) == HEADER_LIKE
  {
    var ls := BARE_PLUS;
    assert ls[..1] == [ls[0]] && ls[..1][..0] == [];
    assert SrcAt(ls[..1]) == [0] && DstAt(ls[..1]) == [];
    assert SrcAt(ls) == SrcAt(ls[..1]) && DstAt(ls) == DstAt(ls[..1]) + [1];
    assert Rewritten(ls, 0) == ls && Extends("++ ", "++");
    assert RewriteLines(ls) == Rewritten(ls, 1) == ls[1 := Line(Dst, "++ ")];
  }

  lemma OneChunkRewritten(src: string, dst: string, c: Chunk)
    requires !RunsShort(c.lines)
    ensures RewritePatches([Patch(src, dst, [c])]) == [Patch(src, dst, [c.(lines := RewriteLines(c.lines))])]
  {
    hide RewriteLines, RunsShort;
    var p := Patch(src, dst, [c]);
    var c' := c.(lines := RewriteLines(c.lines));
    assert [c][1..] == [] && [p][1..] == [];
    assert RewriteChunks([]) == ([], false);
    assert [c'] + [] == [c'];
    assert RewriteChunks([c]) == ([c'], false);
    assert RewritePatches([]) == [];
    assert RewritePatches([p]) == [p.(chunks := [c'])];
  }

  lemma PrintableExample()
    ensures Printable([Patch("a", "b", [Chunk(1, 1, BARE_PLUS)])])
    ensures !Printable([Patch("a", "b", [Chunk(1, 1, HEADER_LIKE)])])
  {
    var s, t := "++ ", "++";
    assert s == ['+', '+', ' '] && t == ['+', '+'] && "-- "[0] == '-';
    assert PrintableLine(Line(Src, s)) && PrintableLine(Line(Dst, t)) && !PrintableLine(Line(Dst, s));
    assert BARE_PLUS[0] == Line(Src, s) && BARE_PLUS[1] == Line(Dst, t) && HEADER_LIKE[1] == Line(Dst, s);
    hide PrintableLine;
    var p := Patch("a", "b", [Chunk(1, 1, HEADER_LIKE)]);
    assert !PrintableLines(p.chunks[0].lines);
    assert !PrintablePatch([p][0]);
  }

  /** A printable patch set whose rewritten form no longer prints to something that parses back. */
  lemma RewriteCanBreakRoundTrip()
    ensures var ps := [Patch("a", "b", [Chunk(1, 1, BARE_PLUS)])];
            Parse(Print(ps)) == Ok(ps) && Parse(Print(RewritePatches(ps))) != Ok(RewritePatches(ps))
  {
    hide Parse, Print, Printable;
    var ps := [Patch("a", "b", [Chunk(1, 1, BARE_PLUS)])];
    BarePlusRewritten();
    OneChunkRewritten("a", "b", ps[0].chunks[0]);
    PrintableExample();
    hide RewritePatches, RewriteLines, RunsShort, BARE_PLUS, HEADER_LIKE;
    RoundTripIffPrintable(ps);
    RoundTripIffPrintable(RewritePatches(ps));
  }

  /** The original texts alone do not decide it. Here the source line paired with "++" gets its blank
      in the pass itself ... */
  lemma HeaderByTurn()
    ensures var ls := [Line(Src, "++ "), Line(Both, "++"), Line(Dst, "++")];
            PrintableLines(ls) && !RunsShort(ls) && !PrintableLines(RewriteLines(ls))
  {
    var ls := [Line(Src, "++ "), Line(Both, "++"), Line(Dst, "++")];
    ThreeLines(ls);
    assert Extends("++ ", "++") && "-- "[0] == '-' && "++ "[0] == '+';
    assert RewriteLines(ls)[2] == Line(Dst, "++ ");
  }

  /** ... and here, paired with "++ " at first, it has one blank too many when its turn comes. */
  lemma NoHeaderByTurn()
    ensures var ls := [Line(Src, "++  "), Line(Both, "++ "), Line(Dst, "++")];
            PrintableLines(ls) && !RunsShort(ls) && PrintableLines(RewriteLines(ls))
  {
    var ls := [Line(Src, "++  "), Line(Both, "++ "), Line(Dst, "++")];
    ThreeLines(ls);
    hide SrcAt, DstAt, RewriteLines;
    assert Extends("++  ", "++ ") && "-- "[0] == '-' && "++  "[0] == '+' && |"++ "| != |"++"|;
    assert RewriteLines(ls) == ls[1 := Line(Both, "++  ")];
  }
}
