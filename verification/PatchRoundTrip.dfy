/** Printing and parsing patch sets are inverse to each other, exactly on the printable ones. */
module PatchRoundTrip {
  import D = Decimal
  import opened Text
  import opened Options
  import opened PatchFormat

  // ---------- What can be printed faithfully ----------

  /** A source line starting "-- " prints like a file header, and so does a destination line
      starting "++ ". */
  ghost predicate PrintableLine(l: Line) {
    && '\n' !in l.text
    && !(l.kind == Src && "-- " <= l.text)
    && !(l.kind == Dst && "++ " <= l.text)
  }

  ghost predicate PrintableLines(ls: seq<Line>) {
    forall i | 0 <= i < |ls| :: PrintableLine(ls[i])
  }

  ghost predicate PrintablePatch(p: Patch) {
    && '\n' !in p.src && '\n' !in p.dst
    && forall i | 0 <= i < |p.chunks| :: PrintableLines(p.chunks[i].lines)
  }

  ghost predicate Printable(ps: seq<Patch>) {
    forall i | 0 <= i < |ps| :: PrintablePatch(ps[i])
  }

  // ---------- Printed lines are recognised ----------

  lemma AfterOf(prefix: string, t: string)
    requires '\n' !in t
    ensures After(prefix, prefix + t + "\n") == Some(t)
  {
    var line := prefix + t + "\n";
    assert line[|prefix|..] == t + "\n";
    assert Chomp(t + "\n") == t;
  }

  /** A marked line starts like a file header only when its text goes on like one. */
  lemma PrefixShift(prefix: string, rest: string, mark: char, text: string)
    requires prefix != "" && prefix == [prefix[0]] + rest && '\n' !in rest
    ensures prefix <= [mark] + text + "\n" ==> mark == prefix[0] && rest <= text
  {
    var line := [mark] + text + "\n";
    if prefix <= line {
      assert line[1..] == text + "\n";
      assert rest <= text + "\n";
      assert forall i | 0 <= i < |rest| :: rest[i] == (text + "\n")[i];
      assert (text + "\n")[|text|] == '\n';
    }
  }

  lemma {:induction false} LineRecognised(l: Line)
    requires PrintableLine(l)
    ensures Classify(PrintLine(l)) == Text(l)
  {
    var line := PrintLine(l);
    assert line == [Mark(l.kind)] + l.text + "\n";
    AfterOf([Mark(l.kind)], l.text);
    assert line[0] == Mark(l.kind);
    PrefixShift("--- ", "-- ", Mark(l.kind), l.text);
    PrefixShift("+++ ", "++ ", Mark(l.kind), l.text);
    assert ParseHeader(line) == None by {
      assert !("@@ -" <= line);
    }
    hide ParseHeader, After;
    match l.kind
    case Src =>
    case Dst => assert After("-", line) == None by { OtherMark("-", line); }
    case Both =>
      assert After("-", line) == None by { OtherMark("-", line); }
      assert After("+", line) == None by { OtherMark("+", line); }
  }

  lemma OtherMark(prefix: string, line: string)
    requires prefix != "" && line != "" && prefix[0] != line[0]
    ensures After(prefix, line) == None
  {
  }

  lemma SrcFileRecognised(name: string)
    requires '\n' !in name
    ensures Classify("--- " + name + "\n") == SrcFile(name)
  {
    AfterOf("--- ", name);
  }

  lemma DstFileRecognised(name: string)
    requires '\n' !in name
    ensures Classify("+++ " + name + "\n") == DstFile(name)
  {
    var line := "+++ " + name + "\n";
    AfterOf("+++ ", name);
    assert line[0] == '+';
    OtherMark("--- ", line);
  }

  lemma NumberOf(n: nat, rest: string)
    requires rest == "" || !D.IsDigit(rest[0])
    ensures Number(D.Print(n) + rest) == Some((n, rest))
  {
    var s := D.Print(n) + rest;
    D.DigitRunOf(D.Print(n), rest);
    D.ValueOfPrint(n);
    assert s[..|D.Print(n)|] == D.Print(n) && s[|D.Print(n)|..] == rest;
  }

  lemma LiteralOf(lit: string, rest: string)
    ensures Literal(lit, lit + rest) == Some(rest)
  {
    assert (lit + rest)[|lit|..] == rest;
  }

  /** The printed header reads back, counts included. */
  lemma HeaderReadsBack(h: Header)
    ensures ParseHeader(PrintHeader(h)) == Some(h)
  {
    var r4 := " @@\n";
    var r3 := "," + (D.Print(h.dstLen) + r4);
    var r2 := " +" + (D.Print(h.dstPos) + r3);
    var r1 := "," + (D.Print(h.srcLen) + r2);
    assert PrintHeader(h) == "@@ -" + (D.Print(h.srcPos) + r1);
    hide D.Print, D.Value, PrintHeader;
    hide Number, Literal;
    LiteralOf("@@ -", D.Print(h.srcPos) + r1);
    NumberOf(h.srcPos, r1);
    LiteralOf(",", D.Print(h.srcLen) + r2);
    NumberOf(h.srcLen, r2);
    LiteralOf(" +", D.Print(h.dstPos) + r3);
    NumberOf(h.dstPos, r3);
    LiteralOf(",", D.Print(h.dstLen) + r4);
    NumberOf(h.dstLen, r4);
    assert r4 == " @@" + "\n";
    LiteralOf(" @@", "\n");
  }

  lemma HeaderRecognised(h: Header)
    ensures Classify(PrintHeader(h)) == ChunkStart(h.srcPos, h.dstPos)
  {
    HeaderReadsBack(h);
    var line := PrintHeader(h);
    assert line[0] == '@';
    hide PrintHeader, ParseHeader;
    OtherMark("--- ", line);
    OtherMark("+++ ", line);
  }

  // ---------- Parsing what was printed ----------

  lemma {:induction false} ParseConcat(st: State, a: seq<string>, b: seq<string>)
    requires GoodState(st)
    ensures ParseFrom(st, a + b) == match ParseFrom(st, a) case Err(e) => Err(e) case Ok(m) => ParseFrom(m, b)
    decreases |a|
  {
    if a == [] {
      assert a + b == b;
    } else {
      assert (a + b)[1..] == a[1..] + b && (a + b)[0] == a[0];
      hide GoodState, Classify;
      match StepItem(st, Classify(a[0])) {
        case Err(_) =>
        case Ok(next) => ParseConcat(next, a[1..], b);
      }
    }
  }

  lemma ParseOne(st: State, line: string)
    requires GoodState(st)
    ensures ParseFrom(st, [line]) == StepItem(st, Classify(line))
  {
    assert [line][1..] == [];
  }

  function Building(ps: seq<Patch>, src: string, dst: string, cs: seq<Chunk>, c: Chunk): (st: State)
    ensures GoodState(st)
  {
    State(ps + [Patch(src, dst, cs + [c])], Some(|ps|))
  }

  lemma LineAdded(ps: seq<Patch>, src: string, dst: string, cs: seq<Chunk>, c: Chunk, l: Line)
    ensures StepItem(Building(ps, src, dst, cs, c), Text(l))
         == Ok(Building(ps, src, dst, cs, c.(lines := c.lines + [l])))
  {
    var st := Building(ps, src, dst, cs, c);
    var c1 := c.(lines := c.lines + [l]);
    assert AddLine(st.patches[|ps|], l) == Patch(src, dst, cs + [c1]);
    assert st.patches[|ps| := Patch(src, dst, cs + [c1])] == ps + [Patch(src, dst, cs + [c1])];
  }

  lemma {:induction false} LinesParse(ps: seq<Patch>, src: string, dst: string, cs: seq<Chunk>, c: Chunk, ls: seq<Line>)
    requires PrintableLines(ls)
    ensures ParseFrom(Building(ps, src, dst, cs, c), PrintLines(ls))
         == Ok(Building(ps, src, dst, cs, c.(lines := c.lines + ls)))
    decreases |ls|
  {
    hide StepItem, Classify, PrintLine, PrintableLine, Building;
    if ls == [] {
      assert c.lines + ls == c.lines;
    } else {
      LineRecognised(ls[0]);
      LineAdded(ps, src, dst, cs, c, ls[0]);
      var c1 := c.(lines := c.lines + [ls[0]]);
      assert PrintLines(ls)[0] == PrintLine(ls[0]);
      LinesParse(ps, src, dst, cs, c1, ls[1..]);
      assert PrintLines(ls)[1..] == PrintLines(ls[1..]);
      assert c1.lines + ls[1..] == c.lines + ls;
    }
  }

  lemma {:induction false} ChunkParse(ps: seq<Patch>, src: string, dst: string, cs: seq<Chunk>,
                                         owner: Option<nat>, c: Chunk)
    requires GoodState(State(ps + [Patch(src, dst, cs)], owner)) && PrintableLines(c.lines)
    ensures ParseFrom(State(ps + [Patch(src, dst, cs)], owner), PrintChunk(c))
         == Ok(State(ps + [Patch(src, dst, cs + [c])], Some(|ps|)))
  {
    var st := State(ps + [Patch(src, dst, cs)], owner);
    var header := Header(c.srcPos, SrcLen(c.lines), c.dstPos, DstLen(c.lines));
    HeaderRecognised(header);
    var empty := Chunk(c.srcPos, c.dstPos, []);
    assert StepItem(st, ChunkStart(c.srcPos, c.dstPos)) == Ok(Building(ps, src, dst, cs, empty)) by {
      hide PrintHeader, Classify;
      assert (ps + [Patch(src, dst, cs)])[|ps| := Patch(src, dst, cs + [empty])]
          == ps + [Patch(src, dst, cs + [empty])];
    }
    hide PrintHeader, Classify, StepItem;
    ParseOne(st, PrintHeader(header));
    ParseConcat(st, [PrintHeader(header)], PrintLines(c.lines));
    LinesParse(ps, src, dst, cs, empty, c.lines);
    assert empty.lines + c.lines == c.lines;
  }

  lemma {:induction false} ChunksParse(ps: seq<Patch>, src: string, dst: string, owner: Option<nat>, cs: seq<Chunk>)
    requires GoodState(State(ps + [Patch(src, dst, [])], owner))
    requires forall i | 0 <= i < |cs| :: PrintableLines(cs[i].lines)
    ensures ParseFrom(State(ps + [Patch(src, dst, [])], owner), PrintChunks(cs))
         == Ok(State(ps + [Patch(src, dst, cs)], if cs == [] then owner else Some(|ps|)))
  {
    hide PrintChunk, PrintableLines, StepItem, Classify;
    if cs != [] {
      var init, c := cs[..|cs| - 1], cs[|cs| - 1];
      ChunksParse(ps, src, dst, owner, init);
      var mid := State(ps + [Patch(src, dst, init)], if init == [] then owner else Some(|ps|));
      ParseConcat(State(ps + [Patch(src, dst, [])], owner), PrintChunks(init), PrintChunk(c));
      ChunkParse(ps, src, dst, init, mid.owner, c);
      assert init + [c] == cs;
    }
  }

  ghost function OwnerOf(ps: seq<Patch>): Option<nat> {
    if ps == [] then None
    else if ps[|ps| - 1].chunks != [] then Some(|ps| - 1)
    else OwnerOf(ps[..|ps| - 1])
  }

  lemma ParseNothing()
    ensures ParseFrom(START, []) == Ok(START)
  {
  }

  lemma {:induction false} PrintParses(ps: seq<Patch>)
    requires Printable(ps)
    ensures ParseFrom(START, Print(ps)) == Ok(State(ps, OwnerOf(ps)))
  {
    hide PrintPatch, PrintablePatch, StepItem, Classify, ParseFrom;
    if ps == [] {
      ParseNothing();
    } else {
      var init, p := ps[..|ps| - 1], ps[|ps| - 1];
      PrintParses(init);
      var st := State(init, OwnerOf(init));
      ParseConcat(START, Print(init), PrintPatch(p));
      PatchParses(st, p);
      assert init + [p] == ps;
    }
  }

  lemma PatchParses(st: State, p: Patch)
    requires GoodState(st) && PrintablePatch(p)
    ensures ParseFrom(st, PrintPatch(p))
         == Ok(State(st.patches + [p], if p.chunks == [] then st.owner else Some(|st.patches|)))
  {
    var a, b := "--- " + p.src + "\n", "+++ " + p.dst + "\n";
    SrcFileRecognised(p.src);
    DstFileRecognised(p.dst);
    var st1 := State(st.patches + [Patch(p.src, "", [])], st.owner);
    var st2 := State(st.patches + [Patch(p.src, p.dst, [])], st.owner);
    assert StepItem(st, SrcFile(p.src)) == Ok(st1);
    assert StepItem(st1, DstFile(p.dst)) == Ok(st2) by {
      assert st1.patches[|st.patches| := Patch(p.src, p.dst, [])] == st2.patches;
    }
    hide Classify, StepItem;
    ParseOne(st, a);
    ParseOne(st1, b);
    ParseConcat(st, [a], [b]);
    assert [a] + [b] == [a, b];
    ParseConcat(st, [a, b], PrintChunks(p.chunks));
    ChunksParse(st.patches, p.src, p.dst, st.owner, p.chunks);
  }

  // ---------- Whatever was parsed can be printed ----------

  lemma ShiftedCapture(mark: string, rest: string, line: string)
    requires |mark| == 1 && '\n' !in rest
    requires After(mark, line).Some?
    ensures rest <= After(mark, line).value ==> After(mark + rest, line).Some?
  {
    var t := After(mark, line).value;
    if !(rest <= t) { return; }
    assert line[1..] == t || line[1..] == t + "\n";
    assert line == mark + line[1..];
    assert line[1 + |rest|..] == t[|rest|..] || line[1 + |rest|..] == t[|rest|..] + "\n";
    assert t == rest + t[|rest|..];
    assert mark + rest <= line;
  }

  /** The file-header patterns are tried first, so no captured line looks like one. */
  lemma CapturedIsPrintable(line: string)
    ensures Classify(line).Text? ==> PrintableLine(Classify(line).line)
    ensures Classify(line).SrcFile? || Classify(line).DstFile? ==> '\n' !in Classify(line).name
  {
    if Classify(line).Text? {
      assert "-" + "-- " == "--- " && "+" + "++ " == "+++ ";
      if Classify(line).line.kind == Src {
        ShiftedCapture("-", "-- ", line);
      } else if Classify(line).line.kind == Dst {
        ShiftedCapture("+", "++ ", line);
      }
    }
  }

  lemma StepKeepsPrintable(st: State, item: Item)
    requires GoodState(st) && Printable(st.patches) && StepItem(st, item).Ok?
    requires item.Text? ==> PrintableLine(item.line)
    requires item.SrcFile? || item.DstFile? ==> '\n' !in item.name
    ensures Printable(StepItem(st, item).value.patches)
  {
    var next := StepItem(st, item).value;
    hide PrintableLine;
    forall i | 0 <= i < |next.patches| ensures PrintablePatch(next.patches[i]) {
      if i < |st.patches| { assert PrintablePatch(st.patches[i]); }
    }
  }

  lemma {:induction false} ParseKeepsPrintable(st: State, lines: seq<string>)
    requires GoodState(st) && Printable(st.patches) && ParseFrom(st, lines).Ok?
    ensures Printable(ParseFrom(st, lines).value.patches)
    decreases |lines|
  {
    if lines != [] {
      CapturedIsPrintable(lines[0]);
      StepKeepsPrintable(st, Classify(lines[0]));
      ParseKeepsPrintable(StepItem(st, Classify(lines[0])).value, lines[1..]);
    }
  }

  // ---------- The laws ----------

  lemma PrintThenParse(ps: seq<Patch>)
    requires Printable(ps)
    ensures Parse(Print(ps)) == Ok(ps)
  {
    PrintParses(ps);
  }

  lemma ParsedIsPrintable(lines: seq<string>, ps: seq<Patch>)
    requires Parse(lines) == Ok(ps)
    ensures Printable(ps)
  {
    ParseKeepsPrintable(START, lines);
  }

  /** Printing and parsing again gives a patch set back exactly when it is printable. */
  lemma RoundTripIffPrintable(ps: seq<Patch>)
    ensures Parse(Print(ps)) == Ok(ps) <==> Printable(ps)
  {
    if Printable(ps) {
      PrintThenParse(ps);
    } else if Parse(Print(ps)) == Ok(ps) {
      ParsedIsPrintable(Print(ps), ps);
    }
  }

  /** Parsing normalises, without side conditions: what any accepted input parses to prints to
      something that parses to the same again. */
  lemma ParsePrintParse(lines: seq<string>, ps: seq<Patch>)
    requires Parse(lines) == Ok(ps)
    ensures Parse(Print(ps)) == Ok(ps)
  {
    ParsedIsPrintable(lines, ps);
    PrintThenParse(ps);
  }

  // ---------- The same through the lines of a written file ----------

  lemma {:induction false} PrintedLinesAreFull(ps: seq<Patch>)
    requires Printable(ps)
    ensures forall i | 0 <= i < |Print(ps)| :: IsFullLine(Print(ps)[i])
  {
    if ps != [] {
      var init, p := ps[..|ps| - 1], ps[|ps| - 1];
      assert Printable(init) && PrintablePatch(p);
      hide PrintPatch, PrintablePatch, IsFullLine;
      PrintedLinesAreFull(init);
      PatchLinesAreFull(p);
    }
  }

  lemma PatchLinesAreFull(p: Patch)
    requires PrintablePatch(p)
    ensures forall i | 0 <= i < |PrintPatch(p)| :: IsFullLine(PrintPatch(p)[i])
  {
    FullLine("--- " + p.src);
    FullLine("+++ " + p.dst);
    ChunkLinesAreFull(p.chunks);
    hide IsFullLine, PrintChunks;
    assert PrintPatch(p)[0] == "--- " + p.src + "\n" && PrintPatch(p)[1] == "+++ " + p.dst + "\n";
  }

  lemma {:induction false} ChunkLinesAreFull(cs: seq<Chunk>)
    requires forall i | 0 <= i < |cs| :: PrintableLines(cs[i].lines)
    ensures forall i | 0 <= i < |PrintChunks(cs)| :: IsFullLine(PrintChunks(cs)[i])
  {
    if cs != [] {
      var init, c := cs[..|cs| - 1], cs[|cs| - 1];
      ChunkLinesAreFull(init);
      forall i | 0 <= i < |c.lines| ensures IsFullLine(PrintLine(c.lines[i])) {
        assert PrintableLine(c.lines[i]);
        FullLine([Mark(c.lines[i].kind)] + c.lines[i].text);
      }
      HeaderIsFull(Header(c.srcPos, SrcLen(c.lines), c.dstPos, DstLen(c.lines)));
      hide IsFullLine, PrintHeader, PrintLine, PrintableLine;
    }
  }

  lemma HeaderIsFull(h: Header)
    ensures IsFullLine(PrintHeader(h))
  {
    hide D.Print;
    var body := "@@ -" + D.Print(h.srcPos) + "," + D.Print(h.srcLen)
                + " +" + D.Print(h.dstPos) + "," + D.Print(h.dstLen) + " @@";
    assert PrintHeader(h) == body + "\n";
    assert forall n: nat :: D.AllDigits(D.Print(n));
    FullLine(body);
  }

  /** The law on files: writing a patch set to a file and parsing the lines of that file gives the
      patch set back exactly when it is printable. */
  lemma FileRoundTripIffPrintable(ps: seq<Patch>)
    ensures Parse(SplitLines(Join(Print(ps)))) == Ok(ps) <==> Printable(ps)
  {
    if Printable(ps) {
      PrintedLinesAreFull(ps);
      SplitOfJoin(Print(ps));
      PrintThenParse(ps);
    } else if Parse(SplitLines(Join(Print(ps)))) == Ok(ps) {
      ParsedIsPrintable(SplitLines(Join(Print(ps))), ps);
    }
  }

  // ---------- The printed counts ----------

  /** How many of the printed lines begin with one of two marks. */
  ghost function Beginning(lines: seq<string>, a: char, b: char): nat {
    if lines == [] then 0
    else
      var last := lines[|lines| - 1];
      Beginning(lines[..|lines| - 1], a, b) + if last != "" && (last[0] == a || last[0] == b) then 1 else 0
  }

  lemma {:induction false} LengthsAreCounts(ls: seq<Line>)
    ensures SrcLen(ls) == Beginning(PrintLines(ls), '-', ' ')
    ensures DstLen(ls) == Beginning(PrintLines(ls), '+', ' ')
  {
    if ls != [] {
      var init := ls[..|ls| - 1];
      LengthsAreCounts(init);
      assert PrintLines(ls)[..|ls| - 1] == PrintLines(init);
      assert PrintLines(ls)[|ls| - 1][0] == Mark(ls[|ls| - 1].kind);
    }
  }

  /** The header of a printed chunk announces exactly the '-' and ' ' lines, and the '+' and ' '
      lines, that follow it. */
  lemma PrintedCountsAreRight(c: Chunk)
    ensures var out := PrintChunk(c);
            ParseHeader(out[0]) == Some(Header(
              c.srcPos, Beginning(out[1..], '-', ' '), c.dstPos, Beginning(out[1..], '+', ' ')))
  {
    var h := Header(c.srcPos, SrcLen(c.lines), c.dstPos, DstLen(c.lines));
    HeaderReadsBack(h);
    LengthsAreCounts(c.lines);
    assert PrintChunk(c)[1..] == PrintLines(c.lines);
  }
}
