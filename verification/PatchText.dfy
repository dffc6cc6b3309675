/** The texts of the format, character by character: what each kind of line is recognised as, and
    what a patch is printed as. */
module PatchText {
  import D = Decimal
  import opened Options
  import opened PatchFormat
  import opened PatchRoundTrip

  // ---------- Chunk headers ----------

  predicate IsNumber(s: string) {
    s != "" && D.AllDigits(s)
  }

  /** The text "@@ -a,b +c,d @@" with something after it. */
  function HeaderText(a: string, b: string, c: string, d: string, rest: string): string {
    "@@ -" + a + "," + b + " +" + c + "," + d + " @@" + rest
  }

  lemma Nested(a: string, b: string, c: string, d: string, rest: string)
    ensures HeaderText(a, b, c, d, rest)
         == "@@ -" + (a + ("," + (b + (" +" + (c + ("," + (d + (" @@" + rest))))))))
  {
  }

  lemma NumberIn(a: string, rest: string)
    requires IsNumber(a) && (rest == "" || !D.IsDigit(rest[0]))
    ensures Number(a + rest) == Some((D.PlaceSum(a), rest))
  {
    D.DigitRunOf(a, rest);
    D.ValueIsPlaceSum(a);
    assert (a + rest)[..|a|] == a && (a + rest)[|a|..] == rest;
  }

  /** A header is read as its four numbers, source first, whatever follows it. */
  lemma HeaderParses(a: string, b: string, c: string, d: string, rest: string)
    requires IsNumber(a) && IsNumber(b) && IsNumber(c) && IsNumber(d)
    ensures ParseHeader(HeaderText(a, b, c, d, rest))
         == Some(Header(D.PlaceSum(a), D.PlaceSum(b), D.PlaceSum(c), D.PlaceSum(d)))
  {
    var r4 := " @@" + rest;
    var r3 := "," + (d + r4);
    var r2 := " +" + (c + r3);
    var r1 := "," + (b + r2);
    Nested(a, b, c, d, rest);
    hide Number, Literal, D.PlaceSum, IsNumber, HeaderText;
    LiteralOf("@@ -", a + r1);
    NumberIn(a, r1);
    LiteralOf(",", b + r2);
    NumberIn(b, r2);
    LiteralOf(" +", c + r3);
    NumberIn(c, r3);
    LiteralOf(",", d + r4);
    NumberIn(d, r4);
    LiteralOf(" @@", rest);
  }

  lemma LiteralTaken(lit: string, s: string)
    ensures Literal(lit, s).Some? ==> s == lit + Literal(lit, s).value
  {
  }

  lemma NumberTaken(s: string) returns (a: string)
    ensures Number(s).Some? ==>
              IsNumber(a) && s == a + Number(s).value.1 && Number(s).value.0 == D.PlaceSum(a)
  {
    a := s[..D.DigitRun(s)];
    D.ValueIsPlaceSum(a);
  }

  /** Nothing else is a header. */
  lemma HeaderOnly(line: string) returns (a: string, b: string, c: string, d: string, rest: string)
    requires ParseHeader(line).Some?
    ensures IsNumber(a) && IsNumber(b) && IsNumber(c) && IsNumber(d)
    ensures line == HeaderText(a, b, c, d, rest)
  {
    hide Number, Literal, IsNumber, HeaderText;
    LiteralTaken("@@ -", line);
    var s1 := Literal("@@ -", line).value;
    a := NumberTaken(s1);
    var t1 := Number(s1).value.1;
    LiteralTaken(",", t1);
    var s2 := Literal(",", t1).value;
    b := NumberTaken(s2);
    var t2 := Number(s2).value.1;
    LiteralTaken(" +", t2);
    var s3 := Literal(" +", t2).value;
    c := NumberTaken(s3);
    var t3 := Number(s3).value.1;
    LiteralTaken(",", t3);
    var s4 := Literal(",", t3).value;
    d := NumberTaken(s4);
    var t4 := Number(s4).value.1;
    LiteralTaken(" @@", t4);
    rest := Literal(" @@", t4).value;
    Nested(a, b, c, d, rest);
  }

  // ---------- Recognising ----------

  lemma PrefixOfBody(prefix: string, body: string, end: string)
    requires '\n' !in prefix && (end == "" || end == "\n") && prefix <= body + end
    ensures prefix <= body
  {
    assert forall i | 0 <= i < |prefix| :: prefix[i] in prefix && prefix[i] == (body + end)[i];
    assert end == "\n" ==> (body + end)[|body|] == '\n';
    assert |prefix| <= |body|;
    assert (body + end)[..|body|] == body;
  }

  lemma AfterIs(prefix: string, body: string, end: string)
    requires '\n' !in body && (end == "" || end == "\n") && '\n' !in prefix
    ensures After(prefix, body + end) == if prefix <= body then Some(body[|prefix|..]) else None
  {
    var line := body + end;
    if prefix <= line { PrefixOfBody(prefix, body, end); }
    if prefix <= body {
      var t := body[|prefix|..];
      assert line[|prefix|..] == t + end;
      if end == "" { assert t + end == t; } else { assert (t + end)[..|t|] == t; }
    }
  }

  /** What a line of a file is, from how it begins; the patterns are tried in this order. */
  lemma Recognised(body: string, end: string)
    requires '\n' !in body && (end == "" || end == "\n")
    ensures Classify(body + end) ==
            if "--- " <= body then SrcFile(body[4..])
            else if "+++ " <= body then DstFile(body[4..])
            else if ParseHeader(body + end).Some? then
              ChunkStart(ParseHeader(body + end).value.srcPos, ParseHeader(body + end).value.dstPos)
            else if "-" <= body then Text(Line(Src, body[1..]))
            else if "+" <= body then Text(Line(Dst, body[1..]))
            else if " " <= body then Text(Line(Both, body[1..]))
            else Junk
  {
    AfterIs("--- ", body, end);
    AfterIs("+++ ", body, end);
    AfterIs("-", body, end);
    AfterIs("+", body, end);
    AfterIs(" ", body, end);
    hide After, ParseHeader;
  }

  // ---------- Printing ----------

  lemma PrintedLine(l: Line)
    ensures l.kind == Src ==> PrintLine(l) == "-" + l.text + "\n"
    ensures l.kind == Dst ==> PrintLine(l) == "+" + l.text + "\n"
    ensures l.kind == Both ==> PrintLine(l) == " " + l.text + "\n"
  {
  }

  /** The first line of a printed chunk: source before destination, each with its position and the
      number of the lines behind it that carry its mark or a blank. */
  lemma PrintedHeader(c: Chunk)
    ensures |PrintChunk(c)| == 1 + |c.lines|
    ensures PrintChunk(c)[0] ==
            "@@ -" + D.Print(c.srcPos) + "," + D.Print(Beginning(PrintChunk(c)[1..], '-', ' '))
            + " +" + D.Print(c.dstPos) + "," + D.Print(Beginning(PrintChunk(c)[1..], '+', ' ')) + " @@\n"
    ensures forall i | 0 <= i < |c.lines| :: PrintChunk(c)[1 + i] == PrintLine(c.lines[i])
  {
    LengthsAreCounts(c.lines);
    assert PrintChunk(c)[1..] == PrintLines(c.lines);
    hide D.Print, SrcLen, DstLen, PrintLine, Beginning;
    Flat(D.Print(c.srcPos), D.Print(SrcLen(c.lines)), D.Print(c.dstPos), D.Print(DstLen(c.lines)));
  }

  lemma Flat(a: string, b: string, c: string, d: string)
    ensures "@@ -" + (a + ("," + (b + (" +" + (c + ("," + (d + " @@\n")))))))
         == "@@ -" + a + "," + b + " +" + c + "," + d + " @@\n"
  {
  }
}
