/** The unified-diff format of check-style.py on values: how a line is recognised, what a sequence
    of lines parses to, and what a patch set prints as. It is the "diff -u" output format of
    POSIX.1 (IEEE Std 1003.1) with both counts of a chunk header mandatory. */
module PatchFormat {
  import D = Decimal
  import opened Options

  datatype Kind = Src | Dst | Both

  datatype Line = Line(kind: Kind, text: string)
  datatype Chunk = Chunk(srcPos: nat, dstPos: nat, lines: seq<Line>)
  datatype Patch = Patch(src: string, dst: string, chunks: seq<Chunk>)

  /** Why the parser raises: a header or chunk before any patch, a chunk line before any chunk,
      or a line that fits none of the six patterns. */
  datatype Error = NoPatch | NoChunk | BadLine

  datatype Result<+T> = Ok(value: T) | Err(error: Error)

  // ---------- Recognising one line ----------

  datatype Item =
    SrcFile(name: string) | DstFile(name: string) | ChunkStart(src: nat, dst: nat) | Text(line: Line) | Junk

  function Chomp(s: string): string {
    if s != "" && s[|s| - 1] == '\n' then s[..|s| - 1] else s
  }

  /** The group of a pattern "^prefix(.*)$": the rest of the line without its newline. */
  function After(prefix: string, line: string): Option<string> {
    if !(prefix <= line) then None
    else
      var rest := Chomp(line[|prefix|..]);
      if '\n' in rest then None else Some(rest)
  }

  function Literal(lit: string, s: string): Option<string> {
    if lit <= s then Some(s[|lit|..]) else None
  }

  function Number(s: string): Option<(nat, string)> {
    var n := D.DigitRun(s);
    if n == 0 then None else Some((D.Value(s[..n]), s[n..]))
  }

  datatype Header = Header(srcPos: nat, srcLen: nat, dstPos: nat, dstLen: nat)

  /** "@@ -a,b +c,d @@", with anything after it. */
  function ParseHeader(line: string): Option<Header> {
    var s1 :- Literal("@@ -", line);
    var n1 :- Number(s1);
    var s2 :- Literal(",", n1.1);
    var n2 :- Number(s2);
    var s3 :- Literal(" +", n2.1);
    var n3 :- Number(s3);
    var s4 :- Literal(",", n3.1);
    var n4 :- Number(s4);
    var _ :- Literal(" @@", n4.1);
    Some(Header(n1.0, n2.0, n3.0, n4.0))
  }

  /** The patterns in the order in which they are tried. The two counts are not used. */
  function Classify(line: string): Item {
    match After("--- ", line)
    case Some(name) => SrcFile(name)
    case None =>
    match After("+++ ", line)
    case Some(name) => DstFile(name)
    case None =>
    match ParseHeader(line)
    case Some(h) => ChunkStart(h.srcPos, h.dstPos)
    case None =>
    match After("-", line)
    case Some(t) => Text(Line(Src, t))
    case None =>
    match After("+", line)
    case Some(t) => Text(Line(Dst, t))
    case None =>
    match After(" ", line)
    case Some(t) => Text(Line(Both, t))
    case None => Junk
  }

  // ---------- Parsing ----------

  /** The patches so far, and which of them holds the current chunk (always its last one). The
      current chunk outlives a new file header: lines before the next chunk header still go to it. */
  datatype State = State(patches: seq<Patch>, owner: Option<nat>)

  ghost predicate GoodState(st: State) {
    st.owner.Some? ==> st.owner.value < |st.patches| && st.patches[st.owner.value].chunks != []
  }

  function AddChunk(p: Patch, c: Chunk): Patch {
    p.(chunks := p.chunks + [c])
  }

  function AddLine(p: Patch, l: Line): Patch
    requires p.chunks != []
  {
    var last := |p.chunks| - 1;
    p.(chunks := p.chunks[last := p.chunks[last].(lines := p.chunks[last].lines + [l])])
  }

  function StepItem(st: State, item: Item): (r: Result<State>)
    requires GoodState(st)
    ensures r.Ok? ==> GoodState(r.value)
  {
    var last := |st.patches| - 1;
    match item
    case SrcFile(name) => Ok(st.(patches := st.patches + [Patch(name, "", [])]))
    case DstFile(name) =>
      if st.patches == [] then Err(NoPatch)
      else Ok(st.(patches := st.patches[last := st.patches[last].(dst := name)]))
    case ChunkStart(a, b) =>
      if st.patches == [] then Err(NoPatch)
      else
        Ok(State(st.patches[last := AddChunk(st.patches[last], Chunk(a, b, []))], Some(last)))
    case Text(l) =>
      if st.owner == None then Err(NoChunk)
      else
        var o := st.owner.value;
        Ok(st.(patches := st.patches[o := AddLine(st.patches[o], l)]))
    case Junk => Err(BadLine)
  }

  function ParseFrom(st: State, lines: seq<string>): (r: Result<State>)
    requires GoodState(st)
    ensures r.Ok? ==> GoodState(r.value)
    decreases |lines|
  {
    if lines == [] then Ok(st)
    else match StepItem(st, Classify(lines[0]))
      case Err(e) => Err(e)
      case Ok(next) => ParseFrom(next, lines[1..])
  }

  const START := State([], None)

  function Parse(lines: seq<string>): Result<seq<Patch>> {
    match ParseFrom(START, lines)
    case Err(e) => Err(e)
    case Ok(st) => Ok(st.patches)
  }

  // ---------- Printing ----------

  function Mark(k: Kind): char {
    match k case Src => '-' case Dst => '+' case Both => ' '
  }

  predicate InSrc(l: Line) { l.kind != Dst }
  predicate InDst(l: Line) { l.kind != Src }

  function SrcLen(lines: seq<Line>): nat {
    if lines == [] then 0 else SrcLen(lines[..|lines| - 1]) + if InSrc(lines[|lines| - 1]) then 1 else 0
  }

  function DstLen(lines: seq<Line>): nat {
    if lines == [] then 0 else DstLen(lines[..|lines| - 1]) + if InDst(lines[|lines| - 1]) then 1 else 0
  }

  function PrintHeader(h: Header): string {
    "@@ -" + (D.Print(h.srcPos) + ("," + (D.Print(h.srcLen)
    + (" +" + (D.Print(h.dstPos) + ("," + (D.Print(h.dstLen) + " @@\n")))))))
  }

  function PrintLine(l: Line): string {
    [Mark(l.kind)] + l.text + "\n"
  }

  function PrintLines(ls: seq<Line>): seq<string> {
    seq(|ls|, i requires 0 <= i < |ls| => PrintLine(ls[i]))
  }

  function PrintChunk(c: Chunk): seq<string> {
    [PrintHeader(Header(c.srcPos, SrcLen(c.lines), c.dstPos, DstLen(c.lines)))] + PrintLines(c.lines)
  }

  function PrintChunks(cs: seq<Chunk>): seq<string> {
    if cs == [] then [] else PrintChunks(cs[..|cs| - 1]) + PrintChunk(cs[|cs| - 1])
  }

  function PrintPatch(p: Patch): seq<string> {
    ["--- " + p.src + "\n", "+++ " + p.dst + "\n"] + PrintChunks(p.chunks)
  }

  function Print(ps: seq<Patch>): seq<string> {
    if ps == [] then [] else Print(ps[..|ps| - 1]) + PrintPatch(ps[|ps| - 1])
  }
}
