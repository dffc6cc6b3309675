/** What a sequence of lines is read as, told from its end: each chunk has the text lines up to the
    next chunk header, each patch the chunks and the last destination name up to the next file
    header. And which sequences are read at all, and what is raised for the others. */
module PatchReading {
  import opened Options
  import opened PatchFormat
  import opened PatchRoundTrip

  function Items(lines: seq<string>): seq<Item> {
    seq(|lines|, i requires 0 <= i < |lines| => Classify(lines[i]))
  }

  // ---------- The meaning of what is accepted ----------

  /** What lies ahead: text lines for the chunk before, a destination name and chunks for the patch
      before, and whole patches. */
  datatype Rest = Rest(texts: seq<Line>, dst: Option<string>, chunks: seq<Chunk>, patches: seq<Patch>)

  function NameOr(name: Option<string>, default: string): string {
    if name.Some? then name.value else default
  }

  function Ahead(items: seq<Item>): Rest {
    if items == [] then Rest([], None, [], [])
    else
      var r := Ahead(items[1..]);
      match items[0]
      case Text(l) => r.(texts := [l] + r.texts)
      case ChunkStart(a, b) => r.(texts := [], chunks := [Chunk(a, b, r.texts)] + r.chunks)
      case DstFile(name) => r.(dst := Some(NameOr(r.dst, name)))
      case SrcFile(name) => Rest(r.texts, None, [], [Patch(name, NameOr(r.dst, ""), r.chunks)] + r.patches)
      case Junk => r
  }

  function AddLines(p: Patch, ls: seq<Line>): Patch
    requires p.chunks != []
  {
    var last := |p.chunks| - 1;
    p.(chunks := p.chunks[last := p.chunks[last].(lines := p.chunks[last].lines + ls)])
  }

  function WithTexts(st: State, ls: seq<Line>): (ps: seq<Patch>)
    requires GoodState(st)
    ensures |ps| == |st.patches|
  {
    if st.owner == None then st.patches
    else st.patches[st.owner.value := AddLines(st.patches[st.owner.value], ls)]
  }

  function Finished(p: Patch, r: Rest): Patch {
    p.(dst := NameOr(r.dst, p.dst), chunks := p.chunks + r.chunks)
  }

  /** The patches so far, completed by what lies ahead. */
  function Completed(st: State, r: Rest): seq<Patch>
    requires GoodState(st)
  {
    if st.patches == [] then r.patches
    else
      var ps := WithTexts(st, r.texts);
      var last := |ps| - 1;
      ps[last := Finished(ps[last], r)] + r.patches
  }

  lemma AddLinesMore(p: Patch, l: Line, ls: seq<Line>)
    requires p.chunks != []
    ensures AddLines(AddLine(p, l), ls) == AddLines(p, [l] + ls) && AddLines(p, []) == p
  {
    var last := |p.chunks| - 1;
    assert (p.chunks[last].lines + [l]) + ls == p.chunks[last].lines + ([l] + ls);
    assert p.chunks[last].lines + [] == p.chunks[last].lines;
    assert p.chunks[last := p.chunks[last]] == p.chunks;
  }

  lemma StepCompletes(st: State, item: Item, rest: seq<Item>)
    requires GoodState(st) && StepItem(st, item).Ok?
    ensures Completed(StepItem(st, item).value, Ahead(rest)) == Completed(st, Ahead([item] + rest))
  {
    var r := Ahead(rest);
    var next := StepItem(st, item).value;
    var last := |st.patches| - 1;
    assert ([item] + rest)[1..] == rest;
    match item
    case Text(l) =>
      AddLinesMore(st.patches[st.owner.value], l, r.texts);
      assert WithTexts(next, r.texts) == WithTexts(st, [l] + r.texts);
    case ChunkStart(a, b) =>
      ChunkCompletes(st, a, b, r);
    case DstFile(name) =>
      DstCompletes(st, name, r);
    case SrcFile(name) =>
      SrcCompletes(st, name, r);
  }

  lemma FilledChunk(p: Patch, a: nat, b: nat, ls: seq<Line>, cs: seq<Chunk>)
    ensures AddLines(AddChunk(p, Chunk(a, b, [])), ls) == AddChunk(p, Chunk(a, b, ls))
    ensures AddChunk(p, Chunk(a, b, ls)).chunks + cs == p.chunks + ([Chunk(a, b, ls)] + cs)
  {
    assert [] + ls == ls;
    assert (p.chunks + [Chunk(a, b, [])])[|p.chunks| := Chunk(a, b, ls)] == p.chunks + [Chunk(a, b, ls)];
  }

  lemma NoTexts(st: State)
    requires GoodState(st)
    ensures WithTexts(st, []) == st.patches
  {
    if st.owner.Some? { AddLinesMore(st.patches[st.owner.value], Line(Src, ""), []); }
  }

  lemma ChunkCompletes(st: State, a: nat, b: nat, r: Rest)
    requires GoodState(st) && st.patches != []
    ensures Completed(StepItem(st, ChunkStart(a, b)).value, r)
         == Completed(st, r.(texts := [], chunks := [Chunk(a, b, r.texts)] + r.chunks))
  {
    var last := |st.patches| - 1;
    var p := st.patches[last];
    var next := State(st.patches[last := AddChunk(p, Chunk(a, b, []))], Some(last));
    NoTexts(st);
    FilledChunk(p, a, b, r.texts, r.chunks);
    hide AddLines, GoodState;
    assert WithTexts(next, r.texts) == st.patches[last := AddChunk(p, Chunk(a, b, r.texts))];
  }

  lemma DstCompletes(st: State, name: string, r: Rest)
    requires GoodState(st) && st.patches != []
    ensures Completed(st.(patches := st.patches[|st.patches| - 1 := st.patches[|st.patches| - 1].(dst := name)]), r)
         == Completed(st, r.(dst := Some(NameOr(r.dst, name))))
  {
    var last := |st.patches| - 1;
    var next := st.(patches := st.patches[last := st.patches[last].(dst := name)]);
    assert WithTexts(next, r.texts)
        == WithTexts(st, r.texts)[last := WithTexts(st, r.texts)[last].(dst := name)];
  }

  lemma SrcCompletes(st: State, name: string, r: Rest)
    requires GoodState(st)
    ensures Completed(st.(patches := st.patches + [Patch(name, "", [])]), r)
         == Completed(st, Rest(r.texts, None, [], [Patch(name, NameOr(r.dst, ""), r.chunks)] + r.patches))
  {
    var new' := Patch(name, "", []);
    var next := st.(patches := st.patches + [new']);
    var done := Patch(name, NameOr(r.dst, ""), r.chunks);
    assert Finished(new', r) == done by { assert [] + r.chunks == r.chunks; }
    var ps := WithTexts(st, r.texts);
    assert WithTexts(next, r.texts) == ps + [new'];
    assert (ps + [new'])[|ps| := done] == ps + [done];
    if ps != [] {
      var last := |ps| - 1;
      assert ps[last].chunks + [] == ps[last].chunks;
      assert Finished(ps[last], Rest(r.texts, None, [], [])) == ps[last];
      assert ps[last := ps[last]] == ps;
      assert (ps + [done]) + r.patches == ps + ([done] + r.patches);
    }
  }

  lemma {:induction false} ParseCompletes(st: State, lines: seq<string>)
    requires GoodState(st) && ParseFrom(st, lines).Ok?
    ensures ParseFrom(st, lines).value.patches == Completed(st, Ahead(Items(lines)))
    decreases |lines|
  {
    hide Classify, StepItem, Completed, Ahead;
    if lines == [] {
      NothingAhead(st);
    } else {
      var item := Classify(lines[0]);
      ParseCompletes(StepItem(st, item).value, lines[1..]);
      StepCompletes(st, item, Items(lines[1..]));
      assert Items(lines) == [item] + Items(lines[1..]);
    }
  }

  lemma NothingAhead(st: State)
    requires GoodState(st)
    ensures Completed(st, Ahead(Items([]))) == st.patches
  {
    NoTexts(st);
    if st.patches != [] {
      var p := st.patches[|st.patches| - 1];
      assert p.chunks + [] == p.chunks && st.patches + [] == st.patches;
    }
  }

  /** Whatever is accepted is read as told from its end. */
  lemma ParseIsAhead(lines: seq<string>)
    requires Parse(lines).Ok?
    ensures Parse(lines).value == Ahead(Items(lines)).patches
  {
    ParseCompletes(START, lines);
  }

  // ---------- What is accepted ----------

  /** A destination name or a chunk header needs a source name somewhere before it, a text line a
      chunk header, and every line must be one of the six kinds. */
  ghost predicate Fits(items: seq<Item>, i: nat)
    requires i < |items|
  {
    match items[i]
    case SrcFile(_) => true
    case DstFile(_) => exists j :: 0 <= j < i && items[j].SrcFile?
    case ChunkStart(_, _) => exists j :: 0 <= j < i && items[j].SrcFile?
    case Text(_) => exists j :: 0 <= j < i && items[j].ChunkStart?
    case Junk => false
  }

  function ErrorOf(item: Item): Error {
    match item
    case Junk => BadLine
    case Text(_) => NoChunk
    case _ => NoPatch
  }

  /** The line at which parsing stops. */
  ghost predicate FirstMisfit(items: seq<Item>, i: nat) {
    i < |items| && !Fits(items, i) && forall j | 0 <= j < i :: Fits(items, j)
  }

  ghost predicate Seen(items: seq<Item>, st: State) {
    && (forall i | 0 <= i < |items| :: Fits(items, i))
    && (st.patches != [] <==> exists j :: 0 <= j < |items| && items[j].SrcFile?)
    && (st.owner.Some? <==> exists j :: 0 <= j < |items| && items[j].ChunkStart?)
  }

  lemma FitsBefore(items: seq<Item>, item: Item, i: nat)
    requires i < |items|
    ensures Fits(items + [item], i) == Fits(items, i)
  {
    var more := items + [item];
    assert forall j | 0 <= j <= i :: more[j] == items[j];
  }

  lemma SeenNext(items: seq<Item>, st: State, item: Item)
    requires GoodState(st) && Seen(items, st)
    ensures match StepItem(st, item)
            case Ok(next) => Seen(items + [item], next)
            case Err(e) => FirstMisfit(items + [item], |items|) && e == ErrorOf(item)
  {
    var more := items + [item];
    assert forall j | 0 <= j < |items| :: more[j] == items[j];
    assert more[|items|] == item;
    forall i | 0 <= i < |items| ensures Fits(more, i) { FitsBefore(items, item, i); }
    assert Fits(more, |items|) <==> StepItem(st, item).Ok?;
    assert StepItem(st, item).Ok? ==> forall i | 0 <= i < |more| :: Fits(more, i);
    hide Fits;
  }

  lemma {:induction false} ParseOutcome(lines: seq<string>)
    ensures match ParseFrom(START, lines)
            case Ok(st) => Seen(Items(lines), st)
            case Err(e) => exists i: nat :: FirstMisfit(Items(lines), i) && e == ErrorOf(Items(lines)[i])
  {
    hide Classify, StepItem, Fits;
    if lines == [] {
      ParseNothing();
    } else {
      var n := |lines| - 1;
      var init, item := lines[..n], Classify(lines[n]);
      ParseOutcome(init);
      ParseConcat(START, init, [lines[n]]);
      assert lines == init + [lines[n]] && Items(lines) == Items(init) + [item];
      if ParseFrom(START, init).Ok? {
        var st := ParseFrom(START, init).value;
        SeenNext(Items(init), st, item);
        ParseOne(st, lines[n]);
      } else {
        var i: nat :| FirstMisfit(Items(init), i) && ParseFrom(START, init).error == ErrorOf(Items(init)[i]);
        forall j: nat | j <= i ensures Fits(Items(lines), j) == Fits(Items(init), j) {
          FitsBefore(Items(init), item, j);
        }
        assert FirstMisfit(Items(lines), i);
      }
    }
  }

  /** A sequence of lines is accepted exactly when every line fits; otherwise the error is that of
      the first line that does not. */
  lemma AcceptedIff(lines: seq<string>)
    ensures Parse(lines).Ok? <==> forall i | 0 <= i < |lines| :: Fits(Items(lines), i)
    ensures Parse(lines).Err? ==>
              exists i: nat :: FirstMisfit(Items(lines), i) && Parse(lines).error == ErrorOf(Items(lines)[i])
  {
    hide Fits;
    ParseOutcome(lines);
    if Parse(lines).Err? {
      var i: nat :| FirstMisfit(Items(lines), i) && Parse(lines).error == ErrorOf(Items(lines)[i]);
      assert !Fits(Items(lines), i);
    }
  }
}
