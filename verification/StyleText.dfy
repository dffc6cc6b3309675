/** The string operations check-style-clang-format.py relies on: strip, rstrip and expandtabs. */
module StyleText {
  const TAB_SIZE: nat := 4
  const GUARD_ON := "// clang-format on"
  const GUARD_OFF := "// clang-format off"

  /** What str.strip removes. */
  predicate IsSpace(c: char) {
    || '\t' <= c <= '\r' || '\U{1C}' <= c <= ' ' || c == '\U{85}' || c == '\U{A0}' || c == '\U{1680}'
    || '\U{2000}' <= c <= '\U{200A}' || c == '\U{2028}' || c == '\U{2029}' || c == '\U{202F}'
    || c == '\U{205F}' || c == '\U{3000}'
  }

  predicate AllSpace(s: string) {
    forall i | 0 <= i < |s| :: IsSpace(s[i])
  }

  // ---------- Stripping ----------

  function RStrip(s: string): string {
    if s != "" && IsSpace(s[|s| - 1]) then RStrip(s[..|s| - 1]) else s
  }

  function LStrip(s: string): string {
    if s != "" && IsSpace(s[0]) then LStrip(s[1..]) else s
  }

  function Strip(s: string): string {
    LStrip(RStrip(s))
  }

  /** A text that strip leaves alone, and that is not empty. */
  ghost predicate Solid(s: string) {
    s != "" && !IsSpace(s[0]) && !IsSpace(s[|s| - 1])
  }

  lemma {:induction false} RStripSplit(s: string) returns (b: string)
    ensures s == RStrip(s) + b && AllSpace(b)
    ensures RStrip(s) != "" ==> !IsSpace(RStrip(s)[|RStrip(s)| - 1])
  {
    if s != "" && IsSpace(s[|s| - 1]) {
      b := RStripSplit(s[..|s| - 1]);
      b := b + [s[|s| - 1]];
    } else {
      b := "";
    }
  }

  lemma {:induction false} LStripSplit(s: string) returns (a: string)
    ensures s == a + LStrip(s) && AllSpace(a)
    ensures LStrip(s) != "" ==> !IsSpace(LStrip(s)[0])
  {
    if s != "" && IsSpace(s[0]) {
      a := LStripSplit(s[1..]);
      a := [s[0]] + a;
    } else {
      a := "";
    }
  }

  /** strip finds a solid core behind white space on both sides ... */
  lemma StripSplit(s: string) returns (a: string, b: string)
    ensures s == a + Strip(s) + b && AllSpace(a) && AllSpace(b)
  {
    b := RStripSplit(s);
    a := LStripSplit(RStrip(s));
  }

  lemma {:induction false} RStripOf(s: string, b: string)
    requires AllSpace(b) && (s == "" || !IsSpace(s[|s| - 1]))
    ensures RStrip(s + b) == s
  {
    if b == "" {
      assert s + b == s;
    } else {
      RStripOf(s, b[..|b| - 1]);
      assert (s + b)[..|s + b| - 1] == s + b[..|b| - 1];
      assert (s + b)[|s + b| - 1] == b[|b| - 1];
    }
  }

  lemma {:induction false} LStripOf(a: string, s: string)
    requires AllSpace(a) && (s == "" || !IsSpace(s[0]))
    ensures LStrip(a + s) == s
  {
    if a == "" {
      assert a + s == s;
    } else {
      LStripOf(a[1..], s);
      assert (a + s)[1..] == a[1..] + s;
    }
  }

  /** ... and whatever white space surrounds a solid core, strip finds it. */
  lemma StripOf(a: string, core: string, b: string)
    requires AllSpace(a) && Solid(core) && AllSpace(b)
    ensures Strip(a + core + b) == core
  {
    assert (a + core)[|a + core| - 1] == core[|core| - 1];
    RStripOf(a + core, b);
    LStripOf(a, core);
  }

  // ---------- Expanding tabs ----------

  function Spaces(n: nat): (s: string)
    ensures |s| == n
  {
    seq(n, _ => ' ')
  }

  function ToNextStop(col: nat): (n: nat)
    ensures 1 <= n <= TAB_SIZE && (col + n) % TAB_SIZE == 0
  {
    TAB_SIZE - col % TAB_SIZE
  }

  function NextCol(c: char, col: nat): nat {
    if c == '\t' then col + ToNextStop(col)
    else if c == '\n' || c == '\r' then 0
    else col + 1
  }

  function Expanded(c: char, col: nat): string {
    if c == '\t' then Spaces(ToNextStop(col)) else [c]
  }

  /** str.expandtabs for a text that starts at column col. */
  function ExpandTabs(s: string, col: nat): string {
    if s == "" then "" else Expanded(s[0], col) + ExpandTabs(s[1..], NextCol(s[0], col))
  }

  function EndCol(s: string, col: nat): nat {
    if s == "" then col else EndCol(s[1..], NextCol(s[0], col))
  }

  function Expand(line: string): string {
    ExpandTabs(line, 0)
  }

  lemma {:induction false} ExpandConcat(a: string, b: string, col: nat)
    ensures ExpandTabs(a + b, col) == ExpandTabs(a, col) + ExpandTabs(b, EndCol(a, col))
    decreases |a|
  {
    hide ExpandTabs, Expanded, NextCol;
    if a == "" {
      assert a + b == b;
      ExpandNothing(col);
    } else {
      var next := NextCol(a[0], col);
      ExpandConcat(a[1..], b, next);
      assert (a + b)[1..] == a[1..] + b && (a + b)[0] == a[0];
      ExpandFirst(a, col);
      ExpandFirst(a + b, col);
      Associate(Expanded(a[0], col), ExpandTabs(a[1..], next), ExpandTabs(b, EndCol(a[1..], next)));
    }
  }

  lemma ExpandFirst(s: string, col: nat)
    requires s != ""
    ensures ExpandTabs(s, col) == Expanded(s[0], col) + ExpandTabs(s[1..], NextCol(s[0], col))
  {
  }

  lemma ExpandNothing(col: nat)
    ensures ExpandTabs("", col) == ""
  {
  }

  lemma Associate(a: string, b: string, c: string)
    ensures (a + b) + c == a + (b + c)
  {
  }

  lemma {:induction false} ExpandedHasNoTab(s: string, col: nat)
    ensures '\t' !in ExpandTabs(s, col)
    decreases |s|
  {
    if s != "" { ExpandedHasNoTab(s[1..], NextCol(s[0], col)); }
  }

  lemma {:induction false} NoTabNoChange(s: string, col: nat)
    requires '\t' !in s
    ensures ExpandTabs(s, col) == s
    decreases |s|
  {
    if s != "" { NoTabNoChange(s[1..], NextCol(s[0], col)); }
  }

  lemma {:induction false} ExpandKeepsSpace(s: string, col: nat)
    requires AllSpace(s)
    ensures AllSpace(ExpandTabs(s, col))
    decreases |s|
  {
    if s != "" { ExpandKeepsSpace(s[1..], NextCol(s[0], col)); }
  }

  /** Expansion brings in no character but the space. */
  lemma {:induction false} ExpandBringsSpacesOnly(s: string, col: nat, c: char)
    requires c != ' ' && c !in s
    ensures c !in ExpandTabs(s, col)
    decreases |s|
  {
    if s != "" { ExpandBringsSpacesOnly(s[1..], NextCol(s[0], col), c); }
  }

  lemma {:induction false} EndColIsLength(s: string, col: nat)
    requires '\n' !in s && '\r' !in s
    ensures EndCol(s, col) == col + |ExpandTabs(s, col)|
    decreases |s|
  {
    if s != "" { EndColIsLength(s[1..], NextCol(s[0], col)); }
  }

  /** What expanding means for the layout: in a line, every character stands at the column where the
      text before it ends, a tab being blank up to the next multiple of four. */
  lemma ExpandKeepsLayout(line: string, k: nat)
    requires k < |line| && '\n' !in line[..k] && '\r' !in line[..k]
    ensures var col := |Expand(line[..k])|;
            && col < |Expand(line)|
            && Expand(line)[..col] == Expand(line[..k])
            && (line[k] != '\t' ==> Expand(line)[col] == line[k])
            && (line[k] == '\t' ==>
                  var end := |Expand(line[..k + 1])|;
                  col < end <= |Expand(line)| && end <= col + 4 && end % 4 == 0 &&
                  forall i | col <= i < end :: Expand(line)[i] == ' ')
  {
    var before, c, after := line[..k], line[k], line[k + 1..];
    var col := |Expand(before)|;
    assert line == before + ([c] + after) && line[..k + 1] == before + [c];
    EndColIsLength(before, 0);
    ExpandConcat(before, [c] + after, 0);
    ExpandConcat(before, [c], 0);
    assert ([c] + after)[1..] == after && [c][1..] == "";
    assert ExpandTabs([c] + after, col) == Expanded(c, col) + ExpandTabs(after, NextCol(c, col));
    assert ExpandTabs([c], col) == Expanded(c, col) + "";
    assert Expand(line) == Expand(before) + (Expanded(c, col) + ExpandTabs(after, NextCol(c, col)));
    assert Expand(line[..k + 1]) == Expand(before) + Expanded(c, col);
  }

  // ---------- Guards survive expansion ----------

  predicate IsGuard(s: string) {
    s == GUARD_ON || s == GUARD_OFF
  }

  lemma GuardsAreSolid(s: string)
    requires IsGuard(s)
    ensures Solid(s) && '\t' !in s && '\n' !in s && '\r' !in s
  {
    assert GUARD_ON[0] == '/' && GUARD_ON[|GUARD_ON| - 1] == 'n';
    assert GUARD_OFF[0] == '/' && GUARD_OFF[|GUARD_OFF| - 1] == 'f';
  }

  lemma ExpandKeepsGuard(line: string)
    requires IsGuard(Strip(line))
    ensures Strip(Expand(line)) == Strip(line)
  {
    var core := Strip(line);
    var a, b := StripSplit(line);
    GuardsAreSolid(core);
    hide Strip, IsSpace;
    var colA := EndCol(a, 0);
    var colB := EndCol(a + core, 0);
    ExpandConcat(a + core, b, 0);
    ExpandConcat(a, core, 0);
    NoTabNoChange(core, colA);
    ExpandKeepsSpace(a, 0);
    ExpandKeepsSpace(b, colB);
    StripOf(ExpandTabs(a, 0), core, ExpandTabs(b, colB));
  }
}
