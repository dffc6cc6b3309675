/** The tab and trailing-white-space passes of check-style-clang-format.py over the lines of a
    file: what each reports, what each changes, and how the two work together. */
module StyleFixers {
  import opened StyleText

  // ---------- Trailing white space ----------

  function FixLine(line: string): string {
    RStrip(line) + "\n"
  }

  function FixWhitespace(lines: seq<string>): (r: seq<string>)
    ensures |r| == |lines|
  {
    seq(|lines|, i requires 0 <= i < |lines| => FixLine(lines[i]))
  }

  predicate HasTrailing(lines: seq<string>) {
    exists i :: 0 <= i < |lines| && FixLine(lines[i]) != lines[i]
  }

  lemma HasTrailingIffChanged(lines: seq<string>)
    ensures HasTrailing(lines) <==> FixWhitespace(lines) != lines
  {
    if i :| 0 <= i < |lines| && FixLine(lines[i]) != lines[i] {
      assert FixWhitespace(lines)[i] != lines[i];
    }
  }

  lemma FixLineTwice(line: string)
    ensures FixLine(FixLine(line)) == FixLine(line)
  {
    var b := RStripSplit(line);
    assert AllSpace("\n");
    RStripOf(RStrip(line), "\n");
  }

  lemma WhitespaceFixed(lines: seq<string>)
    ensures !HasTrailing(FixWhitespace(lines))
  {
    forall i | 0 <= i < |lines| ensures FixLine(FixWhitespace(lines)[i]) == FixWhitespace(lines)[i] {
      FixLineTwice(lines[i]);
    }
  }

  // ---------- Tabs ----------

  /** Whether formatting is enabled behind a line: only a guard changes it. */
  predicate EnabledAfter(enabled: bool, line: string) {
    if Strip(line) == GUARD_ON then true
    else if Strip(line) == GUARD_OFF then false
    else enabled
  }

  /** A disabled line is skipped, a guard never is. */
  predicate Skipped(enabled: bool, line: string) {
    !EnabledAfter(enabled, line) && !IsGuard(Strip(line))
  }

  function FixTab(enabled: bool, line: string): string {
    if Skipped(enabled, line) then line else Expand(line)
  }

  function FixTabs(lines: seq<string>, enabled: bool): (r: seq<string>)
    ensures |r| == |lines|
  {
    if lines == [] then []
    else [FixTab(enabled, lines[0])] + FixTabs(lines[1..], EnabledAfter(enabled, lines[0]))
  }

  predicate HasTabs(lines: seq<string>, enabled: bool) {
    lines != [] &&
    ((!Skipped(enabled, lines[0]) && '\t' in lines[0]) || HasTabs(lines[1..], EnabledAfter(enabled, lines[0])))
  }

  /** The guard state in front of line i. */
  function EnabledAt(lines: seq<string>, enabled: bool, i: nat): bool
    requires i <= |lines|
  {
    if i == 0 then enabled else EnabledAt(lines[1..], EnabledAfter(enabled, lines[0]), i - 1)
  }

  lemma {:induction false} EnabledNext(lines: seq<string>, enabled: bool, i: nat)
    requires i < |lines|
    ensures EnabledAt(lines, enabled, i + 1) == EnabledAfter(EnabledAt(lines, enabled, i), lines[i])
  {
    if i > 0 {
      EnabledNext(lines[1..], EnabledAfter(enabled, lines[0]), i - 1);
    }
  }

  lemma {:induction false} FixTabsAt(lines: seq<string>, enabled: bool, i: nat)
    requires i < |lines|
    ensures FixTabs(lines, enabled)[i] == FixTab(EnabledAt(lines, enabled, i), lines[i])
  {
    if i > 0 {
      FixTabsAt(lines[1..], EnabledAfter(enabled, lines[0]), i - 1);
    }
  }

  lemma {:induction false} HasTabsAt(lines: seq<string>, enabled: bool)
    ensures HasTabs(lines, enabled) <==>
              exists i :: 0 <= i < |lines| && !Skipped(EnabledAt(lines, enabled, i), lines[i]) && '\t' in lines[i]
  {
    if lines != [] {
      hide Skipped, EnabledAfter;
      var rest, next := lines[1..], EnabledAfter(enabled, lines[0]);
      HasTabsAt(rest, next);
      if i :| 0 <= i < |lines| && !Skipped(EnabledAt(lines, enabled, i), lines[i]) && '\t' in lines[i] {
        if i > 0 { assert lines[i] == rest[i - 1] && EnabledAt(lines, enabled, i) == EnabledAt(rest, next, i - 1); }
      }
      if HasTabs(rest, next) {
        var i :| 0 <= i < |rest| && !Skipped(EnabledAt(rest, next, i), rest[i]) && '\t' in rest[i];
        assert lines[i + 1] == rest[i] && EnabledAt(lines, enabled, i + 1) == EnabledAt(rest, next, i);
      } else if !Skipped(enabled, lines[0]) && '\t' in lines[0] {
        assert EnabledAt(lines, enabled, 0) == enabled;
      }
    }
  }

  /** The report is true exactly when fixing changes something. */
  lemma {:induction false} HasTabsIffChanged(lines: seq<string>, enabled: bool)
    ensures HasTabs(lines, enabled) <==> FixTabs(lines, enabled) != lines
  {
    if lines != [] {
      HasTabsIffChanged(lines[1..], EnabledAfter(enabled, lines[0]));
      ExpandedHasNoTab(lines[0], 0);
      if '\t' !in lines[0] { NoTabNoChange(lines[0], 0); }
      assert lines == [lines[0]] + lines[1..];
      hide Skipped, EnabledAfter;
      var fixed := FixTabs(lines, enabled);
      assert fixed[0] == FixTab(enabled, lines[0]);
      assert fixed[1..] == FixTabs(lines[1..], EnabledAfter(enabled, lines[0]));
    }
  }

  /** Expanding a line may turn it into a guard, but never hides one, so a second pass has no
      line enabled that the first had disabled. */
  lemma GuardStateAfterFix(first: bool, second: bool, line: string)
    requires second ==> first
    ensures EnabledAfter(second, FixTab(first, line)) ==> EnabledAfter(first, line)
  {
    if IsGuard(Strip(line)) { ExpandKeepsGuard(line); }
  }

  const GUARD_WORD := "// clang-format"
  const ALMOST_GUARD := GUARD_WORD + "\t" + "off"

  lemma ExpandOneTab(head: string, tail: string)
    requires '\t' !in head + tail && '\n' !in head && '\r' !in head && |head| % TAB_SIZE == 3
    ensures Expand(head + "\t" + tail) == head + " " + tail
  {
    ExpandConcat(head + "\t", tail, 0);
    ExpandConcat(head, "\t", 0);
    EndColIsLength(head, 0);
    NoTabNoChange(head, 0);
    NoTabNoChange(tail, EndCol(head + "\t", 0));
    assert ExpandTabs("\t", |head|) == Spaces(1) + "" == " ";
  }

  lemma GuardOffIs()
    ensures GUARD_OFF == GUARD_WORD + " " + "off" && |GUARD_WORD| == 15
    ensures '\t' !in GUARD_WORD && '\n' !in GUARD_WORD && '\r' !in GUARD_WORD
    ensures Solid(ALMOST_GUARD) && '\t' in ALMOST_GUARD
  {
    assert ALMOST_GUARD[15] == '\t' && ALMOST_GUARD[0] == '/' && ALMOST_GUARD[18] == 'f';
  }

  /** Expanding a tab can make a guard: this line is none, and becomes one. */
  lemma ExpandMakesGuard()
    ensures !IsGuard(Strip(ALMOST_GUARD)) && Expand(ALMOST_GUARD) == GUARD_OFF
    ensures EnabledAfter(true, ALMOST_GUARD) && !EnabledAfter(true, FixTab(true, ALMOST_GUARD))
  {
    GuardOffIs();
    hide ALMOST_GUARD, GUARD_WORD, GUARD_OFF, GUARD_ON, Strip, IsSpace, Expand;
    assert GUARD_OFF != GUARD_ON by { GuardsDiffer(); }
    GuardsAreSolid(GUARD_OFF);
    GuardsAreSolid(GUARD_ON);
    StripSolid(ALMOST_GUARD);
    StripSolid(GUARD_OFF);
    assert ALMOST_GUARD == GUARD_WORD + "\t" + "off" by { AlmostGuardIs(); }
    ExpandOneTab(GUARD_WORD, "off");
  }

  lemma GuardsDiffer()
    ensures GUARD_OFF != GUARD_ON
  {
    assert |GUARD_OFF| != |GUARD_ON|;
  }

  lemma AlmostGuardIs()
    ensures ALMOST_GUARD == GUARD_WORD + "\t" + "off"
  {
  }

  lemma StripSolid(s: string)
    requires Solid(s)
    ensures Strip(s) == s
  {
    assert "" + s + "" == s;
    StripOf("", s, "");
  }

  /** A second pass, started with no more enabled than the first, reports and changes nothing. */
  lemma {:induction false} SecondPassClean(lines: seq<string>, first: bool, second: bool)
    requires second ==> first
    ensures !HasTabs(FixTabs(lines, first), second)
    ensures FixTabs(FixTabs(lines, first), second) == FixTabs(lines, first)
  {
    var fixed := FixTabs(lines, first);
    if lines != [] {
      var l := FixTab(first, lines[0]);
      GuardStateAfterFix(first, second, lines[0]);
      SecondPassClean(lines[1..], EnabledAfter(first, lines[0]), EnabledAfter(second, l));
      assert fixed[0] == l && fixed[1..] == FixTabs(lines[1..], EnabledAfter(first, lines[0]));
      if Skipped(first, lines[0]) {
        assert Skipped(second, l);
      } else {
        ExpandedHasNoTab(lines[0], 0);
      }
      hide FixTab, Skipped, EnabledAfter;
    }
    HasTabsIffChanged(fixed, second);
  }

  /** The tab fixer is idempotent and leaves nothing to report. */
  lemma TabsFixed(lines: seq<string>)
    ensures !HasTabs(FixTabs(lines, true), true)
    ensures FixTabs(FixTabs(lines, true), true) == FixTabs(lines, true)
  {
    SecondPassClean(lines, true, true);
  }

  /** Lines that a guard disables come out as they went in, all others expanded. */
  lemma GuardedLinesUntouched(lines: seq<string>, i: nat)
    requires i < |lines|
    ensures Skipped(EnabledAt(lines, true, i), lines[i]) ==> FixTabs(lines, true)[i] == lines[i]
    ensures !Skipped(EnabledAt(lines, true, i), lines[i]) ==> FixTabs(lines, true)[i] == Expand(lines[i])
  {
    FixTabsAt(lines, true, i);
  }

  // ---------- Both passes ----------

  /** Expanding a line that ends cleanly leaves it ending cleanly. */
  lemma ExpandKeepsCleanEnd(line: string)
    requires FixLine(line) == line
    ensures FixLine(Expand(line)) == Expand(line)
  {
    var r := RStrip(line);
    var b := RStripSplit(line);
    assert line == r + "\n";
    ExpandConcat(r, "\n", 0);
    var col := EndCol(r, 0);
    assert ExpandTabs("\n", col) == "\n";
    if r == "" {
      assert ExpandTabs(r, 0) == "";
    } else {
      var init, last := r[..|r| - 1], r[|r| - 1];
      assert r == init + [last];
      ExpandConcat(init, [last], 0);
      assert ExpandTabs([last], EndCol(init, 0)) == [last];
    }
    assert AllSpace("\n");
    RStripOf(ExpandTabs(r, 0), "\n");
  }

  /** Tab fixing does not bring trailing white space back. */
  lemma TabFixKeepsWhitespaceFixed(lines: seq<string>)
    requires !HasTrailing(lines)
    ensures !HasTrailing(FixTabs(lines, true))
  {
    forall i | 0 <= i < |lines| ensures FixLine(FixTabs(lines, true)[i]) == FixTabs(lines, true)[i] {
      assert FixLine(lines[i]) == lines[i];
      GuardedLinesUntouched(lines, i);
      ExpandKeepsCleanEnd(lines[i]);
    }
  }
}
