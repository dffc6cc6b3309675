/** The style checker over files: each fixer reads a file, reports, and in fix mode writes it back;
    check_style runs the white-space fixer and then the tab fixer over the files of a tree. */
module StyleFiles {
  import opened Text
  import opened StyleText
  import opened StyleFixers

  // ---------- One file, as its content ----------

  function Lines(content: string): seq<string> {
    SplitLines(UniversalNewlines(content))
  }

  predicate BadWhitespace(content: string) {
    HasTrailing(Lines(content))
  }

  predicate BadTabs(content: string) {
    HasTabs(Lines(content), true)
  }

  function WhitespaceFixedIn(content: string): string {
    if BadWhitespace(content) then Join(FixWhitespace(Lines(content))) else content
  }

  function TabsFixedIn(content: string): string {
    if BadTabs(content) then Join(FixTabs(Lines(content), true)) else content
  }

  // ---------- Fixed lines read back as they were written ----------

  ghost predicate Readable(lines: seq<string>) {
    AreLines(lines) && forall i | 0 <= i < |lines| :: '\r' !in lines[i]
  }

  lemma LinesAreReadable(content: string)
    ensures Readable(Lines(content)) && Join(Lines(content)) == UniversalNewlines(content)
  {
    var s := UniversalNewlines(content);
    JoinOfSplit(s);
    forall i | 0 <= i < |SplitLines(s)| ensures '\r' !in SplitLines(s)[i] {
      JoinHas(SplitLines(s), '\r');
    }
  }

  lemma ReadsBack(lines: seq<string>)
    requires Readable(lines)
    ensures Lines(Join(lines)) == lines
  {
    JoinHas(lines, '\r');
    NoReturnsNoChange(Join(lines));
    SplitOfJoin(lines);
  }

  lemma FixedWhitespaceReadable(lines: seq<string>)
    requires Readable(lines)
    ensures Readable(FixWhitespace(lines))
  {
    forall i | 0 <= i < |lines| ensures IsFullLine(FixLine(lines[i])) && '\r' !in FixLine(lines[i]) {
      var b := RStripSplit(lines[i]);
      var r := RStrip(lines[i]);
      assert FixLine(lines[i])[..|r|] == r;
      assert r <= lines[i] && (r != "" ==> r[|r| - 1] != '\n');
    }
  }

  lemma FixTabReadable(line: string, enabled: bool)
    requires '\r' !in line
    ensures '\r' !in FixTab(enabled, line)
    ensures IsFullLine(line) ==> IsFullLine(FixTab(enabled, line))
    ensures line != "" && '\n' !in line ==> FixTab(enabled, line) != "" && '\n' !in FixTab(enabled, line)
  {
    ExpandBringsSpacesOnly(line, 0, '\r');
    if '\n' !in line {
      ExpandBringsSpacesOnly(line, 0, '\n');
    }
    if IsFullLine(line) {
      var init := line[..|line| - 1];
      assert line == init + "\n";
      ExpandConcat(init, "\n", 0);
      ExpandBringsSpacesOnly(init, 0, '\n');
      var e := Expand(line);
      assert e == ExpandTabs(init, 0) + "\n";
      assert e[..|e| - 1] == ExpandTabs(init, 0);
    }
  }

  lemma FixedTabsReadable(lines: seq<string>)
    requires Readable(lines)
    ensures Readable(FixTabs(lines, true))
  {
    hide IsFullLine;
    forall i | 0 <= i < |lines|
      ensures '\r' !in FixTabs(lines, true)[i]
      ensures IsFullLine(lines[i]) ==> IsFullLine(FixTabs(lines, true)[i])
      ensures lines[i] != "" && '\n' !in lines[i] ==> FixTabs(lines, true)[i] != "" && '\n' !in FixTabs(lines, true)[i]
    {
      FixTabsAt(lines, true, i);
      FixTabReadable(lines[i], EnabledAt(lines, true, i));
    }
  }

  // ---------- What a fix means for a file ----------

  /** A fixed file is clean, fixing it again changes nothing, and it was changed exactly when it was
      reported. */
  lemma WhitespaceFixSound(content: string)
    ensures !BadWhitespace(WhitespaceFixedIn(content))
    ensures WhitespaceFixedIn(WhitespaceFixedIn(content)) == WhitespaceFixedIn(content)
    ensures WhitespaceFixedIn(content) != content <==> BadWhitespace(content)
  {
    var lines := Lines(content);
    LinesAreReadable(content);
    FixedWhitespaceReadable(lines);
    ReadsBack(FixWhitespace(lines));
    WhitespaceFixed(lines);
    HasTrailingIffChanged(lines);
  }

  lemma TabFixSound(content: string)
    ensures !BadTabs(TabsFixedIn(content))
    ensures TabsFixedIn(TabsFixedIn(content)) == TabsFixedIn(content)
    ensures TabsFixedIn(content) != content <==> BadTabs(content)
  {
    var lines := Lines(content);
    LinesAreReadable(content);
    FixedTabsReadable(lines);
    ReadsBack(FixTabs(lines, true));
    TabsFixed(lines);
    HasTabsIffChanged(lines, true);
  }

  /** Fixing tabs after white space leaves both checks clean. */
  lemma BothFixesSound(content: string)
    requires !BadWhitespace(content)
    ensures !BadWhitespace(TabsFixedIn(content))
  {
    var lines := Lines(content);
    LinesAreReadable(content);
    FixedTabsReadable(lines);
    ReadsBack(FixTabs(lines, true));
    TabFixKeepsWhitespaceFixed(lines);
  }

  /** On the level of lines, a fixed file differs from the file in its expanded lines only; without
      carriage returns its bytes are its lines written back to back. */
  lemma GuardedLinesInFile(content: string)
    ensures |Lines(TabsFixedIn(content))| == |Lines(content)|
    ensures forall i | 0 <= i < |Lines(content)| ::
              Lines(TabsFixedIn(content))[i] ==
                if Skipped(EnabledAt(Lines(content), true, i), Lines(content)[i]) then Lines(content)[i]
                else Expand(Lines(content)[i])
    ensures '\r' !in content ==>
              content == Join(Lines(content)) && TabsFixedIn(content) == Join(Lines(TabsFixedIn(content)))
  {
    var lines := Lines(content);
    LinesAreReadable(content);
    if '\r' !in content { NoReturnsNoChange(content); }
    FixedTabsReadable(lines);
    ReadsBack(FixTabs(lines, true));
    HasTabsIffChanged(lines, true);
    forall i | 0 <= i < |lines|
      ensures FixTabs(lines, true)[i] ==
                if Skipped(EnabledAt(lines, true, i), lines[i]) then lines[i] else Expand(lines[i])
    {
      GuardedLinesUntouched(lines, i);
    }
  }

  /** The bytes of a guarded line, its end included, survive a tab fix exactly when there is nothing
      to fix in the file or no carriage return in the line. */
  lemma GuardedBytesKeptIff(content: string, i: nat)
    requires i < |Lines(content)| && Skipped(EnabledAt(Lines(content), true, i), Lines(content)[i])
    ensures |RawLines(content)| == |RawLines(TabsFixedIn(content))| == |Lines(content)|
    ensures RawLines(TabsFixedIn(content))[i] == RawLines(content)[i] <==>
              !BadTabs(content) || '\r' !in RawLines(content)[i]
  {
    var fixed, raw := TabsFixedIn(content), RawLines(content);
    RawLinesRead(content);
    RawLinesRead(fixed);
    if BadTabs(content) {
      ReturnsKeptIff(content);
      NoReturnsNoChange(fixed);
      RawLinesWithoutReturns(fixed);
      GuardedLinesInFile(content);
      if '\r' !in raw[i] { NoReturnsNoChange(raw[i]); }
    }
  }

  /** Carriage returns survive exactly where there is nothing to fix: a fix drops them all, those
      that end guarded lines included. */
  lemma ReturnsKeptIff(content: string)
    ensures '\r' in TabsFixedIn(content) <==> '\r' in content && !BadTabs(content)
  {
    var lines := Lines(content);
    LinesAreReadable(content);
    FixedTabsReadable(lines);
    JoinHas(FixTabs(lines, true), '\r');
  }

  lemma {:induction false} LastReturn(s: string)
    requires '\r' !in s
    ensures UniversalNewlines(s + "\r\n") == s + "\n"
  {
    if s == "" {
      assert "\r\n"[2..] == "" && s + "\r\n" == "\r\n";
    } else {
      LastReturn(s[1..]);
      assert (s + "\r\n")[1..] == s[1..] + "\r\n";
    }
  }

  const UNGUARDED := "\tx\n"
  const GUARD := GUARD_OFF + "\n"
  const GUARDED := "y"

  lemma UnguardedLine()
    ensures IsFullLine(UNGUARDED) && '\t' in UNGUARDED && '\r' !in UNGUARDED
    ensures EnabledAfter(true, UNGUARDED) && !Skipped(true, UNGUARDED)
  {
    FullLine("\tx");
    StripOf("\t", "x", "\n");
    assert "\t" + "x" + "\n" == UNGUARDED && UNGUARDED[0] == '\t' && |GUARD_OFF| > |"x"|;
  }

  lemma GuardLine()
    ensures IsFullLine(GUARD) && '\r' !in GUARD && !EnabledAfter(true, GUARD) && Expand(GUARD) == GUARD
  {
    assert GUARD_OFF != GUARD_ON by { assert |GUARD_OFF| != |GUARD_ON|; }
    hide GUARD_OFF, GUARD_ON;
    GuardsAreSolid(GUARD_OFF);
    StripOf("", GUARD_OFF, "\n");
    hide Strip, IsSpace;
    assert "" + GUARD_OFF + "\n" == GUARD;
    FullLine(GUARD_OFF);
    NoTabNoChange(GUARD, 0);
  }

  lemma GuardedLine()
    ensures IsFullLine(GUARDED + "\n") && '\r' !in GUARDED && Skipped(false, GUARDED + "\n")
  {
    FullLine(GUARDED);
    StripOf("", GUARDED, "\n");
    assert "" + GUARDED + "\n" == GUARDED + "\n" && |GUARD_OFF| > |GUARDED| && |GUARD_ON| > |GUARDED|;
  }

  lemma ThreeLines(a: string, b: string, c: string)
    ensures Join([a, b, c]) == a + b + c
    ensures EnabledAt([a, b, c], true, 1) == EnabledAfter(true, a)
    ensures EnabledAt([a, b, c], true, 2) == EnabledAfter(EnabledAfter(true, a), b)
  {
    hide EnabledAfter;
    EnabledNext([a, b, c], true, 0);
    EnabledNext([a, b, c], true, 1);
    assert [a, b, c][1..] == [b, c] && [b, c][1..] == [c] && [c][1..] == [] && c + "" == c;
    assert Join([c]) == c && Join([b, c]) == b + c;
  }

  /** A file whose last line is guarded and loses its carriage return to a fix of the first. */
  lemma GuardedReturnDropped()
    ensures var content := UNGUARDED + GUARD + GUARDED + "\r\n";
            && Lines(content) == [UNGUARDED, GUARD, GUARDED + "\n"]
            && Skipped(EnabledAt(Lines(content), true, 2), GUARDED + "\n")
            && TabsFixedIn(content) == Expand(UNGUARDED) + GUARD + (GUARDED + "\n")
  {
    hide UNGUARDED, GUARD, GUARDED, Skipped, Expand, EnabledAfter, UniversalNewlines;
    var content := UNGUARDED + GUARD + GUARDED + "\r\n";
    var lines := [UNGUARDED, GUARD, GUARDED + "\n"];
    UnguardedLine();
    GuardLine();
    GuardedLine();
    LastReturn(UNGUARDED + GUARD + GUARDED);
    ThreeLines(UNGUARDED, GUARD, GUARDED + "\n");
    assert UNGUARDED + GUARD + GUARDED + "\n" == UNGUARDED + GUARD + (GUARDED + "\n");
    SplitOfJoin(lines);
    assert HasTabs(lines, true);
    FixTabsAt(lines, true, 0);
    FixTabsAt(lines, true, 1);
    FixTabsAt(lines, true, 2);
    assert FixTabs(lines, true) == [Expand(UNGUARDED), GUARD, GUARDED + "\n"];
    ThreeLines(Expand(UNGUARDED), GUARD, GUARDED + "\n");
  }

  // ---------- A tree of files ----------

  type Files = map<string, string>

  /** All named files passed through one fixer. */
  function FixedFiles(files: Files, names: seq<string>, fixed: string -> string): (r: Files)
    ensures r.Keys == files.Keys
  {
    map n | n in files :: if n in names then fixed(files[n]) else files[n]
  }

  class Tree {
    var files: Files

    constructor (files: Files)
      ensures this.files == files
    {
      this.files := files;
    }

    /** The loop over the lines; checking stops at the first hit. */
    static method CheckWhitespaceLines(lines: seq<string>, fix: bool)
      returns (fileLines: seq<string>, hasTrailing: bool)
      ensures hasTrailing == HasTrailing(lines)
      ensures fileLines == if fix then FixWhitespace(lines) else lines
    {
      hide FixLine;
      hasTrailing, fileLines := false, lines;
      for i := 0 to |lines|
        invariant |fileLines| == |lines|
        invariant forall k | 0 <= k < i :: fileLines[k] == if fix then FixLine(lines[k]) else lines[k]
        invariant forall k | i <= k < |lines| :: fileLines[k] == lines[k]
        invariant hasTrailing <==> exists k :: 0 <= k < i && FixLine(lines[k]) != lines[k]
      {
        var lineFixed := FixedLine(fileLines[i]);
        if lineFixed != fileLines[i] {
          hasTrailing := true;
          if !fix {
            assert fileLines == lines;
            return;
          }
          fileLines := fileLines[i := lineFixed];
        }
      }
      assert !fix ==> fileLines == lines;
    }

    static method FixedLine(line: string) returns (fixed: string)
      ensures fixed == FixLine(line)
    {
      fixed := RStrip(line) + "\n";
    }

    /** Checks or fixes the trailing white space of one file. */
    method CheckTrailingWhitespaceFile(name: string, fix: bool) returns (hasTrailing: bool)
      requires name in files
      modifies this
      ensures hasTrailing == BadWhitespace(old(files)[name])
      ensures files == if fix then old(files)[name := WhitespaceFixedIn(old(files)[name])] else old(files)
    {
      hide HasTrailing, FixWhitespace, Lines, Join;
      var fileLines;
      fileLines, hasTrailing := CheckWhitespaceLines(Lines(files[name]), fix);
      if fix && hasTrailing {
        files := files[name := Join(fileLines)];
      } else {
        assert files[name := files[name]] == files;
      }
    }

    /** The guard test and the tab test of one line. */
    static method CheckTabsLine(line: string, enabled: bool) returns (enabled': bool, hasTab: bool, fixed: string)
      ensures enabled' == EnabledAfter(enabled, line)
      ensures hasTab <==> !Skipped(enabled, line) && '\t' in line
      ensures fixed == FixTab(enabled, line)
    {
      var stripped := Strip(line);
      enabled', hasTab, fixed := enabled, false, line;
      if stripped == GUARD_ON {
        enabled' := true;
      } else if stripped == GUARD_OFF {
        enabled' := false;
      }
      if !enabled' && stripped != GUARD_ON && stripped != GUARD_OFF {
        return;
      }
      if '\t' in line {
        hasTab, fixed := true, Expand(line);
      } else {
        NoTabNoChange(line, 0);
      }
    }

    /** The loop over the lines; checking stops at the first hit. */
    static method CheckTabsLines(lines: seq<string>, fix: bool) returns (fileLines: seq<string>, hasTabs: bool)
      ensures hasTabs == HasTabs(lines, true)
      ensures fileLines == if fix then FixTabs(lines, true) else lines
    {
      hide HasTabs, FixTabs, Skipped, EnabledAfter, FixTab;
      hasTabs, fileLines := false, lines;
      var enabled := true;
      ghost var done := [];
      assert lines[0..] == lines;
      for i := 0 to |lines|
        invariant |done| == i && FixTabs(lines, true) == done + FixTabs(lines[i..], enabled)
        invariant fileLines == if fix then done + lines[i..] else lines
        invariant HasTabs(lines, true) <==> hasTabs || HasTabs(lines[i..], enabled)
      {
        assert lines[i..][0] == lines[i] && lines[i..][1..] == lines[i + 1..];
        OneLine(lines[i..], enabled);
        var hasTab, fixed;
        enabled, hasTab, fixed := CheckTabsLine(lines[i], enabled);
        if hasTab {
          hasTabs := true;
          if !fix {
            return;
          }
        }
        if fix {
          Replaced(done, lines, fixed);
          fileLines := fileLines[i := fixed];
        }
        Regrouped(done, fixed, FixTabs(lines[i + 1..], enabled));
        done := done + [fixed];
      }
      NoLines(enabled);
    }

    static lemma Replaced(done: seq<string>, lines: seq<string>, x: string)
      requires |done| < |lines|
      ensures (done + lines[|done|..])[|done| := x] == (done + [x]) + lines[|done| + 1..]
    {
    }

    static lemma Regrouped(done: seq<string>, x: string, rest: seq<string>)
      ensures done + ([x] + rest) == (done + [x]) + rest
    {
    }

    static lemma NoLines(enabled: bool)
      ensures FixTabs([], enabled) == [] && !HasTabs([], enabled)
    {
    }

    static lemma OneLine(lines: seq<string>, enabled: bool)
      requires lines != []
      ensures FixTabs(lines, enabled)
           == [FixTab(enabled, lines[0])] + FixTabs(lines[1..], EnabledAfter(enabled, lines[0]))
      ensures HasTabs(lines, enabled) <==>
                (!Skipped(enabled, lines[0]) && '\t' in lines[0]) ||
                HasTabs(lines[1..], EnabledAfter(enabled, lines[0]))
    {
    }

    /** Checks or fixes the tabs of one file outside guarded regions. */
    method CheckTabsFile(name: string, fix: bool) returns (hasTabs: bool)
      requires name in files
      modifies this
      ensures hasTabs == BadTabs(old(files)[name])
      ensures files == if fix then old(files)[name := TabsFixedIn(old(files)[name])] else old(files)
    {
      var fileLines;
      fileLines, hasTabs := CheckTabsLines(Lines(files[name]), fix);
      if fix && hasTabs {
        files := files[name := Join(fileLines)];
      } else {
        assert files[name := files[name]] == files;
      }
    }

    // ---------- Many files ----------

    /** Fixing or checking a list of files; true when none is left bad. */
    method CheckTrailingWhitespace(names: seq<string>, fix: bool) returns (success: bool)
      requires forall n | n in names :: n in files
      modifies this
      ensures files == if fix then FixedFiles(old(files), names, WhitespaceFixedIn) else old(files)
      ensures success <==> fix || forall n | n in names :: !BadWhitespace(old(files)[n])
    {
      hide WhitespaceFixedIn, BadWhitespace, FixedFiles;
      var filesWithWhitespace := [];
      FixedNone(files, WhitespaceFixedIn);
      for i := 0 to |names|
        invariant files == if fix then FixedFiles(old(files), names[..i], WhitespaceFixedIn) else old(files)
        invariant !fix ==> (filesWithWhitespace == [] <==> forall n | n in names[..i] :: !BadWhitespace(old(files)[n]))
      {
        WhitespaceFixSound(old(files)[names[i]]);
        FixedNext(old(files), names[..i], names[i], WhitespaceFixedIn);
        assert names[..i + 1] == names[..i] + [names[i]];
        var bad := CheckTrailingWhitespaceFile(names[i], fix);
        if bad {
          filesWithWhitespace := filesWithWhitespace + [names[i]];
        }
      }
      assert names[..|names|] == names;
      success := if filesWithWhitespace == [] then true else fix;
    }

    method CheckTabs(names: seq<string>, fix: bool) returns (success: bool)
      requires forall n | n in names :: n in files
      modifies this
      ensures files == if fix then FixedFiles(old(files), names, TabsFixedIn) else old(files)
      ensures success <==> fix || forall n | n in names :: !BadTabs(old(files)[n])
    {
      hide TabsFixedIn, BadTabs, FixedFiles;
      var filesWithTabs := [];
      FixedNone(files, TabsFixedIn);
      for i := 0 to |names|
        invariant files == if fix then FixedFiles(old(files), names[..i], TabsFixedIn) else old(files)
        invariant !fix ==> (filesWithTabs == [] <==> forall n | n in names[..i] :: !BadTabs(old(files)[n]))
      {
        TabFixSound(old(files)[names[i]]);
        FixedNext(old(files), names[..i], names[i], TabsFixedIn);
        assert names[..i + 1] == names[..i] + [names[i]];
        var bad := CheckTabsFile(names[i], fix);
        if bad {
          filesWithTabs := filesWithTabs + [names[i]];
        }
      }
      assert names[..|names|] == names;
      success := if filesWithTabs == [] then true else fix;
    }

    /** check_style without the external formatter: white space first, then tabs. In fix mode it
        always succeeds; in check mode exactly when every file is clean, and it changes nothing. */
    method CheckStyle(whitespaceNames: seq<string>, tabNames: seq<string>,
                      enableWhitespace: bool, enableTabs: bool, fix: bool)
      returns (exitCode: int)
      requires forall n | n in whitespaceNames || n in tabNames :: n in files
      modifies this
      ensures exitCode == 0 || exitCode == 1
      ensures exitCode == 0 <==> fix || Clean(old(files), whitespaceNames, tabNames, enableWhitespace, enableTabs)
      ensures files == if fix then StyleFixed(old(files), whitespaceNames, tabNames, enableWhitespace, enableTabs)
                       else old(files)
    {
      var whitespaceOk, tabsOk := true, true;
      if enableWhitespace {
        whitespaceOk := CheckTrailingWhitespace(whitespaceNames, fix);
      }
      if enableTabs {
        tabsOk := CheckTabs(tabNames, fix);
      }
      exitCode := if whitespaceOk && tabsOk then 0 else 1;
    }
  }

  lemma FixedNone(files: Files, fixed: string -> string)
    ensures FixedFiles(files, [], fixed) == files
  {
  }

  lemma FixedNext(files: Files, names: seq<string>, n: string, fixed: string -> string)
    requires n in files && fixed(fixed(files[n])) == fixed(files[n])
    ensures var before := FixedFiles(files, names, fixed);
            FixedFiles(files, names + [n], fixed) == before[n := fixed(before[n])]
    ensures FixedFiles(files, names, fixed)[n] == files[n] || FixedFiles(files, names, fixed)[n] == fixed(files[n])
  {
    assert forall m :: m in names + [n] <==> m in names || m == n;
  }

  ghost predicate Clean(files: Files, ws: seq<string>, tabs: seq<string>, enableWhitespace: bool, enableTabs: bool)
    requires forall n | n in ws || n in tabs :: n in files
  {
    && (enableWhitespace ==> forall n | n in ws :: !BadWhitespace(files[n]))
    && (enableTabs ==> forall n | n in tabs :: !BadTabs(files[n]))
  }

  ghost function StyleFixed(files: Files, ws: seq<string>, tabs: seq<string>, enableWhitespace: bool, enableTabs: bool)
    : (r: Files)
    ensures r.Keys == files.Keys
  {
    var spaced := if enableWhitespace then FixedFiles(files, ws, WhitespaceFixedIn) else files;
    if enableTabs then FixedFiles(spaced, tabs, TabsFixedIn) else spaced
  }

  /** After a run in fix mode a run in check mode succeeds, for any files and any two lists. */
  lemma FixThenCheckSucceeds(files: Files, ws: seq<string>, tabs: seq<string>, enableWhitespace: bool, enableTabs: bool)
    requires forall n | n in ws || n in tabs :: n in files
    ensures Clean(StyleFixed(files, ws, tabs, enableWhitespace, enableTabs), ws, tabs, enableWhitespace, enableTabs)
  {
    hide WhitespaceFixedIn, TabsFixedIn, BadWhitespace, BadTabs;
    var spaced := if enableWhitespace then FixedFiles(files, ws, WhitespaceFixedIn) else files;
    var r := StyleFixed(files, ws, tabs, enableWhitespace, enableTabs);
    forall n | n in files ensures enableWhitespace && n in ws ==> !BadWhitespace(r[n])
                          ensures enableTabs && n in tabs ==> !BadTabs(r[n])
    {
      WhitespaceFixSound(files[n]);
      TabFixSound(spaced[n]);
      if !BadWhitespace(spaced[n]) { BothFixesSound(spaced[n]); }
    }
  }

  /** A second run in fix mode changes no file. */
  lemma FixTwice(files: Files, ws: seq<string>, tabs: seq<string>, enableWhitespace: bool, enableTabs: bool)
    requires forall n | n in ws || n in tabs :: n in files
    ensures var r := StyleFixed(files, ws, tabs, enableWhitespace, enableTabs);
            StyleFixed(r, ws, tabs, enableWhitespace, enableTabs) == r
  {
    var r := StyleFixed(files, ws, tabs, enableWhitespace, enableTabs);
    FixThenCheckSucceeds(files, ws, tabs, enableWhitespace, enableTabs);
    hide WhitespaceFixedIn, TabsFixedIn, BadWhitespace, BadTabs, StyleFixed, FixedFiles;
    if enableWhitespace {
      forall n | n in r && n in ws ensures WhitespaceFixedIn(r[n]) == r[n] { WhitespaceFixSound(r[n]); }
      NothingToFix(r, ws, WhitespaceFixedIn);
    }
    if enableTabs {
      forall n | n in r && n in tabs ensures TabsFixedIn(r[n]) == r[n] { TabFixSound(r[n]); }
      NothingToFix(r, tabs, TabsFixedIn);
    }
    StyleFixedIs(r, ws, tabs, enableWhitespace, enableTabs);
  }

  lemma NothingToFix(files: Files, names: seq<string>, fixed: string -> string)
    requires forall n | n in files && n in names :: fixed(files[n]) == files[n]
    ensures FixedFiles(files, names, fixed) == files
  {
  }

  lemma StyleFixedIs(files: Files, ws: seq<string>, tabs: seq<string>, enableWhitespace: bool, enableTabs: bool)
    requires enableWhitespace ==> FixedFiles(files, ws, WhitespaceFixedIn) == files
    requires enableTabs ==> FixedFiles(files, tabs, TabsFixedIn) == files
    ensures StyleFixed(files, ws, tabs, enableWhitespace, enableTabs) == files
  {
  }
}
