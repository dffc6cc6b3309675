/** What the two fixers do to a line and to a file, told by its characters and by the guard lines
    before it. */
module StyleMeaning {
  import opened Text
  import opened StyleText
  import opened StyleFixers
  import opened StyleFiles

  // ---------- White space ----------

  /** Which ASCII characters strip and rstrip remove: blanks, line ends and the separators 28 to 31;
      no letter, digit or punctuation mark. */
  lemma SpaceIs(c: char)
    requires c <= '\U{7F}'
    ensures IsSpace(c) <==> c == ' ' || c == '\t' || c == '\n' || c == '\U{0B}' || c == '\U{0C}' || c == '\r'
                            || '\U{1C}' <= c <= '\U{1F}'
  {
  }

  /** A line is a core, which does not end in white space, and white space behind it. */
  ghost predicate SplitsAs(line: string, core: string, trail: string) {
    && line == core + trail
    && (forall i | 0 <= i < |trail| :: IsSpace(trail[i]))
    && (core != "" ==> !IsSpace(core[|core| - 1]))
  }

  lemma Splits(line: string) returns (core: string, trail: string)
    ensures SplitsAs(line, core, trail)
  {
    trail := RStripSplit(line);
    core := RStrip(line);
  }

  /** A fixed line is its core and a newline. */
  lemma FixLineIs(line: string, core: string, trail: string)
    requires SplitsAs(line, core, trail)
    ensures FixLine(line) == core + "\n"
  {
    RStripOf(core, trail);
  }

  /** What is wrong with a line: it lacks its newline, or has white space right before it. */
  ghost predicate EndsBadly(line: string) {
    || line == "" || line[|line| - 1] != '\n'
    || (|line| >= 2 && IsSpace(line[|line| - 2]))
  }

  lemma FixChangesIff(line: string)
    ensures FixLine(line) != line <==> EndsBadly(line)
  {
    var core, trail := Splits(line);
    FixLineIs(line, core, trail);
    var fixed := core + "\n";
    assert fixed[|core|] == '\n' && fixed[..|core|] == core;
    assert !EndsBadly(fixed);
    if !EndsBadly(line) {
      var body := line[..|line| - 1];
      assert line == body + "\n" && IsSpace('\n');
      assert SplitsAs(line, body, "\n");
      FixLineIs(line, body, "\n");
    }
  }

  /** A file is reported for trailing white space exactly when some line read ends badly, and the
      lines of the fixed file are the cores of its lines, each with a newline. */
  lemma WhitespaceFixIs(content: string)
    ensures BadWhitespace(content) <==> exists i :: 0 <= i < |Lines(content)| && EndsBadly(Lines(content)[i])
    ensures |Lines(WhitespaceFixedIn(content))| == |Lines(content)|
    ensures forall i, core, trail | 0 <= i < |Lines(content)| && SplitsAs(Lines(content)[i], core, trail) ::
              Lines(WhitespaceFixedIn(content))[i] == core + "\n"
    ensures BadWhitespace(content) ==> '\r' !in WhitespaceFixedIn(content)
  {
    var lines := Lines(content);
    forall i | 0 <= i < |lines| ensures FixLine(lines[i]) != lines[i] <==> EndsBadly(lines[i]) {
      FixChangesIff(lines[i]);
    }
    LinesAreReadable(content);
    FixedWhitespaceReadable(lines);
    ReadsBack(FixWhitespace(lines));
    HasTrailingIffChanged(lines);
    assert Lines(WhitespaceFixedIn(content)) == FixWhitespace(lines);
    JoinHas(FixWhitespace(lines), '\r');
    hide FixLine, IsSpace, SplitsAs;
    forall i, core, trail | 0 <= i < |lines| && SplitsAs(lines[i], core, trail)
      ensures FixWhitespace(lines)[i] == core + "\n"
    {
      FixLineIs(lines[i], core, trail);
    }
  }

  // ---------- Guards ----------

  /** strip leaves a text without white space at either end, and takes off nothing else. */
  lemma StripIs(s: string) returns (a: string, b: string)
    ensures s == a + Strip(s) + b
    ensures (forall i | 0 <= i < |a| :: IsSpace(a[i])) && (forall i | 0 <= i < |b| :: IsSpace(b[i]))
    ensures Strip(s) == "" || (!IsSpace(Strip(s)[0]) && !IsSpace(Strip(s)[|Strip(s)| - 1]))
  {
    b := RStripSplit(s);
    a := LStripSplit(RStrip(s));
    assert Strip(s) != "" ==> Strip(s)[|Strip(s)| - 1] == RStrip(s)[|RStrip(s)| - 1];
  }

  predicate SaysOff(line: string) {
    Strip(line) == "// clang-format off"
  }

  predicate SaysOn(line: string) {
    Strip(line) == "// clang-format on"
  }

  /** A line before line i switches formatting off, and none after that one switches it on. */
  ghost predicate SwitchedOff(lines: seq<string>, i: nat)
    requires i <= |lines|
  {
    exists j :: 0 <= j < i && SaysOff(lines[j]) && forall k | j < k < i :: !SaysOn(lines[k])
  }

  lemma OnIsNotOff()
    ensures "// clang-format off" == GUARD_OFF && "// clang-format on" == GUARD_ON && GUARD_ON != GUARD_OFF
  {
    assert |GUARD_OFF| != |GUARD_ON|;
  }

  lemma SwitchNext(lines: seq<string>, i: nat)
    requires i < |lines|
    ensures SwitchedOff(lines, i + 1) <==> if SaysOn(lines[i]) then false
                                           else if SaysOff(lines[i]) then true else SwitchedOff(lines, i)
  {
    OnIsNotOff();
    hide Strip;
    if SaysOff(lines[i]) {
      assert SwitchedOff(lines, i + 1);
    }
  }

  lemma {:induction false} EnabledIff(lines: seq<string>, i: nat)
    requires i <= |lines|
    ensures EnabledAt(lines, true, i) <==> !SwitchedOff(lines, i)
  {
    if i > 0 {
      EnabledIff(lines, i - 1);
      EnabledNext(lines, true, i - 1);
      SwitchNext(lines, i - 1);
      OnIsNotOff();
      hide Strip, SwitchedOff, EnabledAt;
    }
  }

  /** The tab fixer leaves a line alone exactly when it is no guard and formatting is switched off
      before it. */
  ghost predicate LeftAlone(lines: seq<string>, i: nat)
    requires i < |lines|
  {
    !SaysOn(lines[i]) && !SaysOff(lines[i]) && SwitchedOff(lines, i)
  }

  lemma SkippedIff(lines: seq<string>, i: nat)
    requires i < |lines|
    ensures Skipped(EnabledAt(lines, true, i), lines[i]) <==> LeftAlone(lines, i)
  {
    EnabledIff(lines, i);
    OnIsNotOff();
    hide Strip, SwitchedOff, EnabledAt;
  }

  /** All other lines are expanded, and tabs are reported exactly when one of these others has one. */
  lemma TabFixIs(lines: seq<string>)
    ensures HasTabs(lines, true) <==> exists i :: 0 <= i < |lines| && !LeftAlone(lines, i) && '\t' in lines[i]
    ensures |FixTabs(lines, true)| == |lines|
    ensures forall i | 0 <= i < |lines| ::
              FixTabs(lines, true)[i] == if LeftAlone(lines, i) then lines[i] else Expand(lines[i])
  {
    forall i | 0 <= i < |lines| ensures Skipped(EnabledAt(lines, true, i), lines[i]) <==> LeftAlone(lines, i) {
      SkippedIff(lines, i);
    }
    hide Skipped, EnabledAt, LeftAlone, Expand, FixTabs;
    HasTabsAt(lines, true);
    forall i | 0 <= i < |lines|
      ensures FixTabs(lines, true)[i] == if LeftAlone(lines, i) then lines[i] else Expand(lines[i])
    {
      GuardedLinesUntouched(lines, i);
    }
  }

  // ---------- Line ends ----------

  /** Reading translates each kind of line end to a newline and nothing else. */
  lemma LineEndsRead(body: string)
    requires '\r' !in body
    ensures UniversalNewlines(body) == body
    ensures UniversalNewlines(body + "\r\n") == body + "\n"
    ensures UniversalNewlines(body + "\r") == body + "\n"
  {
    NoReturnsNoChange(body);
    LastReturn(body);
    LoneReturn(body);
  }

  lemma {:induction false} LoneReturn(s: string)
    requires '\r' !in s
    ensures UniversalNewlines(s + "\r") == s + "\n"
  {
    if s == "" {
      assert "\r"[1..] == "" && s + "\r" == "\r";
    } else {
      LoneReturn(s[1..]);
      assert (s + "\r")[1..] == s[1..] + "\r";
    }
  }

  // ---------- A tree of files ----------

  /** A run in fix mode, file by file: those in a list go through its fixer if that is enabled, white
      space first; all others stay as they are. */
  lemma FixedFileByFile(files: Files, ws: seq<string>, tabs: seq<string>, enableWhitespace: bool,
                      enableTabs: bool, n: string)
    requires n in files
    ensures var r := StyleFixed(files, ws, tabs, enableWhitespace, enableTabs);
            var spaced := if enableWhitespace && n in ws then WhitespaceFixedIn(files[n]) else files[n];
            n in r && r[n] == if enableTabs && n in tabs then TabsFixedIn(spaced) else spaced
  {
    hide WhitespaceFixedIn, TabsFixedIn;
  }
}
