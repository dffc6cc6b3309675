/** Text files as the Python scripts see them: universal newlines on reading, lines that keep
    their newline, and lines written back to back. */
module Text {

  /** Reading in text mode turns "\r\n" and a lone "\r" into "\n". */
  function UniversalNewlines(s: string): (r: string)
    ensures '\r' !in r
  {
    if s == "" then ""
    else if s[0] == '\r' then
      "\n" + UniversalNewlines(if |s| > 1 && s[1] == '\n' then s[2..] else s[1..])
    else [s[0]] + UniversalNewlines(s[1..])
  }

  /** The length of the first line, its newline included. */
  function FirstLine(s: string): (n: nat)
    ensures n <= |s|
    ensures s != "" ==> n > 0
  {
    if s == "" then 0
    else if s[0] == '\n' then 1
    else 1 + FirstLine(s[1..])
  }

  function SplitLines(s: string): seq<string> {
    if s == "" then [] else [s[..FirstLine(s)]] + SplitLines(s[FirstLine(s)..])
  }

  function Join(lines: seq<string>): string {
    if lines == [] then "" else lines[0] + Join(lines[1..])
  }

  ghost predicate IsFullLine(l: string) {
    l != "" && l[|l| - 1] == '\n' && '\n' !in l[..|l| - 1]
  }

  /** A file's last line may lack its newline, but no line is empty. */
  ghost predicate AreLines(lines: seq<string>) {
    forall i | 0 <= i < |lines| ::
      IsFullLine(lines[i]) || (i == |lines| - 1 && lines[i] != "" && '\n' !in lines[i])
  }

  lemma FullLine(s: string)
    requires '\n' !in s
    ensures IsFullLine(s + "\n")
  {
    assert (s + "\n")[..|s|] == s;
  }

  lemma {:induction false} FirstLineIs(s: string)
    requires s != ""
    ensures var l := s[..FirstLine(s)]; IsFullLine(l) || (l == s && '\n' !in l)
  {
    if s[0] != '\n' {
      if |s| > 1 {
        FirstLineIs(s[1..]);
        var l := s[..FirstLine(s)];
        assert l == [s[0]] + s[1..][..FirstLine(s[1..])];
      }
    } else {
      assert s[..1] == "\n";
    }
  }

  lemma {:induction false} FirstLineOf(l: string, rest: string)
    requires IsFullLine(l)
    ensures FirstLine(l + rest) == |l|
  {
    assert (l + rest)[0] == l[0];
    if |l| > 1 {
      assert (l + rest)[1..] == l[1..] + rest;
      assert l[..|l| - 1][0] == l[0];
      assert l[1..][..|l| - 2] == l[..|l| - 1][1..];
      FirstLineOf(l[1..], rest);
    }
  }

  lemma {:induction false} FirstLineOfLast(l: string)
    requires '\n' !in l
    ensures FirstLine(l) == |l|
  {
    if l != "" { FirstLineOfLast(l[1..]); }
  }

  lemma AreLinesCons(l: string, rest: seq<string>)
    requires AreLines(rest)
    requires IsFullLine(l) || (rest == [] && l != "" && '\n' !in l)
    ensures AreLines([l] + rest)
  {
    var lines := [l] + rest;
    hide IsFullLine;
    forall i | 0 <= i < |lines|
      ensures IsFullLine(lines[i]) || (i == |lines| - 1 && lines[i] != "" && '\n' !in lines[i])
    {
      if i > 0 { assert lines[i] == rest[i - 1]; }
    }
  }

  /** Writing back what was read loses nothing. */
  lemma {:induction false} JoinOfSplit(s: string)
    ensures Join(SplitLines(s)) == s
    ensures AreLines(SplitLines(s))
  {
    if s != "" {
      var l, t := s[..FirstLine(s)], s[FirstLine(s)..];
      FirstLineIs(s);
      JoinOfSplit(t);
      assert s == l + t && SplitLines(s) == [l] + SplitLines(t);
      hide IsFullLine, AreLines, FirstLine;
      AreLinesCons(l, SplitLines(t));
      assert ([l] + SplitLines(t))[1..] == SplitLines(t);
    }
  }

  /** Reading back what was written gives the same lines. */
  lemma {:induction false} SplitOfJoin(lines: seq<string>)
    requires AreLines(lines)
    ensures SplitLines(Join(lines)) == lines
  {
    if lines != [] {
      var l, rest := lines[0], lines[1..];
      assert forall i | 0 <= i < |rest| :: rest[i] == lines[i + 1];
      SplitOfJoin(rest);
      if IsFullLine(l) {
        FirstLineOf(l, Join(rest));
        assert (l + Join(rest))[..|l|] == l && (l + Join(rest))[|l|..] == Join(rest);
      } else {
        assert rest == [];
        FirstLineOfLast(l);
        assert l + "" == l;
        assert l[..|l|] == l && l[|l|..] == "";
      }
    }
  }

  lemma {:induction false} JoinConcat(a: seq<string>, b: seq<string>)
    ensures Join(a + b) == Join(a) + Join(b)
  {
    hide Join;
    if a == [] {
      assert a + b == b;
      JoinNone(b);
    } else {
      JoinConcat(a[1..], b);
      assert (a + b)[1..] == a[1..] + b && (a + b)[0] == a[0];
      JoinFirst(a);
      JoinFirst(a + b);
      Regroup(a[0], Join(a[1..]), Join(b));
    }
  }

  lemma JoinFirst(lines: seq<string>)
    requires lines != []
    ensures Join(lines) == lines[0] + Join(lines[1..])
  {
  }

  lemma JoinNone(lines: seq<string>)
    ensures Join([]) == "" && Join([]) + Join(lines) == Join(lines)
  {
  }

  lemma Regroup(a: string, b: string, c: string)
    ensures (a + b) + c == a + (b + c)
  {
  }

  lemma {:induction false} JoinHas(lines: seq<string>, c: char)
    ensures c in Join(lines) <==> exists i :: 0 <= i < |lines| && c in lines[i]
  {
    if lines != [] {
      JoinHas(lines[1..], c);
      if i :| 0 <= i < |lines[1..]| && c in lines[1..][i] {
        assert c in lines[i + 1];
      }
      if i :| 0 <= i < |lines| && c in lines[i] {
        if i > 0 { assert c in lines[1..][i - 1]; }
      }
    }
  }

  /** Without carriage returns there is nothing to translate. */
  lemma {:induction false} NoReturnsNoChange(s: string)
    requires '\r' !in s
    ensures UniversalNewlines(s) == s
  {
    if s != "" { NoReturnsNoChange(s[1..]); }
  }

  // ---------- Lines as they are stored ----------

  /** The length of the first stored line, ended by "\n", "\r\n" or a lone "\r". */
  function FirstRawLine(s: string): (n: nat)
    ensures n <= |s|
    ensures s != "" ==> n > 0
  {
    if s == "" then 0
    else if s[0] == '\n' then 1
    else if s[0] == '\r' then if |s| > 1 && s[1] == '\n' then 2 else 1
    else 1 + FirstRawLine(s[1..])
  }

  function RawLines(s: string): seq<string> {
    if s == "" then [] else [s[..FirstRawLine(s)]] + RawLines(s[FirstRawLine(s)..])
  }

  /** The stored lines make up the file. */
  lemma {:induction false} JoinOfRawLines(s: string)
    ensures Join(RawLines(s)) == s
  {
    if s != "" {
      var l, t := s[..FirstRawLine(s)], s[FirstRawLine(s)..];
      JoinOfRawLines(t);
      assert s == l + t && RawLines(s) == [l] + RawLines(t);
    }
  }

  /** The first n characters of s are a text without line ends and one line end, "\r\n" counting as
      one; only the last line of a file may lack it. */
  ghost predicate IsStoredLine(s: string, n: nat, body: string, end: string) {
    && n <= |s| && s[..n] == body + end && '\n' !in body && '\r' !in body
    && (end == "\n" || end == "\r\n" || (end == "\r" && !("\n" <= s[n..])) || (end == "" && n == |s|))
  }

  lemma StoredEnd(s: string)
    requires s != "" && (s[0] == '\n' || s[0] == '\r')
    ensures IsStoredLine(s, FirstRawLine(s), "", s[..FirstRawLine(s)])
  {
    var end := s[..FirstRawLine(s)];
    assert "" + end == end;
    assert |end| == 1 ==> end == [s[0]];
    assert |end| == 2 ==> end == "\r\n";
  }

  lemma StoredMore(s: string, n: nat, body: string, end: string)
    requires s != "" && s[0] != '\n' && s[0] != '\r' && IsStoredLine(s[1..], n, body, end)
    ensures IsStoredLine(s, n + 1, [s[0]] + body, end)
  {
    assert s[..n + 1] == [s[0]] + s[1..][..n] && s[n + 1..] == s[1..][n..];
    assert [s[0]] + (body + end) == ([s[0]] + body) + end;
  }

  lemma {:induction false} FirstRawLineIs(s: string) returns (body: string, end: string)
    requires s != ""
    ensures IsStoredLine(s, FirstRawLine(s), body, end)
  {
    if s[0] == '\n' || s[0] == '\r' {
      StoredEnd(s);
      body, end := "", s[..FirstRawLine(s)];
    } else if |s| > 1 {
      body, end := FirstRawLineIs(s[1..]);
      StoredMore(s, FirstRawLine(s[1..]), body, end);
      body := [s[0]] + body;
    } else {
      body, end := s, "";
      assert s[..1] == s && s + "" == s;
    }
  }

  /** The text reads as its first n characters and then the rest, the former as one line. */
  ghost predicate FirstReads(s: string, n: nat) {
    n <= |s| &&
    var u := UniversalNewlines(s);
    && u != "" && u[..FirstLine(u)] == UniversalNewlines(s[..n])
    && u[FirstLine(u)..] == UniversalNewlines(s[n..])
  }

  lemma EndReads(s: string)
    requires s != "" && (s[0] == '\n' || s[0] == '\r')
    ensures FirstReads(s, FirstRawLine(s))
  {
    var n := FirstRawLine(s);
    var l := s[..n];
    var rest := UniversalNewlines(s[n..]);
    assert l[1..] == "" || (n == 2 && l[2..] == "");
    assert UniversalNewlines(l) == "\n" + UniversalNewlines("") == "\n";
    assert UniversalNewlines(s) == "\n" + rest;
    hide UniversalNewlines;
    assert ("\n" + rest)[..1] == "\n" && ("\n" + rest)[1..] == rest;
  }

  lemma OneMoreReads(s: string, n: nat)
    requires s != "" && s[0] != '\n' && s[0] != '\r' && FirstReads(s[1..], n)
    ensures FirstReads(s, n + 1)
  {
    var l := s[..n + 1];
    assert l[1..] == s[1..][..n] && s[n + 1..] == s[1..][n..];
    assert UniversalNewlines(l) == [s[0]] + UniversalNewlines(l[1..]);
    assert UniversalNewlines(s) == [s[0]] + UniversalNewlines(s[1..]);
    hide UniversalNewlines;
    FirstLineCons(s[0], UniversalNewlines(s[1..]));
  }

  lemma FirstLineCons(c: char, v: string)
    requires c != '\n'
    ensures var u := [c] + v;
            u[..FirstLine(u)] == [c] + v[..FirstLine(v)] && u[FirstLine(u)..] == v[FirstLine(v)..]
  {
    var u := [c] + v;
    assert u[1..] == v;
  }

  lemma {:induction false} FirstRawLineReads(s: string)
    requires s != ""
    ensures FirstReads(s, FirstRawLine(s))
  {
    if s[0] == '\n' || s[0] == '\r' {
      EndReads(s);
    } else if |s| > 1 {
      FirstRawLineReads(s[1..]);
      OneMoreReads(s, FirstRawLine(s[1..]));
    } else {
      NoReturnsNoChange(s);
      FirstLineOfLast(s);
      assert s[..1] == s && s[1..] == "";
    }
  }

  /** What is read line by line is the stored lines with their ends translated. */
  lemma {:induction false} RawLinesRead(s: string)
    ensures var lines := SplitLines(UniversalNewlines(s));
            && |RawLines(s)| == |lines|
            && forall i | 0 <= i < |lines| :: lines[i] == UniversalNewlines(RawLines(s)[i])
  {
    if s != "" {
      FirstRawLineReads(s);
      RawLinesRead(s[FirstRawLine(s)..]);
    }
  }

  /** Without carriage returns the stored lines are the ones read. */
  lemma RawLinesWithoutReturns(s: string)
    requires '\r' !in s
    ensures RawLines(s) == SplitLines(s)
  {
    NoReturnsNoChange(s);
    JoinOfRawLines(s);
    RawLinesRead(s);
    forall i | 0 <= i < |RawLines(s)| ensures RawLines(s)[i] == SplitLines(s)[i] {
      JoinHas(RawLines(s), '\r');
      NoReturnsNoChange(RawLines(s)[i]);
    }
  }

  /** A text file opened by name; writing a string appends it. */
  class TextFile {
    var content: string

    constructor (content: string)
      ensures this.content == content
    {
      this.content := content;
    }

    method Write(s: string)
      modifies this`content
      ensures content == old(content) + s
    {
      content := content + s;
    }
  }
}
