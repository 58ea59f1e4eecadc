/** The header as a file of characters: reading it into lines and writing lines back. */
module HeaderFile {
  import opened Common
  import opened AgentConfig

  /** Length of the first line, its line end included: LF, CR LF or CR. */
  function FirstLine(text: string): (k: nat)
    ensures k <= |text| && (text != "" ==> k > 0)
  {
    if text == "" then 0
    else if text[0] == '\n' then 1
    else if text[0] == '\r' then (if |text| > 1 && text[1] == '\n' then 2 else 1)
    else 1 + FirstLine(text[1..])
  }

  /** Reads a file without changing line ends. */
  function ReadLines(text: string): seq<string> {
    if text == "" then []
    else [text[..FirstLine(text)]] + ReadLines(text[FirstLine(text)..])
  }

  /** Writes lines one after the other. */
  function Joined(lines: seq<string>): string {
    if lines == [] then "" else lines[0] + Joined(lines[1..])
  }

  predicate Ended(line: string) {
    line != "" && (line[|line| - 1] == '\n' || line[|line| - 1] == '\r')
  }

  /** The line is one line, and the text after it does not run on into it. */
  ghost predicate StandsBefore(line: string, next: string) {
    && line != "" && FirstLine(line) == |line|
    && (next != "" ==> Ended(line) && !(line[|line| - 1] == '\r' && next[0] == '\n'))
  }

  /** Every line stands before the next one. */
  ghost predicate ProperLines(lines: seq<string>) {
    forall i | 0 <= i < |lines| :: StandsAt(lines, i)
  }

  ghost predicate StandsAt(lines: seq<string>, i: nat)
    requires i < |lines|
  {
    StandsBefore(lines[i], if i + 1 < |lines| then lines[i + 1] else "")
  }

  /** A line that any text can follow. */
  ghost predicate Complete(line: string) {
    forall next :: StandsBefore(line, next)
  }

  lemma {:induction false} FirstLineOfText(line: string, rest: string)
    requires StandsBefore(line, rest)
    ensures FirstLine(line + rest) == |line|
  {
    var text := line + rest;
    if line[0] == '\n' || line[0] == '\r' {
    } else {
      assert text[1..] == line[1..] + rest;
      if |line| > 1 {
        assert line[1..][|line| - 2] == line[|line| - 1];
        FirstLineOfText(line[1..], rest);
      } else {
        assert rest == "";
      }
    }
  }

  lemma JoinedStart(lines: seq<string>)
    requires ProperLines(lines)
    ensures lines == [] ==> Joined(lines) == ""
    ensures lines != [] ==> lines[0] != "" && Joined(lines) != "" && Joined(lines)[0] == lines[0][0]
  {
    if lines != [] {
      assert StandsAt(lines, 0);
    }
  }

  lemma ProperRest(lines: seq<string>)
    requires ProperLines(lines) && lines != []
    ensures ProperLines(lines[1..]) && StandsBefore(lines[0], Joined(lines[1..]))
  {
    hide FirstLine, Joined, Ended;
    var rest := lines[1..];
    forall i | 0 <= i < |rest|
      ensures StandsAt(rest, i)
    {
      assert StandsAt(lines, i + 1);
    }
    JoinedStart(rest);
    assert StandsAt(lines, 0);
  }

  /** Proper lines that were written are read back. */
  lemma {:induction false} WrittenLinesReadBack(lines: seq<string>)
    requires ProperLines(lines)
    ensures ReadLines(Joined(lines)) == lines
  {
    hide ProperLines, StandsBefore;
    if lines != [] {
      ProperRest(lines);
      FirstLineOfText(lines[0], Joined(lines[1..]));
      WrittenLinesReadBack(lines[1..]);
      var text := lines[0] + Joined(lines[1..]);
      assert lines[0] != "" by {
        StandsAlone(lines[0], Joined(lines[1..]));
      }
      assert text[..|lines[0]|] == lines[0] && text[|lines[0]|..] == Joined(lines[1..]);
      assert lines == [lines[0]] + lines[1..];
    } else {
      assert Joined(lines) == "";
    }
  }

  lemma StandsAlone(line: string, next: string)
    requires StandsBefore(line, next)
    ensures line != ""
  {
  }

  lemma StandsCons(c: char, line: string, next: string)
    requires c != '\n' && c != '\r' && StandsBefore(line, next)
    ensures StandsBefore([c] + line, next)
  {
    var longer := [c] + line;
    assert longer[1..] == line && longer[|line|] == line[|line| - 1];
  }

  lemma LineEndStands(text: string, k: nat)
    requires text != "" && k == FirstLine(text)
    requires text[0] == '\n' || text[0] == '\r' || |text| == 1
    ensures StandsBefore(text[..k], text[k..])
  {
    assert |text[..k]| == k && text[..k][0] == text[0];
    if k == 2 {
      assert text[..k][1] == '\n';
    }
  }

  lemma {:induction false} FirstLineStands(text: string)
    requires text != ""
    ensures StandsBefore(text[..FirstLine(text)], text[FirstLine(text)..])
  {
    hide StandsBefore;
    var k := FirstLine(text);
    if text[0] == '\n' || text[0] == '\r' || |text| == 1 {
      LineEndStands(text, k);
    } else {
      var rest := text[1..];
      FirstLineStands(rest);
      StandsCons(text[0], rest[..k - 1], rest[k - 1..]);
      assert text[..k] == [text[0]] + rest[..k - 1] && text[k..] == rest[k - 1..];
    }
  }

  lemma ProperCons(line: string, rest: seq<string>, lines: seq<string>)
    requires lines == [line] + rest && ProperLines(rest)
    requires StandsBefore(line, if rest == [] then "" else rest[0])
    ensures ProperLines(lines)
  {
    hide StandsBefore;
    forall i | 0 <= i < |lines|
      ensures StandsAt(lines, i)
    {
      if i > 0 {
        assert StandsAt(rest, i - 1);
      }
    }
  }

  /** Only the first character of what follows matters. */
  lemma SameStart(line: string, next: string, next': string)
    requires StandsBefore(line, next)
    requires (next == "" <==> next' == "") && (next != "" ==> next[0] == next'[0])
    ensures StandsBefore(line, next')
  {
    hide FirstLine;
  }

  /** What is read from a file are proper lines, and all of it. */
  lemma {:induction false} ReadLinesAreProper(text: string)
    ensures ProperLines(ReadLines(text)) && Joined(ReadLines(text)) == text
    decreases |text|
  {
    hide FirstLine, StandsBefore, ProperLines;
    if text != "" {
      var k := FirstLine(text);
      var rest := ReadLines(text[k..]);
      FirstLineStands(text);
      ReadLinesAreProper(text[k..]);
      JoinedStart(rest);
      SameStart(text[..k], text[k..], if rest == [] then "" else rest[0]);
      ProperCons(text[..k], rest, ReadLines(text));
      assert ReadLines(text)[1..] == rest;
      assert text == text[..k] + text[k..];
    } else {
      NoLines();
    }
  }

  lemma NoLines()
    ensures ProperLines([])
  {
  }

  // ---------------------------------------------------------------------
  // Edited headers
  // ---------------------------------------------------------------------

  lemma {:induction false} OneLine(body: string, rest: string)
    requires '\n' !in body && '\r' !in body
    ensures FirstLine(body + "\r\n" + rest) == |body| + 2
  {
    var text := body + "\r\n" + rest;
    if body != "" {
      assert text[1..] == body[1..] + "\r\n" + rest;
      OneLine(body[1..], rest);
    }
  }

  predicate NoBreak(body: string) {
    '\n' !in body && '\r' !in body
  }

  lemma NoBreakTogether(a: string, b: string)
    requires NoBreak(a) && NoBreak(b)
    ensures NoBreak(a + b)
  {
  }

  lemma BodyBreaksNowhere(s: Setting)
    ensures NoBreak(Prefix(s.active) + Name(s.flag))
  {
    hide NoBreak;
    assert NoBreak(Prefix(s.active)) by {
      PrefixBreaksNowhere(s.active);
    }
    assert NoBreak(STEM) && NoBreak(Suffix(s.flag)) by {
      SuffixBreaksNowhere(s.flag);
    }
    NoBreakTogether(STEM, Suffix(s.flag));
    NoBreakTogether(Prefix(s.active), Name(s.flag));
  }

  lemma PrefixBreaksNowhere(active: bool)
    ensures NoBreak(Prefix(active))
  {
  }

  lemma SuffixBreaksNowhere(flag: Flag)
    ensures NoBreak(STEM) && NoBreak(Suffix(flag))
  {
  }

  lemma BrokenLineIsComplete(body: string)
    requires NoBreak(body)
    ensures Complete(body + EOL)
  {
    OneLine(body, "");
    assert body + "\r\n" + "" == body + EOL;
    assert (body + EOL)[|body| + 1] == '\n';
    hide FirstLine;
  }

  lemma PrintedLineIsComplete(s: Setting)
    ensures Complete(LineOf(s))
  {
    hide Prefix, Name, Complete, NoBreak;
    BodyBreaksNowhere(s);
    BrokenLineIsComplete(Prefix(s.active) + Name(s.flag));
  }

  lemma StartIsComplete()
    ensures Complete(BOUNDARY_START + EOL)
  {
    hide Complete;
    BrokenLineIsComplete(BOUNDARY_START);
  }

  /** Proper lines stay proper around new complete ones. */
  lemma ProperAround(head: seq<string>, lines: seq<string>, tail: seq<string>)
    requires ProperLines(head) && ProperLines(tail) && head != [] && Complete(head[|head| - 1])
    requires forall i | 0 <= i < |lines| :: Complete(lines[i])
    ensures ProperLines(head + lines + tail)
  {
    hide StandsBefore;
    var all := head + lines + tail;
    forall i | 0 <= i < |all|
      ensures StandsAt(all, i)
    {
      if i < |head| - 1 {
        assert StandsAt(head, i);
        assert all[i] == head[i] && all[i + 1] == head[i + 1];
      } else if i < |head| {
        assert all[i] == head[|head| - 1];
      } else if i < |head| + |lines| {
        assert all[i] == lines[i - |head|];
      } else {
        var j := i - |head| - |lines|;
        assert StandsAt(tail, j);
        assert all[i] == tail[j] && (j + 1 < |tail| ==> all[i + 1] == tail[j + 1]);
      }
    }
  }

  lemma ProperPrefix(lines: seq<string>, n: nat)
    requires ProperLines(lines) && 0 < n <= |lines| && Complete(lines[n - 1])
    ensures ProperLines(lines[..n])
  {
    hide StandsBefore;
    forall k | 0 <= k < n
      ensures StandsAt(lines[..n], k)
    {
      assert StandsAt(lines, k);
    }
  }

  lemma ProperSuffix(lines: seq<string>, n: nat)
    requires ProperLines(lines) && n <= |lines|
    ensures ProperLines(lines[n..])
  {
    hide StandsBefore;
    forall k | 0 <= k < |lines| - n
      ensures StandsAt(lines[n..], k)
    {
      assert StandsAt(lines, n + k);
    }
  }

  /** Editing keeps the lines proper, wherever the markers stand. */
  lemma EditedLinesAreProper(content: seq<string>, s: Setting)
    requires ProperLines(content) && Edited(content, s).Ok?
    ensures ProperLines(Edited(content, s).value)
  {
    hide ProperLines, StandsBefore, IndexOf, ReadConfig, LineOf, Put, Complete;
    var start, end := IndexOf(content, BOUNDARY_START + EOL).value, IndexOf(content, BOUNDARY_END + EOL).value;
    var head, d := content[..start + 1], Put(ReadConfig(Split(content).value.config), s);
    StartIsComplete();
    ProperPrefix(content, start + 1);
    ProperSuffix(content, end);
    forall i | 0 <= i < |d|
      ensures Complete(Lines(d)[i])
    {
      PrintedLineIsComplete(d[i]);
    }
    assert head[|head| - 1] == content[start];
    ProperAround(head, Lines(d), content[end..]);
  }

  /** An edited file that is written and read again gives the edited lines. */
  lemma EditedFileReadsBack(text: string, s: Setting)
    requires Edited(ReadLines(text), s).Ok?
    ensures var edited := Edited(ReadLines(text), s).value; ReadLines(Joined(edited)) == edited
  {
    hide ReadLines, Joined, Edited, ProperLines;
    ReadLinesAreProper(text);
    EditedLinesAreProper(ReadLines(text), s);
    WrittenLinesReadBack(Edited(ReadLines(text), s).value);
  }
}
