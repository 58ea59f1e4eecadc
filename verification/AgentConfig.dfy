/** Reading and editing the harness flags in the agent library header. */
module AgentConfig {
  import opened Common

  datatype Flag = FuzzBootLoader | FuzzVirtioRead | FuzzBlkDevInit | FuzzTdhob | FuzzDummy

  const ALL_FLAGS := [FuzzBootLoader, FuzzVirtioRead, FuzzBlkDevInit, FuzzTdhob, FuzzDummy]

  const BOUNDARY_START := "/** KAFL HARNESS CONFIGURATION START **/"
  const BOUNDARY_END := "/** KAFL HARNESS CONFIGURATION END **/"
  const EOL := "\r\n"

  const STEM := "CONFIG_KAFL_FUZZ_"

  function Suffix(flag: Flag): string {
    match flag
    case FuzzBootLoader => "BOOT_LOADER"
    case FuzzVirtioRead => "VIRTIO_READ"
    case FuzzBlkDevInit => "BLK_DEV_INIT"
    case FuzzTdhob => "TDHOB"
    case FuzzDummy => "DUMMY"
  }

  /** The name of a flag in the header. */
  function Name(flag: Flag): string {
    STEM + Suffix(flag)
  }

  // ---------------------------------------------------------------------
  // Configurations: dictionaries in insertion order
  // ---------------------------------------------------------------------

  datatype Setting = Setting(flag: Flag, active: bool)

  type Config = seq<Setting>

  ghost predicate DistinctFlags(c: Config) {
    forall i, j | 0 <= i < j < |c| :: c[i].flag != c[j].flag
  }

  /** Replaces the setting of a flag in place, or appends it. */
  function Put(c: Config, s: Setting): Config {
    if c == [] then [s]
    else if c[0].flag == s.flag then [s] + c[1..]
    else [c[0]] + Put(c[1..], s)
  }

  /** What a configuration says about a flag. */
  function Get(c: Config, flag: Flag): Option<bool> {
    if c == [] then None
    else if c[0].flag == flag then Some(c[0].active)
    else Get(c[1..], flag)
  }

  lemma {:induction false} GetPut(c: Config, s: Setting, flag: Flag)
    ensures Get(Put(c, s), flag) == if flag == s.flag then Some(s.active) else Get(c, flag)
  {
    if c != [] && c[0].flag != s.flag {
      GetPut(c[1..], s, flag);
    }
  }

  lemma {:induction false} PutDistinct(c: Config, s: Setting)
    requires DistinctFlags(c)
    ensures DistinctFlags(Put(c, s))
    ensures forall t | t in Put(c, s) :: t == s || t in c
  {
    if c != [] && c[0].flag != s.flag {
      PutDistinct(c[1..], s);
      var rest := Put(c[1..], s);
      forall j | 0 <= j < |rest|
        ensures rest[j].flag != c[0].flag
      {
        assert rest[j] in rest;
      }
    }
  }

  lemma {:induction false} PutNew(c: Config, s: Setting)
    requires forall t | t in c :: t.flag != s.flag
    ensures Put(c, s) == c + [s]
  {
    if c != [] {
      PutNew(c[1..], s);
      assert c == [c[0]] + c[1..];
    }
  }

  /** `d` is `c` with the setting of one flag changed where it stands, or appended. */
  ghost predicate SetInPlace(c: Config, s: Setting, d: Config) {
    if exists i :: 0 <= i < |c| && c[i].flag == s.flag
    then |d| == |c| && forall i | 0 <= i < |c| :: d[i] == if c[i].flag == s.flag then s else c[i]
    else d == c + [s]
  }

  lemma {:induction false} PutSetsInPlace(c: Config, s: Setting)
    requires DistinctFlags(c)
    ensures SetInPlace(c, s, Put(c, s))
  {
    if c != [] {
      var rest := c[1..];
      assert c == [c[0]] + rest;
      if c[0].flag != s.flag {
        PutSetsInPlace(rest, s);
        if i :| 0 <= i < |c| && c[i].flag == s.flag {
          assert rest[i - 1].flag == s.flag;
        } else {
          assert forall i | 0 <= i < |rest| :: rest[i] == c[i + 1];
        }
      }
    }
  }

  /** Putting the same setting again changes nothing. */
  lemma {:induction false} PutTwice(c: Config, s: Setting)
    ensures Put(Put(c, s), s) == Put(c, s)
  {
    if c != [] && c[0].flag != s.flag {
      PutTwice(c[1..], s);
    }
  }

  // ---------------------------------------------------------------------
  // Printing and parsing lines
  // ---------------------------------------------------------------------

  function Prefix(active: bool): string {
    if active then "#define " else "// #define "
  }

  function LineOf(s: Setting): string {
    Prefix(s.active) + Name(s.flag) + EOL
  }

  predicate OccursAt(line: string, part: string, k: nat) {
    k + |part| <= |line| && line[k..k + |part|] == part
  }

  predicate Contains(line: string, part: string) {
    exists k: nat :: k <= |line| && OccursAt(line, part, k)
  }

  predicate CommentedOut(line: string) {
    (if |line| < 4 then line else line[..4]) == "// #"
  }

  /** A line sets every flag it names. */
  function ReadFlags(c: Config, line: string, flags: seq<Flag>): Config {
    if flags == [] then c
    else
      var before := ReadFlags(c, line, flags[..|flags| - 1]);
      var flag := flags[|flags| - 1];
      if Contains(line, Name(flag)) then Put(before, Setting(flag, !CommentedOut(line))) else before
  }

  function ReadConfig(lines: seq<string>): Config {
    if lines == [] then []
    else ReadFlags(ReadConfig(lines[..|lines| - 1]), lines[|lines| - 1], ALL_FLAGS)
  }

  method GetCurrentConfig(lines: seq<string>) returns (config: Config)
    ensures config == ReadConfig(lines)
  {
    config := [];
    for i := 0 to |lines|
      invariant config == ReadConfig(lines[..i])
    {
      assert lines[..i + 1][..i] == lines[..i];
      ghost var before := config;
      for j := 0 to |ALL_FLAGS|
        invariant config == ReadFlags(before, lines[i], ALL_FLAGS[..j])
      {
        assert ALL_FLAGS[..j + 1][..j] == ALL_FLAGS[..j];
        if Contains(lines[i], Name(ALL_FLAGS[j])) {
          var active := true;
          if CommentedOut(lines[i]) {
            active := false;
          }
          config := Put(config, Setting(ALL_FLAGS[j], active));
        }
      }
      assert ALL_FLAGS[..|ALL_FLAGS|] == ALL_FLAGS;
    }
    assert lines[..|lines|] == lines;
  }

  function Lines(c: Config): (lines: seq<string>)
    ensures |lines| == |c| && forall i | 0 <= i < |c| :: lines[i] == LineOf(c[i])
  {
    seq(|c|, i requires 0 <= i < |c| => LineOf(c[i]))
  }

  lemma LineIs(s: Setting, prefix: string)
    requires prefix == if s.active then "" else "// "
    ensures prefix + "#define " + Name(s.flag) + EOL == LineOf(s)
  {
    assert prefix + "#define " == Prefix(s.active);
  }

  method CreateConfigLines(config: Config) returns (lines: seq<string>)
    ensures lines == Lines(config)
  {
    hide LineOf, Name;
    lines := [];
    for i := 0 to |config|
      invariant lines == Lines(config)[..i]
    {
      var prefix := "// ";
      if config[i].active {
        prefix := "";
      }
      LineIs(config[i], prefix);
      lines := lines + [prefix + "#define " + Name(config[i].flag) + EOL];
    }
  }

  // No flag name is part of the line of another flag.

  lemma NoOtherC(s: Setting)
    ensures 'C' !in Prefix(s.active) && 'C' !in STEM[1..] && 'C' !in Suffix(s.flag) && 'C' !in EOL
  {
  }

  /** The only `C` of a line starts the flag name. */
  lemma OnlyC(s: Setting, k: nat)
    requires k < |LineOf(s)| && k != |Prefix(s.active)|
    ensures LineOf(s)[k] != 'C'
  {
    NoOtherC(s);
    var line, p, n := LineOf(s), |Prefix(s.active)|, |Name(s.flag)|;
    if k < p {
      assert line[k] == Prefix(s.active)[k];
    } else if k < p + |STEM| {
      assert line[k] == STEM[1..][k - p - 1];
    } else if k < p + n {
      assert line[k] == Suffix(s.flag)[k - p - |STEM|];
    } else {
      assert line[k] == EOL[k - p - n];
    }
  }

  lemma SuffixesDiffer(f: Flag, g: Flag)
    requires f != g
    ensures |Suffix(f)| >= 2 && |Suffix(g)| >= 2
    ensures Suffix(f)[0] != Suffix(g)[0] || Suffix(f)[1] != Suffix(g)[1]
  {
  }

  /** A flag name occurs in a printed line only where that line's flag name starts. */
  lemma OccursAtName(s: Setting, flag: Flag, k: nat)
    requires OccursAt(LineOf(s), Name(flag), k)
    ensures k == |Prefix(s.active)|
  {
    assert LineOf(s)[k..k + |Name(flag)|][0] == Name(flag)[0] == 'C';
    if k != |Prefix(s.active)| {
      OnlyC(s, k);
    }
  }

  lemma OccurrenceChar(line: string, part: string, k: nat, i: nat)
    requires OccursAt(line, part, k) && i < |part|
    ensures k + i < |line| && line[k + i] == part[i]
  {
    assert line[k..k + |part|][i] == part[i];
  }

  lemma SuffixChar(s: Setting, i: nat)
    requires i < |Suffix(s.flag)|
    ensures var at := |STEM| + i;
      && at < |Name(s.flag)| && Name(s.flag)[at] == Suffix(s.flag)[i]
      && |Prefix(s.active)| + at < |LineOf(s)| && LineOf(s)[|Prefix(s.active)| + at] == Suffix(s.flag)[i]
  {
    hide Suffix, Prefix;
  }

  lemma SameName(s: Setting, flag: Flag)
    requires OccursAt(LineOf(s), Name(flag), |Prefix(s.active)|)
    ensures flag == s.flag
  {
    hide LineOf, Name, Suffix, Prefix, OccursAt;
    if flag != s.flag {
      SuffixesDiffer(flag, s.flag);
      forall i: nat | i < 2
        ensures Suffix(flag)[i] == Suffix(s.flag)[i]
      {
        SuffixChar(s, i);
        SuffixChar(Setting(flag, s.active), i);
        OccurrenceChar(LineOf(s), Name(flag), |Prefix(s.active)|, |STEM| + i);
      }
    }
  }

  /** A printed line names its own flag and no other. */
  lemma LineNamesItsFlag(s: Setting, flag: Flag)
    ensures Contains(LineOf(s), Name(flag)) <==> flag == s.flag
  {
    hide LineOf, Name;
    OwnNameOccurs(s);
    forall k: nat | OccursAt(LineOf(s), Name(flag), k)
      ensures flag == s.flag
    {
      OccursAtName(s, flag, k);
      SameName(s, flag);
    }
  }

  lemma OwnNameOccurs(s: Setting)
    ensures Contains(LineOf(s), Name(s.flag))
  {
    var p := |Prefix(s.active)|;
    assert LineOf(s)[p..p + |Name(s.flag)|] == Name(s.flag);
    assert OccursAt(LineOf(s), Name(s.flag), p);
  }

  lemma LineActivity(s: Setting)
    ensures CommentedOut(LineOf(s)) <==> !s.active
  {
    var line := LineOf(s);
    assert line[..4] == Prefix(s.active)[..4];
    assert Prefix(false)[..4] == "// #";
    assert Prefix(true)[..4][0] == '#';
  }

  lemma {:induction false} ReadOwnLine(c: Config, s: Setting, flags: seq<Flag>)
    requires forall i, j | 0 <= i < j < |flags| :: flags[i] != flags[j]
    ensures ReadFlags(c, LineOf(s), flags) == if s.flag in flags then Put(c, s) else c
  {
    hide LineOf, Name, Contains, CommentedOut, Put;
    if flags != [] {
      var init, last := flags[..|flags| - 1], flags[|flags| - 1];
      ReadOwnLine(c, s, init);
      LineNamesItsFlag(s, last);
      LineActivity(s);
      assert flags == init + [last];
    }
  }

  lemma ReadPrinted(c: Config, s: Setting)
    ensures ReadFlags(c, LineOf(s), ALL_FLAGS) == Put(c, s)
  {
    hide ReadFlags, LineOf;
    AllFlagsListed(s.flag);
    ReadOwnLine(c, s, ALL_FLAGS);
  }

  /** Parsing printed lines gives the configuration back. */
  lemma {:induction false} ConfigRoundTrip(c: Config)
    requires DistinctFlags(c)
    ensures ReadConfig(Lines(c)) == c
  {
    hide ReadFlags, LineOf, Put;
    if c != [] {
      var init, last := c[..|c| - 1], c[|c| - 1];
      ConfigRoundTrip(init);
      assert Lines(c)[..|c| - 1] == Lines(init);
      ReadPrinted(init, last);
      assert forall t | t in init :: t.flag != last.flag;
      PutNew(init, last);
      assert c == init + [last];
    }
  }

  lemma AllFlagsListed(flag: Flag)
    ensures flag in ALL_FLAGS
  {
    match flag
    case FuzzBootLoader => assert ALL_FLAGS[0] == flag;
    case FuzzVirtioRead => assert ALL_FLAGS[1] == flag;
    case FuzzBlkDevInit => assert ALL_FLAGS[2] == flag;
    case FuzzTdhob => assert ALL_FLAGS[3] == flag;
    case FuzzDummy => assert ALL_FLAGS[4] == flag;
  }

  lemma {:induction false} ReadFlagsDistinct(c: Config, line: string, flags: seq<Flag>)
    requires DistinctFlags(c)
    ensures DistinctFlags(ReadFlags(c, line, flags))
  {
    if flags != [] {
      var init := flags[..|flags| - 1];
      ReadFlagsDistinct(c, line, init);
      PutDistinct(ReadFlags(c, line, init), Setting(flags[|flags| - 1], !CommentedOut(line)));
    }
  }

  lemma {:induction false} ReadConfigDistinct(lines: seq<string>)
    ensures DistinctFlags(ReadConfig(lines))
  {
    if lines != [] {
      ReadConfigDistinct(lines[..|lines| - 1]);
      ReadFlagsDistinct(ReadConfig(lines[..|lines| - 1]), lines[|lines| - 1], ALL_FLAGS);
    }
  }

  // What reading any lines, printed or not, means.

  lemma CommentedOutMeans(line: string)
    ensures CommentedOut(line) <==>
            |line| >= 4 && line[0] == '/' && line[1] == '/' && line[2] == ' ' && line[3] == '#'
  {
    if |line| >= 4 {
      assert line[..4] == [line[0], line[1], line[2], line[3]];
    }
  }

  lemma {:induction false} ReadFlagsGet(c: Config, line: string, flags: seq<Flag>, flag: Flag)
    ensures Get(ReadFlags(c, line, flags), flag) ==
            if flag in flags && Contains(line, Name(flag)) then Some(!CommentedOut(line)) else Get(c, flag)
  {
    hide Contains, CommentedOut, Name, Put, Get;
    if flags != [] {
      var init, last := flags[..|flags| - 1], flags[|flags| - 1];
      assert flags == init + [last];
      ReadFlagsGet(c, line, init, flag);
      GetPut(ReadFlags(c, line, init), Setting(last, !CommentedOut(line)), flag);
    }
  }

  lemma ReadLineGet(c: Config, line: string, flag: Flag)
    ensures Get(ReadFlags(c, line, ALL_FLAGS), flag) ==
            if Contains(line, Name(flag)) then Some(!CommentedOut(line)) else Get(c, flag)
  {
    hide Contains, CommentedOut, Name, ReadFlags, Get;
    AllFlagsListed(flag);
    ReadFlagsGet(c, line, ALL_FLAGS, flag);
  }

  /** Line `i` is the last that names the flag. */
  ghost predicate LastNaming(lines: seq<string>, flag: Flag, i: nat) {
    i < |lines| && Contains(lines[i], Name(flag)) && forall j | i < j < |lines| :: !Contains(lines[j], Name(flag))
  }

  lemma ReadLastLine(lines: seq<string>, flag: Flag)
    requires lines != []
    ensures var n := |lines| - 1;
      Get(ReadConfig(lines), flag) ==
      if Contains(lines[n], Name(flag)) then Some(!CommentedOut(lines[n])) else Get(ReadConfig(lines[..n]), flag)
  {
    hide Contains, CommentedOut, Name, ReadFlags, Get;
    ReadLineGet(ReadConfig(lines[..|lines| - 1]), lines[|lines| - 1], flag);
  }

  /** The last line that names a flag decides, by whether it is commented out. */
  lemma {:induction false} LastLineDecides(lines: seq<string>, flag: Flag, i: nat)
    requires LastNaming(lines, flag, i)
    ensures Get(ReadConfig(lines), flag) == Some(!CommentedOut(lines[i]))
  {
    hide Contains, CommentedOut, Name, ReadConfig, Get;
    ReadLastLine(lines, flag);
    if i < |lines| - 1 {
      LastLineDecides(lines[..|lines| - 1], flag, i);
    }
  }

  /** A flag that no line names is not in the configuration. */
  lemma {:induction false} UnnamedFlag(lines: seq<string>, flag: Flag)
    requires forall i | 0 <= i < |lines| :: !Contains(lines[i], Name(flag))
    ensures Get(ReadConfig(lines), flag) == None
  {
    hide Contains, CommentedOut, Name;
    if lines != [] {
      ReadLastLine(lines, flag);
      UnnamedFlag(lines[..|lines| - 1], flag);
    }
  }

  /** A flag is switched off by commenting its line out. */
  lemma SwitchedOffLine(flag: Flag)
    ensures LineOf(Setting(flag, true)) == "#define " + Name(flag) + "\r\n"
    ensures LineOf(Setting(flag, false)) == "// " + LineOf(Setting(flag, true))
  {
    hide Name;
    assert "// #define " == "// " + "#define ";
  }

  // ---------------------------------------------------------------------
  // Splitting and editing the header
  // ---------------------------------------------------------------------

  /** Position of the first line equal to `x`. */
  function IndexOf(lines: seq<string>, x: string): (r: Option<nat>)
    ensures r.Some? ==> r.value < |lines| && lines[r.value] == x && x !in lines[..r.value]
    ensures r.None? ==> x !in lines
  {
    if lines == [] then None
    else if lines[0] == x then Some(0)
    else
      match IndexOf(lines[1..], x)
      case None => None
      case Some(i) => assert lines[..i + 1] == [lines[0]] + lines[1..][..i]; Some(i + 1)
  }

  datatype Parts = Parts(head: seq<string>, config: seq<string>, tail: seq<string>)

  /** A slice whose end may lie before its start. */
  function Slice(lines: seq<string>, lo: nat, hi: nat): seq<string>
    requires lo <= |lines| && hi <= |lines|
  {
    if lo <= hi then lines[lo..hi] else []
  }

  /** The three parts of the header; Failed when a marker line is missing. */
  function Split(content: seq<string>): Outcome<Parts> {
    match (IndexOf(content, BOUNDARY_START + EOL), IndexOf(content, BOUNDARY_END + EOL))
    case (Some(i), Some(end)) =>
      Ok(Parts(content[..i + 1], Slice(content, i + 1, end), content[end..]))
    case _ => Failed
  }

  /** The header after setting one flag. */
  function Edited(content: seq<string>, s: Setting): Outcome<seq<string>> {
    match Split(content)
    case Ok(parts) => Ok(parts.head + Lines(Put(ReadConfig(parts.config), s)) + parts.tail)
    case Failed => Failed
  }

  /** `after` is `content` with the flag section printed anew, one flag set in place. */
  ghost predicate RewrittenInPlace(content: seq<string>, s: Setting, after: seq<string>) {
    exists start: nat, end: nat, d ::
      && start < end < |content|
      && content[start] == BOUNDARY_START + EOL && BOUNDARY_START + EOL !in content[..start]
      && content[end] == BOUNDARY_END + EOL && BOUNDARY_END + EOL !in content[..end]
      && SetInPlace(ReadConfig(content[start + 1..end]), s, d)
      && after == content[..start + 1] + Lines(d) + content[end..]
  }

  lemma EditedInPlace(content: seq<string>, s: Setting)
    requires WellMarked(content)
    ensures Edited(content, s).Ok? && RewrittenInPlace(content, s, Edited(content, s).value)
  {
    hide ReadConfig, Lines, Put, SetInPlace;
    var start, end := IndexOf(content, BOUNDARY_START + EOL).value, IndexOf(content, BOUNDARY_END + EOL).value;
    var c := ReadConfig(content[start + 1..end]);
    ReadConfigDistinct(content[start + 1..end]);
    PutSetsInPlace(c, s);
    assert Split(content) == Ok(Parts(content[..start + 1], content[start + 1..end], content[end..]));
    assert Edited(content, s).value == content[..start + 1] + Lines(Put(c, s)) + content[end..];
  }

  class AgentLib {
    var content: seq<string>

    constructor (content: seq<string>)
      ensures this.content == content
    {
      this.content := content;
    }

    /** Enables or disables a flag in the header; without markers it stays as it is. */
    method SetFlag(flag: Flag, active: bool) returns (ok: bool)
      modifies this
      ensures ok == Edited(old(content), Setting(flag, active)).Ok?
      ensures content == if ok then Edited(old(content), Setting(flag, active)).value else old(content)
      ensures WellMarked(old(content)) ==> ok && RewrittenInPlace(old(content), Setting(flag, active), content)
    {
      hide RewrittenInPlace, WellMarked, ReadConfig;
      if WellMarked(content) {
        EditedInPlace(content, Setting(flag, active));
      }
      var split := Split(content);
      if split.Failed? {
        return false;
      }
      var config := GetCurrentConfig(split.value.config);
      config := Put(config, Setting(flag, active));
      var lines := CreateConfigLines(config);
      content := split.value.head + lines + split.value.tail;
      return true;
    }
  }

  /** The first end marker comes after the first start marker. */
  predicate WellMarked(content: seq<string>) {
    var start, end := IndexOf(content, BOUNDARY_START + EOL), IndexOf(content, BOUNDARY_END + EOL);
    start.Some? && end.Some? && start.value < end.value
  }

  lemma {:induction false} FirstIndex(lines: seq<string>, x: string, i: nat)
    requires i < |lines| && lines[i] == x && x !in lines[..i]
    ensures IndexOf(lines, x) == Some(i)
  {
    if i > 0 {
      assert lines[..i] == [lines[0]] + lines[1..][..i - 1];
      FirstIndex(lines[1..], x, i - 1);
    }
  }

  /** Configuration lines are never taken for marker lines. */
  lemma ConfigLinesAreNotMarkers(c: Config)
    ensures BOUNDARY_START + EOL !in Lines(c) && BOUNDARY_END + EOL !in Lines(c)
  {
    forall i | 0 <= i < |c|
      ensures Lines(c)[i] != BOUNDARY_START + EOL && Lines(c)[i] != BOUNDARY_END + EOL
    {
      assert Lines(c)[i][1] == Prefix(c[i].active)[1];
      assert (BOUNDARY_START + EOL)[1] == '*' && (BOUNDARY_END + EOL)[1] == '*';
    }
  }

  /** New configuration lines between the old head and tail split off again. */
  lemma SplitAgain(content: seq<string>, c: Config)
    requires WellMarked(content)
    ensures Split(content).Ok?
    ensures var parts := Split(content).value;
      Split(parts.head + Lines(c) + parts.tail) == Ok(Parts(parts.head, Lines(c), parts.tail))
    ensures var parts := Split(content).value; WellMarked(parts.head + Lines(c) + parts.tail)
  {
    hide Lines;
    var parts := Split(content).value;
    var startLine, endLine := BOUNDARY_START + EOL, BOUNDARY_END + EOL;
    var start, end := IndexOf(content, startLine).value, IndexOf(content, endLine).value;
    var lines := Lines(c);
    var again, at := parts.head + lines + parts.tail, |parts.head| + |lines|;
    ConfigLinesAreNotMarkers(c);
    assert again[..start] == content[..start];
    FirstIndex(again, startLine, start);
    assert forall l | l in parts.head :: l in content[..end];
    assert again[..at] == parts.head + lines;
    FirstIndex(again, endLine, at);
    assert again[..start + 1] == parts.head && again[start + 1..at] == lines && again[at..] == parts.tail;
  }

  /** Setting a flag in a well-marked header keeps what is around the configuration,
      changes that flag only, and changes nothing the second time. */
  lemma EditRoundTrip(content: seq<string>, s: Setting)
    requires WellMarked(content)
    ensures Split(content).Ok? && Edited(content, s).Ok?
    ensures
      var parts, edited := Split(content).value, Edited(content, s).value;
      && Split(edited).Ok?
      && Split(edited).value.head == parts.head && Split(edited).value.tail == parts.tail
      && (forall flag :: Get(ReadConfig(Split(edited).value.config), flag) ==
            if flag == s.flag then Some(s.active) else Get(ReadConfig(parts.config), flag))
      && Edited(edited, s) == Ok(edited)
  {
    hide Split, ReadConfig, Lines, Put, Get, DistinctFlags, WellMarked;
    SplitsIfWellMarked(content);
    var parts := Split(content).value;
    var c := ReadConfig(parts.config);
    ReadConfigDistinct(parts.config);
    PutDistinct(c, s);
    SplitAgain(content, Put(c, s));
    ConfigRoundTrip(Put(c, s));
    PutTwice(c, s);
    forall flag
      ensures Get(Put(c, s), flag) == if flag == s.flag then Some(s.active) else Get(c, flag)
    {
      GetPut(c, s, flag);
    }
  }

  lemma SplitsIfWellMarked(content: seq<string>)
    requires WellMarked(content)
    ensures Split(content).Ok?
  {
    hide IndexOf;
  }

  // The end marker before the start marker.

  /** A header with both markers that is not well marked. */
  predicate WronglyMarked(content: seq<string>) {
    IndexOf(content, BOUNDARY_START + EOL).Some? && IndexOf(content, BOUNDARY_END + EOL).Some? && !WellMarked(content)
  }

  lemma MarkersDiffer()
    ensures BOUNDARY_START + EOL != BOUNDARY_END + EOL
  {
    var k := |"/** KAFL HARNESS CONFIGURATION "|;
    assert (BOUNDARY_START + EOL)[k] == 'S' && (BOUNDARY_END + EOL)[k] == 'E';
  }

  /** No line lies between the markers, so all settings but the new one are forgotten. */
  lemma EditedAt(content: seq<string>, s: Setting, start: nat, end: nat)
    requires IndexOf(content, BOUNDARY_START + EOL) == Some(start) && IndexOf(content, BOUNDARY_END + EOL) == Some(end)
    requires end <= start
    ensures Split(content) == Ok(Parts(content[..start + 1], [], content[end..]))
    ensures Edited(content, s) == Ok(content[..start + 1] + [LineOf(s)] + content[end..])
  {
    hide IndexOf, LineOf;
    assert Lines(Put(ReadConfig([]), s)) == [LineOf(s)];
  }

  lemma WrongOrder(content: seq<string>) returns (start: nat, end: nat)
    requires WronglyMarked(content)
    ensures IndexOf(content, BOUNDARY_START + EOL) == Some(start) && IndexOf(content, BOUNDARY_END + EOL) == Some(end)
    ensures end < start
  {
    start, end := IndexOf(content, BOUNDARY_START + EOL).value, IndexOf(content, BOUNDARY_END + EOL).value;
    MarkersDiffer();
  }

  /** An edit of a wrongly marked header forgets all settings but the new one and
      writes the lines from the end marker to the start marker twice. */
  lemma WronglyMarkedEdit(content: seq<string>, s: Setting) returns (before: seq<string>, between: seq<string>, after: seq<string>)
    requires WronglyMarked(content)
    ensures content == before + between + after
    ensures |between| >= 2 && between[0] == BOUNDARY_END + EOL && between[|between| - 1] == BOUNDARY_START + EOL
    ensures Edited(content, s) == Ok(before + between + [LineOf(s)] + between + after)
  {
    hide IndexOf, LineOf, WronglyMarked, Edited, Split;
    var start, end := WrongOrder(content);
    EditedAt(content, s, start, end);
    before, between, after := content[..end], content[end..start + 1], content[start + 1..];
    assert content[..start + 1] == before + between && content[end..] == between + after;
    assert before + between + [LineOf(s)] + (between + after) == before + between + [LineOf(s)] + between + after;
  }

  /** So splitting the edited header again finds a longer tail. */
  lemma WronglyMarkedTailGrows(content: seq<string>, s: Setting)
    requires WronglyMarked(content)
    ensures Split(content).Ok? && Edited(content, s).Ok?
    ensures var again := Split(Edited(content, s).value);
      again.Ok? ==> |again.value.tail| > |Split(content).value.tail|
  {
    hide IndexOf, LineOf, WronglyMarked, Edited;
    var start, end := WrongOrder(content);
    EditedAt(content, s, start, end);
    var edited := Edited(content, s).value;
    assert edited[..end] == content[..end] && edited[end] == content[end];
    FirstIndex(edited, BOUNDARY_END + EOL, end);
  }

  /** The shortest such header: every edit writes both markers once more. */
  lemma SwappedMarkers(s: Setting, s': Setting)
    ensures
      var swapped := [BOUNDARY_END + EOL, BOUNDARY_START + EOL];
      var once := swapped + [LineOf(s)] + swapped;
      && Split(swapped).Ok? && Split(swapped).value.tail == swapped && Edited(swapped, s) == Ok(once)
      && Split(once).Ok? && Split(once).value.tail == once && Edited(once, s') == Ok(swapped + [LineOf(s')] + once)
  {
    hide IndexOf, LineOf, Edited, Split;
    var swapped := [BOUNDARY_END + EOL, BOUNDARY_START + EOL];
    var once := swapped + [LineOf(s)] + swapped;
    SwappedAt(swapped, s);
    SwappedAt(once, s');
    assert swapped[..2] == swapped && swapped[0..] == swapped;
    assert once[..2] == swapped && once[0..] == once;
  }

  lemma SwappedAt(content: seq<string>, s: Setting)
    requires |content| >= 2 && content[0] == BOUNDARY_END + EOL && content[1] == BOUNDARY_START + EOL
    ensures Split(content) == Ok(Parts(content[..2], [], content[0..]))
    ensures Edited(content, s) == Ok(content[..2] + [LineOf(s)] + content[0..])
  {
    hide IndexOf, LineOf, Edited, Split;
    MarkersDiffer();
    assert content[..1] == [content[0]];
    FirstIndex(content, BOUNDARY_END + EOL, 0);
    FirstIndex(content, BOUNDARY_START + EOL, 1);
    EditedAt(content, s, 1, 0);
  }

  /** A header with both markers keeps its head and tail through an edit exactly when
      it is well marked. */
  lemma EditKeepsPartsIffWellMarked(content: seq<string>, s: Setting)
    requires Split(content).Ok?
    ensures
      var parts, again := Split(content).value, Split(Edited(content, s).value);
      (again.Ok? && again.value.head == parts.head && again.value.tail == parts.tail) <==> WellMarked(content)
  {
    if WellMarked(content) {
      EditRoundTrip(content, s);
    } else {
      WronglyMarkedTailGrows(content, s);
    }
  }
}
