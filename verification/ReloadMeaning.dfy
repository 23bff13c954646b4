/** What reading and reloading a file does to each of its options: an option is set
    by the lines that name it, in their order, and by nothing else; and what the
    lines of a text can look like. */
module ReloadMeaning {
  import opened Wrappers
  import opened OptionValue
  import opened OptionLaws
  import opened ConfigText
  import opened SaveReload

  // ----- one option

  /** All texts set one after the other; those that are refused change nothing. */
  function SetAll(o: Spec, s: State, values: seq<Option<string>>): State
    requires WellFormed(o)
    decreases values
  {
    if values == [] then s else SetAll(o, Set(o, s, values[0]).0, values[1..])
  }

  /** A line sets its text and changes nothing else of an option, and a reload does
      not reset it: not even if the text is refused. */
  lemma LineSets(e: Entry, value: Option<string>)
    requires Sound(e.spec, e.state)
    ensures var r := Settled(Load(e, value));
      r.name == e.name && r.spec == e.spec && r.state == Set(e.spec, e.state, value).0
  {
  }

  /** An integer from 0 to 10 with the value 7 and the default 5 keeps the 7 if the
      file has 99. */
  lemma RefusedValueStays(e: Entry)
    requires e.spec.kind.Integer? && e.spec.min == 0 && e.spec.max == 10
    requires e.state == State(Some(Num(7)), Some(Num(5)))
    ensures Settled(Load(e, Some("99"))).state.value == Some(Num(7))
  {
    var digits := "99";
    assert digits[..1] == "9" && "9"[..0] == "";
    assert OptionValue.ParseInt("99") == Some(99);
  }

  // ----- the lines that name an option

  /** The version in a file that can be read: a number from 1 on, not above the
      present one. */
  predicate VersionFits(right: Option<string>, version: int) {
    && right.Some? && ParseInt(right.value).Some?
    && 1 <= ParseInt(right.value).value <= version
  }

  /** A line that ends the reading: a version that does not fit, before any section. */
  predicate Stops(f: File, section: Position, line: Line) {
    section.None? && line.OptionText? && line.name == VERSION_OPTION && !VersionFits(line.right, f.version)
  }

  /** The text that a line has for option j of section i, if it names it. */
  function TextsOf(f: File, section: Position, line: Line, i: nat, j: nat): seq<Option<string>>
    requires i < |f.sections| && j < |f.sections[i].options|
  {
    if line.OptionText? && IsNamed(f, section, line.name, i, j) then [RightText(line.right)] else []
  }

  /** The texts for option j of section i in the lines of a file; section is the one
      that they start in. */
  function TextsFor(f: File, section: Position, text: string, i: nat, j: nat): seq<Option<string>>
    requires i < |f.sections| && j < |f.sections[i].options|
    decreases |text|
  {
    if text == "" then []
    else
      var n := ChunkLength(text, MAX_CHUNK);
      var line := ParseLine(text[..n]);
      if Stops(f, section, line) then []
      else
        var next := if line.SectionHeader? then IndexOfSection(f.sections, line.name) else section;
        TextsOf(f, section, line, i, j) + TextsFor(f, next, text[n..], i, j)
  }

  /** The name, in a section, is that of option j of section i. */
  predicate IsNamed(f: File, section: Position, name: string, i: nat, j: nat)
    requires i < |f.sections| && j < |f.sections[i].options|
  {
    section == Some(i) && name != "" && IndexOfOption(f.sections[i].options, name) == Some(j)
  }

  // ----- reading does just that

  /** The same sections and options, whatever their values. */
  ghost predicate SameShape(f: File, g: File) {
    f.name == g.name && f.version == g.version && SameSections(f.sections, g.sections)
  }

  lemma {:induction false} SameSectionIndex(a: seq<Section>, b: seq<Section>, name: string)
    requires SameSections(a, b)
    ensures IndexOfSection(a, name) == IndexOfSection(b, name)
  {
    if a != [] {
      SameSectionIndex(a[1..], b[1..], name);
    }
  }

  lemma {:induction false} SameOptionIndex(a: seq<Entry>, b: seq<Entry>, name: string)
    requires SameOptions(a, b)
    ensures IndexOfOption(a, name) == IndexOfOption(b, name)
  {
    if a != [] {
      SameOptionIndex(a[1..], b[1..], name);
    }
  }

  function Loads(e: Entry, values: seq<Option<string>>): Entry
    requires WellFormed(e.spec)
  {
    Entry(e.name, e.spec, SetAll(e.spec, e.state, values), e.loaded || values != [])
  }

  lemma LoadsMore(e: Entry, value: Option<string>, values: seq<Option<string>>)
    requires WellFormed(e.spec)
    ensures Loads(Loads(e, [value]), values) == Loads(e, [value] + values)
  {
    assert ([value] + values)[1..] == values && [value][1..] == [];
    assert SetAll(e.spec, Set(e.spec, e.state, value).0, []) == Set(e.spec, e.state, value).0;
  }

  lemma LoadsFew(e: Entry, value: Option<string>)
    requires WellFormed(e.spec)
    ensures Loads(e, []) == e && Loads(e, [value]) == Load(e, value)
  {
    var values := [value];
    assert values[1..] == [];
    assert SetAll(e.spec, Set(e.spec, e.state, value).0, []) == Set(e.spec, e.state, value).0;
    assert SetAll(e.spec, e.state, values) == SetAll(e.spec, Set(e.spec, e.state, value).0, values[1..]);
  }

  /** What one line does to a list of options. */
  lemma ListLoads(options: seq<Entry>, name: string, value: Option<string>, j: nat)
    requires forall k :: 0 <= k < |options| ==> WellFormed(options[k].spec)
    requires j < |options|
    ensures LoadIn(options, name, value)[j]
         == Loads(options[j], if IndexOfOption(options, name) == Some(j) then [value] else [])
  {
    LoadsFew(options[j], value);
  }

  /** The file with new options in one section. */
  function WithList(f: File, k: nat, options: seq<Entry>): File
    requires k < |f.sections|
  {
    f.(sections := f.sections[k := f.sections[k].(options := options)])
  }

  lemma ListKeepsShape(f: File, g: File, k: nat, options: seq<Entry>)
    requires SameShape(f, g) && k < |g.sections| && SameOptions(g.sections[k].options, options)
    ensures SameShape(f, WithList(g, k, options))
  {
  }

  /** What one line does to option j of section i. */
  lemma LineLoads(f: File, r: Read, name: string, right: Option<string>, i: nat, j: nat)
    requires Readable(r) && SameShape(f, r.file) && r.section.Some? && name != ""
    requires i < |f.sections| && j < |f.sections[i].options|
    ensures var k := r.section.value;
      var g := WithList(r.file, k, LoadIn(r.file.sections[k].options, name, RightText(right)));
      && SameShape(f, g) && WellFormed(r.file.sections[i].options[j].spec)
      && g.sections[i].options[j]
         == Loads(r.file.sections[i].options[j], if IsNamed(f, r.section, name, i, j) then [RightText(right)] else [])
  {
    var k := r.section.value;
    var options := r.file.sections[k].options;
    SameOptionIndex(f.sections[k].options, options, name);
    ListKeepsShape(f, r.file, k, LoadIn(options, name, RightText(right)));
    if k == i {
      ListLoads(options, name, RightText(right), j);
    } else {
      LoadsFew(r.file.sections[i].options[j], None);
    }
  }

  /** Reading one line of text. */
  lemma ChunkLoads(f: File, r: Read, chunk: string, i: nat, j: nat)
    requires Readable(r) && SameShape(f, r.file) && r.go
    requires i < |f.sections| && j < |f.sections[i].options|
    ensures var r' := ReadLine(r, chunk);
      && SameShape(f, r'.file) && WellFormed(r.file.sections[i].options[j].spec)
      && r'.section == (match ParseLine(chunk)
                        case SectionHeader(name) => IndexOfSection(f.sections, name)
                        case _ => r.section)
      && r'.go == !Stops(f, r.section, ParseLine(chunk))
      && r'.file.sections[i].options[j]
         == Loads(r.file.sections[i].options[j], TextsOf(f, r.section, ParseLine(chunk), i, j))
  {
    var e := r.file.sections[i].options[j];
    LoadsFew(e, None);
    match ParseLine(chunk) {
      case Ignored =>
      case SectionHeader(name) => SameSectionIndex(f.sections, r.file.sections, name);
      case OptionText(name, right) =>
        if r.section.Some? && name != "" {
          LineLoads(f, r, name, right, i, j);
        }
    }
  }

  /** Reading is: option j of section i is set by the lines that name it. */
  lemma {:induction false} TextLoads(f: File, r: Read, text: string, i: nat, j: nat)
    requires Readable(r) && SameShape(f, r.file) && r.go
    requires i < |f.sections| && j < |f.sections[i].options|
    ensures var r' := ReadText(r, text);
      && SameShape(f, r'.file) && WellFormed(r.file.sections[i].options[j].spec)
      && r'.file.sections[i].options[j]
         == Loads(r.file.sections[i].options[j], TextsFor(f, r.section, text, i, j))
    decreases |text|
  {
    var e := r.file.sections[i].options[j];
    LoadsFew(e, None);
    if text != "" {
      var n := ChunkLength(text, MAX_CHUNK);
      var r1 := ReadLine(r, text[..n]);
      ChunkLoads(f, r, text[..n], i, j);
      if r1.go {
        TextLoads(f, r1, text[n..], i, j);
        Behind(e, TextsOf(f, r.section, ParseLine(text[..n]), i, j), TextsFor(f, r1.section, text[n..], i, j));
      }
    }
  }

  lemma Behind(e: Entry, some: seq<Option<string>>, more: seq<Option<string>>)
    requires WellFormed(e.spec) && |some| <= 1
    ensures Loads(Loads(e, some), more) == Loads(e, some + more)
  {
    if some == [] {
      LoadsFew(e, None);
      assert some + more == more;
    } else {
      assert some == [some[0]];
      LoadsMore(e, some[0], more);
    }
  }

  lemma StartsUnloaded(f: File)
    requires WellFormedFile(f)
    ensures var start := MapFile(Unloaded, f);
      && WellFormedFile(start) && SameShape(f, start)
      && forall i, j :: 0 <= i < |f.sections| && 0 <= j < |f.sections[i].options| ==>
           start.sections[i].options[j] == Unloaded(f.sections[i].options[j])
  {
  }

  lemma EndsSettled(f: File, g: File)
    requires SameShape(f, g)
    ensures var end := MapFile(Settled, g);
      && SameShape(f, end)
      && forall i, j :: 0 <= i < |f.sections| && 0 <= j < |f.sections[i].options| ==>
           end.sections[i].options[j] == Settled(g.sections[i].options[j])
  {
  }

  /** An option without a line has its default, another what its lines set. */
  lemma SettledLoads(e: Entry, texts: seq<Option<string>>)
    requires Sound(e.spec, e.state)
    ensures var r := Settled(Loads(Unloaded(e), texts));
      && r.loaded == (texts != [])
      && r.state == if texts == [] then State(e.state.default, e.state.default) else SetAll(e.spec, e.state, texts)
  {
  }

  /** A reload: an option that no line names has its default, and any other has what
      those lines set, one after the other. The texts that are refused change
      nothing, but an option with such a line only is not reset. */
  lemma ReloadedExactly(f: File, text: string, i: nat, j: nat)
    requires WellFormedFile(f) && SoundSections(f.sections)
    requires i < |f.sections| && j < |f.sections[i].options|
    ensures var e, r, texts := f.sections[i].options[j], Reloaded(f, text), TextsFor(f, None, text, i, j);
      && SameShape(f, r)
      && r.sections[i].options[j].loaded == (texts != [])
      && r.sections[i].options[j].state
         == if texts == [] then State(e.state.default, e.state.default) else SetAll(e.spec, e.state, texts)
  {
    StartsUnloaded(f);
    var start := MapFile(Unloaded, f);
    TextLoads(f, Read(start, None, true), text, i, j);
    EndsSettled(f, ReadText(Read(start, None, true), text).file);
    SettledLoads(f.sections[i].options[j], TextsFor(f, None, text, i, j));
  }

  // ----- what follows

  /** Texts that are all refused change nothing. */
  lemma {:induction false} AllRefused(o: Spec, s: State, texts: seq<Option<string>>)
    requires WellFormed(o) && forall t :: t in texts ==> Set(o, s, t).1 == Error
    ensures SetAll(o, s, texts) == s
    decreases texts
  {
    if texts != [] {
      assert texts[0] in texts;
      assert Set(o, s, texts[0]).0 == s;
      AllRefused(o, s, texts[1..]);
    }
  }

  /** The last text decides, unless it is a step, a toggle, or refused. */
  lemma {:induction false} LastDecides(o: Spec, s: State, texts: seq<Option<string>>, t: Option<string>)
    requires Sound(o, s) && o.check(t)
    requires match t
      case None => o.nullAllowed
      case Some(x) => !IsStep(o, x) && Parsed(o, None, x).Some?
    ensures SetAll(o, s, texts + [t]).value == match t case None => None case Some(x) => Parsed(o, None, x)
    decreases texts
  {
    if texts == [] {
      assert texts + [t] == [t];
      assert SetAll(o, Set(o, s, t).0, []) == Set(o, s, t).0;
    } else {
      assert (texts + [t])[1..] == texts[1..] + [t];
      DoKeepsSound(o, s, OpSet(texts[0]));
      LastDecides(o, Set(o, s, texts[0]).0, texts[1..], t);
    }
  }

  /** So an option all of whose lines are refused keeps its value, and its default. */
  lemma RefusedLinesKeep(f: File, text: string, i: nat, j: nat)
    requires WellFormedFile(f) && SoundSections(f.sections)
    requires i < |f.sections| && j < |f.sections[i].options|
    requires var e, texts := f.sections[i].options[j], TextsFor(f, None, text, i, j);
      texts != [] && forall t :: t in texts ==> Set(e.spec, e.state, t).1 == Error
    ensures var r := Reloaded(f, text);
      SameShape(f, r) && r.sections[i].options[j].state == f.sections[i].options[j].state
  {
    var e := f.sections[i].options[j];
    ReloadedExactly(f, text, i, j);
    AllRefused(e.spec, e.state, TextsFor(f, None, text, i, j));
  }

  // ----- the version

  lemma FirstLine(line: string, rest: string)
    requires OneLine(line) && |line| < MAX_CHUNK
    ensures var text := line + "\n" + rest;
      && text[..ChunkLength(text, MAX_CHUNK)] == line + "\n"
      && text[ChunkLength(text, MAX_CHUNK)..] == rest
  {
    ChunkIsLine(line, rest, MAX_CHUNK);
    var text := line + "\n" + rest;
    assert text[..|line| + 1] == line + "\n" && text[|line| + 1..] == rest;
  }

  lemma VersionLine(n: int)
    requires INT_MIN <= n <= INT_MAX
    ensures var line := "config_version = " + IntText(n);
      OneLine(line) && |line| < MAX_CHUNK && ParseLine(line + "\n") == OptionText("config_version", Some(IntText(n)))
  {
    IntTextPlain(n);
    IntTextParsed(n);
    VersionName();
    ValueLineRead(VERSION_OPTION, IntText(n));
    IntTextLength(n);
    assert Escape(VERSION_OPTION) + VERSION_OPTION + (" = " + IntText(n)) == "config_version = " + IntText(n);
  }

  /** A file of a newer version, or of a version below 1, is not read; one of the
      same or an older version is. */
  lemma VersionDecides(f: File, n: int, rest: string, i: nat, j: nat)
    requires i < |f.sections| && j < |f.sections[i].options| && INT_MIN <= n <= INT_MAX
    ensures TextsFor(f, None, "config_version = " + IntText(n) + "\n" + rest, i, j)
         == if 1 <= n <= f.version then TextsFor(f, None, rest, i, j) else []
  {
    VersionLine(n);
    FirstLine("config_version = " + IntText(n), rest);
    IntTextParsed(n);
    VersionStops(f, IntText(n), n);
  }

  lemma VersionStops(f: File, t: string, n: int)
    requires ParseInt(t) == Some(n)
    ensures Stops(f, None, OptionText("config_version", Some(t))) <==> !(1 <= n <= f.version)
  {
  }

  // ----- lines that a user may write

  function Blanks(n: nat): string {
    if n == 0 then "" else " " + Blanks(n - 1)
  }

  lemma {:induction false} BlanksSkipped(n: nat, s: string)
    ensures SkipSpaces(Blanks(n) + s) == SkipSpaces(s)
  {
    if n == 0 {
      assert Blanks(0) + s == s;
    } else {
      assert (Blanks(n) + s)[1..] == Blanks(n - 1) + s;
      BlanksSkipped(n - 1, s);
    }
  }

  lemma LastBlank(s: string, b: string)
    ensures var t := s + (b + " "); |t| > 0 && t[|t| - 1] == ' ' && t[..|t| - 1] == s + b
    ensures |s + (b + " ")| == |s| + |b| + 1
  {
  }

  lemma {:induction false} BlanksTrimmed(s: string, n: nat)
    requires s != "" && s[|s| - 1] != ' '
    ensures TrimEnd(s + Blanks(n)) == s
  {
    if n == 0 {
      assert s + Blanks(0) == s;
    } else {
      BlanksBack(n - 1);
      LastBlank(s, Blanks(n - 1));
      BlanksTrimmed(s, n - 1);
    }
  }

  lemma {:induction false} BlanksBack(n: nat)
    ensures Blanks(n + 1) == Blanks(n) + " "
  {
    if n > 0 {
      BlanksBack(n - 1);
      assert " " + (Blanks(n - 1) + " ") == " " + Blanks(n - 1) + " ";
    }
  }

  /** Spaces before a line make no difference. */
  lemma IndentedLine(n: nat, line: string)
    ensures ParseLine(Blanks(n) + line) == ParseLine(line)
  {
    BlanksSkipped(n, line);
  }

  /** A line is read at once if it has at most 16382 characters, its newline included,
      and otherwise in pieces of that length. */
  lemma PieceOfLine(line: string, rest: string)
    requires OneLine(line)
    ensures ChunkLength(line + "\n" + rest, MAX_CHUNK) == if |line| < 16382 then |line| + 1 else 16382
  {
    if |line| < 16382 {
      ChunkIsLine(line, rest, MAX_CHUNK);
    } else {
      FullChunk(line[..16382], line[16382..] + "\n" + rest);
      assert line[..16382] + (line[16382..] + "\n" + rest) == line + "\n" + rest;
    }
  }

  /** Nothing behind a carriage return counts. */
  lemma CarriageReturn(line: string, rest: string)
    requires OneLine(line) && (line != "" ==> line[0] != ' ')
    ensures ParseLine(line + "\r" + rest) == ParseLine(line)
  {
    var s := line + "\r" + rest;
    assert SkipSpaces(s) == s && SkipSpaces(line) == line;
    CutBefore(line, '\r', rest);
    assert line + ['\r'] + rest == s;
    CutNowhere(line, '\r');
    CutNowhere(line, '\n');
  }

  lemma WholeLine(line: string)
    requires OneLine(line) && (line != "" ==> line[0] != ' ')
    ensures Stripped(line) == line
  {
    CutNowhere(line, '\r');
    CutNowhere(line, '\n');
  }

  lemma NothingToRead(comment: string)
    requires OneLine(comment)
    ensures ParseLine("") == Ignored && ParseLine("#" + comment) == Ignored
  {
    WholeLine("");
    WholeLine("#" + comment);
  }

  /** A section: what stands before the first bracket that closes; without such a
      bracket the line is ignored. */
  lemma SectionLine(name: string, behind: string)
    requires OneLine(name + behind) && '=' !in name + behind && ']' !in name
    ensures ParseLine("[" + name + "]" + behind) == SectionHeader(name)
    ensures ParseLine("[" + name) == Ignored
  {
    var line := "[" + name + "]" + behind;
    assert forall c :: c in line ==> c == '[' || c == ']' || c in name + behind;
    WholeLine(line);
    assert line[1..] == name + [']'] + behind;
    CutBefore(name, ']', behind);
    assert line[|name| + 1] == ']';
    OpenSection(name, behind);
  }

  lemma OpenSection(name: string, behind: string)
    requires OneLine(name + behind) && '=' !in name + behind && ']' !in name
    ensures ParseLine("[" + name) == Ignored
  {
    var line := "[" + name;
    assert forall c :: c in name ==> c in name + behind;
    assert forall c :: c in line ==> c == '[' || c in name;
    WholeLine(line);
  }

  /** Behind a backslash, and in brackets with an equals sign, everything is an option. */
  lemma AlwaysOption(t: string)
    requires OneLine(t)
    ensures ParseLine("\\" + t) == ParseOption(t)
    ensures '=' in t ==> ParseLine("[" + t) == ParseOption("[" + t)
  {
    var line := "\\" + t;
    WholeLine(line);
    assert line[1..] == t;
    WholeLine("[" + t);
    assert '=' in t ==> '=' in "[" + t by {
      assert forall c :: c in t ==> c in "[" + t;
    }
  }

  lemma ParsedAt(a: string, b: string, name: string, right: string)
    requires FindEquals(a + " =" + b) == Some(|a|) && TrimEnd(a) == name && SkipSpaces(b) == right
    ensures ParseOption(a + " =" + b) == OptionText(name, Some(right))
  {
    var t := a + " =" + b;
    assert t[..|a|] == a && t[|a| + 2..] == b;
  }

  lemma LeftOfEquals(name: string, n: nat, b: string)
    requires GoodName(name)
    ensures var a := name + Blanks(n); FindEquals(a + " =" + b) == Some(|a|) && TrimEnd(a) == name
  {
    EqualsFound(name, n, b);
    BlanksTrimmed(name, n);
  }

  lemma RightOfEquals(m: nat, right: string)
    requires right != "" ==> right[0] != ' '
    ensures SkipSpaces(Blanks(m) + right) == right
  {
    BlanksSkipped(m, right);
    SkipNothing(right);
  }

  /** An option: spaces around the equals sign do not count. */
  lemma OptionForms(name: string, n: nat, m: nat, right: string)
    requires GoodName(name) && (right != "" ==> right[0] != ' ')
    ensures ParseOption(name + Blanks(n) + " =" + (Blanks(m) + right)) == OptionText(name, Some(right))
  {
    var a, b := name + Blanks(n), Blanks(m) + right;
    LeftOfEquals(name, n, b);
    RightOfEquals(m, right);
    ParsedAt(a, b, name, right);
  }

  /** The first " =" stands behind the spaces. */
  lemma EqualsFound(name: string, n: nat, rest: string)
    requires GoodName(name)
    ensures FindEquals(name + Blanks(n) + " =" + rest) == Some(|name| + |Blanks(n)|)
  {
    BehindName(name, Blanks(n) + " =" + rest);
    BehindBlanks(n, rest);
    assert name + Blanks(n) + " =" + rest == name + (Blanks(n) + " =" + rest);
  }

  lemma {:induction false} BehindBlanks(n: nat, rest: string)
    ensures var t := Blanks(n) + " =" + rest; t[0] == ' ' && FindEquals(t) == Some(|Blanks(n)|)
  {
    var t := Blanks(n) + " =" + rest;
    if n > 0 {
      BehindBlanks(n - 1, rest);
      assert t[1..] == Blanks(n - 1) + " =" + rest;
      assert t[0] == ' ' && t[1] == ' ';
    }
  }

  lemma {:induction false} BehindName(name: string, rest: string)
    requires NoEquals(name) && (name != "" ==> name[|name| - 1] != ' ')
    ensures FindEquals(name + rest) == match FindEquals(rest) case Some(i) => Some(|name| + i) case None => None
  {
    var t := name + rest;
    if name == "" {
      assert t == rest;
    } else {
      assert t[1..] == name[1..] + rest && t[0] == name[0];
      assert |name| > 1 ==> t[1] == name[1] && !(name[0] == ' ' && name[0 + 1] == '=');
      NoEqualsBehind(name);
      BehindName(name[1..], rest);
    }
  }

  lemma NoEqualsBehind(s: string)
    requires NoEquals(s) && s != ""
    ensures NoEquals(s[1..])
  {
    forall i | 0 <= i && i + 1 < |s[1..]| ensures !(s[1..][i] == ' ' && s[1..][i + 1] == '=') {
      assert !(s[i + 1] == ' ' && s[(i + 1) + 1] == '=');
    }
  }

  /** A value between quotes of one kind; spaces behind it do not count. */
  lemma QuotedValue(q: char, s: string, n: nat)
    requires q == '\'' || q == '"'
    ensures ReadValue([q] + s + [q] + Blanks(n)) == Some(s)
  {
    var r := [q] + s + [q];
    BlanksTrimmed(r, n);
    assert r[1..|r| - 1] == s && r[0] == q && r[|r| - 1] == q;
    assert (r + Blanks(n))[0] == q && "null"[0] == 'n';
  }

  /** A value without quotes. */
  lemma PlainValue(s: string, n: nat)
    requires |s| > 1 && s[|s| - 1] != ' ' && s != "null"
    requires !(s[0] == s[|s| - 1] && s[0] in "'\"")
    ensures ReadValue(s + Blanks(n)) == Some(s)
  {
    BlanksTrimmed(s, n);
    assert '\'' in "'\"" && '"' in "'\"" by {
      assert "'\""[0] == '\'' && "'\""[1] == '"';
    }
  }

  lemma ShortValues(c: char)
    ensures ReadValue("null") == None && ReadValue("") == Some("") && ReadValue([c]) == Some([c])
    ensures ReadValue("\"null\"") == Some("null")
  {
    QuotedValue('"', "null", 0);
    assert ['"'] + "null" + ['"'] + Blanks(0) == "\"null\"";
  }
}
