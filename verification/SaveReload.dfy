/** Saving a configuration file and reloading it restores every saved value. */
module SaveReload {
  import opened Wrappers
  import opened Digits
  import opened OptionValue
  import opened OptionLaws
  import opened ConfigText

  // ----- what a file can hold

  predicate OneLine(s: string) {
    '\r' !in s && '\n' !in s
  }

  predicate NoEquals(s: string) {
    forall i :: 0 <= i && i + 1 < |s| ==> !(s[i] == ' ' && s[i + 1] == '=')
  }

  predicate GoodName(s: string) {
    s != "" && s[0] != ' ' && s[|s| - 1] != ' ' && NoEquals(s) && OneLine(s)
  }

  predicate GoodSectionName(s: string) {
    ']' !in s && '=' !in s && OneLine(s)
  }

  /** Text that is read as itself when it is written without quotes. */
  predicate PlainText(s: string) {
    && s != "null" && OneLine(s)
    && (s != "" ==> s[0] != ' ' && s[|s| - 1] != ' ')
    && (|s| > 1 ==> !(IsQuote(s[0]) && s[0] == s[|s| - 1]))
  }

  /** A value that its text gives back, whatever the value was in between. */
  predicate GoodValue(o: Spec, v: Option<Value>) {
    && InRange(o, v)
    && match v
       case None => o.check(None)
       case Some(Text(s)) => OneLine(s) && o.check(Some(s))
       case Some(Num(n)) =>
         var t := Rendered(o, v);
         && o.check(Some(t))
         && (o.kind.Integer? ==> INT_MIN <= n <= INT_MAX)
         && (o.kind.Color? || o.kind.Enum? ==> PlainText(t) && !IsStep(o, t))
         && (o.kind.Color? ==> o.colors.assign(t) == Some(n))
         && (o.kind.Enum? ==> IndexFrom(o.strings, t, 0) == Some(n))
  }

  /** The buffer holds the line; its newline may have to wait for the next read. */
  predicate Short(line: string) {
    |line| <= MAX_CHUNK
  }

  predicate GoodEntry(e: Entry) {
    GoodName(e.name) && GoodValue(e.spec, e.state.value) && Short(OptionLine(e))
  }

  predicate UniqueOptions(options: seq<Entry>) {
    forall i, j :: 0 <= i < j < |options| ==> options[i].name != options[j].name
  }

  predicate UniqueSections(sections: seq<Section>) {
    forall i, j :: 0 <= i < j < |sections| ==> sections[i].name != sections[j].name
  }

  predicate GoodSection(s: Section) {
    && GoodSectionName(s.name) && Short("[" + s.name + "]")
    && UniqueOptions(s.options)
    && forall j :: 0 <= j < |s.options| ==> GoodEntry(s.options[j])
  }

  predicate GoodComments(comments: seq<string>) {
    forall i :: 0 <= i < |comments| ==> OneLine(comments[i]) && Short("#" + comments[i])
  }

  predicate GoodFile(f: File) {
    && 1 <= f.version <= INT_MAX
    && UniqueSections(f.sections)
    && forall i :: 0 <= i < |f.sections| ==> GoodSection(f.sections[i])
  }

  // ----- lines of text

  lemma {:induction false} CutNowhere(s: string, c: char)
    requires c !in s
    ensures CutAt(s, c) == s
  {
    if s != [] {
      CutNowhere(s[1..], c);
    }
  }

  lemma {:induction false} CutBefore(s: string, c: char, rest: string)
    requires c !in s
    ensures CutAt(s + [c] + rest, c) == s
  {
    if s == [] {
    } else {
      var t := s + [c] + rest;
      assert t[1..] == s[1..] + [c] + rest;
      CutBefore(s[1..], c, rest);
    }
  }

  lemma {:induction false} ChunkIsLine(line: string, rest: string, limit: nat)
    requires OneLine(line) && |line| + 1 <= limit
    ensures ChunkLength(line + "\n" + rest, limit) == |line| + 1
  {
    if line != [] {
      var t := line + "\n" + rest;
      assert t[1..] == line[1..] + "\n" + rest;
      ChunkIsLine(line[1..], rest, limit - 1);
    }
  }

  /** A line that starts with no space is what the reader gets to see of it. */
  lemma StrippedLine(line: string)
    requires OneLine(line) && (line != "" ==> line[0] != ' ')
    ensures Stripped(line + "\n") == line
  {
    var chunk := line + "\n";
    assert SkipSpaces(chunk) == chunk;
    CutNowhere(chunk, '\r');
    CutBefore(line, '\n', "");
    assert line + ['\n'] + "" == chunk;
  }

  lemma {:induction false} FindFirstEquals(s: string, rest: string)
    requires NoEquals(s) && (s != "" ==> s[|s| - 1] != ' ')
    ensures FindEquals(s + " =" + rest) == Some(|s|)
  {
    var t := s + " =" + rest;
    if s != [] {
      assert t[1..] == s[1..] + " =" + rest;
      assert t[0] == s[0] && (|s| > 1 ==> t[1] == s[1]);
      assert |s| == 1 ==> t[1] == ' ';
      assert NoEquals(s[1..]) by {
        forall i | 0 <= i && i + 1 < |s[1..]| ensures !(s[1..][i] == ' ' && s[1..][i + 1] == '=') {
          assert s[1..][i] == s[i + 1] && s[1..][i + 1] == s[i + 2];
          assert !(s[i + 1] == ' ' && s[(i + 1) + 1] == '=');
        }
      }
      FindFirstEquals(s[1..], rest);
    }
  }

  lemma {:induction false} FindNoEquals(s: string)
    requires NoEquals(s)
    ensures FindEquals(s) == None
  {
    if |s| >= 2 {
      assert !(s[0] == ' ' && s[0 + 1] == '=');
      assert NoEquals(s[1..]) by {
        forall i | 0 <= i && i + 1 < |s[1..]| ensures !(s[1..][i] == ' ' && s[1..][i + 1] == '=') {
          assert s[1..][i] == s[i + 1] && s[1..][i + 1] == s[i + 2];
          assert !(s[i + 1] == ' ' && s[(i + 1) + 1] == '=');
        }
      }
      FindNoEquals(s[1..]);
    }
  }

  lemma TrimNothing(s: string)
    requires s != "" ==> s[|s| - 1] != ' '
    ensures TrimEnd(s) == s
  {
  }

  lemma SkipNothing(s: string)
    requires s != "" ==> s[0] != ' '
    ensures SkipSpaces(s) == s && SkipSpaces(" " + s) == s
  {
    assert (" " + s)[1..] == s;
  }

  /** A name, " = " and a text that starts with no space. */
  lemma ParseAssignment(name: string, right: string)
    requires GoodName(name) && (right != "" ==> right[0] != ' ')
    ensures ParseOption(name + " = " + right) == OptionText(name, Some(right))
  {
    var t := name + " = " + right;
    assert t == name + " =" + (" " + right);
    FindFirstEquals(name, " " + right);
    assert t[..|name|] == name && t[|name| + 2..] == " " + right;
    TrimNothing(name);
    SkipNothing(right);
  }

  lemma ParseName(name: string)
    requires GoodName(name)
    ensures ParseOption(name) == OptionText(name, None)
  {
    FindNoEquals(name);
  }

  /** The escape character makes a line of any name an option line. */
  lemma ParseEscaped(name: string, tail: string)
    requires GoodName(name) && OneLine(tail)
    ensures ParseLine(Escape(name) + name + tail + "\n") == ParseOption(name + tail)
  {
    var line := Escape(name) + name + tail;
    StrippedLine(line);
    if Escape(name) == "" {
      assert line == name + tail;
      assert line[0] == name[0];
    } else {
      assert line == "\\" + (name + tail);
      assert line[0] == '\\' && line[1..] == name + tail;
    }
  }

  lemma QuotedRead(s: string)
    ensures ReadValue("\"" + s + "\"") == Some(s)
  {
    var r := "\"" + s + "\"";
    assert r[0] == '"' && r[|r| - 1] == '"';
    assert r[1..|r| - 1] == s;
    TrimNothing(r);
    assert r != "null" by {
      assert "null"[0] == 'n';
    }
  }

  lemma PlainRead(s: string)
    requires PlainText(s)
    ensures ReadValue(s) == Some(s)
  {
    TrimNothing(s);
  }

  // ----- one option

  /** The text that reading an option's line gives back. */
  function SavedText(o: Spec, v: Option<Value>): Option<string>
    requires GoodValue(o, v)
  {
    match v
    case None => None
    case Some(Text(s)) => Some(s)
    case Some(Num(n)) => Some(Rendered(o, v))
  }

  lemma IntTextPlain(n: int)
    requires INT_MIN <= n <= INT_MAX
    ensures PlainText(IntText(n)) && !StartsWith(IntText(n), "++") && !StartsWith(IntText(n), "--")
  {
    var t := IntText(n);
    IntTextParsed(n);
    assert forall c :: c in t ==> IsDigit(c) || c == '-';
    assert "null"[0] == 'n' && t[0] != 'n';
    assert "++"[1] == '+' && "--"[1] == '-';
    assert |t| >= 2 ==> t[..2][1] == t[1];
  }

  lemma NumberTextPlain(o: Spec, n: int)
    requires GoodValue(o, Some(Num(n)))
    ensures ValueText(o, Num(n)) == Rendered(o, Some(Num(n))) && PlainText(ValueText(o, Num(n)))
  {
    if o.kind.Integer? {
      IntTextPlain(n);
    }
  }

  function RightText(right: Option<string>): Option<string> {
    match right case Some(s) => ReadValue(s) case None => None
  }

  lemma NullLineRead(name: string)
    requires GoodName(name)
    ensures OneLine(Escape(name) + name)
    ensures ParseLine(Escape(name) + name + "\n") == OptionText(name, None)
  {
    ParseEscaped(name, "");
    ParseName(name);
    assert name + "" == name;
    assert Escape(name) + name + "" == Escape(name) + name;
  }

  lemma ValueLineRead(name: string, right: string)
    requires GoodName(name) && OneLine(right) && (right != "" ==> right[0] != ' ')
    ensures OneLine(Escape(name) + name + (" = " + right))
    ensures ParseLine(Escape(name) + name + (" = " + right) + "\n") == OptionText(name, Some(right))
  {
    ParseEscaped(name, " = " + right);
    ParseAssignment(name, right);
    assert name + (" = " + right) == name + " = " + right;
  }

  lemma ValueTextRead(o: Spec, v: Value)
    requires GoodValue(o, Some(v))
    ensures var right := ValueText(o, v);
      OneLine(right) && (right != "" ==> right[0] != ' ') && ReadValue(right) == SavedText(o, Some(v))
  {
    if v.Text? {
      QuotedRead(v.s);
    } else {
      NumberTextPlain(o, v.n);
      PlainRead(ValueText(o, v));
    }
  }

  /** The line of an option is read as its name and its saved text. */
  lemma OptionLineRead(e: Entry)
    requires GoodName(e.name) && GoodValue(e.spec, e.state.value)
    ensures OneLine(OptionLine(e))
    ensures var line := ParseLine(OptionLine(e) + "\n");
      && line.OptionText? && line.name == e.name
      && RightText(line.right) == SavedText(e.spec, e.state.value)
  {
    if e.state.value.None? {
      NullLineRead(e.name);
      assert OptionLine(e) == Escape(e.name) + e.name;
    } else {
      ValueTextRead(e.spec, e.state.value.value);
      ValueLineRead(e.name, ValueText(e.spec, e.state.value.value));
    }
  }

  /** Whatever the value is now, the saved text sets the saved value. */
  lemma LoadRestores(o: Spec, s: State, v: Option<Value>)
    requires GoodValue(o, v)
    ensures Set(o, s, SavedText(o, v)).0 == s.(value := v)
  {
    if v.Some? && o.kind.Integer? {
      IntTextPlain(v.value.n);
      IntTextParsed(v.value.n);
    }
  }

  // ----- lines in a row

  function ReadLines(r: Read, lines: seq<string>): (r': Read)
    requires Readable(r)
    ensures Readable(r')
    decreases lines
  {
    if lines == [] || !r.go then r else ReadLines(ReadLine(r, lines[0] + "\n"), lines[1..])
  }

  predicate GoodLines(lines: seq<string>) {
    forall i :: 0 <= i < |lines| ==> OneLine(lines[i]) && Short(lines[i])
  }

  lemma {:induction false} FullChunk(line: string, rest: string)
    requires OneLine(line)
    ensures ChunkLength(line + rest, |line|) == |line|
  {
    if line != [] {
      var t := line + rest;
      assert t[1..] == line[1..] + rest;
      FullChunk(line[1..], rest);
    }
  }

  lemma {:induction false} SkipBeforeNewline(line: string)
    ensures SkipSpaces(line + "\n") == SkipSpaces(line) + "\n"
    ensures OneLine(line) ==> OneLine(SkipSpaces(line))
  {
    if line != [] && line[0] == ' ' {
      assert (line + "\n")[1..] == line[1..] + "\n";
      SkipBeforeNewline(line[1..]);
    }
  }

  /** The newline makes no difference to a line. */
  lemma NewlineIgnored(line: string)
    requires OneLine(line)
    ensures ParseLine(line) == ParseLine(line + "\n")
  {
    SkipBeforeNewline(line);
    var t := SkipSpaces(line);
    CutNowhere(t, '\r');
    CutNowhere(t, '\n');
    CutNowhere(t + "\n", '\r');
    CutBefore(t, '\n', "");
    assert t + ['\n'] + "" == t + "\n";
  }

  /** A line that fills the buffer: its newline is read as an empty line. */
  lemma FullLineRead(r: Read, line: string, rest: string)
    requires Readable(r) && r.go && OneLine(line) && |line| == MAX_CHUNK
    ensures ReadText(r, line + "\n" + rest) == ReadText(ReadLine(r, line + "\n"), rest)
  {
    var text, tail := line + "\n" + rest, "\n" + rest;
    FullChunk(line, tail);
    assert text == line + tail;
    assert text[..|line|] == line && text[|line|..] == tail;
    NewlineIgnored(line);
    EmptyLineIgnored();
    assert ChunkLength(tail, MAX_CHUNK) == 1;
    assert tail[..1] == "" + "\n" && tail[1..] == rest;
  }

  lemma LineOfText(r: Read, line: string, rest: string)
    requires Readable(r) && r.go && OneLine(line) && Short(line)
    ensures ReadText(r, line + "\n" + rest) == ReadText(ReadLine(r, line + "\n"), rest)
  {
    if |line| == MAX_CHUNK {
      FullLineRead(r, line, rest);
    } else {
      ChunkIsLine(line, rest, MAX_CHUNK);
      var text := line + "\n" + rest;
      assert text[..|line| + 1] == line + "\n" && text[|line| + 1..] == rest;
    }
  }

  lemma {:induction false} TextAsLines(r: Read, lines: seq<string>)
    requires Readable(r) && GoodLines(lines)
    ensures ReadText(r, Joined(lines)) == ReadLines(r, lines)
    decreases lines
  {
    if lines != [] && r.go {
      LineOfText(r, lines[0], Joined(lines[1..]));
      TextAsLines(ReadLine(r, lines[0] + "\n"), lines[1..]);
    }
  }

  lemma {:induction false} ReadConcat(r: Read, a: seq<string>, b: seq<string>)
    requires Readable(r)
    ensures ReadLines(r, a + b) == ReadLines(ReadLines(r, a), b)
    decreases a
  {
    if a == [] {
      assert a + b == b;
    } else if r.go {
      assert (a + b)[1..] == a[1..] + b;
      ReadConcat(ReadLine(r, a[0] + "\n"), a[1..], b);
    }
  }

  lemma {:induction false} ReadIgnored(r: Read, lines: seq<string>)
    requires Readable(r)
    requires forall i :: 0 <= i < |lines| ==> ParseLine(lines[i] + "\n").Ignored?
    ensures ReadLines(r, lines) == r
    decreases lines
  {
    if lines != [] && r.go {
      ReadIgnored(r, lines[1..]);
    }
  }

  lemma EmptyLineIgnored()
    ensures ParseLine("" + "\n").Ignored?
  {
    StrippedLine("");
  }

  lemma CommentIgnored(line: string)
    requires OneLine(line) && line != "" && line[0] == '#'
    ensures ParseLine(line + "\n").Ignored?
  {
    StrippedLine(line);
  }

  lemma {:induction false} HeaderRead(r: Read, comments: seq<string>)
    requires Readable(r) && GoodComments(comments)
    ensures ReadLines(r, HeaderLines(comments)) == r && GoodLines(HeaderLines(comments))
    decreases comments
  {
    if comments != [] {
      CommentIgnored("#" + comments[0]);
      HeaderRead(r, comments[1..]);
    }
  }

  lemma VersionLineRead(r: Read, version: int)
    requires Readable(r) && r.section.None? && r.go && r.file.version == version && 1 <= version <= INT_MAX
    ensures var line := VERSION_OPTION + " = " + IntText(version);
      ReadLine(r, line + "\n") == r && OneLine(line) && Short(line)
  {
    var t := IntText(version);
    IntTextPlain(version);
    IntTextParsed(version);
    VersionName();
    ValueLineRead(VERSION_OPTION, t);
    assert Escape(VERSION_OPTION) + VERSION_OPTION + (" = " + t) == VERSION_OPTION + " = " + t;
    IntTextLength(version);
  }

  lemma VersionRead(r: Read, f: File)
    requires Readable(r) && r.section.None? && r.go && r.file.version == f.version && 1 <= f.version <= INT_MAX
    ensures ReadLines(r, VersionLines(f)) == r && GoodLines(VersionLines(f))
  {
    if f.version > 1 {
      var line := VERSION_OPTION + " = " + IntText(f.version);
      EmptyLineIgnored();
      VersionLineRead(r, f.version);
      assert ReadLines(r, [line]) == r;
      assert ["", line][1..] == [line];
    }
  }

  lemma VersionName()
    ensures GoodName(VERSION_OPTION) && Escape(VERSION_OPTION) == ""
  {
    assert VERSION_OPTION[0] == 'c';
    assert forall i :: 0 <= i < |VERSION_OPTION| ==> VERSION_OPTION[i] != ' ';
  }

  lemma {:induction false} NaturalTextLength(n: nat, k: nat)
    requires n < Pow10(k) && k > 0
    ensures |NaturalText(n)| <= k
    decreases k
  {
    if n >= 10 {
      NaturalTextLength(n / 10, k - 1);
    }
  }

  lemma IntTextLength(n: int)
    requires INT_MIN <= n <= INT_MAX
    ensures |IntText(n)| <= 11
  {
    assert Pow10(5) == 100000;
    Pow10Sum(5, 5);
    NaturalTextLength(if n < 0 then -n else n, 10);
  }

  // ----- the options of a section

  /** e1 with the value that e0 had when it was saved. */
  function Restored(e0: Entry, e1: Entry): Entry {
    e1.(state := e1.state.(value := e0.state.value), loaded := true)
  }

  predicate SoundEntries(options: seq<Entry>) {
    forall j :: 0 <= j < |options| ==> Sound(options[j].spec, options[j].state)
  }

  predicate SoundSections(sections: seq<Section>) {
    forall i :: 0 <= i < |sections| ==> SoundEntries(sections[i].options)
  }

  ghost predicate SameOptions(a: seq<Entry>, b: seq<Entry>) {
    |a| == |b| && forall j :: 0 <= j < |a| ==> a[j].name == b[j].name && a[j].spec == b[j].spec
  }

  /** Options whose values are restored from a saved list. */
  function RestoredAll(a: seq<Entry>, b: seq<Entry>): (r: seq<Entry>)
    requires |a| == |b|
    ensures |r| == |a| && forall j :: 0 <= j < |a| ==> r[j] == Restored(a[j], b[j])
  {
    if a == [] then [] else [Restored(a[0], b[0])] + RestoredAll(a[1..], b[1..])
  }

  lemma {:induction false} OptionFound(options: seq<Entry>, j: nat)
    requires UniqueOptions(options) && j < |options|
    ensures IndexOfOption(options, options[j].name) == Some(j)
  {
    if j > 0 {
      assert options[0].name != options[j].name;
      assert UniqueOptions(options[1..]);
      OptionFound(options[1..], j - 1);
    }
  }

  lemma LoadOne(options: seq<Entry>, e: Entry, j: nat)
    requires forall k :: 0 <= k < |options| ==> WellFormed(options[k].spec)
    requires UniqueOptions(options) && j < |options|
    requires options[j].name == e.name && options[j].spec == e.spec && GoodValue(e.spec, e.state.value)
    ensures LoadIn(options, e.name, SavedText(e.spec, e.state.value)) == options[j := Restored(e, options[j])]
  {
    OptionFound(options, j);
    LoadRestores(e.spec, options[j].state, e.state.value);
  }

  /** The file with one section's options replaced. */
  function WithOptions(r: Read, options: seq<Entry>): Read
    requires r.section.Some? && r.section.value < |r.file.sections|
  {
    var i := r.section.value;
    r.(file := r.file.(sections := r.file.sections[i := r.file.sections[i].(options := options)]))
  }

  lemma ReadOption(r: Read, e: Entry, j: nat)
    requires Readable(r) && r.section.Some?
    requires var options := r.file.sections[r.section.value].options;
      && UniqueOptions(options) && j < |options|
      && options[j].name == e.name && options[j].spec == e.spec
    requires GoodEntry(e)
    ensures var options := r.file.sections[r.section.value].options;
      ReadLine(r, OptionLine(e) + "\n") == WithOptions(r, options[j := Restored(e, options[j])])
  {
    var options := r.file.sections[r.section.value].options;
    OptionLineRead(e);
    assert WellFormed(options[j].spec);
    LoadOne(options, e, j);
  }

  lemma ReplaceNext(done: seq<Entry>, x: Entry, todo: seq<Entry>)
    requires todo != []
    ensures (done + todo)[|done| := x] == done + [x] + todo[1..]
    ensures (done + todo)[|done|] == todo[0]
  {
  }

  lemma UniqueAfterReplace(done: seq<Entry>, x: Entry, todo: seq<Entry>)
    requires todo != [] && UniqueOptions(done + todo) && x.name == todo[0].name
    ensures UniqueOptions(done + [x] + todo[1..])
  {
    var a, b := done + todo, done + [x] + todo[1..];
    assert forall i :: 0 <= i < |b| ==> b[i].name == a[i].name;
  }

  lemma GoodEntriesAreWritable(saved: seq<Entry>)
    requires forall k :: 0 <= k < |saved| ==> GoodEntry(saved[k])
    ensures forall k :: 0 <= k < |saved| ==> Writable(saved[k].spec, saved[k].state.value)
  {
  }

  /** Reading the lines of saved options when those in done have been read. */
  lemma {:induction false} ReadOptions(r: Read, done: seq<Entry>, saved: seq<Entry>, todo: seq<Entry>)
    requires Readable(r) && r.section.Some? && r.go
    requires r.file.sections[r.section.value].options == done + todo
    requires SameOptions(saved, todo) && UniqueOptions(done + todo)
    requires forall k :: 0 <= k < |saved| ==> GoodEntry(saved[k])
    ensures forall k :: 0 <= k < |saved| ==> Writable(saved[k].spec, saved[k].state.value)
    ensures ReadLines(r, OptionLines(saved)) == WithOptions(r, done + RestoredAll(saved, todo))
    decreases saved
  {
    GoodEntriesAreWritable(saved);
    if saved == [] {
      assert done + [] == done + todo;
    } else {
      var r' := ReadLine(r, OptionLine(saved[0]) + "\n");
      ReadNext(r, done, saved[0], todo);
      ReadOptions(r', done + [Restored(saved[0], todo[0])], saved[1..], todo[1..]);
      ReadStep(r, done, saved, todo, r');
    }
  }

  lemma RestoredStep(done: seq<Entry>, saved: seq<Entry>, todo: seq<Entry>)
    requires saved != [] && |saved| == |todo|
    ensures done + [Restored(saved[0], todo[0])] + RestoredAll(saved[1..], todo[1..]) == done + RestoredAll(saved, todo)
  {
  }

  /** The first option and the rest make all of them. */
  lemma ReadStep(r: Read, done: seq<Entry>, saved: seq<Entry>, todo: seq<Entry>, r': Read)
    requires Readable(r) && r.section.Some? && r.go && saved != [] && |saved| == |todo|
    requires forall k :: 0 <= k < |saved| ==> Writable(saved[k].spec, saved[k].state.value)
    requires r' == ReadLine(r, OptionLine(saved[0]) + "\n")
    requires r' == WithOptions(r, done + [Restored(saved[0], todo[0])] + todo[1..])
    requires ReadLines(r', OptionLines(saved[1..]))
          == WithOptions(r', done + [Restored(saved[0], todo[0])] + RestoredAll(saved[1..], todo[1..]))
    ensures ReadLines(r, OptionLines(saved)) == WithOptions(r, done + RestoredAll(saved, todo))
  {
    ReadFirst(r, OptionLine(saved[0]), OptionLines(saved[1..]));
    RestoredStep(done, saved, todo);
    ReplacedTwice(r, r', done + [Restored(saved[0], todo[0])] + todo[1..], done + RestoredAll(saved, todo));
  }

  lemma ReplacedTwice(r: Read, r': Read, a: seq<Entry>, b: seq<Entry>)
    requires r.section.Some? && r.section.value < |r.file.sections|
    requires r' == WithOptions(r, a)
    ensures WithOptions(r', b) == WithOptions(r, b)
  {
    WithTwice(r, a, b);
  }

  lemma WithTwice(r: Read, a: seq<Entry>, b: seq<Entry>)
    requires r.section.Some? && r.section.value < |r.file.sections|
    ensures WithOptions(WithOptions(r, a), b) == WithOptions(r, b)
  {
  }

  lemma ReadFirst(r: Read, line: string, rest: seq<string>)
    requires Readable(r) && r.go
    ensures ReadLines(r, [line] + rest) == ReadLines(ReadLine(r, line + "\n"), rest)
  {
    assert ([line] + rest)[1..] == rest;
  }

  lemma ReadNext(r: Read, done: seq<Entry>, e: Entry, todo: seq<Entry>)
    requires Readable(r) && r.section.Some? && todo != []
    requires r.file.sections[r.section.value].options == done + todo
    requires e.name == todo[0].name && e.spec == todo[0].spec && UniqueOptions(done + todo) && GoodEntry(e)
    ensures var next := done + [Restored(e, todo[0])] + todo[1..];
      ReadLine(r, OptionLine(e) + "\n") == WithOptions(r, next) && UniqueOptions(next)
  {
    var x := Restored(e, todo[0]);
    ReplaceNext(done, x, todo);
    ReadOption(r, e, |done|);
    UniqueAfterReplace(done, x, todo);
  }

  lemma {:induction false} OptionLinesGood(saved: seq<Entry>)
    requires forall k :: 0 <= k < |saved| ==> GoodEntry(saved[k])
    ensures forall k :: 0 <= k < |saved| ==> Writable(saved[k].spec, saved[k].state.value)
    ensures GoodLines(OptionLines(saved))
  {
    GoodEntriesAreWritable(saved);
    if saved != [] {
      OptionLineRead(saved[0]);
      OptionLinesGood(saved[1..]);
    }
  }

  // ----- the sections of a file

  ghost predicate SameSections(a: seq<Section>, b: seq<Section>) {
    |a| == |b| && forall i :: 0 <= i < |a| ==> a[i].name == b[i].name && SameOptions(a[i].options, b[i].options)
  }

  function RestoredSections(a: seq<Section>, b: seq<Section>): (r: seq<Section>)
    requires |a| == |b| && forall i :: 0 <= i < |a| ==> |a[i].options| == |b[i].options|
    ensures |r| == |b|
    ensures forall i :: 0 <= i < |b| ==> r[i] == b[i].(options := RestoredAll(a[i].options, b[i].options))
  {
    if a == [] then []
    else [b[0].(options := RestoredAll(a[0].options, b[0].options))] + RestoredSections(a[1..], b[1..])
  }

  lemma {:induction false} SectionFound(sections: seq<Section>, i: nat)
    requires UniqueSections(sections) && i < |sections|
    ensures IndexOfSection(sections, sections[i].name) == Some(i)
  {
    if i > 0 {
      assert sections[0].name != sections[i].name;
      assert UniqueSections(sections[1..]);
      SectionFound(sections[1..], i - 1);
    }
  }

  lemma SectionLineRead(r: Read, name: string)
    requires Readable(r) && GoodSectionName(name)
    ensures ReadLine(r, "[" + name + "]" + "\n") == r.(section := IndexOfSection(r.file.sections, name))
    ensures OneLine("[" + name + "]")
  {
    var line := "[" + name + "]";
    StrippedLine(line);
    assert line[1..] == name + [']'] + "";
    CutBefore(name, ']', "");
    assert ']' in line by {
      assert line[|line| - 1] == ']';
    }
  }

  predicate AllGood(sections: seq<Section>) {
    forall i :: 0 <= i < |sections| ==> GoodSection(sections[i])
  }

  /** The file with its sections replaced. */
  function WithSections(r: Read, sections: seq<Section>): Read {
    r.(file := r.file.(sections := sections))
  }

  /** An empty line and the name of a section select the section. */
  lemma HeaderSelects(r: Read, i: nat, rest: seq<string>)
    requires Readable(r) && r.go && i < |r.file.sections| && UniqueSections(r.file.sections)
    requires GoodSectionName(r.file.sections[i].name)
    ensures var lines := ["", "[" + r.file.sections[i].name + "]"] + rest;
      ReadLines(r, lines) == ReadLines(r.(section := Some(i)), rest)
  {
    var header := "[" + r.file.sections[i].name + "]";
    EmptyLineIgnored();
    SectionLineRead(r, r.file.sections[i].name);
    SectionFound(r.file.sections, i);
    assert ["", header] + rest == [""] + ([header] + rest);
    ReadFirst(r, "", [header] + rest);
    ReadFirst(r, header, rest);
  }

  lemma SameUnique(a: seq<Entry>, b: seq<Entry>)
    requires SameOptions(a, b) && UniqueOptions(a)
    ensures UniqueOptions(b)
  {
    forall i, j | 0 <= i < j < |b| ensures b[i].name != b[j].name {
      assert a[i].name != a[j].name;
    }
  }

  lemma AllOptionsRead(r: Read, saved: seq<Entry>)
    requires Readable(r) && r.section.Some? && r.go && UniqueOptions(saved)
    requires SameOptions(saved, r.file.sections[r.section.value].options)
    requires forall k :: 0 <= k < |saved| ==> GoodEntry(saved[k])
    ensures forall k :: 0 <= k < |saved| ==> Writable(saved[k].spec, saved[k].state.value)
    ensures ReadLines(r, OptionLines(saved))
         == WithOptions(r, RestoredAll(saved, r.file.sections[r.section.value].options))
  {
    var options := r.file.sections[r.section.value].options;
    SameUnique(saved, options);
    EmptyPrefix(options);
    EmptyPrefix(RestoredAll(saved, options));
    ReadOptions(r, [], saved, options);
  }

  lemma EmptyPrefix(s: seq<Entry>)
    ensures [] + s == s
  {
  }

  /** Reading one saved section: an empty line, its name and its options. */
  lemma ReadSection(r: Read, s: Section, i: nat)
    requires Readable(r) && r.go && i < |r.file.sections| && UniqueSections(r.file.sections)
    requires GoodSection(s) && r.file.sections[i].name == s.name && SameOptions(s.options, r.file.sections[i].options)
    ensures forall k :: 0 <= k < |s.options| ==> Writable(s.options[k].spec, s.options[k].state.value)
    ensures var t := r.file.sections[i];
      ReadLines(r, ["", "[" + s.name + "]"] + OptionLines(s.options))
      == WithSections(r, r.file.sections[i := t.(options := RestoredAll(s.options, t.options))]).(section := Some(i))
  {
    AllOptionsRead(r.(section := Some(i)), s.options);
    HeaderSelects(r, i, OptionLines(s.options));
  }

  lemma SectionLinesGood(s: Section)
    requires GoodSection(s)
    ensures forall k :: 0 <= k < |s.options| ==> Writable(s.options[k].spec, s.options[k].state.value)
    ensures GoodLines(["", "[" + s.name + "]"] + OptionLines(s.options))
  {
    OptionLinesGood(s.options);
    assert OneLine("[" + s.name + "]");
  }

  lemma ReplaceNextSection(done: seq<Section>, x: Section, todo: seq<Section>)
    requires todo != [] && UniqueSections(done + todo) && x.name == todo[0].name
    ensures (done + todo)[|done|] == todo[0]
    ensures (done + todo)[|done| := x] == done + [x] + todo[1..]
    ensures UniqueSections(done + [x] + todo[1..])
  {
    var a, b := done + todo, done + [x] + todo[1..];
    assert forall i :: 0 <= i < |b| ==> b[i].name == a[i].name;
  }

  lemma RestoredSectionsStep(done: seq<Section>, saved: seq<Section>, todo: seq<Section>)
    requires saved != [] && SameSections(saved, todo)
    ensures var x := todo[0].(options := RestoredAll(saved[0].options, todo[0].options));
      done + [x] + RestoredSections(saved[1..], todo[1..]) == done + RestoredSections(saved, todo)
  {
  }

  lemma GoodSectionsAreWritable(saved: seq<Section>)
    requires AllGood(saved)
    ensures forall i, j :: 0 <= i < |saved| && 0 <= j < |saved[i].options| ==>
      Writable(saved[i].options[j].spec, saved[i].options[j].state.value)
  {
    forall i | 0 <= i < |saved|
      ensures forall j :: 0 <= j < |saved[i].options| ==>
        Writable(saved[i].options[j].spec, saved[i].options[j].state.value)
    {
      GoodEntriesAreWritable(saved[i].options);
    }
  }

  ghost predicate SectionsRead(r: Read, r': Read, sections: seq<Section>) {
    r'.file == r.file.(sections := sections) && r'.go == r.go
  }

  lemma ReadNextSection(r: Read, done: seq<Section>, saved: seq<Section>, todo: seq<Section>) returns (r': Read)
    requires Readable(r) && r.go && r.file.sections == done + todo && saved != []
    requires SameSections(saved, todo) && UniqueSections(done + todo) && AllGood(saved)
    ensures Readable(r') && r'.go
    ensures forall k :: 0 <= k < |saved[0].options| ==>
      Writable(saved[0].options[k].spec, saved[0].options[k].state.value)
    ensures r' == ReadLines(r, ["", "[" + saved[0].name + "]"] + OptionLines(saved[0].options))
    ensures var x := todo[0].(options := RestoredAll(saved[0].options, todo[0].options));
      SectionsRead(r, r', done + [x] + todo[1..]) && UniqueSections(done + [x] + todo[1..])
  {
    ReplaceNextSection(done, todo[0].(options := RestoredAll(saved[0].options, todo[0].options)), todo);
    ReadSection(r, saved[0], |done|);
    r' := ReadLines(r, ["", "[" + saved[0].name + "]"] + OptionLines(saved[0].options));
  }

  /** Reading the lines of saved sections when those in done have been read. */
  lemma {:induction false} ReadSections(r: Read, done: seq<Section>, saved: seq<Section>, todo: seq<Section>)
    requires Readable(r) && r.go && r.file.sections == done + todo
    requires SameSections(saved, todo) && UniqueSections(done + todo) && AllGood(saved)
    ensures forall i, j :: 0 <= i < |saved| && 0 <= j < |saved[i].options| ==>
      Writable(saved[i].options[j].spec, saved[i].options[j].state.value)
    ensures SectionsRead(r, ReadLines(r, SectionLines(saved)), done + RestoredSections(saved, todo))
    decreases saved
  {
    GoodSectionsAreWritable(saved);
    if saved == [] {
      assert done + [] == done + todo;
    } else {
      var x := todo[0].(options := RestoredAll(saved[0].options, todo[0].options));
      var r' := ReadNextSection(r, done, saved, todo);
      ReadSections(r', done + [x], saved[1..], todo[1..]);
      ReadConcat(r, ["", "[" + saved[0].name + "]"] + OptionLines(saved[0].options), SectionLines(saved[1..]));
      RestoredSectionsStep(done, saved, todo);
    }
  }

  lemma {:induction false} AllLinesGood(saved: seq<Section>)
    requires AllGood(saved)
    ensures forall i, j :: 0 <= i < |saved| && 0 <= j < |saved[i].options| ==>
      Writable(saved[i].options[j].spec, saved[i].options[j].state.value)
    ensures GoodLines(SectionLines(saved))
  {
    GoodSectionsAreWritable(saved);
    if saved != [] {
      SectionLinesGood(saved[0]);
      AllLinesGood(saved[1..]);
    }
  }

  // ----- the theorem

  lemma PreambleRead(r: Read, comments: seq<string>, f: File)
    requires Readable(r) && r.section.None? && r.go && r.file.version == f.version && 1 <= f.version <= INT_MAX
    requires GoodComments(comments)
    ensures var lines := HeaderLines(comments) + VersionLines(f);
      ReadLines(r, lines) == r && GoodLines(lines)
  {
    HeaderRead(r, comments);
    VersionRead(r, f);
    ReadConcat(r, HeaderLines(comments), VersionLines(f));
  }

  lemma BodyRead(r: Read, saved: File)
    requires Readable(r) && r.go && GoodFile(saved) && SameSections(saved.sections, r.file.sections)
    ensures FileWritable(saved) && GoodLines(SectionLines(saved.sections))
    ensures ReadLines(r, SectionLines(saved.sections)).file
         == r.file.(sections := RestoredSections(saved.sections, r.file.sections))
  {
    AllLinesGood(saved.sections);
    UniqueNames(saved.sections, r.file.sections);
    var restored := RestoredSections(saved.sections, r.file.sections);
    assert [] + r.file.sections == r.file.sections && [] + restored == restored;
    ReadSections(r, [], saved.sections, r.file.sections);
  }

  lemma GoodConcat(a: seq<string>, b: seq<string>)
    requires GoodLines(a) && GoodLines(b)
    ensures GoodLines(a + b)
  {
  }

  lemma TwoParts(r: Read, a: seq<string>, b: seq<string>)
    requires Readable(r) && GoodLines(a) && GoodLines(b) && ReadLines(r, a) == r
    ensures ReadText(r, Joined(a + b)) == ReadLines(r, b)
  {
    GoodConcat(a, b);
    TextAsLines(r, a + b);
    ReadConcat(r, a, b);
  }

  lemma ReadWritten(r: Read, comments: seq<string>, saved: File)
    requires Readable(r) && r.go && r.section.None? && GoodComments(comments) && GoodFile(saved)
    requires r.file.version == saved.version && SameSections(saved.sections, r.file.sections)
    ensures FileWritable(saved)
    ensures ReadText(r, Written(comments, saved)).file
         == r.file.(sections := RestoredSections(saved.sections, r.file.sections))
  {
    PreambleRead(r, comments, saved);
    BodyRead(r, saved);
    TwoParts(r, HeaderLines(comments) + VersionLines(saved), SectionLines(saved.sections));
  }

  lemma UniqueNames(a: seq<Section>, b: seq<Section>)
    requires UniqueSections(a) && |a| == |b| && forall i :: 0 <= i < |a| ==> a[i].name == b[i].name
    ensures UniqueSections(b)
  {
  }

  lemma UnloadedIsSame(a: seq<Section>, b: seq<Section>)
    requires SameSections(a, b)
    ensures SameSections(a, MapSections(Unloaded, b))
    ensures RestoredSections(a, MapSections(Unloaded, b)) == RestoredSections(a, b)
  {
    var c := MapSections(Unloaded, b);
    forall i | 0 <= i < |a|
      ensures SameOptions(a[i].options, c[i].options)
      ensures RestoredAll(a[i].options, c[i].options) == RestoredAll(a[i].options, b[i].options)
    {
    }
    var d, e := RestoredSections(a, c), RestoredSections(a, b);
    forall i | 0 <= i < |a| ensures d[i] == e[i] {
    }
  }

  lemma SettledIsSame(a: seq<Section>, b: seq<Section>)
    requires SameSections(a, b)
    ensures MapSections(Settled, RestoredSections(a, b)) == RestoredSections(a, b)
  {
    var c := RestoredSections(a, b);
    var d := MapSections(Settled, c);
    forall i | 0 <= i < |a| ensures d[i] == c[i] {
      var o, p := c[i].options, d[i].options;
      forall j | 0 <= j < |o| ensures p[j] == o[j] {
      }
      assert p == o;
    }
  }

  /** Save, let anything happen to the values, reload: every option has the value
      it had when it was saved, null included, and its present default. */
  lemma SaveThenReload(comments: seq<string>, saved: File, now: File)
    requires GoodComments(comments) && GoodFile(saved)
    requires now.version == saved.version && SameSections(saved.sections, now.sections)
    ensures FileWritable(saved) && WellFormedFile(now)
    ensures Reloaded(now, Written(comments, saved))
         == now.(sections := RestoredSections(saved.sections, now.sections))
  {
    assert WellFormedFile(now) by {
      forall i, j | 0 <= i < |now.sections| && 0 <= j < |now.sections[i].options|
        ensures WellFormed(now.sections[i].options[j].spec)
      {
        assert GoodSection(saved.sections[i]) && GoodEntry(saved.sections[i].options[j]);
      }
    }
    var start := MapFile(Unloaded, now);
    UnloadedIsSame(saved.sections, now.sections);
    ReadWritten(Read(start, None, true), comments, saved);
    SettledIsSame(saved.sections, now.sections);
  }
}
