/** A configuration file as text: how it is written and how it is read back. */
module ConfigText {
  import opened Wrappers
  import opened OptionValue

  /** What the text of a file depends on and what reading it changes. */
  datatype Entry = Entry(name: string, spec: Spec, state: State, loaded: bool)

  datatype Section = Section(name: string, options: seq<Entry>)

  datatype File = File(name: string, version: int, sections: seq<Section>)

  // ----- writing

  /** The backslash in front of a name that would be taken for something else. */
  function Escape(name: string): string {
    if name != [] && (name[0] == '#' || name[0] == '[' || name[0] == '\\') then "\\" else ""
  }

  /** What stands behind " = ": strings are quoted, nothing else is. */
  function ValueText(o: Spec, v: Value): string
    requires Writable(o, Some(v))
  {
    match v
    case Text(s) => "\"" + s + "\""
    case Num(n) =>
      match o.kind
      case Boolean => if n == 1 then "on" else "off"
      case Integer => IntText(n)
      case Color => o.colors.name(n)
      case Enum => o.strings[n]
  }

  /** config_file_write_option: a null value is a name alone. */
  function OptionLine(e: Entry): string
    requires Writable(e.spec, e.state.value)
  {
    Escape(e.name) + e.name + (if e.state.value.None? then "" else " = " + ValueText(e.spec, e.state.value.value))
  }

  predicate FileWritable(f: File) {
    forall i, j :: 0 <= i < |f.sections| && 0 <= j < |f.sections[i].options| ==>
      Writable(f.sections[i].options[j].spec, f.sections[i].options[j].state.value)
  }

  /** The comment lines at the start of a file, without their newlines. */
  function HeaderLines(comments: seq<string>): seq<string> {
    if comments == [] then [] else ["#" + comments[0]] + HeaderLines(comments[1..])
  }

  const VERSION_OPTION: string := "config_version"

  function VersionLines(f: File): seq<string> {
    if f.version > 1 then ["", VERSION_OPTION + " = " + IntText(f.version)] else []
  }

  function OptionLines(options: seq<Entry>): seq<string>
    requires forall j :: 0 <= j < |options| ==> Writable(options[j].spec, options[j].state.value)
  {
    if options == [] then [] else [OptionLine(options[0])] + OptionLines(options[1..])
  }

  function SectionLines(sections: seq<Section>): seq<string>
    requires forall i, j :: 0 <= i < |sections| && 0 <= j < |sections[i].options| ==>
      Writable(sections[i].options[j].spec, sections[i].options[j].state.value)
  {
    if sections == [] then []
    else ["", "[" + sections[0].name + "]"] + OptionLines(sections[0].options) + SectionLines(sections[1..])
  }

  /** The lines that the writer puts into a file. */
  function Lines(comments: seq<string>, f: File): seq<string>
    requires FileWritable(f)
  {
    HeaderLines(comments) + VersionLines(f) + SectionLines(f.sections)
  }

  function Joined(lines: seq<string>): string {
    if lines == [] then "" else lines[0] + "\n" + Joined(lines[1..])
  }

  /** config_file_write_internal. */
  function Written(comments: seq<string>, f: File): string
    requires FileWritable(f)
  {
    Joined(Lines(comments, f))
  }

  // ----- reading one line

  /** The most characters that one fgets takes: the size of the buffer is 16384. */
  const MAX_CHUNK: nat := 16382

  /** Characters up to and with a newline, at most limit of them. */
  function ChunkLength(text: string, limit: nat): (n: nat)
    ensures n <= |text| && n <= limit
    ensures text != [] && limit > 0 ==> n > 0
  {
    if text == [] || limit == 0 then 0
    else if text[0] == '\n' then 1
    else 1 + ChunkLength(text[1..], limit - 1)
  }

  function SkipSpaces(s: string): (r: string)
    ensures |r| <= |s|
  {
    if s != [] && s[0] == ' ' then SkipSpaces(s[1..]) else s
  }

  /** The text before the first c. */
  function CutAt(s: string, c: char): string {
    if s == [] || s[0] == c then "" else [s[0]] + CutAt(s[1..], c)
  }

  /** The index of the first " =". */
  function FindEquals(s: string): (r: Option<nat>)
    ensures r.Some? ==> r.value + 1 < |s|
  {
    if |s| < 2 then None
    else if s[0] == ' ' && s[1] == '=' then Some(0)
    else match FindEquals(s[1..])
      case Some(i) => Some(i + 1)
      case None => None
  }

  /** Spaces at the end go, but the first character stays. */
  function TrimEnd(s: string): (r: string)
    ensures s != "" ==> r != ""
    decreases |s|
  {
    if |s| > 1 && s[|s| - 1] == ' ' then TrimEnd(s[..|s| - 1]) else s
  }

  predicate IsQuote(c: char) {
    c == '\'' || c == '"'
  }

  /** The value in the text behind '=': spaces around it and quotes go; null is
      the word itself, or a quote that nothing follows but spaces. */
  function ReadValue(r: string): Option<string> {
    if r == "null" then None
    else if |r| <= 1 then Some(r)
    else
      var t := TrimEnd(r);
      if t[0] == t[|t| - 1] && IsQuote(t[0]) then
        if |t| == 1 then None else Some(t[1..|t| - 1])
      else Some(t)
  }

  datatype Line =
    | Ignored
    | SectionHeader(name: string)
    | OptionText(name: string, right: Option<string>)

  /** The text of a line without what surrounds it. */
  function Stripped(chunk: string): string {
    CutAt(CutAt(SkipSpaces(chunk), '\r'), '\n')
  }

  /** A line in its parts; right is the text behind '=' and its spaces. */
  function ParseLine(chunk: string): Line {
    var t := Stripped(chunk);
    if t == "" || t[0] == '#' then Ignored
    else if t[0] == '[' && '=' !in t then
      if ']' in t then SectionHeader(CutAt(t[1..], ']')) else Ignored
    else ParseOption(if t[0] == '\\' then t[1..] else t)
  }

  function ParseOption(t: string): Line {
    match FindEquals(t)
    case Some(p) => OptionText(TrimEnd(t[..p]), Some(SkipSpaces(t[p + 2..])))
    case None => OptionText(t, None)
  }

  // ----- reading a file

  /** The number of the section that is being read, if it is a known one. */
  type Position = Option<nat>

  function IndexOfSection(sections: seq<Section>, name: string): (r: Position)
    ensures r.Some? ==> r.value < |sections| && sections[r.value].name == name
  {
    if sections == [] then None
    else if sections[0].name == name then Some(0)
    else match IndexOfSection(sections[1..], name)
      case Some(i) => Some(i + 1)
      case None => None
  }

  function IndexOfOption(options: seq<Entry>, name: string): (r: Option<nat>)
    ensures r.Some? ==> r.value < |options| && options[r.value].name == name
  {
    if options == [] then None
    else if options[0].name == name then Some(0)
    else match IndexOfOption(options[1..], name)
      case Some(i) => Some(i + 1)
      case None => None
  }

  predicate WellFormedFile(f: File) {
    forall i, j :: 0 <= i < |f.sections| && 0 <= j < |f.sections[i].options| ==>
      WellFormed(f.sections[i].options[j].spec)
  }

  /** An option found in the file: its value is set, if it can be, and it counts
      as loaded even if it cannot. */
  function Load(e: Entry, value: Option<string>): Entry
    requires WellFormed(e.spec)
  {
    e.(state := Set(e.spec, e.state, value).0, loaded := true)
  }

  function LoadIn(options: seq<Entry>, name: string, value: Option<string>): (r: seq<Entry>)
    requires forall j :: 0 <= j < |options| ==> WellFormed(options[j].spec)
    ensures |r| == |options|
    ensures forall j :: 0 <= j < |r| ==> r[j].name == options[j].name && r[j].spec == options[j].spec
  {
    match IndexOfOption(options, name)
    case Some(j) => options[j := Load(options[j], value)]
    case None => options
  }

  /** The state of a read: go is false once the rest of the file is ignored. */
  datatype Read = Read(file: File, section: Position, go: bool)

  predicate Readable(r: Read) {
    && WellFormedFile(r.file)
    && (r.section.Some? ==> r.section.value < |r.file.sections|)
  }

  /** The value of "config_version"; None is an error. */
  function ParseVersion(right: Option<string>): Option<int> {
    match right
    case None => None
    case Some(s) =>
      match ParseInt(s)
      case Some(n) => if n >= 1 then Some(n) else None
      case None => None
  }

  /** config_file_read_internal: one line. */
  function ReadLine(r: Read, chunk: string): (r': Read)
    requires Readable(r)
    ensures Readable(r')
  {
    match ParseLine(chunk)
    case Ignored => r
    case SectionHeader(name) => r.(section := IndexOfSection(r.file.sections, name))
    case OptionText(name, right) =>
      if r.section.None? then
        if name == VERSION_OPTION then
          match ParseVersion(right)
          case Some(n) => r.(go := n <= r.file.version)
          case None => r.(go := false)
        else r
      else if name == "" then r
      else
        var i := r.section.value;
        var value := match right case Some(s) => ReadValue(s) case None => None;
        var s := r.file.sections[i];
        r.(file := r.file.(sections := r.file.sections[i := s.(options := LoadIn(s.options, name, value))]))
  }

  function ReadText(r: Read, text: string): (r': Read)
    requires Readable(r)
    ensures Readable(r')
    decreases |text|
  {
    if text == "" || !r.go then r
    else
      var n := ChunkLength(text, MAX_CHUNK);
      ReadText(ReadLine(r, text[..n]), text[n..])
  }

  // ----- reloading

  function Unloaded(e: Entry): Entry {
    e.(loaded := false)
  }

  /** Options that were not in the file are reset. */
  function Settled(e: Entry): Entry {
    if e.loaded then e else e.(state := Reset(e.spec, e.state).0)
  }

  function MapEntries(f: Entry -> Entry, options: seq<Entry>): (r: seq<Entry>)
    ensures |r| == |options|
    ensures forall j :: 0 <= j < |r| ==> r[j] == f(options[j])
  {
    if options == [] then [] else [f(options[0])] + MapEntries(f, options[1..])
  }

  function MapSections(f: Entry -> Entry, sections: seq<Section>): (r: seq<Section>)
    ensures |r| == |sections|
    ensures forall i :: 0 <= i < |r| ==> r[i] == sections[i].(options := MapEntries(f, sections[i].options))
  {
    if sections == [] then []
    else [sections[0].(options := MapEntries(f, sections[0].options))] + MapSections(f, sections[1..])
  }

  function MapFile(f: Entry -> Entry, file: File): File {
    file.(sections := MapSections(f, file.sections))
  }

  /** config_file_reload, from the text of the file. */
  function Reloaded(file: File, text: string): File
    requires WellFormedFile(file)
  {
    var start := MapFile(Unloaded, file);
    MapFile(Settled, ReadText(Read(start, None, true), text).file)
  }
}
