/** Writing and reading one line of a configuration file, step by step. */
module ConfigLines {
  import opened Wrappers
  import opened OptionValue
  import opened ConfigText

  // ----- writing

  /** config_file_write_option. */
  method WriteOption(e: Entry) returns (line: string)
    requires Writable(e.spec, e.state.value)
    ensures line == OptionLine(e) + "\n"
  {
    line := Escape(e.name) + e.name;
    if e.state.value.Some? {
      var v := e.state.value.value;
      match e.spec.kind {
        case Boolean => line := line + (" = " + if v.n == 1 then "on" else "off");
        case Integer => line := line + (" = " + IntText(v.n));
        case String => line := line + (" = " + ("\"" + v.s + "\""));
        case Color => line := line + (" = " + e.spec.colors.name(v.n));
        case Enum => line := line + (" = " + e.spec.strings[v.n]);
      }
    }
    line := line + "\n";
  }

  // ----- reading

  /** fgets: characters up to and with a newline, at most limit of them. */
  method Gets(text: string, limit: nat) returns (n: nat)
    ensures n == ChunkLength(text, limit)
  {
    n := 0;
    assert text[0..] == text;
    while n < |text| && n < limit
      invariant n <= |text| && n <= limit
      invariant ChunkLength(text, limit) == n + ChunkLength(text[n..], limit - n)
    {
      assert text[n..][1..] == text[n + 1..];
      n := n + 1;
      if text[n - 1] == '\n' {
        return;
      }
    }
  }

  /** Moving a pointer over spaces. */
  method PassSpaces(s: string) returns (rest: string)
    ensures rest == SkipSpaces(s)
  {
    rest := s;
    while rest != "" && rest[0] == ' '
      invariant SkipSpaces(s) == SkipSpaces(rest)
      decreases |rest|
    {
      rest := rest[1..];
    }
  }

  /** strchr: the place of a character; the length if it does not occur. */
  method StrChr(s: string, c: char) returns (i: nat)
    ensures i <= |s| && c !in s[..i] && (i < |s| ==> s[i] == c)
  {
    i := 0;
    while i < |s| && s[i] != c
      invariant i <= |s| && c !in s[..i]
    {
      i := i + 1;
    }
  }

  lemma {:induction false} CutIs(s: string, c: char, i: nat)
    requires i <= |s| && c !in s[..i] && (i < |s| ==> s[i] == c)
    ensures CutAt(s, c) == s[..i] && (c in s <==> i < |s|)
    decreases |s|
  {
    if i > 0 {
      assert s[1..][..i - 1] == s[..i][1..];
      assert s[0] in s[..i];
      CutIs(s[1..], c, i - 1);
      assert s == [s[0]] + s[1..];
    }
  }

  /** Ending a string at the first c, if there is one. */
  method Terminate(s: string, c: char) returns (t: string)
    ensures t == CutAt(s, c)
  {
    var i := StrChr(s, c);
    CutIs(s, c, i);
    t := s[..i];
  }

  /** strstr for " =". */
  method FindAssignment(s: string) returns (p: Option<nat>)
    ensures p == FindEquals(s)
  {
    var i := 0;
    assert s[0..] == s;
    while i + 1 < |s|
      invariant i <= |s|
      invariant FindEquals(s) == match FindEquals(s[i..]) case Some(j) => Some(i + j) case None => None
    {
      assert s[i..][1..] == s[i + 1..];
      if s[i] == ' ' && s[i + 1] == '=' {
        return Some(i);
      }
      i := i + 1;
    }
    p := None;
  }

  /** Moving a pointer back over spaces at the end, but not before the start. */
  method DropSpaces(s: string) returns (t: string)
    ensures t == TrimEnd(s)
  {
    var end := |s|;
    assert s[..end] == s;
    while end > 1 && s[end - 1] == ' '
      invariant end <= |s|
      invariant TrimEnd(s) == TrimEnd(s[..end])
    {
      assert s[..end][..end - 1] == s[..end - 1];
      end := end - 1;
    }
    t := s[..end];
  }

  /** The value in the text behind '='. */
  method ReadRight(right: string) returns (value: Option<string>)
    ensures value == ReadValue(right)
  {
    value := None;
    if right != "null" {
      if |right| > 1 {
        var t := DropSpaces(right);
        if (t[0] == '\'' && t[|t| - 1] == '\'') || (t[0] == '"' && t[|t| - 1] == '"') {
          if |t| > 1 {
            value := Some(t[1..|t| - 1]);
          }
        } else {
          value := Some(t);
        }
      } else {
        value := Some(right);
      }
    }
  }

  /** The start of the loop of config_file_read_internal: a line in its parts. */
  method SplitLine(chunk: string) returns (l: Line)
    ensures l == ParseLine(chunk)
  {
    var line := PassSpaces(chunk);
    line := Terminate(line, '\r');
    line := Terminate(line, '\n');
    if line == "" || line[0] == '#' {
      return Ignored;
    }
    if line[0] == '[' {
      var equals := StrChr(line, '=');
      CutIs(line, '=', equals);
      if equals == |line| {
        var close := StrChr(line, ']');
        CutIs(line, ']', close);
        if close == |line| {
          return Ignored;
        }
        SectionNameIs(line, close);
        return SectionHeader(line[1..close]);
      }
    }
    if line[0] == '\\' {
      line := line[1..];
    }
    l := SplitOption(line);
  }

  lemma SectionNameIs(line: string, close: nat)
    requires line != "" && line[0] == '[' && close < |line| && line[close] == ']' && ']' !in line[..close]
    ensures CutAt(line[1..], ']') == line[1..close]
  {
    assert line[1..][..close - 1] == line[1..close];
    CutIs(line[1..], ']', close - 1);
  }

  method SplitOption(line: string) returns (l: Line)
    ensures l == ParseOption(line)
  {
    var pos := FindAssignment(line);
    if pos.Some? {
      var name := DropSpaces(line[..pos.value]);
      var right := PassSpaces(line[pos.value + 2..]);
      l := OptionText(name, Some(right));
    } else {
      l := OptionText(line, None);
    }
  }
}
