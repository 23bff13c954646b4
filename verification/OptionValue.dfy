/** The value of one configuration option: what each operation of
    src/core/core-config-file.c does to it and what it returns. */
module OptionValue {
  import opened Wrappers
  import opened Digits

  // ----- util_parse_int and "%d"

  const INT_MIN: int := -0x8000_0000
  const INT_MAX: int := 0x7fff_ffff

  predicate IsBlank(c: char) {
    c == ' ' || '\t' <= c <= '\r'
  }

  function SkipBlanks(s: string): string {
    if s != [] && IsBlank(s[0]) then SkipBlanks(s[1..]) else s
  }

  /** A decimal int32 with an optional sign behind optional blanks, and nothing else. */
  function ParseInt(s: string): Option<int> {
    var t := SkipBlanks(s);
    var signed := t != [] && (t[0] == '-' || t[0] == '+');
    var digits := if signed then t[1..] else t;
    if digits == [] || !AllDigits(digits) then None
    else
      var m: int := Natural(digits);
      var n := Signed(m, t[0] == '-');
      if INT_MIN <= n <= INT_MAX then Some(n) else None
  }

  function IntText(n: int): string {
    if n < 0 then "-" + NaturalText(-n) else NaturalText(n)
  }

  lemma IntTextParsed(n: int)
    requires INT_MIN <= n <= INT_MAX
    ensures ParseInt(IntText(n)) == Some(n)
    ensures IntText(n) != [] && (forall i :: 0 <= i < |IntText(n)| ==> IsDigit(IntText(n)[i]) || IntText(n)[i] == '-')
    ensures |IntText(n)| >= 2 ==> IsDigit(IntText(n)[1])
  {
    var m := if n < 0 then -n else n;
    NaturalTextRead(m);
    assert Signed(m, n < 0) == n;
    SignedTextParsed(NaturalText(m), n < 0);
  }

  /** Digits with or without a sign, as they are read. */
  lemma SignedTextParsed(digits: string, negative: bool)
    requires digits != [] && AllDigits(digits)
    requires INT_MIN <= Signed(Natural(digits), negative) <= INT_MAX
    ensures ParseInt(if negative then "-" + digits else digits) == Some(Signed(Natural(digits), negative))
  {
    if negative {
      assert ("-" + digits)[1..] == digits;
    }
  }

  function Signed(m: int, negative: bool): int {
    if negative then -m else m
  }

  /** The remainder of C, which takes the sign of the dividend. */
  function Rem(a: int, b: int): int
    requires b > 0
  {
    if a >= 0 then a % b else -((-a) % b)
  }

  // ----- options

  datatype Kind = Boolean | Integer | String | Color | Enum

  datatype Value = Num(n: int) | Text(s: string)

  /** gui_color_get_name, gui_color_assign and gui_color_assign_by_diff. */
  datatype Colors = Colors(name: int -> string, assign: string -> Option<int>, shift: (string, int) -> Option<int>)

  /** What is fixed when an option is created; the check callback accepts
      everything if there is none. */
  datatype Spec = Spec(kind: Kind, min: int, max: int, strings: seq<string>, nullAllowed: bool,
                       check: Option<string> -> bool, colors: Colors)

  /** The value and the default value; None is null. */
  datatype State = State(value: Option<Value>, default: Option<Value>)

  datatype Rc = Changed | Same | Error

  predicate Typed(kind: Kind, v: Option<Value>) {
    v.Some? ==> (kind.String? <==> v.value.Text?)
  }

  /** What the C types and the creation of an option guarantee. */
  predicate WellFormed(o: Spec) {
    && (o.kind.Boolean? ==> o.min == 0 && o.max == 1)
    && (o.kind.Enum? ==> o.min == 0 && o.max == |o.strings| - 1 && |o.strings| > 0)
    && (o.kind.Integer? ==> INT_MIN <= o.min && o.max <= INT_MAX)
  }

  predicate TypedState(o: Spec, s: State) {
    WellFormed(o) && Typed(o.kind, s.value) && Typed(o.kind, s.default)
  }

  // ----- from text to value

  predicate IsTrueWord(s: string) {
    s == "on" || s == "yes" || s == "y" || s == "true" || s == "t" || s == "1"
  }

  predicate IsFalseWord(s: string) {
    s == "off" || s == "no" || s == "n" || s == "false" || s == "f" || s == "0"
  }

  predicate StartsWith(s: string, prefix: string) {
    |s| >= |prefix| && s[..|prefix|] == prefix
  }

  /** The number an option holds; null counts as 0. */
  function Number(v: Option<Value>): int {
    match v
    case Some(Num(n)) => n
    case _ => 0
  }

  function IndexFrom(strings: seq<string>, s: string, i: nat): (r: Option<int>)
    requires i <= |strings|
    ensures r.Some? ==> i <= r.value < |strings| && strings[r.value] == s
    ensures r.Some? ==> forall j :: i <= j < r.value ==> strings[j] != s
    ensures r.None? ==> forall j :: i <= j < |strings| ==> strings[j] != s
    decreases |strings| - i
  {
    if i == |strings| then None
    else if strings[i] == s then Some(i)
    else IndexFrom(strings, s, i + 1)
  }

  function ParsedBoolean(was: Option<Value>, text: string): Option<int> {
    if text == "toggle" then Some(if was == Some(Num(1)) then 0 else 1)
    else if IsTrueWord(text) then Some(1)
    else if IsFalseWord(text) then Some(0)
    else None
  }

  /** "++n" checks the maximum only, "--n" the minimum only. */
  function ParsedInteger(o: Spec, was: Option<Value>, text: string): Option<int> {
    if StartsWith(text, "++") then
      match ParseInt(text[2..])
      case Some(n) => if Number(was) + n <= o.max then Some(Number(was) + n) else None
      case None => None
    else if StartsWith(text, "--") then
      match ParseInt(text[2..])
      case Some(n) => if Number(was) - n >= o.min then Some(Number(was) - n) else None
      case None => None
    else
      match ParseInt(text)
      case Some(n) => if o.min <= n <= o.max then Some(n) else None
      case None => None
  }

  function ParsedColor(c: Colors, was: Option<Value>, text: string): Option<int> {
    if StartsWith(text, "++") then
      match ParseInt(text[2..])
      case Some(n) => c.shift(c.name(Number(was)), n)
      case None => None
    else if StartsWith(text, "--") then
      match ParseInt(text[2..])
      case Some(n) => c.shift(c.name(Number(was)), -n)
      case None => None
    else c.assign(text)
  }

  function NonNegative(n: int): Option<int> {
    if n >= 0 then Some(n) else None
  }

  /** Steps go round; a remainder that is negative is refused. */
  function ParsedEnum(o: Spec, was: Option<Value>, text: string): Option<int>
    requires o.max >= 0
  {
    var count := o.max + 1;
    if StartsWith(text, "++") then
      match ParseInt(text[2..])
      case Some(n) => NonNegative(Rem(Number(was) + Rem(n, count), count))
      case None => None
    else if StartsWith(text, "--") then
      match ParseInt(text[2..])
      case Some(n) => NonNegative(Rem(Number(was) + count - Rem(n, count), count))
      case None => None
    else IndexFrom(o.strings, text, 0)
  }

  function AsValue(n: Option<int>): Option<Value> {
    match n
    case Some(i) => Some(Num(i))
    case None => None
  }

  /** The value that a text stands for, given the value before; None if invalid. */
  function Parsed(o: Spec, was: Option<Value>, text: string): (v: Option<Value>)
    requires WellFormed(o)
    ensures Typed(o.kind, v)
  {
    match o.kind
    case Boolean => AsValue(ParsedBoolean(was, text))
    case Integer => AsValue(ParsedInteger(o, was, text))
    case String => Some(Text(text))
    case Color => AsValue(ParsedColor(o.colors, was, text))
    case Enum => AsValue(ParsedEnum(o, was, text))
  }

  /** The value after a text has been assigned to it. */
  function Assigned(o: Spec, was: Option<Value>, text: string): (Option<Value>, Rc)
    requires WellFormed(o)
  {
    var next := Parsed(o, was, text);
    if next.None? then (was, Error) else if next == was then (was, Same) else (next, Changed)
  }

  /** NULL assigned to a value: it stays if null is not allowed. */
  function Nulled(o: Spec, was: Option<Value>): (Option<Value>, Rc) {
    if o.nullAllowed && was.Some? then (None, Changed) else (was, Same)
  }

  // ----- the operations

  function Set(o: Spec, s: State, text: Option<string>): (State, Rc)
    requires WellFormed(o)
  {
    if !o.check(text) then (s, Error)
    else
      var (v, rc) := if text.Some? then Assigned(o, s.value, text.value) else Nulled(o, s.value);
      (s.(value := v), rc)
  }

  function SetNull(o: Spec, s: State): (State, Rc) {
    if !o.nullAllowed then (s, Error)
    else if s.value.None? then (s, Same)
    else (s.(value := None), Changed)
  }

  /** The check callback is not asked about defaults. */
  function SetDefault(o: Spec, s: State, text: Option<string>): (State, Rc)
    requires WellFormed(o)
  {
    var (v, rc) := if text.Some? then Assigned(o, s.default, text.value) else Nulled(o, s.default);
    (s.(default := v), rc)
  }

  function Reset(o: Spec, s: State): (State, Rc) {
    if s.default.None? && !o.nullAllowed then (s, Error)
    else if s.value == s.default then (s, Same)
    else (s.(value := s.default), Changed)
  }

  function HasChanged(s: State): bool {
    s.value != s.default
  }

  // ----- creation

  function Clamped(n: int, min: int, max: int): int {
    if n < min then min else if n > max then max else n
  }

  function NumberOr0(n: Option<int>): int {
    if n.Some? then n.value else 0
  }

  /** The value that a text given at creation stands for: never an error. */
  function Initial(o: Spec, text: Option<string>): Option<Value> {
    match text
    case None => None
    case Some(t) =>
      match o.kind
      case Boolean => Some(Num(if IsTrueWord(t) then 1 else 0))
      case Integer => Some(Num(Clamped(NumberOr0(ParseInt(t)), o.min, o.max)))
      case String => Some(Text(t))
      case Color => Some(Num(NumberOr0(o.colors.assign(t))))
      case Enum => Some(Num(NumberOr0(IndexFrom(o.strings, t, 0))))
  }

  /** The bounds and the type that an option really gets: an integer with a list
      of strings is an enum. */
  function Completed(o: Spec): Spec {
    if o.kind.Boolean? then o.(min := 0, max := 1)
    else if o.kind.Enum? || (o.kind.Integer? && o.strings != []) then o.(kind := Enum, min := 0, max := |o.strings| - 1)
    else o
  }

  /** config_file_new_option, as far as the value goes: None is an error. */
  function Create(o: Spec, default: Option<string>, value: Option<string>): Option<(Spec, State)> {
    var c := Completed(o);
    if c.kind.Enum? && c.strings == [] then None
    else if c.nullAllowed then Some((c, State(Initial(c, value), Initial(c, default))))
    else
      var v := if value.None? then default else value;
      var d := if default.None? then value else default;
      if v.None? then None else Some((c, State(Initial(c, v), Initial(c, d))))
  }

  // ----- from value to text

  /** A value that has a text. */
  predicate Writable(o: Spec, v: Option<Value>) {
    && WellFormed(o) && Typed(o.kind, v)
    && (o.kind.Enum? && v.Some? ==> 0 <= v.value.n < |o.strings|)
  }

  /** config_file_option_value_to_string, without colors and delimiters. */
  function Rendered(o: Spec, v: Option<Value>): string
    requires Writable(o, v)
  {
    match v
    case None => "null"
    case Some(Text(s)) => s
    case Some(Num(n)) =>
      match o.kind
      case Boolean => if n != 0 then "on" else "off"
      case Integer => IntText(n)
      case Color => o.colors.name(n)
      case Enum => o.strings[n]
  }

  // ----- toggling

  /** The place of the current value in a list of values. */
  function PlaceFrom(o: Spec, v: Option<Value>, values: seq<Option<string>>, i: nat): (r: Option<nat>)
    requires Writable(o, v) && i <= |values|
    ensures r.Some? ==> i <= r.value < |values|
    decreases |values| - i
  {
    if i == |values| then None
    else if (v.None? && values[i].None?) || (v.Some? && values[i] == Some(Rendered(o, v))) then Some(i)
    else PlaceFrom(o, v, values, i + 1)
  }

  /** What a toggle does next: set a text (or null), reset, or nothing. */
  datatype Choice = Assign(text: Option<string>) | ResetValue | Refuse

  function NextListed(o: Spec, v: Option<Value>, values: seq<Option<string>>): Choice
    requires Writable(o, v) && |values| > 0
  {
    match PlaceFrom(o, v, values, 0)
    case None => Assign(values[0])
    case Some(i) =>
      if i + 1 < |values| then Assign(values[i + 1])
      else if |values| < 2 then ResetValue
      else Assign(values[0])
  }

  function NextValue(o: Spec, s: State, values: Option<seq<Option<string>>>): Choice
    requires TypedState(o, s)
    requires o.kind.Enum? && s.value.Some? ==> 0 <= s.value.value.n < |o.strings|
    requires values.Some? ==> |values.value| > 0
  {
    match values
    case Some(list) => NextListed(o, s.value, list)
    case None =>
      match o.kind
      case Boolean => Assign(Some(if s.value.Some? && s.value.value.n != 0 then "off" else "on"))
      case String => Assign(if s.value == Some(Text("")) then DefaultText(s) else Some(""))
      case _ => Refuse
  }

  function DefaultText(s: State): Option<string>
    requires Typed(String, s.default)
  {
    match s.default
    case Some(v) => Some(v.s)
    case None => None
  }

  function Toggle(o: Spec, s: State, values: Option<seq<Option<string>>>): (State, Rc)
    requires TypedState(o, s)
    requires o.kind.Enum? && s.value.Some? ==> 0 <= s.value.value.n < |o.strings|
    requires values.Some? ==> |values.value| > 0
  {
    match NextValue(o, s, values)
    case Assign(text) => Set(o, s, text)
    case ResetValue => Reset(o, s)
    case Refuse => (s, Error)
  }
}
