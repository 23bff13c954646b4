/** What setting, toggling, resetting and creating an option means to the user, text
    by text: the number that a step leads to, the words of a boolean, the refusals. */
module OptionMeaning {
  import opened Wrappers
  import opened Digits
  import opened OptionValue
  import opened OptionLaws

  /** The text is accepted and the option has the value v. */
  predicate Gives(o: Spec, s: State, text: Option<string>, v: Option<Value>)
    requires WellFormed(o)
  {
    Set(o, s, text) == (State(v, s.default), if v == s.value then Same else Changed)
  }

  /** The text is refused, and nothing changes. */
  predicate Refuses(o: Spec, s: State, text: Option<string>)
    requires WellFormed(o)
  {
    Set(o, s, text) == (s, Error)
  }

  /** A text is accepted with the value it is read as. */
  lemma AsParsed(o: Spec, s: State, t: string)
    requires WellFormed(o) && o.check(Some(t))
    ensures var v := Parsed(o, s.value, t);
      if v.Some? then Gives(o, s, Some(t), v) else Refuses(o, s, Some(t))
  {
  }

  // ----- any kind of option

  /** What the check callback does not accept is refused. */
  lemma CheckComesFirst(o: Spec, s: State, text: Option<string>)
    requires Sound(o, s) && !o.check(text)
    ensures Refuses(o, s, text)
  {
  }

  /** NULL: the option is null then, if it may be; otherwise it stays as it is. */
  lemma NullText(o: Spec, s: State)
    requires Sound(o, s) && o.check(None)
    ensures Gives(o, s, None, if o.nullAllowed then None else s.value)
  {
  }

  lemma StringText(o: Spec, s: State, t: string)
    requires Sound(o, s) && o.kind.String? && o.check(Some(t))
    ensures Gives(o, s, Some(t), Some(Text(t)))
  {
  }

  // ----- booleans

  /** Twelve words, and "toggle", which makes off, and null, on. */
  lemma BooleanText(o: Spec, s: State, t: string)
    requires Sound(o, s) && o.kind.Boolean? && o.check(Some(t))
    ensures t in ["on", "yes", "y", "true", "t", "1"] ==> Gives(o, s, Some(t), Some(Num(1)))
    ensures t in ["off", "no", "n", "false", "f", "0"] ==> Gives(o, s, Some(t), Some(Num(0)))
    ensures t == "toggle" ==> Gives(o, s, Some(t), Some(Num(1 - Number(s.value))))
    ensures t !in ["on", "yes", "y", "true", "t", "1", "off", "no", "n", "false", "f", "0", "toggle"] ==>
      Refuses(o, s, Some(t))
  {
  }

  // ----- integers

  lemma SignsOfText(n: int)
    requires INT_MIN <= n <= INT_MAX
    ensures !StartsWith(IntText(n), "++") && !StartsWith(IntText(n), "--")
  {
    var t := IntText(n);
    IntTextParsed(n);
    assert "++"[1] == '+' && "--"[1] == '-';
    assert |t| >= 2 ==> t[..2][1] == t[1];
  }

  /** A number is the value, if it is in the range. */
  lemma IntegerText(o: Spec, s: State, n: int)
    requires Sound(o, s) && o.kind.Integer? && o.check(Some(IntText(n))) && INT_MIN <= n <= INT_MAX
    ensures if o.min <= n <= o.max then Gives(o, s, Some(IntText(n)), Some(Num(n))) else Refuses(o, s, Some(IntText(n)))
  {
    IntTextParsed(n);
    SignsOfText(n);
  }

  // ----- the text of an integer

  /** Blanks are a space and the five control characters from the tab on. */
  predicate AllBlank(s: string) {
    forall i :: 0 <= i < |s| ==> s[i] == ' ' || 9 <= s[i] as int <= 13
  }

  lemma {:induction false} BlanksSkipped(blanks: string, s: string)
    requires AllBlank(blanks) && (s != "" ==> !IsBlank(s[0]))
    ensures SkipBlanks(blanks + s) == s
  {
    if blanks == "" {
      assert blanks + s == s;
    } else {
      assert (blanks + s)[1..] == blanks[1..] + s;
      BlanksSkipped(blanks[1..], s);
    }
  }

  lemma SignedDigits(sign: string, digits: string)
    requires sign == "" || sign == "+" || sign == "-"
    requires digits != "" && AllDigits(digits)
    ensures var s, n := sign + digits, if sign == "-" then -(Natural(digits) as int) else Natural(digits);
      && s != "" && !IsBlank(s[0])
      && ParseInt(s) == if INT_MIN <= n <= INT_MAX then Some(n) else None
  {
    var s := sign + digits;
    if sign == "" {
      assert s == digits;
    } else {
      assert s[0] == sign[0] && s[1..] == digits;
    }
  }

  /** Blanks, a sign or none, and digits make an integer, if it is an int32. */
  lemma IntegerForm(blanks: string, sign: string, digits: string)
    requires AllBlank(blanks) && (sign == "" || sign == "+" || sign == "-")
    requires digits != "" && AllDigits(digits)
    ensures var n := if sign == "-" then -(Natural(digits) as int) else Natural(digits);
      ParseInt(blanks + (sign + digits)) == if INT_MIN <= n <= INT_MAX then Some(n) else None
  {
    SignedDigits(sign, digits);
    BlanksSkipped(blanks, sign + digits);
    SkippedBefore(sign + digits);
  }

  lemma SkippedBefore(s: string)
    requires s != "" && !IsBlank(s[0])
    ensures SkipBlanks(s) == s
  {
  }

  lemma {:induction false} BlanksBefore(s: string) returns (blanks: string)
    ensures AllBlank(blanks) && s == blanks + SkipBlanks(s)
  {
    if s != "" && IsBlank(s[0]) {
      blanks := BlanksBefore(s[1..]);
      blanks := [s[0]] + blanks;
    } else {
      blanks := "";
    }
  }

  /** Nothing else is an integer. */
  lemma OnlyIntegerForm(t: string) returns (blanks: string, sign: string, digits: string)
    requires ParseInt(t).Some?
    ensures AllBlank(blanks) && (sign == "" || sign == "+" || sign == "-")
    ensures digits != "" && AllDigits(digits) && t == blanks + (sign + digits)
  {
    blanks := BlanksBefore(t);
    var s := SkipBlanks(t);
    if s[0] == '-' || s[0] == '+' {
      sign, digits := [s[0]], s[1..];
    } else {
      sign, digits := "", s;
    }
  }

  /** What is no number and no step is refused. */
  lemma NoIntegerText(o: Spec, s: State, t: string)
    requires Sound(o, s) && o.kind.Integer? && !IsStep(o, t) && ParseInt(t).None?
    ensures Refuses(o, s, Some(t))
  {
  }

  lemma StepText(sign: string, n: int)
    requires sign == "++" || sign == "--"
    ensures StartsWith(sign + IntText(n), sign) && (sign + IntText(n))[2..] == IntText(n)
    ensures StartsWith(sign + IntText(n), "++") <==> sign == "++"
    ensures StartsWith(sign + IntText(n), "--") <==> sign == "--"
  {
    var t := sign + IntText(n);
    assert t[..2] == sign && "++"[0] == '+' && "--"[0] == '-';
  }

  /** A step in its parts. */
  ghost predicate IsStepBy(t: string, sign: string, n: int) {
    && (sign == "++" || sign == "--") && StartsWith(t, sign) && ParseInt(t[2..]) == Some(n)
    && (StartsWith(t, "++") <==> sign == "++") && (StartsWith(t, "--") <==> sign == "--")
  }

  lemma StepRead(sign: string, n: int)
    requires (sign == "++" || sign == "--") && INT_MIN <= n <= INT_MAX
    ensures IsStepBy(sign + IntText(n), sign, n)
  {
    StepText(sign, n);
    IntTextParsed(n);
  }

  lemma IntegerStep(o: Spec, was: Option<Value>, t: string, sign: string, n: int)
    requires WellFormed(o) && o.kind.Integer? && IsStepBy(t, sign, n)
    ensures Parsed(o, was, t) ==
      if sign == "++" then if Number(was) + n <= o.max then Some(Num(Number(was) + n)) else None
      else if Number(was) - n >= o.min then Some(Num(Number(was) - n)) else None
  {
  }

  lemma IntegerUpBy(o: Spec, s: State, t: string, n: int)
    requires Sound(o, s) && o.kind.Integer? && o.check(Some(t))
    requires INT_MIN <= n <= INT_MAX && t == "++" + IntText(n)
    ensures var v := Number(s.value);
      if v + n <= o.max then Gives(o, s, Some(t), Some(Num(v + n))) else Refuses(o, s, Some(t))
  {
    StepRead("++", n);
    IntegerStep(o, s.value, t, "++", n);
    AsParsed(o, s, t);
  }

  lemma IntegerDownBy(o: Spec, s: State, t: string, n: int)
    requires Sound(o, s) && o.kind.Integer? && o.check(Some(t))
    requires INT_MIN <= n <= INT_MAX && t == "--" + IntText(n)
    ensures var v := Number(s.value);
      if v - n >= o.min then Gives(o, s, Some(t), Some(Num(v - n))) else Refuses(o, s, Some(t))
  {
    StepRead("--", n);
    IntegerStep(o, s.value, t, "--", n);
    AsParsed(o, s, t);
  }

  /** Up by n, if that does not pass the maximum; null counts as 0. */
  lemma IntegerUp(o: Spec, s: State, n: int)
    requires Sound(o, s) && o.kind.Integer? && o.check(Some("++" + IntText(n))) && INT_MIN <= n <= INT_MAX
    ensures var v := if s.value.None? then 0 else s.value.value.n;
      if v + n <= o.max then Gives(o, s, Some("++" + IntText(n)), Some(Num(v + n)))
      else Refuses(o, s, Some("++" + IntText(n)))
  {
    IntegerUpBy(o, s, "++" + IntText(n), n);
  }

  /** Down by n, if that does not pass the minimum. */
  lemma IntegerDown(o: Spec, s: State, n: int)
    requires Sound(o, s) && o.kind.Integer? && o.check(Some("--" + IntText(n))) && INT_MIN <= n <= INT_MAX
    ensures var v := if s.value.None? then 0 else s.value.value.n;
      if v - n >= o.min then Gives(o, s, Some("--" + IntText(n)), Some(Num(v - n)))
      else Refuses(o, s, Some("--" + IntText(n)))
  {
    IntegerDownBy(o, s, "--" + IntText(n), n);
  }

  /** A step by what is no number is refused, also for enums and colors. */
  lemma BadStep(o: Spec, s: State, sign: string, t: string)
    requires Sound(o, s) && (o.kind.Integer? || o.kind.Enum? || o.kind.Color?)
    requires (sign == "++" || sign == "--") && ParseInt(t).None?
    ensures Refuses(o, s, Some(sign + t))
  {
    assert (sign + t)[..2] == sign && (sign + t)[2..] == t;
  }

  // ----- enums

  /** A name is the first of that name. */
  lemma EnumText(o: Spec, s: State, i: nat)
    requires Sound(o, s) && o.kind.Enum? && i < |o.strings| && o.strings[i] !in o.strings[..i]
    requires o.check(Some(o.strings[i])) && !IsStep(o, o.strings[i])
    ensures Gives(o, s, Some(o.strings[i]), Some(Num(i)))
  {
    var k := IndexFrom(o.strings, o.strings[i], 0);
    assert forall j :: 0 <= j < i ==> o.strings[..i][j] == o.strings[j];
    assert k == Some(i);
  }

  lemma NoEnumText(o: Spec, s: State, t: string)
    requires Sound(o, s) && o.kind.Enum? && t !in o.strings && !IsStep(o, t)
    ensures Refuses(o, s, Some(t))
  {
  }

  /** A remainder is known by what it has to be. */
  lemma RemainderIs(x: int, q: int, r: int, c: int)
    requires c > 0 && x == c * q + r && 0 <= r < c
    ensures x % c == r
  {
    var p, m := x / c, x % c;
    assert x == c * p + m;
    SameQuotient(c, p, m, q, r);
  }

  /** The remainder of C for n, in the shape of a sum. */
  lemma RemIs(n: int, c: int) returns (q: int)
    requires c > 0
    ensures n == c * q + Rem(n, c) && -c < Rem(n, c) < c && (n >= 0 ==> Rem(n, c) >= 0)
    ensures n < 0 ==> Rem(n, c) == -((-n) % c)
  {
    var m := if n >= 0 then n else -n;
    q := if n >= 0 then m / c else -(m / c);
    assert m == c * (m / c) + m % c;
    assert c * -(m / c) == -(c * (m / c));
  }

  /** x is n times c away from r, and r is less than c away from the interval of the
      remainders. */
  lemma NearRemainder(x: int, q: int, r: int, c: int)
    requires c > 0 && x == c * q + r && -c <= r < 2 * c
    ensures x % c == if r < 0 then r + c else if r < c then r else r - c
  {
    assert c * (q - 1) == c * q - c && c * (q + 1) == c * q + c;
    if r < 0 {
      RemainderIs(x, q - 1, r + c, c);
    } else if r < c {
      RemainderIs(x, q, r, c);
    } else {
      RemainderIs(x, q + 1, r - c, c);
    }
  }

  lemma RemOfNear(r: int, c: int)
    requires c > 0 && -c < r < 2 * c
    ensures Rem(r, c) == if r < c then r else r - c
  {
    if r >= 0 {
      NearRemainder(r, 0, r, c);
    } else {
      NearRemainder(-r, 0, -r, c);
    }
  }

  lemma RemainderOfSum(v: int, n: int, c: int)
    requires c > 0 && 0 <= v < c
    ensures var r := Rem(v + Rem(n, c), c);
      if n >= 0 || v >= (-n) % c then r == (v + n) % c else r < 0
  {
    var q := RemIs(n, c);
    RemOfNear(v + Rem(n, c), c);
    NearRemainder(v + n, q, v + Rem(n, c), c);
  }

  lemma EnumStepUp(o: Spec, was: Option<Value>, t: string, n: int)
    requires SoundValue(o, was) && o.kind.Enum? && IsStepBy(t, "++", n)
    ensures var v, c := Number(was), |o.strings|;
      Parsed(o, was, t) == if n >= 0 || v >= (-n) % c then Some(Num((v + n) % c)) else None
  {
    RemainderOfSum(Number(was), n, |o.strings|);
    assert 0 <= (Number(was) + n) % |o.strings|;
  }

  lemma EnumUpBy(o: Spec, s: State, t: string, n: int)
    requires Sound(o, s) && o.kind.Enum? && o.check(Some(t)) && INT_MIN <= n <= INT_MAX && t == "++" + IntText(n)
    ensures var v, c := Number(s.value), |o.strings|;
      if n >= 0 || v >= (-n) % c then Gives(o, s, Some(t), Some(Num((v + n) % c))) else Refuses(o, s, Some(t))
  {
    StepRead("++", n);
    EnumStepUp(o, s.value, t, n);
    AsParsed(o, s, t);
  }

  /** Up by n names, going round; up by a negative amount only as far as the first
      name. */
  lemma EnumUp(o: Spec, s: State, n: int)
    requires Sound(o, s) && o.kind.Enum? && o.check(Some("++" + IntText(n))) && INT_MIN <= n <= INT_MAX
    ensures var v, c := if s.value.None? then 0 else s.value.value.n, |o.strings|;
      if n >= 0 || v >= (-n) % c then Gives(o, s, Some("++" + IntText(n)), Some(Num((v + n) % c)))
      else Refuses(o, s, Some("++" + IntText(n)))
  {
    EnumUpBy(o, s, "++" + IntText(n), n);
  }

  lemma RemainderOfDifference(v: int, n: int, c: int)
    requires c > 0 && 0 <= v < c
    ensures Rem(v + c - Rem(n, c), c) == (v - n) % c
  {
    var q := RemIs(n, c);
    var r := v + c - Rem(n, c);
    assert c * (-q - 1) == -(c * q) - c;
    if r < 2 * c {
      RemOfNear(r, c);
      NearRemainder(v - n, -q - 1, r, c);
    } else {
      assert c * -q == -(c * q) && c * (-q + 1) == -(c * q) + c;
      RemainderIs(r, 2, r - 2 * c, c);
      RemainderIs(v - n, -q + 1, r - 2 * c, c);
    }
  }

  lemma EnumDownParsed(o: Spec, was: Option<Value>, t: string, n: int, c: int)
    requires c == o.max + 1 > 0 && IsStepBy(t, "--", n)
    ensures ParsedEnum(o, was, t) == NonNegative(Rem(Number(was) + c - Rem(n, c), c))
  {
  }

  lemma AsNumber(r: int)
    requires r >= 0
    ensures AsValue(NonNegative(r)) == Some(Num(r))
  {
  }

  lemma EnumStepDown(o: Spec, was: Option<Value>, t: string, n: int)
    requires SoundValue(o, was) && o.kind.Enum? && IsStepBy(t, "--", n)
    ensures Parsed(o, was, t) == Some(Num((Number(was) - n) % |o.strings|))
  {
    EnumDownParsed(o, was, t, n, |o.strings|);
    RemainderOfDifference(Number(was), n, |o.strings|);
    AsNumber((Number(was) - n) % |o.strings|);
  }

  lemma EnumDownStep(o: Spec, s: State, t: string, n: int, r: int)
    requires Sound(o, s) && o.kind.Enum? && o.check(Some(t)) && IsStepBy(t, "--", n)
    requires r == (Number(s.value) - n) % |o.strings|
    ensures Gives(o, s, Some(t), Some(Num(r)))
  {
    EnumStepDown(o, s.value, t, n);
    AsParsed(o, s, t);
  }

  lemma EnumDownBy(o: Spec, s: State, t: string, n: int, r: int)
    requires Sound(o, s) && o.kind.Enum? && o.check(Some(t)) && INT_MIN <= n <= INT_MAX
    requires t == "--" + IntText(n) && r == (Number(s.value) - n) % |o.strings|
    ensures Gives(o, s, Some(t), Some(Num(r)))
  {
    StepRead("--", n);
    EnumDownStep(o, s, t, n, r);
  }

  /** Down by n names, going round, whatever the sign of n. */
  lemma EnumDown(o: Spec, s: State, n: int)
    requires Sound(o, s) && o.kind.Enum? && o.check(Some("--" + IntText(n))) && INT_MIN <= n <= INT_MAX
    ensures var v, c := if s.value.None? then 0 else s.value.value.n, |o.strings|;
      Gives(o, s, Some("--" + IntText(n)), Some(Num((v - n) % c)))
  {
    var v, c := if s.value.None? then 0 else s.value.value.n, |o.strings|;
    assert Number(s.value) == v;
    EnumDownBy(o, s, "--" + IntText(n), n, (v - n) % c);
  }

  // ----- colors

  /** A name is looked up, and a step goes from the name of the color that there is. */
  lemma ColorText(o: Spec, s: State, t: string)
    requires Sound(o, s) && o.kind.Color? && o.check(Some(t)) && !IsStep(o, t)
    ensures match o.colors.assign(t)
      case Some(n) => Gives(o, s, Some(t), Some(Num(n)))
      case None => Refuses(o, s, Some(t))
  {
  }

  lemma ColorStep(o: Spec, s: State, sign: string, n: int)
    requires Sound(o, s) && o.kind.Color? && (sign == "++" || sign == "--") && INT_MIN <= n <= INT_MAX
    requires o.check(Some(sign + IntText(n)))
    ensures var name := o.colors.name(if s.value.None? then 0 else s.value.value.n);
      match o.colors.shift(name, if sign == "++" then n else -n)
      case Some(m) => Gives(o, s, Some(sign + IntText(n)), Some(Num(m)))
      case None => Refuses(o, s, Some(sign + IntText(n)))
  {
    StepRead(sign, n);
    ColorStepRead(o, s.value, sign + IntText(n), sign, n);
    AsParsed(o, s, sign + IntText(n));
  }

  lemma ColorStepRead(o: Spec, was: Option<Value>, t: string, sign: string, n: int)
    requires WellFormed(o) && o.kind.Color? && IsStepBy(t, sign, n)
    ensures Parsed(o, was, t)
         == AsValue(o.colors.shift(o.colors.name(Number(was)), if sign == "++" then n else -n))
  {
  }

  // ----- other operations

  lemma SameInteger(o: Spec, p: Spec, was: Option<Value>, t: string)
    requires p.min == o.min && p.max == o.max
    ensures ParsedInteger(p, was, t) == ParsedInteger(o, was, t)
  {
  }

  lemma SameEnum(o: Spec, p: Spec, was: Option<Value>, t: string)
    requires p.max == o.max >= 0 && p.strings == o.strings
    ensures ParsedEnum(p, was, t) == ParsedEnum(o, was, t)
  {
  }

  lemma SameParsed(o: Spec, p: Spec, was: Option<Value>, t: string)
    requires WellFormed(o) && p == o.(check := p.check)
    ensures WellFormed(p) && Parsed(p, was, t) == Parsed(o, was, t)
  {
    if o.kind.Integer? {
      SameInteger(o, p, was, t);
    } else if o.kind.Enum? {
      SameEnum(o, p, was, t);
    }
  }

  /** Setting the default value is setting a value, but the check callback is not
      asked, and the value stays. */
  lemma DefaultText(o: Spec, s: State, text: Option<string>)
    requires Sound(o, s)
    ensures var (t, rc) := Set(o.(check := _ => true), State(s.default, s.value), text);
      SetDefault(o, s, text) == (State(s.value, t.value), rc)
  {
    if text.Some? {
      SameParsed(o, o.(check := _ => true), s.default, text.value);
    }
  }

  lemma NullSet(o: Spec, s: State)
    requires Sound(o, s)
    ensures !o.nullAllowed ==> SetNull(o, s) == (s, Error)
    ensures o.nullAllowed ==> SetNull(o, s) == (State(None, s.default), if s.value == None then Same else Changed)
  {
  }

  lemma ResetSet(o: Spec, s: State)
    requires Sound(o, s)
    ensures Reset(o, s) == (State(s.default, s.default), if s.value == s.default then Same else Changed)
  {
  }

  /** A toggle without a list makes a boolean the other one, and null on; a second
      one brings it back. */
  lemma BooleanToggle(o: Spec, s: State)
    requires Sound(o, s) && o.kind.Boolean? && o.check(Some("on")) && o.check(Some("off"))
    ensures Toggle(o, s, None) == (State(Some(Num(1 - Number(s.value))), s.default), Changed)
    ensures s.value.Some? ==> Toggle(o, Toggle(o, s, None).0, None).0 == s
  {
  }

  /** A string becomes empty, and the empty string becomes the default. */
  lemma StringToggle(o: Spec, s: State)
    requires Sound(o, s) && o.kind.String? && forall t :: o.check(t)
    ensures s.value != Some(Text("")) ==> Toggle(o, s, None) == (State(Some(Text("")), s.default), Changed)
    ensures s.value == Some(Text("")) ==>
      Toggle(o, s, None) == (State(s.default, s.default), if s.default == Some(Text("")) then Same else Changed)
    ensures s.value == s.default ==> Toggle(o, Toggle(o, s, None).0, None).0 == s
  {
  }

  /** The other kinds of option need a list of values. */
  lemma OthersDoNotToggle(o: Spec, s: State)
    requires Sound(o, s) && (o.kind.Integer? || o.kind.Enum? || o.kind.Color?)
    ensures Toggle(o, s, None) == (s, Error)
  {
  }

  /** Whether a text of a list is the value of an option as users see it, or null. */
  predicate IsValue(o: Spec, v: Option<Value>, t: Option<string>)
    requires SoundValue(o, v)
  {
    t == if v.None? then None else Some(Rendered(o, v))
  }

  lemma {:induction false} FirstPlace(o: Spec, v: Option<Value>, values: seq<Option<string>>, i: nat, k: nat)
    requires SoundValue(o, v) && k <= i < |values| && IsValue(o, v, values[i])
    requires forall j :: k <= j < i ==> !IsValue(o, v, values[j])
    ensures PlaceFrom(o, v, values, k) == Some(i)
    decreases i - k
  {
    if k < i {
      assert !IsValue(o, v, values[k]);
      FirstPlace(o, v, values, i, k + 1);
    }
  }

  /** A toggle with a list sets what comes behind the first place of the value, at the
      end of the list its first text, and resets with a list of one. */
  lemma ListToggle(o: Spec, s: State, values: seq<Option<string>>, i: nat)
    requires Sound(o, s) && i < |values| && IsValue(o, s.value, values[i])
    requires forall j :: 0 <= j < i ==> !IsValue(o, s.value, values[j])
    ensures Toggle(o, s, Some(values)) ==
      if |values| == 1 then Reset(o, s) else Set(o, s, values[(i + 1) % |values|])
  {
    FirstPlace(o, s.value, values, i, 0);
    assert i + 1 < |values| ==> (i + 1) % |values| == i + 1;
    assert i + 1 == |values| ==> (i + 1) % |values| == 0;
  }

  lemma {:induction false} NoPlace(o: Spec, v: Option<Value>, values: seq<Option<string>>, k: nat)
    requires SoundValue(o, v) && k <= |values| && forall j :: k <= j < |values| ==> !IsValue(o, v, values[j])
    ensures PlaceFrom(o, v, values, k) == None
    decreases |values| - k
  {
    if k < |values| {
      assert !IsValue(o, v, values[k]);
      NoPlace(o, v, values, k + 1);
    }
  }

  /** A value that is not in the list: its first text is set. */
  lemma UnlistedToggle(o: Spec, s: State, values: seq<Option<string>>)
    requires Sound(o, s) && values != [] && forall j :: 0 <= j < |values| ==> !IsValue(o, s.value, values[j])
    ensures Toggle(o, s, Some(values)) == Set(o, s, values[0])
  {
    NoPlace(o, s.value, values, 0);
  }
}
