/** The branches by which a text becomes the value of an option, type by type.
    The value and the default value of an option are treated in the same way. */
module OptionSetter {
  import opened Wrappers
  import opened OptionValue

  const BOOLEAN_TRUE: seq<string> := ["on", "yes", "y", "true", "t", "1"]
  const BOOLEAN_FALSE: seq<string> := ["off", "no", "n", "false", "f", "0"]

  /** A linear search; the place is the length if there is none. */
  method FindString(strings: seq<string>, s: string) returns (i: nat)
    ensures i <= |strings| && s !in strings[..i]
    ensures i < |strings| ==> strings[i] == s
  {
    i := 0;
    while i < |strings| && strings[i] != s
      invariant i <= |strings| && s !in strings[..i]
    {
      i := i + 1;
    }
  }

  /** config_file_string_boolean_is_valid. */
  method StringBooleanIsValid(text: string) returns (ok: bool)
    ensures ok <==> IsTrueWord(text) || IsFalseWord(text)
  {
    var i := FindString(BOOLEAN_TRUE, text);
    if i < |BOOLEAN_TRUE| {
      return true;
    }
    var j := FindString(BOOLEAN_FALSE, text);
    ok := j < |BOOLEAN_FALSE|;
    assert BOOLEAN_TRUE[..|BOOLEAN_TRUE|] == BOOLEAN_TRUE && BOOLEAN_FALSE[..|BOOLEAN_FALSE|] == BOOLEAN_FALSE;
  }

  /** config_file_string_to_boolean. */
  method StringToBoolean(text: string) returns (value: bool)
    ensures value <==> IsTrueWord(text)
  {
    var i := FindString(BOOLEAN_TRUE, text);
    value := i < |BOOLEAN_TRUE|;
    assert BOOLEAN_TRUE[..|BOOLEAN_TRUE|] == BOOLEAN_TRUE;
  }

  method AssignBoolean(o: Spec, was: Option<Value>, text: string) returns (now: Option<Value>, rc: Rc)
    requires WellFormed(o) && o.kind.Boolean? && Typed(Boolean, was)
    ensures (now, rc) == Assigned(o, was, text)
  {
    now, rc := was, Error;
    var valid := StringBooleanIsValid(text);
    var truth := StringToBoolean(text);
    var number := if truth then 1 else 0;
    if was.None? {
      if text == "toggle" {
        now, rc := Some(Num(1)), Changed;
      } else if valid {
        now, rc := Some(Num(number)), Changed;
      }
    } else if text == "toggle" {
      now, rc := Some(Num(if was.value.n == 1 then 0 else 1)), Changed;
    } else if valid {
      if number == was.value.n {
        rc := Same;
      } else {
        now, rc := Some(Num(number)), Changed;
      }
    }
  }

  /** The end of the branches of integers, colors and enums: a null value counts
      as 0, but 0 in its place is a change. */
  method Finish(was: Option<Value>, oldNumber: int, ok: bool, number: int) returns (now: Option<Value>, rc: Rc)
    requires (was.Some? ==> was.value.Num?) && oldNumber == Number(was)
    ensures (now, rc) ==
      if !ok then (was, Error)
      else if was == Some(Num(number)) then (was, Same)
      else (Some(Num(number)), Changed)
  {
    now, rc := was, Error;
    if ok {
      if was.None? || number != oldNumber {
        now, rc := Some(Num(number)), Changed;
      } else {
        rc := Same;
      }
    }
  }

  method AssignInteger(o: Spec, was: Option<Value>, text: string) returns (now: Option<Value>, rc: Rc)
    requires WellFormed(o) && o.kind.Integer? && Typed(Integer, was)
    ensures (now, rc) == Assigned(o, was, text)
  {
    var oldNumber, number, ok := 0, 0, false;
    if was.Some? {
      oldNumber := was.value.n;
    }
    if StartsWith(text, "++") {
      var n := ParseInt(text[2..]);
      if n.Some? && oldNumber + n.value <= o.max {
        number, ok := oldNumber + n.value, true;
      }
    } else if StartsWith(text, "--") {
      var n := ParseInt(text[2..]);
      if n.Some? && oldNumber - n.value >= o.min {
        number, ok := oldNumber - n.value, true;
      }
    } else {
      var n := ParseInt(text);
      if n.Some? && n.value >= o.min && n.value <= o.max {
        number, ok := n.value, true;
      }
    }
    now, rc := Finish(was, oldNumber, ok, number);
  }

  method AssignString(o: Spec, was: Option<Value>, text: string) returns (now: Option<Value>, rc: Rc)
    requires WellFormed(o) && o.kind.String? && Typed(String, was)
    ensures (now, rc) == Assigned(o, was, text)
  {
    rc := Same;
    if was.None? || was.value.s != text {
      rc := Changed;
    }
    now := Some(Text(text));
  }

  method AssignColor(o: Spec, was: Option<Value>, text: string) returns (now: Option<Value>, rc: Rc)
    requires WellFormed(o) && o.kind.Color? && Typed(Color, was)
    ensures (now, rc) == Assigned(o, was, text)
  {
    var oldNumber := 0;
    if was.Some? {
      oldNumber := was.value.n;
    }
    var color: Option<int> := None;
    if StartsWith(text, "++") {
      var n := ParseInt(text[2..]);
      if n.Some? {
        color := o.colors.shift(o.colors.name(oldNumber), n.value);
      }
    } else if StartsWith(text, "--") {
      var n := ParseInt(text[2..]);
      if n.Some? {
        color := o.colors.shift(o.colors.name(oldNumber), -n.value);
      }
    } else {
      color := o.colors.assign(text);
    }
    now, rc := Finish(was, oldNumber, color.Some?, NumberOr0(color));
  }

  method AssignEnum(o: Spec, was: Option<Value>, text: string) returns (now: Option<Value>, rc: Rc)
    requires WellFormed(o) && o.kind.Enum? && Typed(Enum, was)
    ensures (now, rc) == Assigned(o, was, text)
  {
    var oldNumber, number := 0, -1;
    if was.Some? {
      oldNumber := was.value.n;
    }
    var count := o.max + 1;
    if StartsWith(text, "++") {
      var n := ParseInt(text[2..]);
      if n.Some? {
        number := Rem(oldNumber + Rem(n.value, count), count);
      }
    } else if StartsWith(text, "--") {
      var n := ParseInt(text[2..]);
      if n.Some? {
        number := Rem(oldNumber + count - Rem(n.value, count), count);
      }
    } else {
      var i := FindString(o.strings, text);
      IndexIs(o.strings, text, i, 0);
      if i < |o.strings| {
        number := i;
      }
    }
    now, rc := Finish(was, oldNumber, number >= 0, number);
  }

  lemma {:induction false} IndexIs(strings: seq<string>, s: string, i: nat, k: nat)
    requires k <= i <= |strings| && s !in strings[..i] && (i < |strings| ==> strings[i] == s)
    ensures IndexFrom(strings, s, k) == if i < |strings| then Some(i) else None
    decreases i - k
  {
    if k < i {
      assert strings[k] in strings[..i];
      IndexIs(strings, s, i, k + 1);
    }
  }

  method Assign(o: Spec, was: Option<Value>, text: string) returns (now: Option<Value>, rc: Rc)
    requires WellFormed(o) && Typed(o.kind, was)
    ensures (now, rc) == Assigned(o, was, text)
  {
    match o.kind {
      case Boolean => now, rc := AssignBoolean(o, was, text);
      case Integer => now, rc := AssignInteger(o, was, text);
      case String => now, rc := AssignString(o, was, text);
      case Color => now, rc := AssignColor(o, was, text);
      case Enum => now, rc := AssignEnum(o, was, text);
    }
    if was.None? && now.Some? {
      rc := Changed;
    }
  }

  /** The branch of a NULL text. */
  method AssignNull(o: Spec, was: Option<Value>) returns (now: Option<Value>, rc: Rc)
    ensures (now, rc) == Nulled(o, was)
  {
    now, rc := was, Same;
    if o.nullAllowed && was.Some? {
      now, rc := None, Changed;
    }
  }

  /** The branches of config_file_option_reset: a null value becomes the default,
      which is a change even where the value is first set to 0. */
  method ResetValue(o: Spec, s: State) returns (now: Option<Value>, rc: Rc)
    requires TypedState(o, s)
    ensures (s.(value := now), rc) == Reset(o, s)
  {
    now, rc := s.value, Error;
    if s.default.Some? {
      var wasNull := s.value.None?;
      match o.kind {
        case Boolean =>
          if s.value.None? {
            now, rc := s.default, Changed;
          } else if s.value.value.n == s.default.value.n {
            rc := Same;
          } else {
            now, rc := s.default, Changed;
          }
        case String =>
          rc := Same;
          if s.value.None? || s.value.value.s != s.default.value.s {
            rc := Changed;
          }
          now := s.default;
        case _ =>
          if s.value.None? {
            now := Some(Num(0));
          }
          if now.value.n == s.default.value.n {
            rc := Same;
          } else {
            now, rc := s.default, Changed;
          }
      }
      if wasNull && now.Some? {
        rc := Changed;
      }
    } else if o.nullAllowed {
      if s.value.Some? {
        now, rc := None, Changed;
      } else {
        rc := Same;
      }
    }
  }

  /** The loop of config_file_option_toggle over the values. */
  method FindValue(o: Spec, v: Option<Value>, values: seq<Option<string>>) returns (found: int)
    requires Writable(o, v)
    ensures PlaceFrom(o, v, values, 0) == if found >= 0 then Some(found) else None
  {
    var current := Rendered(o, v);
    var i := 0;
    while i < |values|
      invariant i <= |values|
      invariant PlaceFrom(o, v, values, 0) == PlaceFrom(o, v, values, i)
    {
      if (v.None? && values[i].None?) || (v.Some? && values[i].Some? && current == values[i].value) {
        return i;
      }
      i := i + 1;
    }
    found := -1;
  }

  /** What a toggle is to do: reset the value or set a text; it stops early if it
      is given no values and the type needs some. */
  method ChooseValue(o: Spec, s: State, values: Option<seq<Option<string>>>) returns (choice: Choice)
    requires TypedState(o, s)
    requires o.kind.Enum? && s.value.Some? ==> 0 <= s.value.value.n < |o.strings|
    requires values.Some? ==> |values.value| > 0
    ensures choice == NextValue(o, s, values)
  {
    var next: Option<string> := None;
    match o.kind {
      case Boolean =>
        if values.None? {
          next := Some(if s.value.Some? && s.value.value.n != 0 then BOOLEAN_FALSE[0] else BOOLEAN_TRUE[0]);
        }
      case String =>
        if values.None? {
          if s.value.Some? && s.value.value.s == "" {
            next := DefaultText(s);
          } else {
            next := Some("");
          }
        }
      case _ =>
        if values.None? {
          return Choice.Refuse;
        }
    }
    if next.None? && values.Some? {
      var list := values.value;
      var found := FindValue(o, s.value, list);
      if found >= 0 {
        if found + 1 < |list| {
          next := list[found + 1];
        } else if |list| < 2 {
          return Choice.ResetValue;
        } else {
          next := list[0];
        }
      } else {
        next := list[0];
      }
    }
    choice := Choice.Assign(next);
  }
}
