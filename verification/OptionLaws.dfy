/** What holds of an option after every run of operations on it. */
module OptionLaws {
  import opened Wrappers
  import opened Digits
  import opened OptionValue

  // ----- runs

  datatype Op =
    | OpSet(text: Option<string>)
    | OpSetNull
    | OpSetDefault(text: Option<string>)
    | OpReset
    | OpToggle(values: Option<seq<Option<string>>>)

  /** A list of values to toggle between, if given, is not empty. */
  predicate Callable(op: Op) {
    op.OpToggle? && op.values.Some? ==> |op.values.value| > 0
  }

  function Do(o: Spec, s: State, op: Op): (State, Rc)
    requires Sound(o, s) && Callable(op)
  {
    match op
    case OpSet(text) => Set(o, s, text)
    case OpSetNull => SetNull(o, s)
    case OpSetDefault(text) => SetDefault(o, s, text)
    case OpReset => Reset(o, s)
    case OpToggle(values) => Toggle(o, s, values)
  }

  /** A value that the option may hold, the range of an integer left aside. */
  predicate SoundValue(o: Spec, v: Option<Value>) {
    && WellFormed(o) && Typed(o.kind, v)
    && (v.None? ==> o.nullAllowed)
    && (v.Some? && o.kind.Boolean? ==> v.value.n == 0 || v.value.n == 1)
    && (v.Some? && o.kind.Enum? ==> 0 <= v.value.n <= o.max)
  }

  predicate Sound(o: Spec, s: State) {
    SoundValue(o, s.value) && SoundValue(o, s.default)
  }

  predicate InRange(o: Spec, v: Option<Value>) {
    SoundValue(o, v) && (v.Some? && o.kind.Integer? ==> o.min <= v.value.n <= o.max)
  }

  lemma RemBounds(a: int, b: int)
    requires b > 0
    ensures -b < Rem(a, b) < b
    ensures a >= 0 ==> Rem(a, b) >= 0
  {
  }

  lemma ParsedIsSound(o: Spec, was: Option<Value>, text: string)
    requires SoundValue(o, was)
    ensures Parsed(o, was, text).Some? ==> SoundValue(o, Parsed(o, was, text))
  {
    if o.kind.Enum? {
      var count := o.max + 1;
      forall a: int ensures -count < Rem(a, count) < count {
        RemBounds(a, count);
      }
    }
  }

  lemma DoKeepsSound(o: Spec, s: State, op: Op)
    requires Sound(o, s) && Callable(op)
    ensures Sound(o, Do(o, s, op).0)
  {
    forall t: string, v | v == s.value || v == s.default
      ensures Parsed(o, v, t).Some? ==> SoundValue(o, Parsed(o, v, t))
    {
      ParsedIsSound(o, v, t);
    }
  }

  /** CHANGED is returned exactly if the value differs from before (for
      set_default: the default value), and then nothing else does. */
  lemma ResultIsTruthful(o: Spec, s: State, op: Op)
    requires Sound(o, s) && Callable(op)
    ensures var (t, rc) := Do(o, s, op);
      && (rc == Changed <==> t != s)
      && (if op.OpSetDefault? then t.value == s.value else t.default == s.default)
  {
  }

  function RunAll(o: Spec, s: State, ops: seq<Op>): State
    requires Sound(o, s) && forall i :: 0 <= i < |ops| ==> Callable(ops[i])
    decreases ops
  {
    if ops == [] then s
    else
      DoKeepsSound(o, s, ops[0]);
      RunAll(o, Do(o, s, ops[0]).0, ops[1..])
  }

  /** Over every run, steps by negative amounts included: null only where it is
      allowed, booleans 0 or 1, enum indexes within the list of strings. */
  lemma {:induction false} RunsStaySound(o: Spec, s: State, ops: seq<Op>)
    requires Sound(o, s) && forall i :: 0 <= i < |ops| ==> Callable(ops[i])
    ensures Sound(o, RunAll(o, s, ops))
    decreases ops
  {
    if ops != [] {
      DoKeepsSound(o, s, ops[0]);
      RunsStaySound(o, Do(o, s, ops[0]).0, ops[1..]);
    }
  }

  // ----- the range of an integer

  /** A step that gets past the one bound that is checked and beyond the other. */
  predicate Escapes(o: Spec, was: Option<Value>, text: string) {
    && o.kind.Integer?
    && (StartsWith(text, "++") || StartsWith(text, "--"))
    && ParseInt(text[2..]).Some?
    && var n := ParseInt(text[2..]).value;
       if StartsWith(text, "++") then Number(was) + n < o.min && Number(was) + n <= o.max
       else Number(was) - n > o.max && Number(was) - n >= o.min
  }

  /** An assignment keeps the range exactly if its step does not escape. */
  lemma AssignedInRange(o: Spec, was: Option<Value>, text: string)
    requires InRange(o, was)
    ensures InRange(o, Assigned(o, was, text).0) <==> !Escapes(o, was, text)
  {
    ParsedIsSound(o, was, text);
  }

  predicate EscapesBy(o: Spec, s: State, op: Op)
    requires Sound(o, s) && Callable(op)
  {
    match op
    case OpSet(Some(text)) => o.check(Some(text)) && Escapes(o, s.value, text)
    case OpSetDefault(Some(text)) => Escapes(o, s.default, text)
    case OpToggle(values) =>
      var c := NextValue(o, s, values);
      c.Assign? && c.text.Some? && o.check(c.text) && Escapes(o, s.value, c.text.value)
    case _ => false
  }

  predicate StateInRange(o: Spec, s: State) {
    InRange(o, s.value) && InRange(o, s.default)
  }

  lemma DoInRange(o: Spec, s: State, op: Op)
    requires StateInRange(o, s) && Callable(op)
    ensures StateInRange(o, Do(o, s, op).0) <==> !EscapesBy(o, s, op)
  {
    DoKeepsSound(o, s, op);
    match op {
      case OpSet(Some(text)) => AssignedInRange(o, s.value, text);
      case OpSetDefault(Some(text)) => AssignedInRange(o, s.default, text);
      case OpToggle(values) =>
        var c := NextValue(o, s, values);
        if c.Assign? && c.text.Some? {
          AssignedInRange(o, s.value, c.text.value);
        }
      case _ =>
    }
  }

  /** No amount to step by is negative. */
  predicate StepsForward(text: Option<string>) {
    text.Some? && (StartsWith(text.value, "++") || StartsWith(text.value, "--")) && ParseInt(text.value[2..]).Some? ==>
      ParseInt(text.value[2..]).value >= 0
  }

  predicate OpStepsForward(op: Op) {
    match op
    case OpSet(text) => StepsForward(text)
    case OpSetDefault(text) => StepsForward(text)
    case OpToggle(Some(values)) => forall i :: 0 <= i < |values| ==> StepsForward(values[i])
    case _ => true
  }

  lemma ForwardStepsStay(o: Spec, was: Option<Value>, text: string)
    requires InRange(o, was) && StepsForward(Some(text))
    requires o.nullAllowed ==> o.min <= 0 <= o.max
    ensures !Escapes(o, was, text)
  {
  }

  /** Over every run without negative amounts, an integer stays in its range,
      provided that null, which counts as 0, is not allowed or 0 is in range. */
  lemma {:induction false} RunsStayInRange(o: Spec, s: State, ops: seq<Op>)
    requires StateInRange(o, s)
    requires forall i :: 0 <= i < |ops| ==> Callable(ops[i]) && OpStepsForward(ops[i])
    requires o.nullAllowed ==> o.min <= 0 <= o.max
    ensures StateInRange(o, RunAll(o, s, ops))
    decreases ops
  {
    if ops != [] {
      var op := ops[0];
      assert !EscapesBy(o, s, op) by {
        forall t: string, v | (v == s.value || v == s.default) && StepsForward(Some(t)) ensures !Escapes(o, v, t) {
          ForwardStepsStay(o, v, t);
        }
      }
      DoKeepsSound(o, s, op);
      DoInRange(o, s, op);
      RunsStayInRange(o, Do(o, s, op).0, ops[1..]);
    }
  }

  /** A negative amount can leave the range. */
  lemma NegativeStepEscapes(o: Spec)
    requires o.kind.Integer? && o.min == 0 && o.max == 10 && o.check(Some("++-7"))
    ensures Set(o, State(Some(Num(5)), Some(Num(5))), Some("++-7")) == (State(Some(Num(-2)), Some(Num(5))), Changed)
  {
    var digits := "7";
    assert digits[..0] == "";
    assert "++-7"[2..] == "-7" && "-7"[1..] == digits;
    assert OptionValue.ParseInt("-7") == Some(-7);
  }

  // ----- resetting

  /** Resetting a sound option never fails, brings the default back, and a second
      reset finds nothing to do. */
  lemma ResetAlwaysWorks(o: Spec, s: State)
    requires Sound(o, s)
    ensures var (t, rc) := Reset(o, s);
      rc != Error && t.value == s.default && !HasChanged(t) && Reset(o, t) == (t, Same)
  {
  }

  // ----- creation

  lemma InitialIsSound(o: Spec, text: Option<string>)
    requires WellFormed(o) && (text.None? ==> o.nullAllowed)
    ensures SoundValue(o, Initial(o, text)) && (o.min <= o.max ==> InRange(o, Initial(o, text)))
  {
  }

  lemma CompletedIsWellFormed(o: Spec)
    requires o.kind.Integer? ==> INT_MIN <= o.min && o.max <= INT_MAX
    ensures var c := Completed(o); (c.kind.Enum? && c.strings == []) || WellFormed(c)
  {
  }

  /** A new option is sound; an integer with an interval for a range is in it. */
  lemma CreatedIsSound(o: Spec, default: Option<string>, value: Option<string>)
    requires o.kind.Integer? ==> INT_MIN <= o.min && o.max <= INT_MAX
    requires Create(o, default, value).Some?
    ensures var (c, s) := Create(o, default, value).value;
      Sound(c, s) && (c.min <= c.max ==> StateInRange(c, s))
  {
    CompletedIsWellFormed(o);
    var c := Completed(o);
    if c.nullAllowed {
      InitialIsSound(c, value);
      InitialIsSound(c, default);
    } else {
      InitialIsSound(c, if value.None? then default else value);
      InitialIsSound(c, if default.None? then value else default);
    }
  }

  // ----- toggling

  /** A text that counts as a step or as a flip, and not as a value. */
  predicate IsStep(o: Spec, t: string) {
    match o.kind
    case Boolean => t == "toggle"
    case String => false
    case _ => StartsWith(t, "++") || StartsWith(t, "--")
  }

  /** A text (or null) that the option accepts and shows unchanged. */
  predicate Canonical(o: Spec, t: Option<string>) {
    && WellFormed(o) && o.check(t)
    && match t
       case None => o.nullAllowed
       case Some(x) =>
         var v := Parsed(o, None, x);
         !IsStep(o, x) && v.Some? && SoundValue(o, v) && Rendered(o, v) == x
  }

  /** The value that a canonical text stands for. */
  function Denoted(o: Spec, t: Option<string>): Option<Value>
    requires WellFormed(o)
  {
    match t
    case None => None
    case Some(x) => Parsed(o, None, x)
  }

  lemma SetCanonical(o: Spec, s: State, t: Option<string>)
    requires Sound(o, s) && Canonical(o, t)
    ensures Set(o, s, t).0 == s.(value := Denoted(o, t)) && Set(o, s, t).1 != Error
    ensures SoundValue(o, Denoted(o, t))
  {
  }

  /** Whether a toggle takes t for the current value. */
  predicate Shows(o: Spec, v: Option<Value>, t: Option<string>)
    requires SoundValue(o, v)
  {
    (v.None? && t.None?) || (v.Some? && t == Some(Rendered(o, v)))
  }

  predicate Distinct(values: seq<Option<string>>) {
    forall i, j :: 0 <= i < j < |values| ==> values[i] != values[j]
  }

  predicate AllCanonical(o: Spec, values: seq<Option<string>>) {
    forall i :: 0 <= i < |values| ==> Canonical(o, values[i])
  }

  lemma {:induction false} PlaceFound(o: Spec, v: Option<Value>, values: seq<Option<string>>, i: nat, k: nat)
    requires SoundValue(o, v) && k <= i < |values| && Distinct(values) && Shows(o, v, values[i])
    ensures PlaceFrom(o, v, values, k) == Some(i)
    decreases i - k
  {
    if k < i {
      assert values[k] != values[i];
      PlaceFound(o, v, values, i, k + 1);
    }
  }

  lemma {:induction false} PlaceMissing(o: Spec, v: Option<Value>, values: seq<Option<string>>, k: nat)
    requires SoundValue(o, v) && k <= |values|
    requires forall i :: 0 <= i < |values| ==> !Shows(o, v, values[i])
    ensures PlaceFrom(o, v, values, k) == None
    decreases |values| - k
  {
    if k < |values| {
      PlaceMissing(o, v, values, k + 1);
    }
  }

  /** k toggles in a row between the values of a list. */
  function Toggles(o: Spec, s: State, values: seq<Option<string>>, k: nat): State
    requires Sound(o, s) && |values| > 0
    decreases k
  {
    if k == 0 then s
    else
      DoKeepsSound(o, s, OpToggle(Some(values)));
      Toggles(o, Toggle(o, s, Some(values)).0, values, k - 1)
  }

  /** The next place in a list of n, and the place k further, going round. */
  function NextPlace(i: nat, n: nat): nat {
    if i + 1 < n then i + 1 else 0
  }

  function Around(i: nat, k: nat, n: nat): (j: nat)
    requires i < n
    ensures j < n
    decreases k
  {
    if k == 0 then i else Around(NextPlace(i, n), k - 1, n)
  }

  lemma ToggleListed(o: Spec, s: State, values: seq<Option<string>>, i: nat)
    requires Sound(o, s) && |values| >= 2 && Distinct(values) && AllCanonical(o, values)
    requires i < |values| && s.value == Denoted(o, values[i])
    ensures Toggle(o, s, Some(values)).0 == s.(value := Denoted(o, values[NextPlace(i, |values|)]))
    ensures Toggle(o, s, Some(values)).1 != Error
  {
    PlaceFound(o, s.value, values, i, 0);
    SetCanonical(o, s, values[NextPlace(i, |values|)]);
  }

  lemma ToggleUnlisted(o: Spec, s: State, values: seq<Option<string>>)
    requires Sound(o, s) && |values| > 0 && AllCanonical(o, values)
    requires forall i :: 0 <= i < |values| ==> !Shows(o, s.value, values[i])
    ensures Toggle(o, s, Some(values)).0 == s.(value := Denoted(o, values[0]))
    ensures Toggle(o, s, Some(values)).1 != Error
  {
    PlaceMissing(o, s.value, values, 0);
    SetCanonical(o, s, values[0]);
  }

  lemma {:induction false} TogglesGoAround(o: Spec, s: State, values: seq<Option<string>>, i: nat, k: nat)
    requires Sound(o, s) && |values| >= 2 && Distinct(values) && AllCanonical(o, values)
    requires i < |values| && s.value == Denoted(o, values[i])
    ensures Toggles(o, s, values, k) == s.(value := Denoted(o, values[Around(i, k, |values|)]))
    decreases k
  {
    if k > 0 {
      ToggleListed(o, s, values, i);
      DoKeepsSound(o, s, OpToggle(Some(values)));
      TogglesGoAround(o, Toggle(o, s, Some(values)).0, values, NextPlace(i, |values|), k - 1);
    }
  }

  lemma OnceAround(x: nat, n: nat)
    requires n > 0
    ensures (x + n) % n == x % n
  {
    var q, m, q', m' := x / n, x % n, (x + n) / n, (x + n) % n;
    assert x == n * q + m && x + n == n * q' + m';
    assert n * (q + 1) == n * q + n;
    SameQuotient(n, q + 1, m, q', m');
  }

  lemma {:induction false} AroundIsRemainder(i: nat, k: nat, n: nat)
    requires i < n
    ensures Around(i, k, n) == (i + k) % n
    decreases k
  {
    if k > 0 {
      AroundIsRemainder(NextPlace(i, n), k - 1, n);
      if i + 1 == n {
        OnceAround(k - 1, n);
      }
    }
  }

  /** Toggling goes round: k toggles from one of n values end k places further. */
  lemma TogglesCycle(o: Spec, s: State, values: seq<Option<string>>, i: nat, k: nat)
    requires Sound(o, s) && |values| >= 2 && Distinct(values) && AllCanonical(o, values)
    requires i < |values| && s.value == Denoted(o, values[i])
    ensures Toggles(o, s, values, k) == s.(value := Denoted(o, values[(i + k) % |values|]))
  {
    TogglesGoAround(o, s, values, i, k);
    AroundIsRemainder(i, k, |values|);
  }

  /** From a value that is not in the list, the first toggle enters it. */
  lemma TogglesEnter(o: Spec, s: State, values: seq<Option<string>>, k: nat)
    requires Sound(o, s) && |values| >= 2 && Distinct(values) && AllCanonical(o, values) && k >= 1
    requires forall i :: 0 <= i < |values| ==> !Shows(o, s.value, values[i])
    ensures Toggles(o, s, values, k) == s.(value := Denoted(o, values[(k - 1) % |values|]))
  {
    ToggleUnlisted(o, s, values);
    DoKeepsSound(o, s, OpToggle(Some(values)));
    TogglesCycle(o, Toggle(o, s, Some(values)).0, values, 0, k - 1);
  }

  /** With one value in the list, toggling alternates between it and the default. */
  lemma {:induction false} TogglesAlternate(o: Spec, s: State, t: Option<string>, k: nat)
    requires Sound(o, s) && Canonical(o, t) && !Shows(o, s.default, t)
    requires s.value == Denoted(o, t) || s.value == s.default
    ensures Toggles(o, s, [t], k)
         == s.(value := if (s.value == s.default) == (k % 2 == 0) then s.default else Denoted(o, t))
    decreases k
  {
    SetCanonical(o, s, t);
    if k > 0 {
      DoKeepsSound(o, s, OpToggle(Some([t])));
      var next := Toggle(o, s, Some([t])).0;
      if s.value == s.default {
        PlaceMissing(o, s.value, [t], 0);
      } else {
        PlaceFound(o, s.value, [t], 0, 0);
      }
      assert next.value == if s.value == s.default then Denoted(o, t) else s.default;
      TogglesAlternate(o, next, t, k - 1);
    }
  }
}
