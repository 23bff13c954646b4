/** What a new option starts with, text by text. */
module CreationMeaning {
  import opened Wrappers
  import opened Digits
  import opened OptionValue
  import opened OptionLaws

  /** The definition of an option that can be created once it has a text. */
  predicate Definable(o: Spec) {
    o.kind.Enum? ==> o.strings != []
  }

  predicate IsEnum(o: Spec) {
    o.kind.Enum? || (o.kind.Integer? && o.strings != [])
  }

  /** A new option is refused exactly if it is an enum without strings, or if it has
      no text at all and must not be null. */
  lemma RefusedExactly(o: Spec, default: Option<string>, value: Option<string>)
    ensures Create(o, default, value).None? <==> !Definable(o) || (!o.nullAllowed && default.None? && value.None?)
  {
  }

  /** The bounds: a boolean has two values, and an enum, which an integer with strings
      is too, one for each string; everything else stays as it was given. */
  lemma Bounds(o: Spec, default: Option<string>, value: Option<string>)
    requires Create(o, default, value).Some?
    ensures var c := Create(o, default, value).value.0;
      && (o.kind.Boolean? ==> c == o.(min := 0, max := 1))
      && (IsEnum(o) ==> c == o.(kind := Enum, min := 0, max := |o.strings| - 1))
      && (!o.kind.Boolean? && !IsEnum(o) ==> c == o)
  {
  }

  /** The text stands for v in a new option: it makes v the value, whatever the text
      of the default, and the default, whatever the text of the value. */
  ghost predicate Starts(o: Spec, t: string, v: Value) {
    forall other: Option<string> {:trigger Create(o, other, Some(t))} {:trigger Create(o, Some(t), other)} ::
      && Create(o, other, Some(t)).Some? && Create(o, other, Some(t)).value.1.value == Some(v)
      && Create(o, Some(t), other).Some? && Create(o, Some(t), other).value.1.default == Some(v)
  }

  /** The one that is not given is null, if it may be, and otherwise the other. */
  lemma OneText(o: Spec, t: string, v: Value)
    requires Starts(o, t, v)
    ensures var other := if o.nullAllowed then None else Some(v);
      && Create(o, None, Some(t)).Some? && Create(o, None, Some(t)).value.1 == State(Some(v), other)
      && Create(o, Some(t), None).Some? && Create(o, Some(t), None).value.1 == State(other, Some(v))
  {
    assert Create(o, None, Some(t)).value.1.value == Some(v);
    assert Create(o, Some(t), None).value.1.default == Some(v);
  }

  lemma BothTexts(o: Spec, d: string, v: Value, t: string, w: Value)
    requires Starts(o, d, v) && Starts(o, t, w)
    ensures Create(o, Some(d), Some(t)).Some? && Create(o, Some(d), Some(t)).value.1 == State(Some(w), Some(v))
  {
  }

  lemma NoText(o: Spec)
    requires Definable(o) && o.nullAllowed
    ensures Create(o, None, None).Some? && Create(o, None, None).value.1 == State(None, None)
  {
  }

  // ----- which value a text stands for

  /** A boolean: the six words for true, and anything else is false. */
  lemma NewBoolean(o: Spec, t: string)
    requires o.kind.Boolean?
    ensures Starts(o, t, Num(if t in ["on", "yes", "y", "true", "t", "1"] then 1 else 0))
  {
  }

  /** An integer: the bound that is nearest to the number. */
  lemma NewInteger(o: Spec, n: int)
    requires o.kind.Integer? && o.strings == [] && INT_MIN <= n <= INT_MAX
    ensures o.min <= n <= o.max ==> Starts(o, IntText(n), Num(n))
    ensures n < o.min ==> Starts(o, IntText(n), Num(o.min))
    ensures o.min <= n && n > o.max ==> Starts(o, IntText(n), Num(o.max))
  {
    IntTextParsed(n);
  }

  /** What is no number counts as 0, and so does a number that is no int32. */
  lemma NewIntegerWithoutNumber(o: Spec, t: string, v: Value)
    requires o.kind.Integer? && o.strings == [] && ParseInt(t).None?
    ensures Starts(o, t, v) <==> Starts(o, IntText(0), v)
  {
    IntTextParsed(0);
    assert forall other: Option<string> :: Create(o, other, Some(t)) == Create(o, other, Some(IntText(0)));
    assert forall other: Option<string> :: other.Some? || o.nullAllowed ==>
      Create(o, Some(t), other) == Create(o, Some(IntText(0)), other);
  }

  lemma NewString(o: Spec, t: string)
    requires o.kind.String?
    ensures Starts(o, t, Text(t))
  {
  }

  /** A color: that of the name, and 0 for another name. */
  lemma NewColor(o: Spec, t: string)
    requires o.kind.Color?
    ensures match o.colors.assign(t)
      case Some(n) => Starts(o, t, Num(n))
      case None => Starts(o, t, Num(0))
  {
  }

  /** An enum: the first string that is equal, and the first of all if none is. */
  lemma NewEnum(o: Spec, t: string, i: nat)
    requires IsEnum(o) && o.strings != []
    ensures i < |o.strings| && o.strings[i] == t && t !in o.strings[..i] ==> Starts(o, t, Num(i))
    ensures t !in o.strings ==> Starts(o, t, Num(0))
  {
    var k := IndexFrom(o.strings, t, 0);
    if i < |o.strings| && o.strings[i] == t && t !in o.strings[..i] {
      assert forall j :: 0 <= j < i ==> o.strings[..i][j] == o.strings[j];
      assert k == Some(i);
    }
  }

  // ----- creating and setting

  /** A text that is no step means for a new option what it means when it is set: the
      value that setting it gives, from any value, is the one that it starts with. */
  lemma CreatedAsSet(o: Spec, other: Option<string>, t: string, was: State)
    requires Create(o, other, Some(t)).Some? && Create(o, Some(t), other).Some?
    requires var c := Completed(o);
      Sound(c, was) && !IsStep(c, t) && Set(c, was, Some(t)).1 != Error
    ensures var v := Set(Completed(o), was, Some(t)).0.value;
      && Create(o, other, Some(t)).value.0 == Completed(o) && Create(o, other, Some(t)).value.1.value == v
      && Create(o, Some(t), other).value.0 == Completed(o) && Create(o, Some(t), other).value.1.default == v
  {
  }
}
