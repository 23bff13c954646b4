/** Saving is a checkpoint: whatever is done to the options afterwards, reloading
    goes back to it. And for enum options, exactly when. */
module Checkpoint {
  import opened Wrappers
  import opened OptionValue
  import opened OptionLaws
  import opened ConfigText
  import opened SaveReload

  // ----- edits between saving and reloading

  /** An operation on one option of a file. */
  datatype Edit = Edit(section: nat, option: nat, op: Op)

  predicate Possible(f: File, e: Edit) {
    e.section < |f.sections| && e.option < |f.sections[e.section].options| && Callable(e.op)
  }

  predicate SoundFile(f: File) {
    SoundSections(f.sections)
  }

  function EditedEntry(e: Entry, op: Op): Entry
    requires Sound(e.spec, e.state) && Callable(op)
  {
    e.(state := Do(e.spec, e.state, op).0)
  }

  function Edited(f: File, e: Edit): File
    requires SoundFile(f) && Possible(f, e)
  {
    var s := f.sections[e.section];
    var options := s.options[e.option := EditedEntry(s.options[e.option], e.op)];
    f.(sections := f.sections[e.section := s.(options := options)])
  }

  lemma EditedKeeps(f: File, e: Edit)
    requires SoundFile(f) && Possible(f, e)
    ensures SoundFile(Edited(f, e)) && SameSections(f.sections, Edited(f, e).sections)
    ensures Edited(f, e).version == f.version
  {
    var x := f.sections[e.section].options[e.option];
    DoKeepsSound(x.spec, x.state, e.op);
  }

  lemma SameTwice(a: seq<Section>, b: seq<Section>, c: seq<Section>)
    requires SameSections(a, b) && SameSections(b, c)
    ensures SameSections(a, c)
  {
  }

  ghost predicate AllPossible(f: File, edits: seq<Edit>)
    requires SoundFile(f)
    decreases edits
  {
    || edits == []
    || (Possible(f, edits[0]) && SoundFile(Edited(f, edits[0])) && AllPossible(Edited(f, edits[0]), edits[1..]))
  }

  ghost function AllEdited(f: File, edits: seq<Edit>): File
    requires SoundFile(f) && AllPossible(f, edits)
    decreases edits
  {
    if edits == [] then f else AllEdited(Edited(f, edits[0]), edits[1..])
  }

  lemma {:induction false} AllEditedKeeps(f: File, edits: seq<Edit>)
    requires SoundFile(f) && AllPossible(f, edits)
    ensures SoundFile(AllEdited(f, edits)) && SameSections(f.sections, AllEdited(f, edits).sections)
    ensures AllEdited(f, edits).version == f.version
    decreases edits
  {
    if edits != [] {
      EditedKeeps(f, edits[0]);
      AllEditedKeeps(Edited(f, edits[0]), edits[1..]);
      SameTwice(f.sections, Edited(f, edits[0]).sections, AllEdited(f, edits).sections);
    }
  }

  /** The same options, and every value as it was. */
  ghost predicate SameValues(a: seq<Section>, b: seq<Section>) {
    && SameSections(a, b)
    && forall i, j :: 0 <= i < |a| && 0 <= j < |a[i].options| ==>
         b[i].options[j].state.value == a[i].options[j].state.value
  }

  lemma RestoredHaveValues(a: seq<Section>, b: seq<Section>)
    requires SameSections(a, b)
    ensures SameValues(a, RestoredSections(a, b))
  {
    var c := RestoredSections(a, b);
    forall i | 0 <= i < |a|
      ensures SameOptions(a[i].options, c[i].options)
      ensures forall j :: 0 <= j < |a[i].options| ==> c[i].options[j].state.value == a[i].options[j].state.value
    {
      var x, y := a[i].options, b[i].options;
      assert SameOptions(x, y);
      assert c[i].options == RestoredAll(x, y);
    }
  }

  /** Save, run any operations on the options, reload: every option has the value
      that it had when it was saved. */
  lemma ReloadGoesBack(comments: seq<string>, saved: File, edits: seq<Edit>)
    requires GoodComments(comments) && GoodFile(saved) && SoundFile(saved) && AllPossible(saved, edits)
    ensures FileWritable(saved) && WellFormedFile(AllEdited(saved, edits))
    ensures SameValues(saved.sections, Reloaded(AllEdited(saved, edits), Written(comments, saved)).sections)
  {
    var now := AllEdited(saved, edits);
    AllEditedKeeps(saved, edits);
    SaveThenReload(comments, saved, now);
    RestoredHaveValues(saved.sections, now.sections);
  }

  // ----- enum options: exactly when

  /** What the reader makes of a text that was written without quotes. */
  function ReadBack(t: string): Option<string> {
    ReadValue(SkipSpaces(t))
  }

  lemma {:induction false} SkipShortens(s: string)
    ensures |SkipSpaces(s)| <= |s|
    ensures s != "" && s[0] == ' ' ==> |SkipSpaces(s)| < |s|
  {
    if s != "" && s[0] == ' ' {
      SkipShortens(s[1..]);
    }
  }

  lemma {:induction false} TrimShortens(s: string)
    ensures |TrimEnd(s)| <= |s|
    ensures |s| > 1 && s[|s| - 1] == ' ' ==> |TrimEnd(s)| < |s|
    ensures |s| >= 2 && s[1] != ' ' ==> |TrimEnd(s)| >= 2 && TrimEnd(s)[..2] == s[..2]
    decreases |s|
  {
    if |s| > 1 && s[|s| - 1] == ' ' {
      TrimShortens(s[..|s| - 1]);
    }
  }

  /** A text is read back as itself exactly if it is plain. */
  lemma PlainIsReadBack(t: string)
    requires OneLine(t)
    ensures ReadBack(t) == Some(t) <==> PlainText(t)
  {
    SkipShortens(t);
    TrimShortens(SkipSpaces(t));
    if PlainText(t) {
      PlainRead(t);
    }
  }

  /** The option set to a text that was read, from the value number x. */
  function SetFrom(o: Spec, x: int, text: Option<string>): Option<Value>
    requires WellFormed(o)
  {
    Set(o, State(Some(Num(x)), Some(Num(x))), text).0.value
  }

  predicate AcceptsAll(o: Spec, text: Option<string>) {
    o.kind.Enum? && WellFormed(o) && o.check(text) && |o.strings| >= 3
  }

  lemma RemOf(a: int, c: int)
    requires c > 0 && 0 <= a < 2 * c
    ensures Rem(a, c) == if a < c then a else a - c
  {
    if a >= c {
      assert (a - c) % c == a - c;
    }
  }

  lemma ForwardStepsDiffer(o: Spec, w: string, n: int)
    requires AcceptsAll(o, Some(w)) && StartsWith(w, "++") && ParseInt(w[2..]) == Some(n)
    ensures !(SetFrom(o, 0, Some(w)) == SetFrom(o, 1, Some(w)) == SetFrom(o, 2, Some(w)))
  {
    var c := o.max + 1;
    var r := Rem(n, c);
    RemBounds(n, c);
    if r >= 0 {
      RemOf(0 + r, c);
      RemOf(1 + r, c);
    } else {
      NegativeStep(c, r);
    }
  }

  lemma BackStepsDiffer(o: Spec, w: string, n: int)
    requires AcceptsAll(o, Some(w)) && StartsWith(w, "--") && ParseInt(w[2..]) == Some(n)
    ensures SetFrom(o, 0, Some(w)) != SetFrom(o, 1, Some(w))
  {
    var c := o.max + 1;
    var r := Rem(n, c);
    RemBounds(n, c);
    BackStep(c, r);
    StepBack(o, 0, w, n, c, r);
    StepBack(o, 1, w, n, c, r);
  }

  lemma StepBack(o: Spec, x: int, w: string, n: int, c: int, r: int)
    requires AcceptsAll(o, Some(w)) && StartsWith(w, "--") && ParseInt(w[2..]) == Some(n)
    requires c == o.max + 1 && r == Rem(n, c) && Rem(x + c - r, c) >= 0
    ensures SetFrom(o, x, Some(w)) == Some(Num(Rem(x + c - r, c)))
  {
  }

  /** Steps do not lead from all of three values to the same one. */
  lemma StepsDiffer(o: Spec, w: string)
    requires AcceptsAll(o, Some(w)) && IsStep(o, w)
    ensures !(SetFrom(o, 0, Some(w)) == SetFrom(o, 1, Some(w)) == SetFrom(o, 2, Some(w)))
  {
    var n := ParseInt(w[2..]);
    if n.Some? {
      if StartsWith(w, "++") {
        ForwardStepsDiffer(o, w, n.value);
      } else {
        BackStepsDiffer(o, w, n.value);
      }
    }
  }

  lemma NegativeStep(c: int, r: int)
    requires c >= 3 && -c < r < 0
    ensures NonNegative(Rem(0 + r, c)) == None
    ensures NonNegative(Rem(1 + r, c)) == if r == -1 then Some(0) else None
    ensures NonNegative(Rem(2 + r, c)) == if r == -1 then Some(1) else if r == -2 then Some(0) else None
  {
    RemOf(-r, c);
    if r < -1 {
      RemOf(-(1 + r), c);
    }
    if r < -2 {
      RemOf(-(2 + r), c);
    }
  }

  lemma BackStep(c: int, r: int)
    requires c >= 3 && -c < r < c
    ensures Rem(0 + c - r, c) != Rem(1 + c - r, c)
    ensures Rem(0 + c - r, c) >= 0 && Rem(1 + c - r, c) >= 0
  {
    if 1 + c - r < 2 * c {
      RemOf(c - r, c);
      RemOf(1 + c - r, c);
    } else {
      RemOf(c - r, c);
    }
  }

  /** Some value that is kept or changed to something else than n. */
  lemma OthersDiffer(o: Spec, n: int, text: Option<string>)
    requires AcceptsAll(o, text) && 0 <= n <= o.max
    requires text.Some? ==> !IsStep(o, text.value) && IndexFrom(o.strings, text.value, 0) != Some(n)
    ensures SetFrom(o, if n == 0 then 1 else 0, text) != Some(Num(n))
  {
  }

  /** A text that sets the value n from every value: it is accepted, and it is the
      string of n, no step, and the first of its name. */
  predicate Fits(o: Spec, n: int, u: Option<string>)
    requires o.kind.Enum? && WellFormed(o)
  {
    o.check(u) && u.Some? && !IsStep(o, u.value) && IndexFrom(o.strings, u.value, 0) == Some(n)
  }

  /** Setting a text brings n back, whatever the value is. */
  ghost predicate BringsBack(o: Spec, n: int, u: Option<string>)
    requires WellFormed(o)
  {
    forall s :: Sound(o, s) ==> Set(o, s, u).0.value == Some(Num(n))
  }

  lemma FittingBringsBack(o: Spec, n: int, u: Option<string>)
    requires o.kind.Enum? && WellFormed(o) && Fits(o, n, u)
    ensures BringsBack(o, n, u)
  {
  }

  /** Three strings or more: no other text does. */
  lemma OthersOfThree(o: Spec, n: int, u: Option<string>) returns (x: int)
    requires o.kind.Enum? && WellFormed(o) && |o.strings| >= 3 && 0 <= n <= o.max && !Fits(o, n, u)
    ensures 0 <= x <= 2 && SetFrom(o, x, u) != Some(Num(n))
  {
    if !o.check(u) {
      x := if n == 0 then 1 else 0;
    } else if u.Some? && IsStep(o, u.value) {
      StepsDiffer(o, u.value);
      x := if SetFrom(o, 0, u) != Some(Num(n)) then 0 else if SetFrom(o, 1, u) != Some(Num(n)) then 1 else 2;
    } else {
      x := if n == 0 then 1 else 0;
      OthersDiffer(o, n, u);
    }
  }

  /** The step "++-1" and the like, of two strings: from 1 it leads to 0, and from
      0 it is refused. */
  predicate OddStepBack(u: Option<string>) {
    && u.Some? && StartsWith(u.value, "++") && ParseInt(u.value[2..]).Some?
    && Rem(ParseInt(u.value[2..]).value, 2) == -1
  }

  /** The remainders of two. */
  lemma RemOfTwo(r: int)
    requires -1 <= r <= 1
    ensures NonNegative(Rem(0 + r, 2)) == if r == -1 then None else Some(r)
    ensures NonNegative(Rem(1 + r, 2)) == if r == 0 then Some(1) else Some(0)
    ensures Rem(0 + 2 - r, 2) == (if r == 0 then 0 else 1) && Rem(1 + 2 - r, 2) == if r == 0 then 1 else 0
  {
  }

  lemma StepsOfTwo(o: Spec, w: string)
    requires o.kind.Enum? && WellFormed(o) && |o.strings| == 2 && o.check(Some(w)) && IsStep(o, w)
    ensures SetFrom(o, 0, Some(w)) == SetFrom(o, 1, Some(w)) <==> OddStepBack(Some(w))
    ensures OddStepBack(Some(w)) ==> SetFrom(o, 0, Some(w)) == Some(Num(0))
  {
    var n := ParseInt(w[2..]);
    if n.Some? {
      RemBounds(n.value, 2);
      RemOfTwo(Rem(n.value, 2));
    }
  }

  lemma OthersOfTwo(o: Spec, n: int, u: Option<string>) returns (x: int)
    requires o.kind.Enum? && WellFormed(o) && |o.strings| == 2 && 0 <= n <= 1 && !Fits(o, n, u)
    requires !(n == 0 && o.check(u) && OddStepBack(u))
    ensures 0 <= x <= 1 && SetFrom(o, x, u) != Some(Num(n))
  {
    if o.check(u) && u.Some? && IsStep(o, u.value) {
      StepsOfTwo(o, u.value);
      x := if SetFrom(o, 0, u) != Some(Num(n)) then 0 else 1;
    } else {
      x := 1 - n;
    }
  }

  lemma OddStepFromAll(o: Spec, u: Option<string>)
    requires o.kind.Enum? && WellFormed(o) && |o.strings| == 2 && o.check(u) && OddStepBack(u)
    ensures BringsBack(o, 0, u) <==> !o.nullAllowed
  {
    var r := Rem(ParseInt(u.value[2..]).value, 2);
    RemOfTwo(r);
    if o.nullAllowed {
      var nothing := State(None, None);
      assert Sound(o, nothing) && Set(o, nothing, u).0.value == None;
    }
  }

  /** Any step with a number sets the only value there is, also from null. */
  predicate StepsAnywhere(o: Spec, u: Option<string>)
    requires o.kind.Enum? && WellFormed(o)
  {
    o.check(u) && u.Some? && IsStep(o, u.value) && ParseInt(u.value[2..]).Some?
  }

  lemma RemOfOne(n: int)
    ensures Rem(n, 1) == 0
  {
  }

  lemma OneStringFromNumber(o: Spec, d: Option<Value>, u: Option<string>)
    requires o.kind.Enum? && WellFormed(o) && |o.strings| == 1
    ensures !o.nullAllowed || Fits(o, 0, u) || StepsAnywhere(o, u) ==>
      Set(o, State(Some(Num(0)), d), u).0.value == Some(Num(0))
  {
    if u.Some? && IsStep(o, u.value) && ParseInt(u.value[2..]).Some? {
      RemOfOne(ParseInt(u.value[2..]).value);
    }
  }

  lemma OneStringFromNull(o: Spec, d: Option<Value>, u: Option<string>)
    requires o.kind.Enum? && WellFormed(o) && |o.strings| == 1
    ensures Set(o, State(None, d), u).0.value == Some(Num(0)) <==> Fits(o, 0, u) || StepsAnywhere(o, u)
  {
    if u.Some? && IsStep(o, u.value) && ParseInt(u.value[2..]).Some? {
      RemOfOne(ParseInt(u.value[2..]).value);
    }
  }

  /** Only one string: the one value is there already, if it cannot be null. */
  lemma OneString(o: Spec, u: Option<string>)
    requires o.kind.Enum? && WellFormed(o) && |o.strings| == 1
    ensures BringsBack(o, 0, u) <==> Fits(o, 0, u) || !o.nullAllowed || StepsAnywhere(o, u)
  {
    forall s | Sound(o, s)
      ensures s.value.Some? && (!o.nullAllowed || Fits(o, 0, u) || StepsAnywhere(o, u)) ==>
        Set(o, s, u).0.value == Some(Num(0))
      ensures s.value.None? ==> (Set(o, s, u).0.value == Some(Num(0)) <==> Fits(o, 0, u) || StepsAnywhere(o, u))
    {
      if s.value.Some? {
        OneStringFromNumber(o, s.default, u);
      } else {
        OneStringFromNull(o, s.default, u);
      }
    }
    if o.nullAllowed {
      assert Sound(o, State(None, None));
    }
  }

  /** Which texts bring the value n back from every value. */
  predicate Returns(o: Spec, n: int, u: Option<string>)
    requires o.kind.Enum? && WellFormed(o)
  {
    || Fits(o, n, u)
    || (|o.strings| == 2 && n == 0 && !o.nullAllowed && o.check(u) && OddStepBack(u))
    || (|o.strings| == 1 && (!o.nullAllowed || StepsAnywhere(o, u)))
  }

  lemma ReturnsExactly(o: Spec, n: int, u: Option<string>)
    requires o.kind.Enum? && WellFormed(o) && 0 <= n <= o.max
    ensures BringsBack(o, n, u) <==> Returns(o, n, u)
  {
    if |o.strings| == 1 {
      OneString(o, u);
    } else if Fits(o, n, u) {
      FittingBringsBack(o, n, u);
    } else if |o.strings| == 2 && n == 0 && o.check(u) && OddStepBack(u) {
      OddStepFromAll(o, u);
    } else {
      var x;
      if |o.strings| == 2 {
        x := OthersOfTwo(o, n, u);
      } else {
        x := OthersOfThree(o, n, u);
      }
      assert Sound(o, State(Some(Num(x)), Some(Num(x))));
    }
  }

  /** The saved string of an enum option, for every list of strings and every
      check callback. It brings its value back from every value exactly if the
      callback accepts it, and it is plain, no step and the first of its name. The
      only other texts that do are, of an option that cannot be null, a step by -1
      of two strings and anything of a single string; and a step of a single
      string, also from null. */
  lemma EnumReadsBackExactly(o: Spec, n: int)
    requires o.kind.Enum? && WellFormed(o) && 0 <= n <= o.max && OneLine(o.strings[n])
    ensures var t := o.strings[n];
      var u := ReadBack(t);
      BringsBack(o, n, u)
      <==> || (PlainText(t) && o.check(Some(t)) && !IsStep(o, t) && IndexFrom(o.strings, t, 0) == Some(n))
           || (|o.strings| == 2 && n == 0 && !o.nullAllowed && o.check(u) && OddStepBack(u))
           || (|o.strings| == 1 && (!o.nullAllowed || StepsAnywhere(o, u)))
  {
    PlainIsReadBack(o.strings[n]);
    ReturnsExactly(o, n, ReadBack(o.strings[n]));
  }

  // ----- other options: exactly when

  /** What the reader makes of a value that was written. */
  function SavedRead(o: Spec, v: Option<Value>): Option<string>
    requires Writable(o, v)
  {
    if v.None? then None else ReadBack(ValueText(o, v.value))
  }

  lemma SavedReadIs(o: Spec, v: Option<Value>)
    requires SoundValue(o, v) && (o.kind.Color? || o.kind.Enum? ==> v.None?)
    requires v.Some? && o.kind.Integer? ==> INT_MIN <= v.value.n <= INT_MAX
    ensures SavedRead(o, v) == if v.None? then None else Some(Rendered(o, v))
  {
    if v.Some? {
      if v.value.Text? {
        QuotedRead(v.value.s);
      } else {
        if o.kind.Integer? {
          IntTextPlain(v.value.n);
        }
        PlainRead(ValueText(o, v.value));
      }
    }
  }

  /** Some other value that the option can have. */
  function OtherValue(o: Spec, v: Option<Value>): (w: Option<Value>)
    requires SoundValue(o, v) && (o.kind.Color? || o.kind.Enum? ==> v.None?)
    ensures w != v && SoundValue(o, w)
  {
    match v
    case None => if o.kind.String? then Some(Text("")) else Some(Num(0))
    case Some(Text(s)) =>
      assert |s + "x"| > |s|;
      Some(Text(s + "x"))
    case Some(Num(n)) => if o.kind.Boolean? then Some(Num(1 - n)) else Some(Num(n + 1))
  }

  /** Setting what was saved, from any value. */
  lemma SavedSet(o: Spec, v: Option<Value>, s: State)
    requires SoundValue(o, v) && (o.kind.Color? || o.kind.Enum? ==> v.None?) && Sound(o, s)
    requires v.Some? && o.kind.Integer? ==> INT_MIN <= v.value.n <= INT_MAX
    ensures Set(o, s, SavedRead(o, v)).0.value
         == if o.check(SavedRead(o, v)) && (v.Some? && o.kind.Integer? ==> o.min <= v.value.n <= o.max)
            then v else s.value
  {
    SavedReadIs(o, v);
    if v.Some? && o.kind.Integer? {
      IntTextPlain(v.value.n);
      IntTextParsed(v.value.n);
    }
  }

  /** A saved null, and the saved value of a string, a boolean or an integer, comes
      back from every value exactly if the check callback accepts what was read
      and, of an integer, the bounds hold. Strings are written in quotes, so they
      can be anything that stays on one line. */
  lemma OthersReadBackExactly(o: Spec, v: Option<Value>)
    requires SoundValue(o, v) && (o.kind.Color? || o.kind.Enum? ==> v.None?)
    requires v.Some? && o.kind.Integer? ==> INT_MIN <= v.value.n <= INT_MAX
    ensures (forall s :: Sound(o, s) ==> Set(o, s, SavedRead(o, v)).0.value == v)
       <==> o.check(SavedRead(o, v)) && (v.Some? && o.kind.Integer? ==> o.min <= v.value.n <= o.max)
  {
    forall s | Sound(o, s)
      ensures Set(o, s, SavedRead(o, v)).0.value
           == if o.check(SavedRead(o, v)) && (v.Some? && o.kind.Integer? ==> o.min <= v.value.n <= o.max)
              then v else s.value
    {
      SavedSet(o, v, s);
    }
    assert Sound(o, State(OtherValue(o, v), OtherValue(o, v)));
  }
}
