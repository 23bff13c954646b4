/** What each call on the store does to each option and tells listeners, what is read
    of an option, and what names mean. */
module WorldMeaning {
  import opened Wrappers
  import opened OptionValue
  import opened OptionLaws
  import opened Names
  import opened ConfigWorld

  // ----- names

  /** The first characters that differ decide the order. */
  lemma {:induction false} FirstDifference(p: string, a: char, s: string, b: char, t: string)
    requires a != b
    ensures StrCmp(p + [a] + s, p + [b] + t) < 0 <==> a < b
    ensures StrCmp(p + [a] + s, p + [b] + t) > 0 <==> a > b
  {
    if p != "" {
      assert (p + [a] + s)[1..] == p[1..] + [a] + s;
      assert (p + [b] + t)[1..] == p[1..] + [b] + t;
      FirstDifference(p[1..], a, s, b, t);
    }
  }

  /** What a text starts with comes before it. */
  lemma {:induction false} ShorterFirst(p: string, s: string)
    requires s != ""
    ensures StrCmp(p, p + s) < 0 && StrCmp(p + s, p) > 0
  {
    if p != "" {
      assert (p + s)[1..] == p[1..] + s;
      ShorterFirst(p[1..], s);
    } else {
      assert p + s == s;
    }
  }

  lemma ShortFullName()
    ensures FullName(Key("f", "s", "o")) == "f.s.o"
  {
  }

  /** The arrow stands at a place of a text. */
  predicate ArrowAt(s: string, i: nat) {
    i + 4 <= |s| && s[i..i + 4] == " << "
  }

  lemma ArrowBehind(s: string, i: nat)
    requires s != ""
    ensures ArrowAt(s[1..], i) <==> ArrowAt(s, i + 1)
  {
    if i + 5 <= |s| {
      assert s[1..][i..i + 4] == s[i + 1..i + 5];
    }
  }

  /** Find is the first place of the arrow. */
  lemma {:induction false} FindIs(s: string, k: nat)
    requires ArrowAt(s, k) && forall i: nat :: i < k ==> !ArrowAt(s, i)
    ensures Find(s, ARROW) == Some(k)
  {
    if k == 0 {
      assert s[..4] == s[0..0 + 4];
    } else {
      assert !ArrowAt(s, 0);
      assert s[..4] == s[0..0 + 4];
      ArrowBehind(s, k - 1);
      forall i: nat | i < k - 1 ensures !ArrowAt(s[1..], i) {
        ArrowBehind(s, i);
      }
      FindIs(s[1..], k - 1);
    }
  }

  lemma {:induction false} FindNone(s: string)
    requires forall i: nat :: !ArrowAt(s, i)
    ensures Find(s, ARROW) == None
  {
    if |s| >= 4 {
      assert !ArrowAt(s, 0);
      assert s[..4] == s[0..0 + 4];
      forall i: nat ensures !ArrowAt(s[1..], i) {
        ArrowBehind(s, i);
      }
      FindNone(s[1..]);
    }
  }

  /** No arrow comes before the end of a name that has an arrow behind it. */
  predicate NoneBefore(name: string) {
    forall i :: 0 <= i < |name| ==> !ArrowAt(name + " << ", i)
  }

  lemma ArrowInFront(name: string, parent: string, i: nat)
    requires i <= |name|
    ensures ArrowAt(name + " << " + parent, i) <==> ArrowAt(name + " << ", i)
  {
    var s, t := name + " << " + parent, name + " << ";
    assert s[..|t|] == t;
    assert s[i..i + 4] == t[i..i + 4];
  }

  lemma PartsAt(name: string, parent: string)
    ensures var s := name + " << " + parent; s[..|name|] == name && s[|name| + 4..] == parent
    ensures ArrowAt(name + " << ", |name|)
  {
  }

  lemma {:induction false} FindNotBehind(s: string, k: nat)
    requires ArrowAt(s, k)
    ensures Find(s, ARROW).Some? && Find(s, ARROW).value <= k
  {
    assert s[..4] == s[0..0 + 4];
    if k > 0 && s[..4] != ARROW {
      ArrowBehind(s, k - 1);
      FindNotBehind(s[1..], k - 1);
    }
  }

  /** A name and a parent with an arrow between them are taken apart again exactly if
      no arrow comes before the end of the name. */
  lemma NamedParent(name: string, parent: string)
    ensures NameAndParent(name + " << " + parent) == (name, Some(parent)) <==> NoneBefore(name)
  {
    var s := name + " << " + parent;
    PartsAt(name, parent);
    if NoneBefore(name) {
      forall i: nat | i <= |name| ensures ArrowAt(s, i) <==> i == |name| {
        ArrowInFront(name, parent, i);
      }
      FindIs(s, |name|);
    } else {
      var i :| 0 <= i < |name| && ArrowAt(name + " << ", i);
      ArrowInFront(name, parent, i);
      FindNotBehind(s, i);
    }
  }

  /** A name without an arrow has no parent. */
  lemma NoParent(name: string)
    requires forall i: nat :: !ArrowAt(name, i)
    ensures NameAndParent(name) == (name, None)
  {
    FindNone(name);
  }

  // ----- the calls

  /** What listeners hear of an option: its full name, and its value, as users see it,
      or NULL. */
  function News(k: Key, i: Item): Note
    requires Sound(i.spec, i.state)
  {
    Note(FullName(k), if i.state.value.None? then None else Some(Rendered(i.spec, i.state.value)))
  }

  /** No option but k differs. */
  ghost predicate OnlyAt(w: World, w': World, k: Key) {
    && (forall x :: x != k ==> (x in w'.options <==> x in w.options))
    && (forall x :: x != k && x in w.options ==> w'.options[x] == w.options[x])
  }

  /** An operation changes the value and the default of its option as it does alone,
      and listeners hear of it once, exactly if it does change one of them. */
  lemma EditDoes(w: World, k: Key, op: Op)
    requires Valid(w) && Callable(op) && k in w.options
    ensures var i := w.options[k];
      var w' := Step(w, Edit(k, op));
      && OnlyAt(w, w', k) && k in w'.options && Sound(i.spec, Do(i.spec, i.state, op).0)
      && w'.options[k] == Item(i.spec, Do(i.spec, i.state, op).0, i.parent)
      && w'.sent == w.sent + if w'.options[k].state != i.state then [News(k, w'.options[k])] else []
  {
    var i := w.options[k];
    DoKeepsSound(i.spec, i.state, op);
    ResultIsTruthful(i.spec, i.state, op);
    ShownIsRendered(i.spec, Do(i.spec, i.state, op).0.value);
  }

  /** A new option is there under its name, which is what stands before " << ", with
      its parent and with what it starts with, and listeners hear of it; nothing
      happens if the name is taken or the option cannot be created. */
  lemma NewDoes(w: World, a: Action)
    requires Valid(w) && a.New? && Allowed(a)
    ensures var (name, parent) := NameAndParent(a.text);
      var k, c := Key(a.file, a.section, name), Create(a.spec, a.default, a.value);
      if k in w.options || c.None? then Step(w, a) == w
      else
        && OnlyAt(w, Step(w, a), k) && k in Step(w, a).options && Sound(c.value.0, c.value.1)
        && Step(w, a).options[k] == Item(c.value.0, c.value.1, parent)
        && Step(w, a).sent == w.sent + [News(k, Step(w, a).options[k])]
  {
    var c := Create(a.spec, a.default, a.value);
    if c.Some? {
      CreatedIsSound(a.spec, a.default, a.value);
      ShownIsRendered(c.value.0, c.value.1.value);
    }
  }

  /** The parent after a renaming of another option, or of the option itself. */
  function ParentThen(parent: Option<string>, was: Key, now: Key): Option<string> {
    if parent == Some(FullName(was)) then Some(FullName(now)) else parent
  }

  /** A renamed option has its new name only; no value and no default changes, and
      a parent only where it was the old name. Listeners hear of the new name. */
  lemma RenameDoes(w: World, k: Key, name: string)
    requires Valid(w) && k in w.options
    ensures var now, w' := k.(name := name), Step(w, Rename(k, name));
      if name == "" || now in w.options then w' == w
      else
        && (forall x :: x in w'.options <==> x == now || (x in w.options && x != k))
        && (forall x :: x in w.options ==>
              var i, i' := w.options[x], w'.options[if x == k then now else x];
              i' == Item(i.spec, i.state, ParentThen(i.parent, k, now)))
        && w'.sent == w.sent + [News(now, w.options[k])]
  {
    var i := w.options[k];
    ShownIsRendered(i.spec, i.state.value);
  }

  /** A freed option is gone, and listeners hear NULL if they are told. */
  lemma FreeDoes(w: World, k: Key, notify: bool)
    requires Valid(w) && k in w.options
    ensures var w' := Step(w, Free(k, notify));
      && OnlyAt(w, w', k) && k !in w'.options
      && w'.sent == w.sent + if notify then [Note(FullName(k), None)] else []
  {
  }

  /** Unsetting frees an option of the user, and resets any other. */
  lemma UnsetDoes(w: World, k: Key, deletable: bool)
    requires Valid(w) && k in w.options
    ensures Step(w, Unset(k, deletable)) == Step(w, if deletable then Free(k, true) else Edit(k, OpReset))
  {
  }

  lemma NothingDone(w: World, k: Key, a: Action)
    requires Valid(w) && Allowed(a) && k !in w.options
    requires a.Edit? || a.Rename? || a.Free? || a.Unset?
    requires a.key == k
    ensures Step(w, a) == w
  {
  }

  // ----- what is read of an option

  /** The readings of a value: one text, as users see it, and 0 and no text for null.
      The integer getter knows no strings, and the string getter no integers. */
  lemma ReadingsAre(o: Spec, v: Option<Value>)
    requires SoundValue(o, v)
    ensures var r := ReadingsOf(o, v);
      && (v.None? ==> r == Readings(0, 0, None, None))
      && (v.Some? ==>
            && r.text == (if o.kind.Integer? then None else Some(Rendered(o, v)))
            && r.integer == (if o.kind.String? then 0 else v.value.n)
            && r.boolean == (if o.kind.Boolean? then v.value.n else 0)
            && r.color == (if o.kind.Color? then Some(Rendered(o, v)) else None))
  {
  }

  /** The text of a value that users see. */
  lemma UsersSee(o: Spec, n: int, t: string)
    requires WellFormed(o)
    ensures Rendered(o.(kind := String), Some(Text(t))) == t
    ensures o.kind.Boolean? ==> Rendered(o, Some(Num(0))) == "off" && Rendered(o, Some(Num(1))) == "on"
    ensures o.kind.Integer? && INT_MIN <= n <= INT_MAX ==> ParseInt(Rendered(o, Some(Num(n)))) == Some(n)
    ensures o.kind.Enum? && 0 <= n < |o.strings| ==> Rendered(o, Some(Num(n))) == o.strings[n]
    ensures o.kind.Color? ==> Rendered(o, Some(Num(n))) == o.colors.name(n)
  {
    if o.kind.Integer? && INT_MIN <= n <= INT_MAX {
      IntTextParsed(n);
    }
  }

  /** A value of one's own comes first. */
  lemma OwnValueFirst(w: World, k: Key)
    requires k in w.options && w.options[k].state.value.Some?
    ensures Inherited(w, k) == (w.options[k].spec, w.options[k].state.value)
  {
  }

  /** Null: the value of the parent comes next, and then its default. */
  lemma ParentNext(w: World, k: Key, p: Key)
    requires k in w.options && p in w.options && Plain(p)
    requires w.options[k].state.value.None? && w.options[k].parent == Some(FullName(p))
    ensures var i := w.options[p];
      Inherited(w, k) == (i.spec, if i.state.value.Some? then i.state.value else i.state.default)
  {
    SplitFull(p);
  }

  /** Without a parent, or without an option of that name, it is one's own default. */
  lemma DefaultLast(w: World, k: Key)
    requires Valid(w) && k in w.options && w.options[k].state.value.None?
    requires w.options[k].parent.None? || forall p :: p in w.options ==> w.options[k].parent != Some(FullName(p))
    ensures Inherited(w, k) == (w.options[k].spec, w.options[k].state.default)
  {
    if w.options[k].parent.Some? {
      SplitPlain(w.options[k].parent.value);
    }
  }
}
