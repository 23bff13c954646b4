/** What the normalisation of separators promises for any text. */
module CalcSanitize {
  import opened CalcNumbers

  lemma {:induction false} StripConcat(a: string, b: string)
    ensures Strip(a + b) == Strip(a) + Strip(b)
  {
    if a == [] {
      assert a + b == b;
    } else {
      assert (a + b)[1..] == a[1..] + b;
      StripConcat(a[1..], b);
    }
  }

  lemma {:induction false} StripIsPlain(s: string)
    ensures Plain(Strip(s))
  {
    if s != [] {
      StripIsPlain(s[1..]);
    }
  }

  lemma BehindLast(s: string)
    ensures Plain(s[LastSeparator(s) + 1..])
  {
    PlainBehind(s, LastSeparator(s));
  }

  lemma PlainBehind(s: string, k: int)
    requires -1 <= k < |s| && forall i :: k < i < |s| ==> !IsSeparator(s[i])
    ensures Plain(s[k + 1..])
  {
  }

  /** The two shapes of the result: the digits on both sides of a point that
      stands where the last separator stood, or the digits alone. */
  lemma SanitizedShape(s: string)
    ensures var k := LastSeparator(s);
      Sanitized(s) == if HasDecimals(s) then Strip(s[..k]) + "." + Strip(s[k + 1..]) else Strip(s)
  {
    BehindLast(s);
    PlainIsStripped(s[LastSeparator(s) + 1..]);
  }

  lemma StripAround(a: string, c: char, b: string)
    requires IsSeparator(c)
    ensures Strip(a + [c] + b) == Strip(a) + Strip(b)
  {
    assert a + [c] + b == a + ([c] + b);
    StripConcat(a, [c] + b);
    assert ([c] + b)[1..] == b;
  }

  lemma StripAroundPlain(a: string, b: string)
    requires Plain(a) && Plain(b)
    ensures Strip(a + "." + b) == a + b
  {
    StripAround(a, '.', b);
    PlainIsStripped(a);
    PlainIsStripped(b);
  }

  /** Digits and '-' survive, in their order, and nothing else but a point. */
  lemma SanitizedKeepsDigits(s: string)
    ensures Strip(Sanitized(s)) == Strip(s)
  {
    SanitizedShape(s);
    if HasDecimals(s) {
      var k := LastSeparator(s);
      assert s == s[..k] + [s[k]] + s[k + 1..];
      StripAround(s[..k], s[k], s[k + 1..]);
      StripIsPlain(s[..k]);
      StripIsPlain(s[k + 1..]);
      StripAroundPlain(Strip(s[..k]), Strip(s[k + 1..]));
    } else {
      StripIsPlain(s);
      PlainIsStripped(Strip(s));
    }
  }

  lemma SanitizedIsShorter(s: string)
    ensures |Sanitized(s)| <= |s|
  {
    StripIsShorter(s);
    StripIsShorter(s[..LastSeparator(s) + 1]);
    if HasDecimals(s) {
      StripIsShorter(s[..LastSeparator(s)]);
    }
  }

  lemma {:induction false} StripIsShorter(s: string)
    ensures |Strip(s)| <= |s|
  {
    if s != [] {
      StripIsShorter(s[1..]);
    }
  }

  /** The returned flag tells whether a separator is left; it is a point, and
      there is only one. */
  lemma SanitizedPointOnly(s: string)
    ensures HasDecimals(s) <==> HasSeparator(Sanitized(s))
    ensures forall i :: 0 <= i < |Sanitized(s)| && IsSeparator(Sanitized(s)[i]) ==>
      Sanitized(s)[i] == '.' && i == |Strip(s[..LastSeparator(s)])|
  {
    SanitizedShape(s);
    StripIsPlain(s);
    if HasDecimals(s) {
      var k := LastSeparator(s);
      StripIsPlain(s[..k]);
      StripIsPlain(s[k + 1..]);
      var r := Strip(s[..k]) + "." + Strip(s[k + 1..]);
      assert r[|Strip(s[..k])|] == '.' && IsSeparator('.');
    }
  }

  /** Two or more separators that are all the same are thousands separators. */
  lemma SameSeparatorsGo(s: string, i: nat, j: nat)
    requires i < j < |s| && IsSeparator(s[i]) && IsSeparator(s[j])
    requires forall m :: 0 <= m < |s| && IsSeparator(s[m]) ==> s[m] == s[j]
    ensures Sanitized(s) == Strip(s) && !HasDecimals(s)
  {
    var k := LastSeparator(s);
    assert s[..k][i] == s[i];
    assert s[k] == s[j];
  }

  /** Sanitising twice is sanitising once, in text and in answer. */
  lemma SanitizeIdempotent(s: string)
    ensures Sanitized(Sanitized(s)) == Sanitized(s)
    ensures HasDecimals(Sanitized(s)) == HasDecimals(s)
  {
    SanitizedShape(s);
    if HasDecimals(s) {
      var k := LastSeparator(s);
      StripIsPlain(s[..k]);
      StripIsPlain(s[k + 1..]);
      SanitizedPoint(Strip(s[..k]), Strip(s[k + 1..]));
    } else {
      StripIsPlain(s);
      SanitizedPlain(Strip(s));
    }
  }
}
