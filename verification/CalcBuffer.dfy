/** The character buffers of src/core/core-calc.c: NUL-terminated strings that are
    rewritten in place. */
module CalcBuffer {
  import opened Digits
  import opened CalcNumbers
  import opened CalcSanitize

  const NUL: char := '\0'

  /** The length of the C string that a buffer holds. */
  function StrLen(s: seq<char>): (n: nat)
    ensures n <= |s|
    ensures forall i :: 0 <= i < n ==> s[i] != NUL
    ensures n < |s| ==> s[n] == NUL
  {
    if s == [] || s[0] == NUL then 0 else 1 + StrLen(s[1..])
  }

  predicate Terminated(s: seq<char>) {
    StrLen(s) < |s|
  }

  function CString(s: seq<char>): string {
    s[..StrLen(s)]
  }

  lemma {:induction false} StrLenIs(s: seq<char>, n: nat)
    requires n < |s| && s[n] == NUL
    requires forall i :: 0 <= i < n ==> s[i] != NUL
    ensures StrLen(s) == n && Terminated(s) && CString(s) == s[..n]
  {
    if n > 0 {
      StrLenIs(s[1..], n - 1);
    }
  }

  method StringLength(a: array<char>) returns (n: nat)
    requires Terminated(a[..])
    ensures n == StrLen(a[..]) && n < a.Length
  {
    n := 0;
    while a[n] != NUL
      invariant 0 <= n <= StrLen(a[..])
      decreases a.Length - n
    {
      n := n + 1;
    }
    StrLenIs(a[..], n);
  }

  // ----- calc_sanitize_decimal_number

  lemma LastSeparatorIs(s: string, k: int)
    requires -1 <= k < |s|
    requires k >= 0 ==> IsSeparator(s[k])
    requires forall j :: k < j < |s| ==> !IsSeparator(s[j])
    ensures LastSeparator(s) == k
  {
    assert LastSeparator(s) == k;
  }

  /** What the first loop knows when s[i + 1..] has been scanned from the end and
      no two different separators have been met. */
  ghost predicate Scanned(s: string, i: int, last: int, count: nat) {
    && -1 <= i < |s| && -1 <= last < |s|
    && (last < 0 ==> count == 0 && forall j :: i < j < |s| ==> !IsSeparator(s[j]))
    && (last >= 0 ==> i < last && last == LastSeparator(s) && count > 0)
    && (last >= 0 ==> forall j :: i < j < last && IsSeparator(s[j]) ==> s[j] == s[last])
    && (count > 1 <==> exists j :: i < j < last && IsSeparator(s[j]))
  }

  lemma ScanStep(s: string, i: int, last: int, count: nat)
    requires Scanned(s, i, last, count) && i >= 0
    requires IsSeparator(s[i]) && last >= 0 ==> s[i] == s[last]
    ensures Scanned(s, i - 1, if IsSeparator(s[i]) && last < 0 then i else last,
                    if IsSeparator(s[i]) then count + 1 else count)
  {
    if IsSeparator(s[i]) && last < 0 {
      LastSeparatorIs(s, i);
    }
  }

  /** Two different separators: the last one is a decimal separator. */
  lemma ScanDifferent(s: string, i: int, last: int, count: nat)
    requires Scanned(s, i, last, count) && 0 <= i && last >= 0
    requires IsSeparator(s[i]) && s[i] != s[last]
    ensures HasDecimals(s) && last == LastSeparator(s)
  {
    assert s[..last][i] == s[i];
  }

  lemma ScanEnd(s: string, last: int, count: nat)
    requires Scanned(s, -1, last, count)
    ensures HasDecimals(s) <==> count == 1
    ensures last == LastSeparator(s)
  {
    if last < 0 {
      LastSeparatorIs(s, -1);
    } else {
      var t := s[..last];
      assert forall j :: 0 <= j < |t| ==> t[j] == s[j];
    }
  }

  /** The first loop, from the end: the index of the last separator if it is a
      decimal separator, else -1. */
  method FindDecimalSeparator(a: array<char>, n: nat) returns (last: int)
    requires n < a.Length
    ensures last == if HasDecimals(a[..n]) then LastSeparator(a[..n]) else -1
  {
    ghost var s := a[..n];
    var i: int := n - 1;
    var countSep := 0;
    var differentSep := false;
    last := -1;
    while i >= 0
      invariant -1 <= i < n
      invariant !differentSep && Scanned(s, i, last, countSep)
    {
      if !IsDigit(a[i]) && a[i] != '-' {
        if last >= 0 && a[i] != a[last] {
          ScanDifferent(s, i, last, countSep);
        } else {
          ScanStep(s, i, last, countSep);
        }
        countSep := countSep + 1;
        if last < 0 {
          last := i;
        } else if !differentSep && a[i] != a[last] {
          differentSep := true;
          break;
        }
      } else {
        ScanStep(s, i, last, countSep);
      }
      i := i - 1;
    }
    if !differentSep {
      ScanEnd(s, last, countSep);
    }
    if countSep > 1 && !differentSep {
      last := -1;
    }
  }

  /** The text that the second loop has written when it has read t[..i]: k is
      the index of the decimal point, or -1. */
  function Compacted(t: string, k: int, i: nat): string
    requires -1 <= k < |t| && i <= |t|
  {
    if k < 0 || i <= k then Strip(t[..i]) else Strip(t[..k]) + t[k..i]
  }

  lemma CompactStep(t: string, k: int, i: nat)
    requires -1 <= k < |t| && i < |t|
    ensures Compacted(t, k, i + 1)
         == Compacted(t, k, i) + (if (k < 0 || i < k) && IsSeparator(t[i]) then "" else [t[i]])
  {
    assert t[..i + 1] == t[..i] + [t[i]];
    StripConcat(t[..i], [t[i]]);
    assert [t[i]][1..] == "";
    if 0 <= k <= i {
      assert t[k..i + 1] == t[k..i] + [t[i]];
      if i == k {
        assert t[..k] == t[..i];
      }
    }
  }

  /** What the second loop writes in the end. */
  lemma CompactedAll(s: string, k: int, t: string)
    requires k == if HasDecimals(s) then LastSeparator(s) else -1
    requires t == if k >= 0 then s[k := '.'] else s
    ensures Compacted(t, k, |t|) == Sanitized(s)
  {
    if k >= 0 {
      PointPlaced(s, k);
    } else {
      assert t[..|t|] == s;
    }
  }

  lemma PointPlaced(s: string, k: nat)
    requires k < |s|
    ensures var t := s[k := '.'];
      Compacted(t, k, |t|) == Strip(s[..k]) + "." + s[k + 1..]
  {
    var t := s[k := '.'];
    assert t[..k] == s[..k];
    var tail := t[k..|t|];
    assert tail == "." + s[k + 1..];
    assert Strip(s[..k]) + ("." + s[k + 1..]) == Strip(s[..k]) + "." + s[k + 1..];
  }

  /** The second loop: copies the text down over the separators that go. */
  method Compact(a: array<char>, k: int)
    requires Terminated(a[..]) && -1 <= k < StrLen(a[..])
    modifies a
    ensures Terminated(a[..])
    ensures CString(a[..]) == Compacted(old(CString(a[..])), k, old(StrLen(a[..])))
  {
    ghost var t := CString(a[..]);
    ghost var n := |t|;
    var i, j := 0, 0;
    while true
      invariant 0 <= j <= i <= n < a.Length
      invariant a[..j] == Compacted(t, k, i)
      invariant forall m :: i <= m < n ==> a[m] == t[m]
      invariant a[n] == NUL
      invariant forall m :: 0 <= m < j ==> a[m] != NUL
      decreases n - i
    {
      if i < n {
        CompactStep(t, k, i);
      }
      if (k < 0 || i < k) && a[i] != NUL && !IsDigit(a[i]) && a[i] != '-' {
        i := i + 1;
      } else {
        if j != i {
          a[j] := a[i];
        }
        if a[i] == NUL {
          break;
        }
        i := i + 1;
        j := j + 1;
      }
    }
    StrLenIs(a[..], j);
  }

  method SanitizeDecimalNumber(a: array<char>) returns (r: int)
    requires Terminated(a[..])
    modifies a
    ensures Terminated(a[..])
    ensures CString(a[..]) == Sanitized(old(CString(a[..])))
    ensures r == if HasDecimals(old(CString(a[..]))) then 1 else 0
  {
    ghost var s := CString(a[..]);
    var n := StringLength(a);
    var last := FindDecimalSeparator(a, n);
    if last >= 0 {
      a[last] := '.';
    }
    StrLenIs(a[..], n);
    CompactedAll(s, last, CString(a[..]));
    Compact(a, last);
    r := if last >= 0 then 1 else 0;
  }

  // ----- calc_format_result

  /** snprintf with one string: as much of it as fits, and the terminator. */
  method Snprintf(a: array<char>, maxSize: nat, text: string)
    requires 0 < maxSize <= a.Length
    requires NUL !in text
    modifies a
    ensures Terminated(a[..]) && CString(a[..]) == Truncate(text, maxSize - 1)
  {
    var i := 0;
    while i < |text| && i < maxSize - 1
      invariant 0 <= i <= |text| && i < maxSize
      invariant forall j :: 0 <= j < i ==> a[j] == text[j]
    {
      a[i] := text[i];
      i := i + 1;
    }
    a[i] := NUL;
    StrLenIs(a[..], i);
    assert a[..i] == text[..i];
  }

  /** The loop that removes zeros at the end and then a separator at the end. */
  method Trim(a: array<char>, hasDecimal: bool)
    requires Terminated(a[..])
    modifies a
    ensures Terminated(a[..]) && CString(a[..]) == Trimmed(old(CString(a[..])), hasDecimal)
  {
    ghost var s := CString(a[..]);
    var n := StringLength(a);
    var i: int := n - 1;
    assert s[..n] == s;
    while i >= 0
      invariant -1 <= i < n < a.Length
      invariant forall j :: 0 <= j <= i ==> a[j] == s[j]
      invariant a[i + 1] == NUL
      invariant Trimmed(s, hasDecimal) == Trimmed(s[..i + 1], hasDecimal)
    {
      ghost var t := s[..i + 1];
      assert t[|t| - 1] == s[i] && t[..|t| - 1] == s[..i];
      if !IsDigit(a[i]) && a[i] != '-' {
        a[i] := NUL;
        StrLenIs(a[..], i);
        assert a[..i] == s[..i];
        return;
      }
      if hasDecimal && a[i] == '0' {
        a[i] := NUL;
        i := i - 1;
      } else {
        break;
      }
    }
    StrLenIs(a[..], i + 1);
    assert a[..i + 1] == s[..i + 1];
  }

  method FormatResult(value: real, result: array<char>, maxSize: nat)
    requires 0 < maxSize <= result.Length
    modifies result
    ensures Terminated(result[..]) && CString(result[..]) == Format(value, maxSize)
  {
    Fixed10HasNoNul(value);
    Snprintf(result, maxSize, Fixed10(if value == -0.0 then 0.0 else value));
    var hasDecimal := SanitizeDecimalNumber(result);
    Trim(result, hasDecimal != 0);
  }

  lemma Fixed10HasNoNul(v: real)
    ensures NUL !in Fixed10(v)
  {
    NaturalTextRead(Units(v) / SCALE);
    PaddedRead(Units(v) % SCALE, 10);
  }
}
