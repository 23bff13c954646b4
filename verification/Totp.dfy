/** Time-based one-time passwords: src/core/core-crypto.c over an abstract
    HMAC-SHA1 and base32 decoder. */
module Totp {
  import opened Wrappers
  import opened Digits
  import opened Truncation

  /** What stands outside: the keyed hash of a counter, base32 decoding (None for
      an invalid character) and the clock. */
  datatype World = World(hmac: (Bytes, nat) -> Hash, decode: string -> Option<Bytes>, clock: int)

  const MIN_DIGITS := 4
  const MAX_DIGITS := 10
  const UINT64: int := 0x1_0000_0000_0000_0000

  /** The password of a counter: the last decimal digits of the truncated hash. */
  function Code(w: World, secret: Bytes, counter: nat, digits: nat): string {
    Padded(DynamicTruncation(w.hmac(secret, counter)) as nat, digits)
  }

  // ----- weecrypto_totp_generate_internal

  lemma SplitModulo(n: nat, p: nat, ten: nat)
    requires p > 0 && ten == 10
    ensures (n % (ten * p)) % 10 == n % 10
    ensures (n % (ten * p)) / 10 == (n / 10) % p
  {
    var d, k := n % 10, n / 10;
    var q, r := k / p, k % p;
    assert k == p * q + r;
    assert n == ten * k + d;
    var m := ten * r + d;
    assert n == (ten * p) * q + m by {
      Distribute(ten, p, q, r);
    }
    assert m < ten * p by {
      assert ten * (r + 1) <= ten * p;
    }
    var n', m' := n / (ten * p), n % (ten * p);
    assert n == (ten * p) * n' + m';
    SameQuotient(ten * p, q, m, n', m');
  }

  lemma Distribute(t: nat, p: nat, q: nat, r: nat)
    ensures t * (p * q + r) == (t * p) * q + t * r
  {
  }

  lemma {:induction false} PaddedModulo(n: nat, k: nat)
    ensures Pow10(k) > 0 && Padded(n % Pow10(k), k) == Padded(n, k)
  {
    Pow10Positive(k);
    if k > 0 {
      Pow10Positive(k - 1);
      PaddedModulo(n / 10, k - 1);
      PaddedModuloStep(n, k, Pow10(k - 1));
    }
  }

  lemma PaddedModuloStep(n: nat, k: nat, p: nat)
    requires k > 0 && p > 0 && Pow10(k) == 10 * p
    requires Padded((n / 10) % p, k - 1) == Padded(n / 10, k - 1)
    ensures Padded(n % Pow10(k), k) == Padded(n, k)
  {
    SplitModulo(n, p, 10);
    var m := n % Pow10(k);
    assert m / 10 == (n / 10) % p && m % 10 == n % 10;
  }

  /** "%.*lu": the digits of n, with leading zeros up to k characters if there are
      fewer. */
  function Precise(n: nat, k: nat): string {
    if n == 0 then Zeros(k) else Precise(n / 10, if k == 0 then 0 else k - 1) + [DigitChar(n % 10)]
  }

  lemma OneMoreDigit(front: string, n: nat, d: nat)
    requires AllDigits(front) && Natural(front) == n && d < 10
    ensures var s := front + [DigitChar(d)]; AllDigits(s) && Natural(s) == 10 * n + d
  {
    var s := front + [DigitChar(d)];
    assert s[..|s| - 1] == front;
  }

  /** The text has all digits of n, so it can be longer than k. */
  lemma {:induction false} PreciseIsNumber(n: nat, k: nat)
    ensures AllDigits(Precise(n, k)) && Natural(Precise(n, k)) == n && |Precise(n, k)| >= k
  {
    if n == 0 {
      ZerosAreDigits(k);
      NaturalOfZeros("", k);
      assert "" + Zeros(k) == Zeros(k);
    } else {
      PreciseIsNumber(n / 10, if k == 0 then 0 else k - 1);
      OneMoreDigit(Precise(n / 10, if k == 0 then 0 else k - 1), n / 10, n % 10);
    }
  }

  /** It has exactly k if n has no more than k digits. */
  lemma {:induction false} PreciseIsPadded(n: nat, k: nat)
    ensures Pow10(k) > 0
    ensures n < Pow10(k) ==> Precise(n, k) == Padded(n, k)
    ensures n >= Pow10(k) ==> |Precise(n, k)| > k
  {
    Pow10Positive(k);
    if n == 0 {
      ZerosArePadded(k);
    } else if k > 0 {
      PreciseIsPadded(n / 10, k - 1);
    } else {
      PreciseIsNumber(n / 10, 0);
    }
  }

  lemma {:induction false} ZerosArePadded(k: nat)
    ensures Zeros(k) == Padded(0, k)
  {
    if k > 0 {
      ZerosArePadded(k - 1);
    }
  }

  /** Without a secret the hash function fails. The text has the length asked for
      because the number has been cut to that many digits. */
  method GenerateInternal(w: World, secret: Bytes, movingFactor: nat, digits: nat) returns (result: Option<string>)
    ensures result == if secret == [] then None else Some(Code(w, secret, movingFactor, digits))
  {
    if |secret| < 1 {
      return None;
    }
    var hash := w.hmac(secret, movingFactor);
    var offset := Offset(hash);
    var binCode := BinCode(hash[offset], hash[offset + 1], hash[offset + 2], hash[offset + 3]);
    BinCodeIsTruncation(hash);
    PaddedModulo(binCode as nat, digits);
    var rest := (binCode as nat) % Pow10(digits);
    PreciseIsPadded(rest, digits);
    var text := Precise(rest, digits);
    if |text| != digits {
      return None;
    }
    result := Some(text);
  }

  // ----- weecrypto_totp_generate

  /** The quotient of C, which is rounded towards zero, as a uint64. */
  function MovingFactor(time: int): (m: nat)
    ensures m < UINT64
  {
    (if time >= 0 then time / 30 else -((-time) / 30)) % UINT64
  }

  /** The time 0 stands for now. */
  function TimeOf(w: World, time: int): int {
    if time == 0 then w.clock else time
  }

  /** The secret that a text stands for, if it is one to hash with. */
  function Secret(w: World, text: string): Option<Bytes> {
    if text == "" || w.decode(text) == Some([]) then None else w.decode(text)
  }

  method Generate(w: World, secretText: string, time: int, digits: int) returns (result: Option<string>)
    ensures result.Some? <==> MIN_DIGITS <= digits <= MAX_DIGITS && Secret(w, secretText).Some?
    ensures result.Some? ==>
      4 <= |result.value| <= 10
      && result.value == Code(w, Secret(w, secretText).value, MovingFactor(TimeOf(w, time)), digits)
  {
    if secretText == "" || digits < MIN_DIGITS || digits > MAX_DIGITS {
      return None;
    }
    var secret := w.decode(secretText);
    if secret.None? {
      return None;
    }
    var totpTime := time;
    if totpTime == 0 {
      totpTime := w.clock;
    }
    var movingFactor := MovingFactor(totpTime);
    result := GenerateInternal(w, secret.value, movingFactor, digits);
  }

  /** A password has as many digits as asked for, and they are the last digits of
      the truncated hash. */
  lemma CodeIsDecimal(w: World, secret: Bytes, counter: nat, digits: nat)
    ensures var code := Code(w, secret, counter, digits);
      && |code| == digits && AllDigits(code)
      && Pow10(digits) > 0
      && Natural(code) == (DynamicTruncation(w.hmac(secret, counter)) as nat) % Pow10(digits)
  {
    var n := DynamicTruncation(w.hmac(secret, counter)) as nat;
    PaddedModulo(n, digits);
    PaddedRead(n % Pow10(digits), digits);
  }

  // ----- weecrypto_totp_validate

  /** The first and the last counter of a window, as uint64. */
  function First(factor: nat, window: nat): nat {
    (factor - window) % UINT64
  }

  function Last(factor: nat, window: nat): nat {
    (factor + window) % UINT64
  }

  /** Some counter of the window generates the password. */
  ghost predicate Accepts(w: World, secret: Bytes, first: nat, end: nat, otp: string) {
    exists c: nat :: first <= c < end && Code(w, secret, c, |otp|) == otp
  }

  /** The calls that get as far as the loop. */
  predicate Loops(w: World, secretText: string, window: int, otp: string) {
    secretText != "" && window >= 0 && MIN_DIGITS <= |otp| <= MAX_DIGITS && w.decode(secretText).Some?
  }

  /** The counter of the loop after some rounds. */
  function CounterAfter(i: nat, rounds: nat): nat
    decreases rounds
  {
    if rounds == 0 then i else CounterAfter((i + 1) % UINT64, rounds - 1)
  }

  lemma {:induction false} CounterCounts(i: nat, rounds: nat)
    requires i + rounds < UINT64
    ensures CounterAfter(i, rounds) == i + rounds
    decreases rounds
  {
    if rounds > 0 {
      CounterCounts(i + 1, rounds - 1);
    }
  }

  lemma {:induction false} CounterStaysSmall(i: nat, rounds: nat)
    requires i < UINT64
    ensures CounterAfter(i, rounds) < UINT64
    decreases rounds
  {
    if rounds > 0 {
      CounterStaysSmall((i + 1) % UINT64, rounds - 1);
    }
  }

  /** The loop ends, at some round, exactly if the last counter of the window is
      not the greatest uint64. */
  lemma LoopEndsExactly(factor: nat, window: nat)
    ensures (exists rounds: nat :: CounterAfter(First(factor, window), rounds) > Last(factor, window))
            <==> Last(factor, window) != UINT64 - 1
  {
    var first, last := First(factor, window), Last(factor, window);
    forall rounds: nat ensures CounterAfter(first, rounds) < UINT64 {
      CounterStaysSmall(first, rounds);
    }
    if last != UINT64 - 1 {
      var rounds := if first > last then 0 else last + 1 - first;
      CounterCounts(first, rounds);
      assert CounterAfter(first, rounds) > last;
    }
  }

  /** Only calls whose loop does not end are left out. All the codes of the window
      are looked at, also after one has matched. */
  method Validate(w: World, secretText: string, time: int, window: int, otp: string) returns (ok: bool)
    requires Loops(w, secretText, window, otp) ==> Last(MovingFactor(TimeOf(w, time)), window) != UINT64 - 1
    ensures ok ==> 4 <= |otp| <= 10
    ensures ok <==>
      && window >= 0 && MIN_DIGITS <= |otp| <= MAX_DIGITS && Secret(w, secretText).Some?
      && var factor := MovingFactor(TimeOf(w, time));
         Accepts(w, Secret(w, secretText).value, First(factor, window), Last(factor, window) + 1, otp)
  {
    if secretText == "" || window < 0 || otp == "" {
      return false;
    }
    var digits := |otp|;
    if digits < MIN_DIGITS || digits > MAX_DIGITS {
      return false;
    }
    var decoded := w.decode(secretText);
    if decoded.None? {
      return false;
    }
    var secret := decoded.value;
    var totpTime := time;
    if totpTime == 0 {
      totpTime := w.clock;
    }
    var movingFactor := MovingFactor(totpTime);
    var last := Last(movingFactor, window);
    ok := false;
    var i := First(movingFactor, window);
    while i <= last
      invariant First(movingFactor, window) <= i < UINT64
      invariant last < UINT64 - 1 && (i == First(movingFactor, window) || i <= last + 1)
      invariant ok <==> secret != [] && Accepts(w, secret, First(movingFactor, window), i, otp)
      decreases last + 1 - i
    {
      var code := GenerateInternal(w, secret, i, digits);
      if code.Some? && code.value == otp {
        ok := true;
      }
      i := (i + 1) % UINT64;
    }
  }

  /** A window has any counters at all exactly if it neither reaches below 0 nor
      beyond a uint64; the window is an int of C. */
  lemma WindowIsEmptyExactly(factor: nat, window: nat)
    requires factor < UINT64 && window < 0x8000_0000
    ensures First(factor, window) <= Last(factor, window) <==> window <= factor && factor + window < UINT64
  {
    if window > factor {
      assert (factor - window) % UINT64 == UINT64 + factor - window;
    }
    if factor + window >= UINT64 {
      assert (factor + window) % UINT64 == factor + window - UINT64;
    }
  }

  /** A window that neither reaches below 0 nor beyond a uint64 is what it says. */
  lemma WindowIsInterval(factor: nat, window: nat)
    requires window <= factor && factor + window < UINT64
    ensures First(factor, window) == factor - window && Last(factor, window) == factor + window
  {
  }

  /** A window that reaches below 0 wraps round and is empty: nothing is accepted,
      not even the password of the counter itself. */
  lemma EarlyWindowRejects(w: World, secret: Bytes, factor: nat, window: nat, otp: string)
    requires factor < window && factor + window < UINT64 && window < 0x8000_0000
    ensures First(factor, window) == UINT64 + factor - window > Last(factor, window)
    ensures !Accepts(w, secret, First(factor, window), Last(factor, window) + 1, otp)
  {
    assert (factor - window) % UINT64 == UINT64 + factor - window;
  }

  /** What Generate returns at one time, Validate accepts at every time at most
      window steps of 30 seconds before or after. */
  lemma GeneratedIsAccepted(w: World, secret: Bytes, made: int, time: int, window: nat, digits: nat)
    requires TimeOf(w, made) >= 0 && TimeOf(w, time) >= 0
    requires var before, now := TimeOf(w, made) / 30, TimeOf(w, time) / 30;
      window <= now && now + window < UINT64 && now - window <= before <= now + window
    ensures var code, factor := Code(w, secret, MovingFactor(TimeOf(w, made)), digits), MovingFactor(TimeOf(w, time));
      |code| == digits && Accepts(w, secret, First(factor, window), Last(factor, window) + 1, code)
  {
    WindowIsInterval(MovingFactor(TimeOf(w, time)), window);
  }
}
