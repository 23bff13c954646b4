/** One-time passwords by example: the hash, the password and the times of the
    standards, RFC 4226 and RFC 6238. */
module PasswordMeaning {
  import Wrappers
  import opened Digits
  import opened Truncation
  import opened Totp

  /** The hash of section 5.4 of RFC 4226. */
  const EXAMPLE: seq<bv8> := [0x1f, 0x86, 0x98, 0x69, 0x0e, 0x02, 0xca, 0x16, 0x61, 0x85,
                              0x50, 0xef, 0x7f, 0x19, 0xda, 0x8e, 0x94, 0x5b, 0x55, 0x5a]

  lemma ExampleOffset()
    ensures |EXAMPLE| == 20 && Offset(EXAMPLE) == 10
  {
    var low: bv8 := EXAMPLE[19] & 0xf;
    assert low == 10;
  }

  lemma ExampleBits()
    ensures LowBits(0x50, 0xef, 0x7f, 0x19) == 0x50ef7f19
  {
  }

  /** Its truncation, and its last six digits. */
  lemma ExampleTruncation()
    ensures |EXAMPLE| == 20 && DynamicTruncation(EXAMPLE) == 0x50ef7f19
  {
    ExampleOffset();
    ExampleBits();
  }

  lemma ExampleDigits(n: nat)
    requires n == 1357872921
    ensures Padded(n, 6) == "872921"
  {
    assert Padded(1357, 0) == "";
    assert Padded(13578, 1) == "8";
    assert Padded(135787, 2) == "87";
    assert Padded(1357872, 3) == "872";
    assert Padded(13578729, 4) == "8729";
    assert Padded(135787292, 5) == "87292";
  }

  /** The password of a counter with this hash is "872921". */
  lemma ExamplePassword(w: World, secret: Bytes, counter: nat)
    requires w.hmac(secret, counter) == EXAMPLE
    ensures Code(w, secret, counter, 6) == "872921"
  {
    ExampleTruncation();
    var bits: bv32 := 0x50ef7f19;
    assert bits as nat == 1357872921;
    ExampleDigits(bits as nat);
  }

  /** Time goes in steps of 30 seconds, from 1970 on. */
  lemma TimeSteps(time: int)
    requires 0 <= time < UINT64
    ensures 30 * MovingFactor(time) <= time < 30 * MovingFactor(time) + 30
  {
  }

  /** Two of the times of appendix B of RFC 6238. */
  lemma ExampleTimes()
    ensures MovingFactor(59) == 0x1 && MovingFactor(1111111109) == 0x23523EC
  {
  }

  /** The time 0 is now, and any other time is itself. */
  lemma NowIsZero(w: World, time: int)
    ensures TimeOf(w, 0) == w.clock
    ensures time != 0 ==> TimeOf(w, time) == time
  {
  }

  /** Before 1970 the step is rounded towards 0, and counted down from 2^64. */
  lemma EarlyTimes(time: int)
    requires -UINT64 < time < 0
    ensures var m := if MovingFactor(time) == 0 then 0 else UINT64 - MovingFactor(time);
      30 * m <= -time < 30 * m + 30
  {
  }

  /** There is no secret without a text, without a decoding and without any bytes. */
  lemma SecretExactly(w: World, text: string, secret: Bytes)
    ensures Secret(w, text) == Wrappers.Some(secret) <==>
      text != "" && w.decode(text) == Wrappers.Some(secret) && secret != []
  {
  }
}
