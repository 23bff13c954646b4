/** The truncated hash of a one-time password: the shifts and masks of the code
    against section 5.3 of RFC 4226. */
module Truncation {
  type Bytes = seq<bv8>

  type Hash = h: Bytes | |h| == 20 witness [0, 0, 0, 0, 0, 0, 0, 0, 0, 0, 0, 0, 0, 0, 0, 0, 0, 0, 0, 0]

  // ----- the standard: section 5.3 of RFC 4226

  /** Four bytes as one number, the first byte first. */
  function BigEndian(b0: bv8, b1: bv8, b2: bv8, b3: bv8): bv32 {
    ((b0 as bv32) << 24) | ((b1 as bv32) << 16) | ((b2 as bv32) << 8) | (b3 as bv32)
  }

  function Offset(hash: Hash): (o: nat)
    ensures o <= 15
  {
    var low: bv8 := hash[19] & 0xf;
    assert low <= 15;
    low as nat
  }

  /** The last 31 bits of four bytes. */
  function LowBits(b0: bv8, b1: bv8, b2: bv8, b3: bv8): bv32 {
    BigEndian(b0, b1, b2, b3) & 0x7fff_ffff
  }

  /** Dynamic truncation: the low four bits of the last byte give the place of the
      four bytes. */
  function DynamicTruncation(hash: Hash): bv32 {
    var o := Offset(hash);
    LowBits(hash[o], hash[o + 1], hash[o + 2], hash[o + 3])
  }

  // ----- the code

  /** The shifts and masks. */
  function BinCode(b0: bv8, b1: bv8, b2: bv8, b3: bv8): bv32 {
    (((b0 as bv32) & 0x7f) << 24) | (((b1 as bv32) & 0xff) << 16) | (((b2 as bv32) & 0xff) << 8) | ((b3 as bv32) & 0xff)
  }

  lemma MasksKeepLowBits(b0: bv8, b1: bv8, b2: bv8, b3: bv8)
    ensures BinCode(b0, b1, b2, b3) == LowBits(b0, b1, b2, b3)
  {
  }

  /** They make the dynamic truncation. */
  lemma BinCodeIsTruncation(hash: Hash)
    ensures var o := Offset(hash);
      BinCode(hash[o], hash[o + 1], hash[o + 2], hash[o + 3]) == DynamicTruncation(hash)
  {
    var o := Offset(hash);
    var b0, b1, b2, b3 := hash[o], hash[o + 1], hash[o + 2], hash[o + 3];
    MasksKeepLowBits(b0, b1, b2, b3);
    assert DynamicTruncation(hash) == LowBits(b0, b1, b2, b3);
  }
}
