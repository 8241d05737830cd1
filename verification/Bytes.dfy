/** Unsigned bytes as integers. */
module Bytes {
  type Byte = b: int | 0 <= b < 256

  /** b xor 0x80. */
  function FlipTop(b: Byte): Byte {
    if b < 128 then b + 128 else b - 128
  }

  lemma FlipTopIsXor(b: bv8)
    ensures FlipTop(b as int) == (b ^ 0x80) as int
  {
    if b < 0x80 {
      assert b ^ 0x80 == b + 0x80;
    } else {
      assert b ^ 0x80 == b - 0x80;
    }
  }

  function Reversed<T>(s: seq<T>): (r: seq<T>)
    ensures |r| == |s|
    ensures forall k :: 0 <= k < |s| ==> r[k] == s[|s| - 1 - k]
  {
    seq(|s|, k requires 0 <= k < |s| => s[|s| - 1 - k])
  }
}
