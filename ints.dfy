/** Rust's fixed-width integers that the audio path uses, and the lossless widening between them. */
module Ints {

  newtype I16 = x: int | -0x8000 <= x < 0x8000

  newtype I32 = x: int | -0x8000_0000 <= x < 0x8000_0000

  /** `data.iter().map(|el| i32::from(*el)).collect()`: the same values, one for one, in order. */
  function Widen(data: seq<I16>): (wide: seq<I32>)
    ensures |wide| == |data|
    ensures forall i :: 0 <= i < |data| ==> wide[i] as int == data[i] as int
  {
    seq(|data|, i requires 0 <= i < |data| => data[i] as int as I32)
  }

  /** Widening a concatenation widens each part. */
  lemma WidenAppend(a: seq<I16>, b: seq<I16>)
    ensures Widen(a + b) == Widen(a) + Widen(b)
  {
    assert forall i :: 0 <= i < |a + b| ==> Widen(a + b)[i] == (Widen(a) + Widen(b))[i];
  }
}
