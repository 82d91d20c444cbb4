/** `clean_invalid_characters`: the sanitiser that always keeps non-ASCII characters. */
module Utils {
  import opened Chars
  import opened Seqs

  /** The characters `clean_invalid_characters` keeps. */
  predicate KeptByUtils(c: char)
  {
    !IsInvalidFileChar(c) && !IsControl(c)
  }

  /** A single filter over the characters of `input`. */
  function CleanInvalidCharacters(input: string): (r: string)
    ensures |r| <= |input|
    ensures forall i :: 0 <= i < |r| ==> !IsInvalidFileChar(r[i]) && !IsControl(r[i])
    ensures forall i :: 0 <= i < |input| && !IsInvalidFileChar(input[i]) && !IsControl(input[i]) ==> input[i] in r
  {
    Filter(input, KeptByUtils)
  }

  /**
   * Exactly the listed characters and control characters are removed: the result is the
   * input read at the positions of every other character (non-ASCII included), in order.
   */
  lemma CleanInvalidCharactersKeepsOrder(input: string)
    ensures |KeptPositions(input, KeptByUtils)| == |CleanInvalidCharacters(input)|
    ensures forall k :: 0 <= k < |KeptPositions(input, KeptByUtils)| ==>
      KeptPositions(input, KeptByUtils)[k] < |input|
      && input[KeptPositions(input, KeptByUtils)[k]] == CleanInvalidCharacters(input)[k]
    ensures forall k, l :: 0 <= k < l < |KeptPositions(input, KeptByUtils)| ==>
      KeptPositions(input, KeptByUtils)[k] < KeptPositions(input, KeptByUtils)[l]
    ensures forall j :: 0 <= j < |input| && !IsInvalidFileChar(input[j]) && !IsControl(input[j]) ==>
      j in KeptPositions(input, KeptByUtils)
  {
    FilterKeepsOrder(input, KeptByUtils);
  }

  /** Cleaning an already clean string changes nothing. */
  lemma CleanInvalidCharactersIdempotent(input: string)
    ensures CleanInvalidCharacters(CleanInvalidCharacters(input)) == CleanInvalidCharacters(input)
  {
    FilterIdempotent(input, KeptByUtils);
  }

  /** A string is its own cleaning exactly when it has no listed and no control character. */
  lemma CleanInvalidCharactersFixpoint(input: string)
    ensures CleanInvalidCharacters(input) == input
        <==> forall i :: 0 <= i < |input| ==> !IsInvalidFileChar(input[i]) && !IsControl(input[i])
  {
    FilterFixpoint(input, KeptByUtils);
  }
}
