/** Sequence operations the model shares: order-keeping filtering and joining with a separator. */
module Seqs {

  /** The elements of `s` that satisfy `p`, in their original order. */
  function Filter<T>(s: seq<T>, p: T -> bool): (r: seq<T>)
    ensures |r| <= |s|
    ensures forall i :: 0 <= i < |r| ==> p(r[i])
    ensures forall i :: 0 <= i < |r| ==> r[i] in s
    ensures forall i :: 0 <= i < |s| && p(s[i]) ==> s[i] in r
  {
    if s == [] then [] else (if p(s[0]) then [s[0]] else []) + Filter(s[1..], p)
  }

  /** Filtering a concatenation filters each part. */
  lemma {:induction false} FilterAppend<T>(a: seq<T>, b: seq<T>, p: T -> bool)
    ensures Filter(a + b, p) == Filter(a, p) + Filter(b, p)
  {
    if a == [] {
      assert a + b == b;
    } else {
      assert (a + b)[0] == a[0];
      assert (a + b)[1..] == a[1..] + b;
      FilterAppend(a[1..], b, p);
    }
  }

  /** Appending one element to the input appends it to the output exactly when it is kept. */
  lemma FilterSnoc<T>(s: seq<T>, x: T, p: T -> bool)
    ensures Filter(s + [x], p) == Filter(s, p) + (if p(x) then [x] else [])
  {
    FilterAppend(s, [x], p);
    assert [x][1..] == [];
  }

  /** Filtering leaves `s` unchanged exactly when every element of `s` is kept. */
  lemma {:induction false} FilterFixpoint<T>(s: seq<T>, p: T -> bool)
    ensures Filter(s, p) == s <==> forall i :: 0 <= i < |s| ==> p(s[i])
  {
    if s == [] {
    } else if forall i :: 0 <= i < |s| ==> p(s[i]) {
      FilterFixpoint(s[1..], p);
      assert forall i :: 0 <= i < |s[1..]| ==> p(s[1..][i]) by {
        forall i | 0 <= i < |s[1..]| ensures p(s[1..][i]) { assert s[1..][i] == s[i + 1]; }
      }
      assert [s[0]] + s[1..] == s;
    } else {
      var i :| 0 <= i < |s| && !p(s[i]);
      assert s[i] in s;
      assert s[i] !in Filter(s, p);
    }
  }

  /** Filtering twice is filtering once. */
  lemma FilterIdempotent<T>(s: seq<T>, p: T -> bool)
    ensures Filter(Filter(s, p), p) == Filter(s, p)
  {
    FilterFixpoint(Filter(s, p), p);
  }

  /** Two predicates that agree on every element of `s` filter it alike. */
  lemma {:induction false} FilterCongruent<T>(s: seq<T>, p: T -> bool, q: T -> bool)
    requires forall i :: 0 <= i < |s| ==> p(s[i]) == q(s[i])
    ensures Filter(s, p) == Filter(s, q)
  {
    if s != [] {
      assert forall i :: 0 <= i < |s[1..]| ==> s[1..][i] == s[i + 1];
      FilterCongruent(s[1..], p, q);
    }
  }

  /** The positions at or after `i` whose elements satisfy `p`, in increasing order. */
  function KeptFrom<T>(s: seq<T>, p: T -> bool, i: nat): seq<nat>
    requires i <= |s|
    decreases |s| - i
  {
    if i == |s| then [] else (if p(s[i]) then [i] else []) + KeptFrom(s, p, i + 1)
  }

  /** The positions of `s` whose elements satisfy `p`, in increasing order. */
  function KeptPositions<T>(s: seq<T>, p: T -> bool): seq<nat>
  {
    KeptFrom(s, p, 0)
  }

  /** Every position `KeptFrom` lists lies in `[i, |s|)`, and they increase strictly. */
  lemma {:induction false} KeptFromIncreasing<T>(s: seq<T>, p: T -> bool, i: nat)
    requires i <= |s|
    ensures forall k :: 0 <= k < |KeptFrom(s, p, i)| ==> i <= KeptFrom(s, p, i)[k] < |s|
    ensures forall k, l :: 0 <= k < l < |KeptFrom(s, p, i)| ==> KeptFrom(s, p, i)[k] < KeptFrom(s, p, i)[l]
    decreases |s| - i
  {
    if i < |s| {
      KeptFromIncreasing(s, p, i + 1);
    }
  }

  /** Every position at or after `i` whose element is kept is listed by `KeptFrom`. */
  lemma {:induction false} KeptFromComplete<T>(s: seq<T>, p: T -> bool, i: nat)
    requires i <= |s|
    ensures forall j :: i <= j < |s| && p(s[j]) ==> j in KeptFrom(s, p, i)
    decreases |s| - i
  {
    if i < |s| {
      KeptFromComplete(s, p, i + 1);
    }
  }

  /** `Filter` of the suffix from `i` reads `s` at exactly the positions `KeptFrom` lists. */
  lemma {:induction false} FilterReadsKept<T>(s: seq<T>, p: T -> bool, i: nat)
    requires i <= |s|
    ensures |KeptFrom(s, p, i)| == |Filter(s[i..], p)|
    ensures forall k :: 0 <= k < |KeptFrom(s, p, i)| ==>
      KeptFrom(s, p, i)[k] < |s| && s[KeptFrom(s, p, i)[k]] == Filter(s[i..], p)[k]
    decreases |s| - i
  {
    if i < |s| {
      FilterReadsKept(s, p, i + 1);
      KeptFromIncreasing(s, p, i + 1);
      assert s[i..][0] == s[i];
      assert s[i..][1..] == s[i + 1..];
    }
  }

  /**
   * Order and completeness of `Filter`: the output is `s` read at the kept positions, in
   * increasing order of position, and every position whose element is kept is among them.
   */
  lemma FilterKeepsOrder<T>(s: seq<T>, p: T -> bool)
    ensures |KeptPositions(s, p)| == |Filter(s, p)|
    ensures forall k :: 0 <= k < |KeptPositions(s, p)| ==>
      KeptPositions(s, p)[k] < |s| && s[KeptPositions(s, p)[k]] == Filter(s, p)[k]
    ensures forall k, l :: 0 <= k < l < |KeptPositions(s, p)| ==> KeptPositions(s, p)[k] < KeptPositions(s, p)[l]
    ensures forall j :: 0 <= j < |s| && p(s[j]) ==> j in KeptPositions(s, p)
  {
    FilterReadsKept(s, p, 0);
    KeptFromIncreasing(s, p, 0);
    KeptFromComplete(s, p, 0);
    assert s[0..] == s;
  }

  /** `parts` joined with `sep` between neighbours (Rust's `join`). */
  function Join(parts: seq<string>, sep: string): string
  {
    if |parts| == 0 then "" else if |parts| == 1 then parts[0] else parts[0] + sep + Join(parts[1..], sep)
  }

  /** Joining one more part appends the separator and that part. */
  lemma {:induction false} JoinSnoc(parts: seq<string>, x: string, sep: string)
    requires |parts| > 0
    ensures Join(parts + [x], sep) == Join(parts, sep) + sep + x
  {
    if |parts| == 1 {
      assert (parts + [x])[1..] == [x];
    } else {
      assert (parts + [x])[1..] == parts[1..] + [x];
      JoinSnoc(parts[1..], x, sep);
    }
  }
}
