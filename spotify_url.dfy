/**
 * The one URL pattern the program matches, `https://open.spotify.com/(\w+)/(.*)\?`, with the
 * regex engine's semantics spelled out: unanchored, leftmost start, greedy groups, and `.`
 * matching any character except a newline (including the two unescaped dots of the host).
 */
module SpotifyUrl {
  import opened Wrappers

  /** The literal head of the pattern; each `.` in it is the regex wildcard. */
  const Head: string := "https://open.spotify.com/"

  /** `\w`, restricted to ASCII letters, digits and `_`. */
  predicate IsWordChar(c: char)
  {
    ('a' <= c <= 'z') || ('A' <= c <= 'Z') || ('0' <= c <= '9') || c == '_'
  }

  predicate PatternCharMatches(pat: char, c: char)
  {
    if pat == '.' then c != '\n' else c == pat
  }

  /** The literal head of the pattern matches `s` at position `p`. */
  predicate HeadAt(s: string, p: nat)
  {
    p + |Head| <= |s| && forall k :: 0 <= k < |Head| ==> PatternCharMatches(Head[k], s[p + k])
  }

  /** The end of the longest run of word characters starting at `i` (greedy `\w+`). */
  function WordRunEnd(s: string, i: nat): (j: nat)
    requires i <= |s|
    ensures i <= j <= |s|
    ensures forall k :: i <= k < j ==> IsWordChar(s[k])
    ensures j < |s| ==> !IsWordChar(s[j])
    decreases |s| - i
  {
    if i < |s| && IsWordChar(s[i]) then WordRunEnd(s, i + 1) else i
  }

  /** The first newline at or after `i`, or the end of `s` (how far `.*` can reach). */
  function LineEnd(s: string, i: nat): (j: nat)
    requires i <= |s|
    ensures i <= j <= |s|
    ensures forall k :: i <= k < j ==> s[k] != '\n'
    ensures j < |s| ==> s[j] == '\n'
    decreases |s| - i
  {
    if i < |s| && s[i] != '\n' then LineEnd(s, i + 1) else i
  }

  /** The last `?` in `s[i..j]`: where greedy `.*` followed by `\?` stops. */
  function LastQuestion(s: string, i: nat, j: nat): (r: Option<nat>)
    requires i <= j <= |s|
    ensures r.Some? ==> i <= r.value < j && s[r.value] == '?' && forall k :: r.value < k < j ==> s[k] != '?'
    ensures r.None? ==> forall k :: i <= k < j ==> s[k] != '?'
    decreases j - i
  {
    if j == i then None else if s[j - 1] == '?' then Some(j - 1) else LastQuestion(s, i, j - 1)
  }

  /** The two capture groups of a match. */
  datatype Captures = Captures(kind: string, id: string)

  /** The match of the whole pattern starting exactly at `p`, if there is one. */
  function MatchAt(s: string, p: nat): Option<Captures>
    requires p <= |s|
  {
    if !HeadAt(s, p) then None
    else
      var kindStart := p + |Head|;
      var kindEnd := WordRunEnd(s, kindStart);
      if kindEnd == kindStart || kindEnd == |s| || s[kindEnd] != '/' then None
      else
        match LastQuestion(s, kindEnd + 1, LineEnd(s, kindEnd + 1))
        case None => None
        case Some(q) => Some(Captures(s[kindStart..kindEnd], s[kindEnd + 1..q]))
  }

  /** The leftmost match starting at or after `p`. */
  function CapturesFrom(s: string, p: nat): Option<Captures>
    requires p <= |s|
    decreases |s| - p
  {
    match MatchAt(s, p)
    case Some(c) => Some(c)
    case None => if p == |s| then None else CapturesFrom(s, p + 1)
  }

  /** `Regex::captures`: the groups of the leftmost match in `s`. */
  function FindCaptures(s: string): Option<Captures>
  {
    CapturesFrom(s, 0)
  }

  /** A share link `https://open.spotify.com/<kind>/<id>?<query>` captures `kind` and `id`. */
  lemma CanonicalUrlCaptures(kind: string, id: string, query: string)
    requires |kind| > 0 && forall i :: 0 <= i < |kind| ==> IsWordChar(kind[i])
    requires '\n' !in id && '?' !in query
    ensures FindCaptures(Head + kind + "/" + id + "?" + query) == Some(Captures(kind, id))
  {
    var s := Head + kind + "/" + id + "?" + query;
    var kindStart, kindEnd := |Head|, |Head| + |kind|;
    var sep := kindEnd + 1 + |id|;
    assert s[..kindStart] == Head;
    assert HeadAt(s, 0) by {
      forall k | 0 <= k < |Head| ensures PatternCharMatches(Head[k], s[k]) {
        assert s[k] == Head[k];
      }
    }
    assert s[kindStart..kindEnd] == kind;
    assert s[kindEnd] == '/';
    assert WordRunEnd(s, kindStart) == kindEnd;
    assert s[kindEnd + 1..sep] == id;
    assert s[sep] == '?';
    assert s[sep + 1..] == query;
    var e := LineEnd(s, kindEnd + 1);
    assert sep < e;
    var q := LastQuestion(s, kindEnd + 1, e);
    assert q == Some(sep);
  }

  /** Without a `?` there is no match anywhere from `p` on. */
  lemma {:induction false} NoQuestionNoCapturesFrom(s: string, p: nat)
    requires p <= |s| && '?' !in s
    ensures CapturesFrom(s, p) == None
    decreases |s| - p
  {
    if HeadAt(s, p) {
      var kindEnd := WordRunEnd(s, p + |Head|);
      if kindEnd != p + |Head| && kindEnd != |s| && s[kindEnd] == '/' {
        var q := LastQuestion(s, kindEnd + 1, LineEnd(s, kindEnd + 1));
      }
    }
    if p < |s| {
      NoQuestionNoCapturesFrom(s, p + 1);
    }
  }

  /** A string without `?` never matches the pattern. */
  lemma NoQuestionNoCaptures(s: string)
    requires '?' !in s
    ensures FindCaptures(s) == None
  {
    NoQuestionNoCapturesFrom(s, 0);
  }
}
