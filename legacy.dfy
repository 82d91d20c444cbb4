/**
 * The older download loop of the command-line entry point: its ASCII-only sanitiser, the
 * artist string, the `NNN - ` ordinal prefix, and the skip-if-the-stem-exists decision.
 */
module Legacy {
  import opened Chars
  import opened Seqs
  import opened Paths
  import Download

  // ---- make_filename_compatible ----

  /** The characters `make_filename_compatible` keeps. */
  predicate KeptByLegacy(c: char)
  {
    !IsInvalidFileChar(c) && IsAscii(c) && !IsControl(c) && Utf8Len(c) == 1
  }

  /** What `make_filename_compatible` returns. */
  function CompatibleName(fileName: string): (clean: string)
    ensures |clean| <= |fileName|
    ensures forall i :: 0 <= i < |clean| ==>
      IsAscii(clean[i]) && !IsInvalidFileChar(clean[i]) && !IsControl(clean[i])
    ensures forall i :: 0 <= i < |fileName| && KeptByLegacy(fileName[i]) ==> fileName[i] in clean
  {
    Filter(fileName, KeptByLegacy)
  }

  /** `make_filename_compatible`: push every character that passes the test onto a fresh string. */
  method MakeFilenameCompatible(fileName: string) returns (clean: string)
    ensures clean == CompatibleName(fileName)
    ensures forall i :: 0 <= i < |clean| ==>
      IsAscii(clean[i]) && !IsInvalidFileChar(clean[i]) && !IsControl(clean[i])
  {
    clean := "";
    for i := 0 to |fileName|
      invariant clean == Filter(fileName[..i], KeptByLegacy)
    {
      var c := fileName[i];
      assert fileName[..i + 1] == fileName[..i] + [c];
      FilterSnoc(fileName[..i], c, KeptByLegacy);
      if !IsInvalidFileChar(c) && IsAscii(c) && !IsControl(c) && Utf8Len(c) == 1 {
        clean := clean + [c];
      }
    }
    assert fileName[..|fileName|] == fileName;
    assert forall i :: 0 <= i < |clean| ==> KeptByLegacy(clean[i]);
  }

  /**
   * Every allowed character is kept, in order: the result is the input read at the
   * positions of the ASCII, non-control, unlisted characters, in increasing order.
   */
  lemma CompatibleNameKeepsOrder(fileName: string)
    ensures |KeptPositions(fileName, KeptByLegacy)| == |CompatibleName(fileName)|
    ensures forall k :: 0 <= k < |KeptPositions(fileName, KeptByLegacy)| ==>
      KeptPositions(fileName, KeptByLegacy)[k] < |fileName|
      && fileName[KeptPositions(fileName, KeptByLegacy)[k]] == CompatibleName(fileName)[k]
    ensures forall k, l :: 0 <= k < l < |KeptPositions(fileName, KeptByLegacy)| ==>
      KeptPositions(fileName, KeptByLegacy)[k] < KeptPositions(fileName, KeptByLegacy)[l]
    ensures forall j :: 0 <= j < |fileName| && KeptByLegacy(fileName[j]) ==> j in KeptPositions(fileName, KeptByLegacy)
  {
    FilterKeepsOrder(fileName, KeptByLegacy);
  }

  /** The sanitiser is idempotent and never lengthens its input. */
  lemma CompatibleNameIdempotent(fileName: string)
    ensures CompatibleName(CompatibleName(fileName)) == CompatibleName(fileName)
    ensures |CompatibleName(fileName)| <= |fileName|
  {
    FilterIdempotent(fileName, KeptByLegacy);
  }

  /**
   * The `len_utf8() == 1` test adds nothing to `is_ascii()`, so the legacy sanitiser is
   * the Windows rule of `clean_file_name` on every target.
   */
  lemma CompatibleNameIsWindowsCleaning(fileName: string)
    ensures CompatibleName(fileName) == Download.CleanName(fileName, true)
  {
    FilterCongruent(fileName, KeptByLegacy, Download.KeepRule(true));
  }

  // ---- The artist string ----

  predicate EndsWith(s: string, suffix: string)
  {
    |suffix| <= |s| && s[|s| - |suffix|..] == suffix
  }

  /** `n` copies of `pat`, one after the other. */
  function Repeat(pat: string, n: nat): string
  {
    if n == 0 then "" else Repeat(pat, n - 1) + pat
  }

  /** `str::trim_end_matches(pat)`: remove `pat` from the end for as long as it is there. */
  function TrimEndMatches(s: string, pat: string): (r: string)
    requires pat != []
    ensures !EndsWith(r, pat)
    ensures exists n: nat :: s == r + Repeat(pat, n)
    decreases |s|
  {
    if EndsWith(s, pat) then
      var r := TrimEndMatches(s[..|s| - |pat|], pat);
      var n: nat :| s[..|s| - |pat|] == r + Repeat(pat, n);
      TrimStep(s, pat, r, n);
      r
    else
      assert s == s + Repeat(pat, 0);
      s
  }

  /** Removing one more copy of `pat` from the end adds one to the count of copies removed. */
  lemma TrimStep(s: string, pat: string, r: string, n: nat)
    requires EndsWith(s, pat) && s[..|s| - |pat|] == r + Repeat(pat, n)
    ensures s == r + Repeat(pat, n + 1)
  {
    assert s == s[..|s| - |pat|] + pat;
  }

  /** Every name followed by `sep`, as the artist loop builds `tmp`. */
  function Terminated(names: seq<string>, sep: string): string
  {
    if names == [] then "" else Terminated(names[..|names| - 1], sep) + names[|names| - 1] + sep
  }

  /**
   * The artist string: with more than one artist, every name followed by `", "` and all
   * trailing `", "` trimmed; with one artist, that artist's name.
   */
  function LegacyArtistName(names: seq<string>): string
    requires |names| > 0
  {
    if |names| > 1 then TrimEndMatches(Terminated(names, ", "), ", ") else names[0]
  }

  /**
   * The artist branch of the download loop: with more than one artist, push each name onto
   * the metadata and onto `tmp` followed by `", "`, then trim; otherwise take the first
   * (the list must not be empty: indexing it panics).
   */
  method ArtistString(names: seq<string>) returns (artistName: string, pushed: seq<string>)
    requires |names| > 0
    ensures artistName == LegacyArtistName(names)
    ensures pushed == names
  {
    pushed := [];
    if |names| > 1 {
      var tmp := "";
      for i := 0 to |names|
        invariant pushed == names[..i]
        invariant tmp == Terminated(names[..i], ", ")
      {
        assert names[..i + 1][..i] == names[..i];
        pushed := pushed + [names[i]];
        tmp := tmp + names[i] + ", ";
      }
      assert names[..|names|] == names;
      artistName := TrimEndMatches(tmp, ", ");
    } else {
      artistName := names[0];
      pushed := pushed + [artistName];
    }
  }

  /** Terminating every name is joining them and adding one more separator. */
  lemma {:induction false} TerminatedIsJoined(names: seq<string>, sep: string)
    requires |names| > 0
    ensures Terminated(names, sep) == Join(names, sep) + sep
  {
    if |names| > 1 {
      var init := names[..|names| - 1];
      TerminatedIsJoined(init, sep);
      JoinSnoc(init, names[|names| - 1], sep);
      assert init + [names[|names| - 1]] == names;
    } else {
      assert names[..0] == [];
    }
  }

  /** A nonempty `last` after a separator ends the whole in `", "` only if it ends so itself. */
  lemma SeparatedEnding(before: string, last: string)
    requires last != "" && !EndsWith(last, ", ")
    ensures !EndsWith(before + ", " + last, ", ")
  {
    var joined := before + ", " + last;
    if |last| >= 2 {
      assert joined[|joined| - 2..] == last[|last| - 2..];
    } else {
      assert joined[|joined| - 2] == ' ';
    }
  }

  /** A join whose last part is not empty and does not end in `", "` does not end in `", "`. */
  lemma JoinedHasNoTrailingSeparator(names: seq<string>)
    requires |names| > 0
    requires names[|names| - 1] != "" && !EndsWith(names[|names| - 1], ", ")
    ensures !EndsWith(Join(names, ", "), ", ")
  {
    if |names| > 1 {
      var init, last := names[..|names| - 1], names[|names| - 1];
      assert init + [last] == names;
      JoinSnoc(init, last, ", ");
      SeparatedEnding(Join(init, ", "), last);
    }
  }

  /**
   * When the last name is not empty and does not itself end in `", "`, the artist string
   * is the names joined by `", "`: trimming removes exactly the final separator.
   */
  lemma ArtistNameIsJoin(names: seq<string>)
    requires |names| > 0
    requires names[|names| - 1] != "" && !EndsWith(names[|names| - 1], ", ")
    ensures LegacyArtistName(names) == Join(names, ", ")
  {
    if |names| > 1 {
      TerminatedIsJoined(names, ", ");
      JoinedHasNoTrailingSeparator(names);
      TrimOnce(Join(names, ", "), ", ");
    }
  }

  /** Trimming a single trailing `pat` from a text that does not end in `pat` gives the text. */
  lemma TrimOnce(s: string, pat: string)
    requires pat != [] && !EndsWith(s, pat)
    ensures TrimEndMatches(s + pat, pat) == s
  {
    var t := s + pat;
    assert t[|t| - |pat|..] == pat;
    assert t[..|t| - |pat|] == s;
  }

  /** An empty last name disappears together with its separator: `["A", ""]` gives `"A"`. */
  lemma EmptyLastArtistIsDropped()
    ensures LegacyArtistName(["A", ""]) == "A"
  {
    var t := Terminated(["A", ""], ", ");
    assert Terminated(["A"], ", ") == "A, " by {
      assert ["A"][..0] == [];
    }
    assert ["A", ""][..1] == ["A"];
    assert t == "A, , ";
    assert EndsWith(t, ", ") && t[..3] == "A, ";
    assert EndsWith("A, ", ", ") && "A, "[..1] == "A";
    assert !EndsWith("A", ", ");
  }

  // ---- The `{:03}` ordinal ----

  /** The decimal digits of `n`, most significant first, without leading zeros. */
  function Decimal(n: nat): (s: string)
    ensures |s| > 0
    ensures forall i :: 0 <= i < |s| ==> '0' <= s[i] <= '9'
    decreases n
  {
    var d := ['0' + (n % 10) as char];
    if n < 10 then d else Decimal(n / 10) + d
  }

  /** The number a string of decimal digits denotes. */
  function DecimalValue(s: string): nat
  {
    if s == [] then 0
    else DecimalValue(s[..|s| - 1]) * 10 + (if '0' <= s[|s| - 1] <= '9' then (s[|s| - 1] - '0') as int else 0)
  }

  /** `format!("{:03}", n)`: the digits of `n`, left-padded with zeros to at least three. */
  function ZeroPad3(n: nat): (s: string)
    ensures |s| >= 3
    ensures forall i :: 0 <= i < |s| ==> '0' <= s[i] <= '9'
  {
    var d := Decimal(n);
    if |d| >= 3 then d
    else
      assert Repeat("0", 1) == "0";
      assert Repeat("0", 2) == "00";
      Repeat("0", 3 - |d|) + d
  }

  lemma {:induction false} DecimalRoundTrip(n: nat)
    ensures DecimalValue(Decimal(n)) == n
    decreases n
  {
    var d := ['0' + (n % 10) as char];
    if n >= 10 {
      DecimalRoundTrip(n / 10);
      var s := Decimal(n);
      assert s[..|s| - 1] == Decimal(n / 10);
    }
  }

  lemma {:induction false} DecimalShort(n: nat)
    ensures n < 10 ==> |Decimal(n)| == 1
    ensures 10 <= n < 100 ==> |Decimal(n)| == 2
    ensures 100 <= n < 1000 ==> |Decimal(n)| == 3
  {
    if n >= 10 { DecimalShort(n / 10); }
  }

  /** Leading zeros do not change the value of a digit string. */
  lemma {:induction false} LeadingZeros(k: nat, d: string)
    ensures DecimalValue(Repeat("0", k) + d) == DecimalValue(d)
    decreases |d|
  {
    if d == [] {
      ZerosValue(k);
      assert Repeat("0", k) + d == Repeat("0", k);
    } else {
      var init := d[..|d| - 1];
      assert (Repeat("0", k) + d)[..|Repeat("0", k) + d| - 1] == Repeat("0", k) + init;
      LeadingZeros(k, init);
    }
  }

  lemma {:induction false} ZerosValue(k: nat)
    ensures DecimalValue(Repeat("0", k)) == 0
  {
    if k > 0 {
      ZerosValue(k - 1);
      assert Repeat("0", k)[..|Repeat("0", k)| - 1] == Repeat("0", k - 1);
    }
  }

  /** Below 1000 the ordinal is exactly three digits and reads back as the number. */
  lemma ZeroPad3RoundTrip(n: nat)
    requires n < 1000
    ensures |ZeroPad3(n)| == 3
    ensures forall i :: 0 <= i < 3 ==> '0' <= ZeroPad3(n)[i] <= '9'
    ensures DecimalValue(ZeroPad3(n)) == n
  {
    DecimalShort(n);
    DecimalRoundTrip(n);
    var d := Decimal(n);
    if |d| < 3 {
      LeadingZeros(3 - |d|, d);
      assert Repeat("0", 1) == "0";
      assert Repeat("0", 2) == "00";
    }
  }

  /** From 1000 on the ordinal is the plain decimal number: the width is a minimum. */
  lemma ZeroPad3Wide(n: nat)
    requires n >= 1000
    ensures ZeroPad3(n) == Decimal(n)
  {
    WideDecimal(n);
  }

  lemma {:induction false} WideDecimal(n: nat)
    ensures n >= 100 ==> |Decimal(n)| >= 3
  {
    if n >= 100 {
      WideDecimal(n / 10);
      DecimalShort(n / 10);
    }
  }

  // ---- The file name and the skip decision ----

  /**
   * The file name without its extension for the track at (0-based) position `index`: with
   * `ordered`, the 1-based position padded to three digits and `" - "` come first.
   */
  function LegacyStem(index: nat, clean: string, ordered: bool): string
  {
    (if ordered then ZeroPad3(index + 1) + " - " else "") + clean
  }

  /** The output file name: the stem and `.flac`. */
  function LegacyFileName(index: nat, clean: string, ordered: bool): string
  {
    LegacyStem(index, clean, ordered) + ".flac"
  }

  /** The stem compared with the directory's entries is the file name without `.flac`. */
  lemma LegacyFileStem(index: nat, clean: string, ordered: bool)
    requires ordered || clean != []
    ensures FileStem(LegacyFileName(index, clean, ordered)) == LegacyStem(index, clean, ordered)
  {
    var stem := LegacyStem(index, clean, ordered);
    assert LegacyFileName(index, clean, ordered) == stem + "." + "flac";
    StemOfExtended(stem, "flac");
  }

  /** Whether some directory entry has the file stem `stem`. */
  predicate StemTaken(entryNames: seq<string>, stem: string)
  {
    exists i :: 0 <= i < |entryNames| && FileStem(entryNames[i]) == stem
  }

  /** The directory scan: stop at the first entry whose file stem is `stem`. */
  method FileExists(entryNames: seq<string>, stem: string) returns (found: bool)
    ensures found <==> StemTaken(entryNames, stem)
  {
    found := false;
    var i := 0;
    while i < |entryNames|
      invariant 0 <= i <= |entryNames|
      invariant !found
      invariant forall j :: 0 <= j < i ==> FileStem(entryNames[j]) != stem
    {
      if FileStem(entryNames[i]) == stem {
        found := true;
        break;
      }
      i := i + 1;
    }
  }

  /** The metadata one track of the legacy loop works from. */
  datatype LegacyTrack = LegacyTrack(artists: seq<string>, trackName: string, album: string)

  /** The display name of a track, cleaned, as the loop builds it. */
  function LegacyCleanName(track: LegacyTrack): (clean: string)
    requires |track.artists| > 0
    ensures clean != []
  {
    var d := LegacyArtistName(track.artists) + " - " + track.trackName;
    var k := |LegacyArtistName(track.artists)|;
    assert d[k] == ' ' && KeptByLegacy(d[k]);
    CompatibleName(d)
  }

  /** What the loop does with one track. */
  datatype Decision = Fetch(fileName: string, artists: seq<string>) | Skip(fileName: string)

  /**
   * The decision for the track at `index`, given the directory's entries at that point:
   * skip it when an entry already has its stem, fetch it otherwise.
   */
  function Plan(index: nat, track: LegacyTrack, ordered: bool, entryNames: seq<string>): Decision
    requires |track.artists| > 0
  {
    var clean := LegacyCleanName(track);
    if StemTaken(entryNames, LegacyStem(index, clean, ordered)) then Skip(LegacyFileName(index, clean, ordered))
    else Fetch(LegacyFileName(index, clean, ordered), track.artists)
  }

  /** One turn of the legacy loop: name the track, scan the directory, decide. */
  method DecideTrack(index: nat, track: LegacyTrack, ordered: bool, entryNames: seq<string>)
    returns (decision: Decision)
    requires |track.artists| > 0
    ensures decision == Plan(index, track, ordered, entryNames)
  {
    var artistName, artists := ArtistString(track.artists);
    var clean := MakeFilenameCompatible(artistName + " - " + track.trackName);
    var fileName: string;
    if ordered {
      fileName := ZeroPad3(index + 1) + " - " + clean + ".flac";
    } else {
      fileName := clean + ".flac";
    }
    assert clean == LegacyCleanName(track);
    assert fileName == LegacyFileName(index, clean, ordered);
    LegacyFileStem(index, clean, ordered);
    var fileExists := FileExists(entryNames, FileStem(fileName));
    if !fileExists {
      decision := Fetch(fileName, artists);
    } else {
      decision := Skip(fileName);
    }
  }

  /**
   * The legacy download loop, without the player, the progress bar's drawing and the file
   * writes: for each track, build the file name, scan the directory (`listing(i)` is its
   * content when track `i` is reached) and decide; the progress count moves in both cases.
   */
  method DownloadTracks(tracks: seq<LegacyTrack>, ordered: bool, listing: nat -> seq<string>)
    returns (decisions: seq<Decision>, progress: nat)
    requires forall i :: 0 <= i < |tracks| ==> |tracks[i].artists| > 0
    ensures |decisions| == |tracks| && progress == |tracks|
    ensures forall i :: 0 <= i < |tracks| ==> decisions[i] == Plan(i, tracks[i], ordered, listing(i))
  {
    decisions := [];
    progress := 0;
    for i := 0 to |tracks|
      invariant |decisions| == i && progress == i
      invariant forall j :: 0 <= j < i ==> decisions[j] == Plan(j, tracks[j], ordered, listing(j))
    {
      var decision := DecideTrack(i, tracks[i], ordered, listing(i));
      if decision.Fetch? {
        progress := progress + 1;
      } else {
        progress := progress + 1;
      }
      PlansGrow(decisions, decision, tracks, ordered, listing);
      decisions := decisions + [decision];
    }
  }

  /** Appending the next track's decision keeps the decisions in step with the tracks. */
  lemma PlansGrow(decisions: seq<Decision>, decision: Decision, tracks: seq<LegacyTrack>, ordered: bool,
                  listing: nat -> seq<string>)
    requires |decisions| < |tracks|
    requires forall i :: 0 <= i < |tracks| ==> |tracks[i].artists| > 0
    requires forall j :: 0 <= j < |decisions| ==> decisions[j] == Plan(j, tracks[j], ordered, listing(j))
    requires decision == Plan(|decisions|, tracks[|decisions|], ordered, listing(|decisions|))
    ensures forall j :: 0 <= j < |decisions| + 1 ==>
      (decisions + [decision])[j] == Plan(j, tracks[j], ordered, listing(j))
  {
  }

  /**
   * A track is fetched exactly when no directory entry has the stem of its file name; a
   * fetched track carries its artists in their order, and the decision names the file.
   */
  lemma PlanFetchesUnlessStemTaken(index: nat, track: LegacyTrack, ordered: bool, entryNames: seq<string>)
    requires |track.artists| > 0
    ensures Plan(index, track, ordered, entryNames).Fetch?
        <==> !StemTaken(entryNames, FileStem(LegacyFileName(index, LegacyCleanName(track), ordered)))
    ensures Plan(index, track, ordered, entryNames).Fetch? ==>
      Plan(index, track, ordered, entryNames).artists == track.artists
    ensures Plan(index, track, ordered, entryNames).fileName
         == LegacyFileName(index, LegacyCleanName(track), ordered)
  {
    LegacyFileStem(index, LegacyCleanName(track), ordered);
  }
}
