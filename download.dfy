/**
 * The deterministic parts of `Downloader`: the output file name of a track, the sample
 * buffer assembled from the sink's events, and the buffer handed to the encoder.
 */
module Download {
  import opened Chars
  import opened Seqs
  import opened Ints
  import opened Paths
  import Tracks
  import Utils
  import ChannelSinks
  import Encoder

  /** `clean_file_name` keeps these on Windows ... */
  predicate KeptOnWindows(c: char)
  {
    !IsInvalidFileChar(c) && IsAscii(c) && !IsControl(c)
  }

  /** ... and these on every other target. */
  predicate KeptElsewhere(c: char)
  {
    !IsInvalidFileChar(c) && !IsControl(c)
  }

  /** The character test of `clean_file_name`; `windows` stands for `cfg!(windows)`. */
  function KeepRule(windows: bool): char -> bool
  {
    if windows then KeptOnWindows else KeptElsewhere
  }

  /** What `clean_file_name` returns. */
  function CleanName(fileName: string, windows: bool): string
  {
    Filter(fileName, KeepRule(windows))
  }

  /** `clean_file_name`: push every character that passes the test onto a fresh string. */
  method CleanFileName(fileName: string, windows: bool) returns (clean: string)
    ensures clean == CleanName(fileName, windows)
    ensures forall i :: 0 <= i < |clean| ==> !IsInvalidFileChar(clean[i]) && !IsControl(clean[i])
    ensures windows ==> forall i :: 0 <= i < |clean| ==> IsAscii(clean[i])
  {
    var allowsNonAscii := !windows;
    clean := "";
    for i := 0 to |fileName|
      invariant clean == Filter(fileName[..i], KeepRule(windows))
    {
      var c := fileName[i];
      assert fileName[..i + 1] == fileName[..i] + [c];
      FilterSnoc(fileName[..i], c, KeepRule(windows));
      if !IsInvalidFileChar(c) && (IsAscii(c) || allowsNonAscii) && !IsControl(c) {
        clean := clean + [c];
      }
    }
    assert fileName[..|fileName|] == fileName;
    assert forall i :: 0 <= i < |clean| ==> KeepRule(windows)(clean[i]);
  }

  /**
   * Off Windows, `clean_file_name` removes exactly the listed and control characters: it
   * agrees with `clean_invalid_characters`, so every other character (non-ASCII included)
   * is kept, in order.
   */
  lemma CleanNameElsewhereIsCleanInvalidCharacters(fileName: string)
    ensures CleanName(fileName, false) == Utils.CleanInvalidCharacters(fileName)
  {
    FilterCongruent(fileName, KeepRule(false), Utils.KeptByUtils);
  }

  /** On Windows the result is all ASCII, free of listed and control characters. */
  lemma CleanNameOnWindowsIsAscii(fileName: string)
    ensures forall i :: 0 <= i < |CleanName(fileName, true)| ==>
      IsAscii(CleanName(fileName, true)[i]) && !IsInvalidFileChar(CleanName(fileName, true)[i])
      && !IsControl(CleanName(fileName, true)[i])
  {
    assert forall i :: 0 <= i < |CleanName(fileName, true)| ==> KeepRule(true)(CleanName(fileName, true)[i]);
  }

  /** Cleaning is idempotent and never lengthens the name. */
  lemma CleanNameIdempotent(fileName: string, windows: bool)
    ensures CleanName(CleanName(fileName, windows), windows) == CleanName(fileName, windows)
    ensures |CleanName(fileName, windows)| <= |fileName|
  {
    FilterIdempotent(fileName, KeepRule(windows));
  }

  /** Cleaning a concatenation cleans each part. */
  lemma CleanNameAppend(a: string, b: string, windows: bool)
    ensures CleanName(a + b, windows) == CleanName(a, windows) + CleanName(b, windows)
  {
    FilterAppend(a, b, KeepRule(windows));
  }

  /** Printable ASCII outside the invalid list: text that both cleaning rules keep whole. */
  predicate PlainText(s: string)
  {
    forall i :: 0 <= i < |s| ==> ' ' <= s[i] <= '~' && !IsInvalidFileChar(s[i])
  }

  lemma PlainTextAppend(a: string, b: string)
    requires PlainText(a) && PlainText(b)
    ensures PlainText(a + b)
  {
    assert forall i :: 0 <= i < |a + b| ==> (a + b)[i] == if i < |a| then a[i] else b[i - |a|];
  }

  /** Joining plain texts with a plain separator gives plain text. */
  lemma {:induction false} JoinPlain(parts: seq<string>, sep: string)
    requires forall i :: 0 <= i < |parts| ==> PlainText(parts[i])
    requires PlainText(sep)
    ensures PlainText(Join(parts, sep))
  {
    if |parts| > 1 {
      JoinPlain(parts[1..], sep);
      PlainTextAppend(parts[0], sep);
      PlainTextAppend(parts[0] + sep, Join(parts[1..], sep));
    }
  }

  /** A name made only of kept characters is left as it is. */
  lemma CleanNameOfCleanText(s: string, windows: bool)
    requires PlainText(s)
    ensures CleanName(s, windows) == s
  {
    FilterFixpoint(s, KeepRule(windows));
  }

  function ArtistNames(artists: seq<Tracks.ArtistMetadata>): (names: seq<string>)
    ensures |names| == |artists|
    ensures forall i :: 0 <= i < |artists| ==> names[i] == artists[i].name
  {
    seq(|artists|, i requires 0 <= i < |artists| => artists[i].name)
  }

  /** The artists part of the display name: at most three names, then "and others". */
  function ArtistsPart(artists: seq<Tracks.ArtistMetadata>): string
  {
    if |artists| > 3 then Join(ArtistNames(artists[..3]), ", ") + ", and others"
    else Join(ArtistNames(artists), ", ")
  }

  /** The name `get_file_name` cleans: `"<artists> - <track name>"`. */
  function DisplayName(metadata: Tracks.TrackMetadata): string
  {
    ArtistsPart(metadata.artists) + " - " + metadata.trackName
  }

  /** `get_file_name`: the display name, cleaned for the platform. */
  function GetFileName(metadata: Tracks.TrackMetadata, windows: bool): (name: string)
    ensures forall i :: 0 <= i < |name| ==> !IsInvalidFileChar(name[i]) && !IsControl(name[i])
    ensures windows ==> forall i :: 0 <= i < |name| ==> IsAscii(name[i])
  {
    CleanName(DisplayName(metadata), windows)
  }

  /** No cleaned name holds a path separator. */
  lemma CleanNameHasNoSlash(s: string, windows: bool)
    ensures '/' !in CleanName(s, windows)
  {
    var r := CleanName(s, windows);
    assert forall i :: 0 <= i < |r| ==> KeepRule(windows)(r[i]);
    assert forall i :: 0 <= i < |r| ==> r[i] != '/';
  }

  /** Two separator-free texts joined by `" - "` form one plain file name. */
  lemma SeparatedIsPlain(x: string, y: string)
    requires '/' !in x && '/' !in y
    ensures IsPlainFileName(x + " - " + y)
  {
    var r := x + " - " + y;
    assert r[|x| + 1] == '-';
    assert forall i :: 0 <= i < |r| ==> r[i] != '/' by {
      forall i | 0 <= i < |r|
        ensures r[i] != '/'
      {
        if i < |x| { assert r[i] == x[i]; }
        else if i >= |x| + 3 { assert r[i] == y[i - |x| - 3]; }
      }
    }
  }

  /**
   * The file name is the cleaned artists part, the separator `" - "` (which survives
   * cleaning), and the cleaned track name; so it is never empty and is one plain file name.
   */
  lemma GetFileNameParts(metadata: Tracks.TrackMetadata, windows: bool)
    ensures GetFileName(metadata, windows)
         == CleanName(ArtistsPart(metadata.artists), windows) + " - " + CleanName(metadata.trackName, windows)
    ensures IsPlainFileName(GetFileName(metadata, windows))
  {
    var a, t := ArtistsPart(metadata.artists), metadata.trackName;
    var ca, ct := CleanName(a, windows), CleanName(t, windows);
    CleanNameAppend(a + " - ", t, windows);
    CleanNameAppend(a, " - ", windows);
    CleanNameOfCleanText(" - ", windows);
    CleanNameHasNoSlash(a, windows);
    CleanNameHasNoSlash(t, windows);
    SeparatedIsPlain(ca, ct);
  }

  /** The artist names after the third never influence the file name. */
  lemma OnlyFirstThreeArtistsMatter(m: Tracks.TrackMetadata, n: Tracks.TrackMetadata, windows: bool)
    requires |m.artists| > 3 && |n.artists| > 3
    requires m.artists[..3] == n.artists[..3] && m.trackName == n.trackName
    ensures GetFileName(m, windows) == GetFileName(n, windows)
  {
  }

  /** A track without artists is named `" - <track name>"`, cleaned. */
  lemma NoArtistsName(m: Tracks.TrackMetadata, windows: bool)
    requires m.artists == []
    ensures GetFileName(m, windows) == " - " + CleanName(m.trackName, windows)
  {
    GetFileNameParts(m, windows);
    assert CleanName("", windows) == "";
  }

  /**
   * With at most three artists, the file name is all their names joined by `", "`, then
   * `" - "`, then the track name, each part cleaned.
   */
  lemma FewArtistsFileName(m: Tracks.TrackMetadata, windows: bool)
    requires |m.artists| <= 3
    ensures GetFileName(m, windows)
         == CleanName(Join(ArtistNames(m.artists), ", "), windows) + " - " + CleanName(m.trackName, windows)
  {
    GetFileNameParts(m, windows);
  }

  /**
   * With more than three artists, the file name is the first three names joined by `", "`,
   * then `", and others - "`, then the track name, each part cleaned.
   */
  lemma ManyArtistsFileName(m: Tracks.TrackMetadata, windows: bool)
    requires |m.artists| > 3
    ensures GetFileName(m, windows)
         == CleanName(Join(ArtistNames(m.artists[..3]), ", "), windows) + ", and others - " + CleanName(m.trackName, windows)
  {
    var a := Join(ArtistNames(m.artists[..3]), ", ");
    var ca, ct := CleanName(a, windows), CleanName(m.trackName, windows);
    var part := ArtistsPart(m.artists);
    assert part == a + ", and others";
    GetFileNameParts(m, windows);
    assert GetFileName(m, windows) == CleanName(part, windows) + " - " + ct;
    CleanNameAppend(a, ", and others", windows);
    AndOthersIsClean(windows);
    assert CleanName(part, windows) == ca + ", and others";
    AndOthersSeparator(ca, ct);
  }

  /** The literal `", and others"` followed by `" - "` is `", and others - "`. */
  lemma AndOthersSeparator(ca: string, ct: string)
    ensures (ca + ", and others") + " - " + ct == ca + ", and others - " + ct
  {
    assert ", and others" + " - " == ", and others - ";
  }

  lemma AndOthersIsClean(windows: bool)
    ensures CleanName(", and others", windows) == ", and others"
  {
    assert PlainText(", and others");
    CleanNameOfCleanText(", and others", windows);
  }

  /** With at most three artists, all plain text, nothing is cleaned away. */
  lemma FewPlainArtistsFileName(m: Tracks.TrackMetadata, windows: bool)
    requires |m.artists| <= 3
    requires forall i :: 0 <= i < |m.artists| ==> PlainText(m.artists[i].name)
    requires PlainText(m.trackName)
    ensures GetFileName(m, windows) == Join(ArtistNames(m.artists), ", ") + " - " + m.trackName
  {
    FewArtistsFileName(m, windows);
    JoinPlain(ArtistNames(m.artists), ", ");
    CleanNameOfCleanText(Join(ArtistNames(m.artists), ", "), windows);
    CleanNameOfCleanText(m.trackName, windows);
  }

  /** With more than three artists, the first three plain text, nothing is cleaned away. */
  lemma ManyPlainArtistsFileName(m: Tracks.TrackMetadata, windows: bool)
    requires |m.artists| > 3
    requires forall i :: 0 <= i < 3 ==> PlainText(m.artists[i].name)
    requires PlainText(m.trackName)
    ensures GetFileName(m, windows)
         == Join(ArtistNames(m.artists[..3]), ", ") + ", and others - " + m.trackName
  {
    ManyArtistsFileName(m, windows);
    JoinPlain(ArtistNames(m.artists[..3]), ", ");
    CleanNameOfCleanText(Join(ArtistNames(m.artists[..3]), ", "), windows);
    CleanNameOfCleanText(m.trackName, windows);
  }

  /** Examples of `get_file_name`'s display name: four artists are cut to three and "and others"; two are listed. */
  lemma DisplayNameExamples(album: Tracks.AlbumMetadata, duration: I32)
    ensures DisplayName(Tracks.TrackMetadata([Tracks.ArtistMetadata("A"), Tracks.ArtistMetadata("B"),
      Tracks.ArtistMetadata("C"), Tracks.ArtistMetadata("D")], "T", album, duration))
      == "A, B, C, and others - T"
    ensures DisplayName(Tracks.TrackMetadata([Tracks.ArtistMetadata("A"), Tracks.ArtistMetadata("B")],
      "T", album, duration)) == "A, B - T"
  {
    assert ArtistNames([Tracks.ArtistMetadata("A"), Tracks.ArtistMetadata("B"),
      Tracks.ArtistMetadata("C"), Tracks.ArtistMetadata("D")][..3]) == ["A", "B", "C"];
    assert Join(["A", "B", "C"], ", ") == "A, B, C" by {
      assert ["A", "B", "C"][1..] == ["B", "C"];
      assert ["B", "C"][1..] == ["C"];
    }
    assert ArtistNames([Tracks.ArtistMetadata("A"), Tracks.ArtistMetadata("B")]) == ["A", "B"];
    assert Join(["A", "B"], ", ") == "A, B" by {
      assert ["A", "B"][1..] == ["B"];
    }
  }

  // ---- The output path (see the Findings section of the README) ----

  /**
   * The file name of the output path as the code builds it,
   * `destination.join(file_name).with_extension(ext)`: any text after the last `.` of the
   * track's file name is taken for an extension and replaced.
   */
  function OutputFileNameAsWritten(metadata: Tracks.TrackMetadata, windows: bool, format: Encoder.Format): (name: string)
    ensures FileStem(name) == FileStem(GetFileName(metadata, windows))
  {
    GetFileNameParts(metadata, windows);
    WithExtension(GetFileName(metadata, windows), Encoder.Extension(format))
  }

  /** Cleaning keeps a `.` and plain text after it. */
  lemma CleanDottedName(before: string, after: string, windows: bool)
    requires PlainText(after)
    ensures CleanName(before + "." + after, windows) == CleanName(before, windows) + "." + after
  {
    var tail := "." + after;
    assert PlainText(".");
    PlainTextAppend(".", after);
    assert before + "." + after == before + tail;
    CleanNameAppend(before, tail, windows);
    CleanNameOfCleanText(tail, windows);
  }

  /**
   * A track name `before.after` whose `after` is plain text without a `.` loses `.after`:
   * the code's name ends in `before` and the extension, and so differs from the intended
   * name (for "The Killers" and "Mr. Brightside" it is "The Killers - Mr.flac").
   */
  lemma DottedTitleIsTruncated(m: Tracks.TrackMetadata, windows: bool, format: Encoder.Format,
                               before: string, after: string)
    requires m.trackName == before + "." + after
    requires after != [] && '.' !in after && PlainText(after)
    ensures OutputFileNameAsWritten(m, windows, format)
         == CleanName(ArtistsPart(m.artists), windows) + " - " + CleanName(before, windows)
            + "." + Encoder.Extension(format)
    ensures OutputFileNameAsWritten(m, windows, format) != OutputFileName(m, windows, format)
  {
    var ca, cb := CleanName(ArtistsPart(m.artists), windows), CleanName(before, windows);
    var stem := ca + " - " + cb;
    GetFileNameParts(m, windows);
    CleanDottedName(before, after, windows);
    RegroupDotted(ca + " - ", cb, after);
    assert stem[|ca|] == ' ';
    StemOfExtended(stem, after);
    assert |OutputFileNameAsWritten(m, windows, format)| < |OutputFileName(m, windows, format)|;
  }

  /** Regrouping a concatenation around a `.`. */
  lemma RegroupDotted(p: string, q: string, after: string)
    ensures p + (q + "." + after) == p + q + "." + after
  {
  }

  /** The intended output file name: the whole file name, `.`, the format's extension. */
  function OutputFileName(metadata: Tracks.TrackMetadata, windows: bool, format: Encoder.Format): string
  {
    GetFileName(metadata, windows) + "." + Encoder.Extension(format)
  }

  /** The intended output name keeps the whole file name as its stem, dots and all. */
  lemma OutputFileNameStem(metadata: Tracks.TrackMetadata, windows: bool, format: Encoder.Format)
    ensures FileStem(OutputFileName(metadata, windows, format)) == GetFileName(metadata, windows)
  {
    GetFileNameParts(metadata, windows);
    StemOfExtended(GetFileName(metadata, windows), Encoder.Extension(format));
  }

  /** The code's output name is the intended one exactly for file names without a `.`. */
  lemma AsWrittenAgreesWithoutDots(metadata: Tracks.TrackMetadata, windows: bool, format: Encoder.Format)
    requires '.' !in GetFileName(metadata, windows)
    ensures OutputFileNameAsWritten(metadata, windows, format) == OutputFileName(metadata, windows, format)
  {
  }

  // ---- The receive loop and the encoder's input ----

  /**
   * The receive loop of `download_track`: append the content of every `Write` event to one
   * sample vector until the channel closes (`Finished` does not end the loop), then tag
   * the buffer as 44.1 kHz, 2 channels, 16 bits per sample.
   */
  method ReceiveSamples(received: seq<ChannelSinks.SinkEvent>) returns (samples: Encoder.Samples)
    ensures samples.samples == ChannelSinks.WrittenSamples(received)
    ensures samples.sampleRate == 44100 && samples.channels == 2 && samples.bitsPerSample == 16
  {
    var buffer: seq<I32> := [];
    var i := 0;
    while i < |received|
      invariant 0 <= i <= |received|
      invariant buffer == ChannelSinks.WrittenSamples(received[..i])
    {
      assert received[..i + 1][..i] == received[..i];
      match received[i] {
        case Write(bytes, total, content) =>
          buffer := buffer + content;
        case Finished =>
      }
      i := i + 1;
    }
    assert received[..i] == received;
    samples := Encoder.NewSamples(buffer, 44100, 2, 16);
  }

  /**
   * The last `Write` on the sink's channel reports four bytes for every sample the receive
   * loop gathers from that channel, and the sink's fixed estimate.
   */
  lemma BufferMatchesSink(channel: seq<ChannelSinks.SinkEvent>, total: nat, i: nat)
    requires ChannelSinks.WritesCarryCounts(channel, total)
    requires i < |channel| && channel[i].Write?
    ensures channel[LastWrite(channel, i)].bytes == 4 * |ChannelSinks.WrittenSamples(channel)|
    ensures channel[LastWrite(channel, i)].total == total
  {
    ChannelSinks.LastWriteCountsAllSamples(channel, total, LastWrite(channel, i));
  }

  /** The position of the last `Write` event, given that the one at `i` is a `Write`. */
  function LastWrite(events: seq<ChannelSinks.SinkEvent>, i: nat): (j: nat)
    requires i < |events| && events[i].Write?
    ensures i <= j < |events| && events[j].Write?
    ensures forall k :: j < k < |events| ==> events[k].Finished?
    decreases |events| - i
  {
    if exists k :: i < k < |events| && events[k].Write? then
      var k :| i < k < |events| && events[k].Write?;
      LastWrite(events, k)
    else i
  }
}
