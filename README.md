# spotify-dl: a verified model of the download pipeline's logic

spotify-dl downloads tracks from a streaming service into audio files. It resolves track,
album and playlist identifiers to a list of tracks. For each track it starts a player
whose audio back end ("sink") sends the decoded samples over a channel. It gathers those
samples into one buffer and hands them to an encoder. The file it writes is named after
the track's artists and title.

This project models the deterministic part of that pipeline in Dafny and proves what it
promises:

- **File names.** The project has three sanitisers with different rules:
  - `clean_file_name` keeps non-ASCII characters except on Windows;
  - `clean_invalid_characters` always keeps them;
  - the older `make_filename_compatible` always drops them.

  It also models the display name with at most three artists, the older loop's artist
  string, its `NNN - ` ordinal, and its skip-if-the-stem-exists decision.
- **Sample buffering.** This covers three things:
  - `ChannelSink`, a class whose channel is the sequence of events it has put on it;
  - the receive loop that concatenates every `Write` event's samples;
  - the older `FileSink` buffer.
- **The stream task.**
  - `load` classifies the player's events.
  - The retry driver allows at most three retries, each announced by a numbered `Retry`
    event, and a final `Error`.
  - The relay loop forwards the sink's events up to its first `Finished`.
  - `send_event` swallows failures.
- **Identifier resolution.** This covers the URI-then-URL parse, the one share-link
  pattern, the per-kind dispatch of `get_tracks` and the metadata records.
- **The output format.** `from_str` and `extension` form a round trip, and there is one
  encoder per format.

Each source file is one module:

| module | file |
|---|---|
| `Download` | `src/download.rs` |
| `Utils` | `src/utils.rs` |
| `Legacy` | `src/main.rs` |
| `ChannelSinks` | `src/channel_sink.rs` |
| `FileSinks` | `src/file_sink.rs` |
| `Stream` | `src/stream/stream.rs` and `src/stream/mod.rs` |
| `Tracks` | `src/track.rs` |
| `SpotifyUrl` | the URL pattern in `src/track.rs` |
| `Encoder` | `src/encoder/mod.rs` |

The helper modules are:

- `Wrappers`: `Option`, `Result`, and `Outcome` for `Result<(), E>`;
- `Seqs`: a generic filter with its order and idempotence lemmas, and `join`;
- `Chars`: the shared character classes;
- `Ints`: `i16`/`i32` widening;
- `Paths`: Rust's `file_stem` and `with_extension` for one file-name component.

The code works by updating state in place in several places:

- the sink classes;
- the loops that push characters;
- the receive, relay and retry loops;
- the directory scan.

Each of these is an imperative method or class, proved against a specification
function, and the lemmas about those functions carry the properties. Some inputs are
parameters:

- `windows: bool` stands for `cfg!(windows)`;
- `mp3Enabled: bool` stands for the `mp3` cargo feature;
- the provider library's `SpotifyId::from_uri` and the album and playlist lookups are
  function-valued parameters;
- the converter `f64_to_s16` is a function-valued parameter;
- the player events each load attempt sees, the sink's events, and each directory
  listing are input sequences.

Three facts about the code shape the model:

- `convert_track_duration_to_size` (`src/channel_sink.rs:35-42`) multiplies whole seconds
  by 44100 × 2 × 2 and by a further 2. The estimate is therefore whole seconds × 352800
  bytes.
- The relay loop (`src/stream/stream.rs:84-106`) reads the one sink channel created for
  the stream. Events the sink sent during an attempt that failed to load stay on that
  channel and are relayed after a later attempt succeeds.
- The older loop (`src/main.rs:158-163`) calls `FileSink::open` with two arguments and
  then `add_metadata`. `src/file_sink.rs` defines neither. The model follows
  `src/file_sink.rs`.

## Model

| member | source | states |
|---|---|---|
| `Download.CleanFileName` | src/download.rs:175-188 | the pushed string is the filter of the input by the platform's rule; it holds no listed and no control character, and on Windows only ASCII |
| `Download.CleanNameElsewhereIsCleanInvalidCharacters` | src/download.rs:180-186 | off Windows, `clean_file_name` removes exactly what `clean_invalid_characters` removes and keeps everything else, non-ASCII included, in order |
| `Download.CleanNameOnWindowsIsAscii` | src/download.rs:180-182 | on Windows every kept character is ASCII, not listed, not a control character |
| `Download.CleanNameIdempotent` | src/download.rs:175-188 | cleaning twice is cleaning once; the result is never longer than the input |
| `Download.CleanNameAppend` | src/download.rs:175-188 | cleaning a concatenation is the concatenation of the cleaned parts |
| `Download.CleanNameOfCleanText` | src/download.rs:175-188 | a name of printable, unlisted ASCII is left unchanged on every target |
| `Download.CleanNameHasNoSlash` | src/download.rs:176-186 | no cleaned name contains `/` |
| `Download.ArtistNames` | src/download.rs:152-157 | the artists' names, one per artist, in order |
| `Download.GetFileName` | src/download.rs:150-173 | the file name holds no listed and no control character, and on Windows only ASCII |
| `Download.GetFileNameParts` | src/download.rs:150-173 | the file name is the cleaned artists part, `" - "` and the cleaned track name, and is one plain file-name component |
| `Download.OnlyFirstThreeArtistsMatter` | src/download.rs:152-163 | with more than three artists, names after the third never influence the file name |
| `Download.ManyArtistsFileName` | src/download.rs:152-163 | more than three artists: the cleaned join by `", "` of the first three names, `", and others - "`, the cleaned track name, for every input |
| `Download.ManyPlainArtistsFileName` | src/download.rs:152-163 | the same when the three names and the title are printable, unlisted ASCII: nothing is cleaned away |
| `Download.FewArtistsFileName` | src/download.rs:166-172 | three or fewer artists: the cleaned join by `", "` of all names, `" - "`, the cleaned track name, for every input |
| `Download.FewPlainArtistsFileName` | src/download.rs:166-172 | the same when every name and the title are printable, unlisted ASCII: nothing is cleaned away |
| `Download.NoArtistsName` | src/download.rs:166-172 | no artists gives `" - "` followed by the cleaned track name |
| `Download.DisplayNameExamples` | src/download.rs:150-173 | four artists are cut to three plus "and others"; two are listed in full |
| `Download.DottedTitleIsTruncated` | src/download.rs:82-89 | a track name `before.after` loses `.after` in the output path: the code builds the cleaned artists, `" - "`, the cleaned `before`, `.` and the extension, which differs from the intended name |
| `Download.OutputFileNameAsWritten` | src/download.rs:82-89 | the output name the code builds has the same stem as the stem of the file name, not the file name itself |
| `Download.OutputFileName` | src/download.rs:82-89 | the intended output name: the whole file name, `.`, the format's extension (its stem is the file name, by `Download.OutputFileNameStem`) |
| `Download.AsWrittenAgreesWithoutDots` | src/download.rs:82-89 | the code's output name equals the intended one whenever the file name holds no `.` |
| `Download.OutputFileNameStem` | src/download.rs:82-89 | the intended output name has the whole file name as its stem |
| `Download.CleanDottedName` | src/download.rs:175-188 | cleaning keeps a `.` and plain text after it |
| `Download.ReceiveSamples` | src/download.rs:110-132 | the buffer is the in-order concatenation of every `Write` event's content (a `Finished` does not end the loop); it is tagged 44100 Hz, 2 channels, 16 bits |
| `Download.BufferMatchesSink` | src/download.rs:110-128 | the last `Write` on the channel reports four bytes for every sample the receive loop gathers from it, and the fixed estimate |
| `Download.LastWrite` | src/download.rs:110-128 | the last `Write` event: every event after it is `Finished` |
| `Utils.CleanInvalidCharacters` | src/utils.rs:5-15 | no listed and no control character survives; every other character of the input is kept; never longer |
| `Utils.CleanInvalidCharactersKeepsOrder` | src/utils.rs:9-14 | the result is the input read at the positions of the kept characters, in increasing order, and every kept position appears |
| `Utils.CleanInvalidCharactersIdempotent` | src/utils.rs:5-15 | cleaning twice is cleaning once |
| `Utils.CleanInvalidCharactersFixpoint` | src/utils.rs:13 | a string is unchanged by cleaning exactly when it has no listed and no control character |
| `Legacy.MakeFilenameCompatible` | src/main.rs:73-82 | the pushed string is the input filtered by the legacy test: ASCII, unlisted, not a control character |
| `Legacy.CompatibleName` | src/main.rs:73-82 | never longer; only ASCII, unlisted, non-control characters; every such character of the input is kept |
| `Legacy.CompatibleNameKeepsOrder` | src/main.rs:76-81 | every allowed character is kept, in order, and nothing else |
| `Legacy.CompatibleNameIdempotent` | src/main.rs:73-82 | the sanitiser is idempotent and never lengthens |
| `Legacy.CompatibleNameIsWindowsCleaning` | src/main.rs:73-82 | the legacy sanitiser is the Windows rule of `clean_file_name` on every target (the `len_utf8` test adds nothing) |
| `Legacy.TrimEndMatches` | src/main.rs:116 | the result does not end in the pattern and the input is the result followed by some number of copies of it |
| `Legacy.TrimOnce` | src/main.rs:116 | trimming one trailing separator from text that does not end in it gives the text |
| `Legacy.ArtistString` | src/main.rs:108-123 | the artist string is the legacy artist name, and the pushed artists are the input names in order; an empty list is excluded (the code panics) |
| `Legacy.TerminatedIsJoined` | src/main.rs:110-115 | terminating every name with the separator is joining them and adding one separator |
| `Legacy.JoinedHasNoTrailingSeparator` | src/main.rs:116 | a join whose last part is nonempty and does not end in `", "` does not end in `", "` |
| `Legacy.ArtistNameIsJoin` | src/main.rs:108-123 | when the last name is nonempty and does not end in `", "`, the artist string is the names joined by `", "` |
| `Legacy.EmptyLastArtistIsDropped` | src/main.rs:116 | an empty last name disappears with its separator: `["A", ""]` gives `"A"` |
| `Legacy.Decimal` | src/main.rs:129 | the decimal digits of a number: nonempty, all digits |
| `Legacy.ZeroPad3` | src/main.rs:127-132 | the `{:03}` ordinal: at least three characters, all decimal digits |
| `Legacy.DecimalRoundTrip` | src/main.rs:129 | the digits read back as the number |
| `Legacy.ZeroPad3RoundTrip` | src/main.rs:129 | below 1000 the `{:03}` ordinal is exactly three digits and reads back as the number |
| `Legacy.ZeroPad3Wide` | src/main.rs:129 | from 1000 on the ordinal is the plain decimal number |
| `Legacy.LegacyCleanName` | src/main.rs:124-125 | the cleaned `"<artists> - <track>"` is never empty |
| `Legacy.LegacyFileStem` | src/main.rs:127-142 | the stem compared with the directory is the file name without `.flac`: ordinal and clean name |
| `Legacy.FileExists` | src/main.rs:147-156 | the scan reports found exactly when some entry has the same file stem |
| `Legacy.DecideTrack` | src/main.rs:108-175 | one turn of the loop yields the plan for that track |
| `Legacy.PlanFetchesUnlessStemTaken` | src/main.rs:158-175 | a track is fetched exactly when no entry has its file stem; a fetched track carries its artists; the decision names the file |
| `Legacy.DownloadTracks` | src/main.rs:99-175 | one decision per track, each the plan for its position, and the progress count equals the number of tracks |
| `ChannelSinks.ConvertTrackDurationToSize` | src/channel_sink.rs:35-42 | for a non-negative duration, whole seconds × 352800; zero under a second; always a `usize` |
| `ChannelSinks.ChannelSink.constructor` | src/channel_sink.rs:22-33 | an empty channel, nothing sent, the estimate fixed from the duration |
| `ChannelSinks.ChannelSink.GetApproximateSize` | src/channel_sink.rs:44-46 | the estimate fixed at construction |
| `ChannelSinks.ChannelSink.Start` | src/channel_sink.rs:50-52 | succeeds and changes nothing |
| `ChannelSinks.ChannelSink.Stop` | src/channel_sink.rs:54-61 | appends exactly one `Finished`, or fails with `OnWrite` and changes nothing when the receiver is gone |
| `ChannelSinks.ChannelSink.Write` | src/channel_sink.rs:63-81 | adds 4 bytes per widened sample to `bytes_sent` and appends one `Write` with the new count, the estimate and the samples in order; a raw packet fails first, a gone receiver after the count moved |
| `ChannelSinks.ChannelSink.DropReceiver` | src/channel_sink.rs:57-59 | once the receiver is dropped, the channel and the count are unchanged and every later send fails |
| `ChannelSinks.WritesCarryCountsSnoc` | src/channel_sink.rs:69-78 | each `Write` carries four times all samples written up to it and the fixed estimate, and appending keeps that so |
| `ChannelSinks.BytesNonDecreasing` | src/channel_sink.rs:70 | byte counts never decrease from one `Write` to a later one |
| `ChannelSinks.LastWriteCountsAllSamples` | src/channel_sink.rs:70 | the last `Write`'s count is four times all samples written |
| `ChannelSinks.WrittenSamplesAppend` | src/download.rs:117-122 | the samples of concatenated event runs are the concatenation of each run's samples |
| `ChannelSinks.FinishedDoesNotStopSamples` | src/download.rs:117-126 | a `Finished` between events does not stop later samples from counting |
| `ChannelSinks.NoWritesNoSamples` | src/download.rs:117-126 | events that are all `Finished` contribute no samples |
| `FileSinks.FileSink.Open` | src/file_sink.rs:14-24 | `open(Some(p))`: path `p`, empty content; `open(None)` is excluded (the code panics) |
| `FileSinks.FileSink.Start` | src/file_sink.rs:28-30 | always succeeds, changes nothing |
| `FileSinks.FileSink.Write` | src/file_sink.rs:39-43 | the widened samples go after the old content, which is an unchanged prefix; the length grows by the input's; always Ok |
| `FileSinks.FileSink.StopFrameCount` | src/file_sink.rs:34 | the frame count is the number of complete stereo pairs, truncated to 32 bits |
| `FileSinks.WritesCompose` | src/file_sink.rs:39-43 | two writes buffer what one write of both packets would |
| `Ints.Widen` | src/channel_sink.rs:69 | widening keeps length, values and order |
| `Stream.Load` | src/stream/stream.rs:112-132 | the loop's outcome is the classification of the player events received |
| `Stream.ClassifyReady` | src/stream/stream.rs:116-123 | `load` succeeds exactly when the first decisive event is `Playing`, `TrackChanged` or `EndOfTrack` |
| `Stream.ClassifyNotAvailable` | src/stream/stream.rs:124-127 | `load` fails exactly when the first decisive event is `Unavailable` |
| `Stream.ClassifyWaiting` | src/stream/stream.rs:116-132 | `load` keeps waiting exactly when no event so far is decisive; all others are skipped |
| `Stream.EventSender.constructor` | src/stream/stream.rs:35 | a fresh caller channel holds nothing |
| `Stream.SendEvent` | src/stream/stream.rs:142-146 | the event is delivered if the receiver is alive, and a failure is swallowed: nothing is delivered, nothing returned |
| `Stream.SentAppend` | src/stream/stream.rs:142-146 | sending two runs one after the other sends their concatenation |
| `Stream.BeforeFinished` | src/stream/stream.rs:84-106 | the prefix of the sink's events before the first `Finished`: all `Write`, followed by `Finished` if not all |
| `Stream.ForwardAll` | src/stream/stream.rs:86-100 | every event forwarded, one for one |
| `Stream.RelayedShape` | src/stream/stream.rs:84-106 | the relay forwards exactly the `Write`s before the first `Finished`, unchanged and in order, then that `Finished`, and nothing after |
| `Stream.RelayedSamples` | src/stream/stream.rs:86-100 | the samples relayed are those the sink wrote before its first `Finished`, in order |
| `Stream.ForwardAllSamples` | src/stream/stream.rs:86-100 | forwarding keeps every sample, in order |
| `Stream.StreamSamplesAppend` | src/stream/stream.rs:84-106 | samples of a concatenation are the concatenated samples |
| `Stream.RelayedAppend` | src/stream/stream.rs:84-106 | relaying a run of `Write`s and then more relays the run, then the rest |
| `Stream.RelayStepWrite` | src/stream/stream.rs:86-100 | one more `Write` extends the relay by that event |
| `Stream.RelayStepFinished` | src/stream/stream.rs:101-104 | a `Finished` after `Write`s ends the relay |
| `Stream.Relay` | src/stream/stream.rs:84-106 | the loop delivers the relayed events to a live receiver |
| `Stream.RelayedWellFormed` | src/stream/stream.rs:84-106 | the relay sends only `Write` and `Finished`, and only its last event can be terminal |
| `Stream.RelayedEndsWithFinished` | src/stream/stream.rs:101-104 | when the sink sent a `Finished`, the relay's last event is `Finished` |
| `Stream.Outcomes` | src/stream/stream.rs:45 | four attempts, each classified from its own player events |
| `Stream.Retries` | src/stream/stream.rs:57-60 | `Retry` events numbered consecutively, each with `max_attempts = 3` |
| `Stream.Failures` | src/stream/stream.rs:45-46 | failures in a row never exceed the four attempts |
| `Stream.AllFailClosedForm` | src/stream/stream.rs:45-79 | when every remaining attempt fails: the remaining retries, then the error |
| `Stream.ReadyClosedForm` | src/stream/stream.rs:45-106 | failures then a ready attempt: their retries, then the relay |
| `Stream.WaitingClosedForm` | src/stream/stream.rs:45-65 | failures then a waiting attempt: their retries and nothing more |
| `Stream.TaskEventsClosedForm` | src/stream/stream.rs:44-107 | the task's events: `n` numbered retries, then the `Error` after four failures, the relay after a ready attempt, or nothing |
| `Stream.RetriesThen` | src/stream/stream.rs:57-60 | retries followed by a retry-free tail keep the numbering and terminal-last properties |
| `Stream.TaskEventsWellFormed` | src/stream/stream.rs:44-107 | every `Retry` comes first, carries 3 and is numbered from 1 (so at most three), and a terminal event can only be last |
| `Stream.HasErrorAppend` | src/stream/stream.rs:68-79 | an error is in a concatenation exactly when it is in a part |
| `Stream.ErrorAfterRetries` | src/stream/stream.rs:57-60 | retries hold no error |
| `Stream.ErrorExactlyWhenAllAttemptsFail` | src/stream/stream.rs:68-79 | an `Error` is sent exactly when all four attempts fail |
| `Stream.AllAttemptsFailEvents` | src/stream/stream.rs:45-79 | four failures give exactly three numbered retries and one `LoadError`, and nothing else |
| `Stream.RetriesThenRelay` | src/stream/stream.rs:57-106 | retries then the relay carry the relay's samples and end as it ends |
| `Stream.ReadyDeliversSamples` | src/stream/stream.rs:84-106 | after a ready attempt, the caller gets every sample written before the first `Finished`, in order, ending in `Finished` if one was sent |
| `Stream.RetriesCarryNoSamples` | src/stream/stream.rs:57-60 | retries carry no samples |
| `Stream.BackoffDelay` | src/stream/stream.rs:63-64 | each wait is between 10 and 30 seconds |
| `Stream.BackoffMonotone` | src/stream/stream.rs:63-64 | waits never shrink |
| `Stream.RetryStep` | src/stream/stream.rs:45-60 | a failed attempt before the last moves one `Retry` from the remaining events to the sent ones |
| `Stream.FailuresFrom` | src/stream/stream.rs:45-46 | after `k` failures in a row the count from the start is `k` plus the count from `k` |
| `Stream.FailuresCounted` | src/stream/stream.rs:45-46 | the attempt that ends the task comes after exactly min(failures, 3) retries |
| `Stream.AttemptsAfterFailures` | src/stream/stream.rs:45-79 | after `k` failures the task has sent `k` retries and continues from attempt `k` |
| `Stream.RetriesSnoc` | src/stream/stream.rs:57-60 | one more retry appends the next numbered `Retry` |
| `Stream.FinishAttempt` | src/stream/stream.rs:66-106 | after the last attempt: relay if ready, the `LoadError` if the last one failed, nothing if waiting |
| `Stream.RetryLoop` | src/stream/stream.rs:45-65 | stops at the first attempt that is not a failure or at the fourth, having sent one numbered `Retry` and waited one backoff delay per earlier failure |
| `Stream.StreamTask` | src/stream/stream.rs:44-107 | the caller receives exactly the task's events, and the task waits once per retry |
| `Tracks.ParseUriOrUrl` | src/track.rs:35-37 | a successful URI parse wins; the URL parse is used only when it fails |
| `Tracks.ParseUrl` | src/track.rs:45-53 | no match of the pattern gives nothing; in particular text without `?` is never parsed as a share link |
| `Tracks.ShareLinkParses` | src/track.rs:45-53 | a share link that is not a URI parses as the URI `spotify:<kind>:<id>` |
| `Tracks.NoUriNoQuestionRejected` | src/track.rs:45-53 | text that is not a URI and has no `?` is rejected |
| `Tracks.NewTrack` | src/track.rs:66-69 | fails with "Invalid track" exactly when neither parse succeeds; otherwise the parsed id |
| `Tracks.FromId` | src/track.rs:71-73 | the id is kept |
| `Tracks.GetTracks` | src/track.rs:14-33 | the loop's result is the expansion of the identifiers in turn |
| `Tracks.TracksForFailsAtFirstInvalid` | src/track.rs:18 | fails exactly when some identifier does not parse, with "Invalid track `<id>`" for the first one |
| `Tracks.TracksForAppend` | src/track.rs:15-32 | the expansion of a concatenated input is the expansions in input order |
| `Tracks.PlayableIdsYieldThemselves` | src/track.rs:19-21 | track and episode ids yield one track each, same ids, same order |
| `Tracks.NewTrackAgreesWithGetTracks` | src/track.rs:20-21 | `Track::new` agrees with `get_tracks` on one track or episode identifier |
| `Tracks.AlbumFrom` | src/track.rs:220-227 | name and year copied; the first cover, or none when there are none |
| `Tracks.TrackMetadataFrom` | src/track.rs:179-197 | artist names in order, one per artist; track name and duration copied; the album converted |
| `SpotifyUrl.CanonicalUrlCaptures` | src/track.rs:61-62 | a share link `https://open.spotify.com/<kind>/<id>?<query>` captures `kind` and `id` |
| `SpotifyUrl.NoQuestionNoCaptures` | src/track.rs:61-62 | a string without `?` never matches |
| `SpotifyUrl.WordRunEnd` | src/track.rs:62 | the greedy `\w+` run: all word characters, stopped by a non-word character |
| `SpotifyUrl.LastQuestion` | src/track.rs:62 | where greedy `.*\?` stops: the last `?` before the line's end |
| `Encoder.FromStr` | src/encoder/mod.rs:22-29 | accepts exactly "flac", and "mp3" with the feature; anything else is "Unsupported format" |
| `Encoder.Extension` | src/encoder/mod.rs:34-40 | a nonempty extension without `.` |
| `Encoder.FromStrExtension` | src/encoder/mod.rs:22-40 | parsing a format's extension gives the format |
| `Encoder.ExtensionFromStr` | src/encoder/mod.rs:22-40 | every accepted string is the extension of what it parses to |
| `Encoder.ExtensionInjective` | src/encoder/mod.rs:34-39 | different formats have different extensions |
| `Encoder.GetEncoder` | src/encoder/mod.rs:48-54 | total: the FLAC encoder exactly for FLAC |
| `Encoder.NewSamples` | src/encoder/mod.rs:69-76 | stores its four arguments unchanged |
| `Encoder.RunWithResult` | src/encoder/mod.rs:106-110 | calls `func` once and sends its result; a gone receiver is ignored |
| `Paths.StemOfExtended` | src/download.rs:82-89 | `file_stem` of stem `.` extension is the stem |
| `Paths.LastDot` | src/download.rs:82-89 | the last `.` of a name, if any |
| `Paths.FileStem` | src/main.rs:138-142 | `file_stem` gives a prefix of the name, nonempty for a nonempty name |
| `Paths.WithExtension` | src/download.rs:86 | `with_extension` with an extension free of `.` keeps the name's stem |
| `Chars.Utf8Len` | src/main.rs:77 | one UTF-8 byte exactly for ASCII characters |

## Left out

- Concurrency: tokio tasks, `buffer_unordered` and the rayon pool. Each track's task is modelled as a sequential run over its inputs.
- Progress bars and logging. They only observe.
- The player, the session, the network and the metadata fetches. A load attempt's player events, the sink's events and the provider's answers are inputs.
- The `?` errors of the metadata fetches are not modelled.
- The album and playlist lookups are function parameters. Their `expect` panics are not modelled.
- `SpotifyId::from_uri` is a function parameter. It stays uninterpreted.
- The converter `f64_to_s16` is a function parameter. It does float conversion.
- The FLAC and MP3 encoders, tag writing, `EncodedStream::write_to_file`, and `FileSink::stop`'s FLAC calls are left out. Only the frame count passed to the encoder is modelled. These are codecs and file I/O.
- The directory reads of the older loop are left out. Each track's directory content is a `listing(i)` input.
- `src/log.rs`, `src/session.rs`, the build script and command-line parsing are file, network and process plumbing.
- `SpotifyUrl.IsWordChar`: `\w` is taken as ASCII letters, digits and `_`. The regex engine's Unicode word class is not modelled.
- `Stream.BackoffDelay`: states only the 10 s base, the 30 s cap and monotonicity. The retry library's exact delay arithmetic and jitter are its own.
- `Stream.StreamTask`: a load attempt whose events end before anything decisive is modelled as one that never returns. The real task then waits forever.
- The player-event re-subscription on each read inside `load` is not modelled.
- `LoadErrorEvent` takes the track id as printed by `{:?}` as text. `Debug` formatting is not modelled.
- `ChannelSinks.ConvertTrackDurationToSize`: the product is taken modulo 2^64, as a release build computes it. A debug build panics on the overflow that a duration of -1000 ms or less causes.
- `Stream.Relay`, `Stream.RetryLoop` and `Stream.StreamTask`: the caller's receiver is alive or gone for the whole task. A consumer that drops the receiver partway through a stream is not modelled.
- `ChannelSinks.ChannelSink.Write`: `bytes_sent` is an unbounded `nat`. The `usize` wrap-around after 2^64 bytes is not modelled.
- `Legacy.ArtistString` and `FileSinks.FileSink.Open` require what the code would otherwise panic on: a nonempty artist list and `Some` path.
- The older loop's `unwrap`s on path conversion are not modelled.

## Findings

| source | as written | input that shows it | evidently intended | confidence | as-written member | corrected member |
|---|---|---|---|---|---|---|
| src/download.rs:82-89 | the output path is `destination.join(file_name).with_extension(ext)`, so everything after the last `.` of the track's file name is replaced by the extension | artist "The Killers", title "Mr. Brightside": the file is named "The Killers - Mr.flac" | the whole file name followed by `.` and the extension: "The Killers - Mr. Brightside.flac" | not executed | `Download.DottedTitleIsTruncated` (about `Download.OutputFileNameAsWritten`) | `Download.OutputFileNameStem` (about `Download.OutputFileName`) |
