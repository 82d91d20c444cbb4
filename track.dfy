/**
 * Identifier resolution and track-list expansion, and the metadata records built from the
 * provider's answers. `SpotifyId::from_uri` and the album/playlist lookups are the provider
 * library's; every operation that needs them takes them as function parameters.
 */
module Tracks {
  import opened Wrappers
  import opened Ints
  import SpotifyUrl

  datatype SpotifyItemType =
    | AlbumItem | ArtistItem | EpisodeItem | PlaylistItem | ShowItem | TrackItem | LocalItem | UnknownItem

  /** The provider's identifier; its numeric part is opaque to the program. */
  datatype SpotifyId = SpotifyId(id: nat, itemType: SpotifyItemType)

  datatype Track = Track(id: SpotifyId)

  /** `SpotifyId::from_uri(..).ok()`. */
  type UriParser = string -> Option<SpotifyId>

  /** The URI a matched share link is rewritten to: `spotify:<kind>:<id>`. */
  function RewrittenUri(c: SpotifyUrl.Captures): string
  {
    "spotify:" + c.kind + ":" + c.id
  }

  /** `parse_url`: no match gives `None`; a match is rewritten to a URI and parsed as one. */
  function ParseUrl(url: string, fromUri: UriParser): (r: Option<SpotifyId>)
    ensures SpotifyUrl.FindCaptures(url).None? ==> r.None?
    ensures '?' !in url ==> r.None?
  {
    if '?' !in url then SpotifyUrl.NoQuestionNoCaptures(url); None
    else match SpotifyUrl.FindCaptures(url)
    case None => None
    case Some(c) => fromUri(RewrittenUri(c))
  }

  /** `parse_uri_or_url`: the URI reading wins; the URL reading is tried only when it fails. */
  function ParseUriOrUrl(s: string, fromUri: UriParser): (r: Option<SpotifyId>)
    ensures fromUri(s).Some? ==> r == fromUri(s)
    ensures fromUri(s).None? ==> r == ParseUrl(s, fromUri)
    ensures r.Some? <==> fromUri(s).Some? || ParseUrl(s, fromUri).Some?
  {
    match fromUri(s)
    case Some(id) => Some(id)
    case None => ParseUrl(s, fromUri)
  }

  /** A share link parses as the URI `spotify:<kind>:<id>` whenever it is not itself a URI. */
  lemma ShareLinkParses(kind: string, id: string, query: string, fromUri: UriParser)
    requires |kind| > 0 && forall i :: 0 <= i < |kind| ==> SpotifyUrl.IsWordChar(kind[i])
    requires '\n' !in id && '?' !in query
    requires fromUri(SpotifyUrl.Head + kind + "/" + id + "?" + query).None?
    ensures ParseUriOrUrl(SpotifyUrl.Head + kind + "/" + id + "?" + query, fromUri)
         == fromUri("spotify:" + kind + ":" + id)
  {
    SpotifyUrl.CanonicalUrlCaptures(kind, id, query);
  }

  /** Text that is not a URI and has no `?` is never accepted. */
  lemma NoUriNoQuestionRejected(s: string, fromUri: UriParser)
    requires fromUri(s).None? && '?' !in s
    ensures ParseUriOrUrl(s, fromUri).None?
  {
    SpotifyUrl.NoQuestionNoCaptures(s);
  }

  /** `Track::new`. */
  function NewTrack(s: string, fromUri: UriParser): (r: Result<Track, string>)
    ensures r.Failure? <==> ParseUriOrUrl(s, fromUri).None?
    ensures r.Failure? ==> r.error == "Invalid track"
    ensures r.Success? ==> r.value.id == ParseUriOrUrl(s, fromUri).value
  {
    match ParseUriOrUrl(s, fromUri)
    case None => Failure("Invalid track")
    case Some(id) => Success(FromId(id))
  }

  /** `Track::from_id`. */
  function FromId(id: SpotifyId): (t: Track)
    ensures t.id == id
  {
    Track(id)
  }

  /** The tracks one parsed identifier contributes to `get_tracks`. */
  function Expand(id: SpotifyId, albumTracks: SpotifyId -> seq<Track>, playlistTracks: SpotifyId -> seq<Track>): seq<Track>
  {
    match id.itemType
    case TrackItem => [FromId(id)]
    case EpisodeItem => [FromId(id)]
    case AlbumItem => albumTracks(id)
    case PlaylistItem => playlistTracks(id)
    case ShowItem => []
    case ArtistItem => []
    case LocalItem => []
    case UnknownItem => []
  }

  /** The result of `get_tracks` for `ids`, one identifier after another. */
  function TracksFor(ids: seq<string>, fromUri: UriParser,
                     albumTracks: SpotifyId -> seq<Track>, playlistTracks: SpotifyId -> seq<Track>): Result<seq<Track>, string>
  {
    if ids == [] then Success([])
    else match ParseUriOrUrl(ids[0], fromUri)
      case None => Failure("Invalid track `" + ids[0] + "`")
      case Some(id) =>
        match TracksFor(ids[1..], fromUri, albumTracks, playlistTracks)
        case Failure(e) => Failure(e)
        case Success(rest) => Success(Expand(id, albumTracks, playlistTracks) + rest)
  }

  function Prepend(prefix: seq<Track>, r: Result<seq<Track>, string>): Result<seq<Track>, string>
  {
    match r
    case Failure(e) => Failure(e)
    case Success(v) => Success(prefix + v)
  }

  lemma PrependNothing(r: Result<seq<Track>, string>)
    ensures Prepend([], r) == r
  {
    if r.Success? {
      assert [] + r.value == r.value;
    }
  }

  lemma PrependTwice(a: seq<Track>, b: seq<Track>, r: Result<seq<Track>, string>)
    ensures Prepend(a, Prepend(b, r)) == Prepend(a + b, r)
  {
    if r.Success? {
      assert a + (b + r.value) == (a + b) + r.value;
    }
  }

  /** `get_tracks`: parse each identifier in turn and collect what each expands to. */
  method GetTracks(ids: seq<string>, fromUri: UriParser,
                   albumTracks: SpotifyId -> seq<Track>, playlistTracks: SpotifyId -> seq<Track>)
    returns (r: Result<seq<Track>, string>)
    ensures r == TracksFor(ids, fromUri, albumTracks, playlistTracks)
  {
    var tracks: seq<Track> := [];
    var i := 0;
    assert ids[0..] == ids;
    PrependNothing(TracksFor(ids, fromUri, albumTracks, playlistTracks));
    while i < |ids|
      invariant 0 <= i <= |ids|
      invariant TracksFor(ids, fromUri, albumTracks, playlistTracks)
             == Prepend(tracks, TracksFor(ids[i..], fromUri, albumTracks, playlistTracks))
    {
      assert ids[i..][0] == ids[i] && ids[i..][1..] == ids[i + 1..];
      var parsed := ParseUriOrUrl(ids[i], fromUri);
      if parsed.None? {
        return Failure("Invalid track `" + ids[i] + "`");
      }
      var newTracks := Expand(parsed.value, albumTracks, playlistTracks);
      PrependTwice(tracks, newTracks, TracksFor(ids[i + 1..], fromUri, albumTracks, playlistTracks));
      tracks := tracks + newTracks;
      i := i + 1;
    }
    assert ids[i..] == [];
    assert tracks + [] == tracks;
    return Success(tracks);
  }

  /**
   * `get_tracks` fails exactly when some identifier does not parse, and then reports the
   * first such identifier.
   */
  lemma {:induction false} TracksForFailsAtFirstInvalid(ids: seq<string>, fromUri: UriParser,
      albumTracks: SpotifyId -> seq<Track>, playlistTracks: SpotifyId -> seq<Track>)
    ensures TracksFor(ids, fromUri, albumTracks, playlistTracks).Failure?
        <==> exists i :: 0 <= i < |ids| && ParseUriOrUrl(ids[i], fromUri).None?
    ensures TracksFor(ids, fromUri, albumTracks, playlistTracks).Failure? ==>
      exists i :: 0 <= i < |ids| && ParseUriOrUrl(ids[i], fromUri).None?
        && (forall j :: 0 <= j < i ==> ParseUriOrUrl(ids[j], fromUri).Some?)
        && TracksFor(ids, fromUri, albumTracks, playlistTracks).error == "Invalid track `" + ids[i] + "`"
  {
    if ids != [] {
      TracksForFailsAtFirstInvalid(ids[1..], fromUri, albumTracks, playlistTracks);
      if ParseUriOrUrl(ids[0], fromUri).Some? {
        if exists i :: 0 <= i < |ids| && ParseUriOrUrl(ids[i], fromUri).None? {
          var i :| 0 <= i < |ids| && ParseUriOrUrl(ids[i], fromUri).None?;
          assert ids[1..][i - 1] == ids[i];
        }
        if TracksFor(ids, fromUri, albumTracks, playlistTracks).Failure? {
          var i :| 0 <= i < |ids[1..]| && ParseUriOrUrl(ids[1..][i], fromUri).None?
            && (forall j :: 0 <= j < i ==> ParseUriOrUrl(ids[1..][j], fromUri).Some?)
            && TracksFor(ids[1..], fromUri, albumTracks, playlistTracks).error == "Invalid track `" + ids[1..][i] + "`";
          assert forall j :: 0 <= j < i + 1 ==> ParseUriOrUrl(ids[j], fromUri).Some? by {
            forall j | 0 <= j < i + 1 ensures ParseUriOrUrl(ids[j], fromUri).Some? {
              if j > 0 { assert ids[j] == ids[1..][j - 1]; }
            }
          }
        }
      }
    }
  }

  /**
   * The tracks of a concatenated input are the tracks of the first part followed by those of
   * the second: expansion keeps input order.
   */
  lemma {:induction false} TracksForAppend(a: seq<string>, b: seq<string>, fromUri: UriParser,
      albumTracks: SpotifyId -> seq<Track>, playlistTracks: SpotifyId -> seq<Track>)
    requires TracksFor(a, fromUri, albumTracks, playlistTracks).Success?
    ensures TracksFor(a + b, fromUri, albumTracks, playlistTracks)
         == Prepend(TracksFor(a, fromUri, albumTracks, playlistTracks).value, TracksFor(b, fromUri, albumTracks, playlistTracks))
  {
    if a == [] {
      assert a + b == b;
      PrependNothing(TracksFor(b, fromUri, albumTracks, playlistTracks));
    } else {
      assert (a + b)[0] == a[0] && (a + b)[1..] == a[1..] + b;
      TracksForAppend(a[1..], b, fromUri, albumTracks, playlistTracks);
      var head := Expand(ParseUriOrUrl(a[0], fromUri).value, albumTracks, playlistTracks);
      var restA := TracksFor(a[1..], fromUri, albumTracks, playlistTracks).value;
      PrependTwice(head, restA, TracksFor(b, fromUri, albumTracks, playlistTracks));
    }
  }

  /** Identifiers that all name single tracks or episodes yield one track each, same ids, same order. */
  lemma {:induction false} PlayableIdsYieldThemselves(ids: seq<string>, fromUri: UriParser,
      albumTracks: SpotifyId -> seq<Track>, playlistTracks: SpotifyId -> seq<Track>)
    requires forall i :: 0 <= i < |ids| ==>
      (ParseUriOrUrl(ids[i], fromUri).Some? && ParseUriOrUrl(ids[i], fromUri).value.itemType in {TrackItem, EpisodeItem})
    ensures TracksFor(ids, fromUri, albumTracks, playlistTracks).Success?
    ensures |TracksFor(ids, fromUri, albumTracks, playlistTracks).value| == |ids|
    ensures forall i :: 0 <= i < |ids| ==>
      TracksFor(ids, fromUri, albumTracks, playlistTracks).value[i].id == ParseUriOrUrl(ids[i], fromUri).value
  {
    if ids != [] {
      PlayableIdsYieldThemselves(ids[1..], fromUri, albumTracks, playlistTracks);
      var rest := TracksFor(ids[1..], fromUri, albumTracks, playlistTracks).value;
      forall i | 0 < i < |ids|
        ensures TracksFor(ids, fromUri, albumTracks, playlistTracks).value[i].id == ParseUriOrUrl(ids[i], fromUri).value
      {
        assert ids[1..][i - 1] == ids[i];
      }
    }
  }

  /** `Track::new` agrees with `get_tracks` on a single track or episode identifier. */
  lemma NewTrackAgreesWithGetTracks(s: string, fromUri: UriParser,
      albumTracks: SpotifyId -> seq<Track>, playlistTracks: SpotifyId -> seq<Track>)
    requires NewTrack(s, fromUri).Success?
    requires NewTrack(s, fromUri).value.id.itemType in {TrackItem, EpisodeItem}
    ensures TracksFor([s], fromUri, albumTracks, playlistTracks) == Success([NewTrack(s, fromUri).value])
  {
    assert [s][0] == s && [s][1..] == [];
    var t := NewTrack(s, fromUri).value;
    assert Expand(t.id, albumTracks, playlistTracks) + [] == [t];
  }

  // ---- Metadata records (`TrackMetadata::from` and friends) ----

  /** An album cover reference; its content is the provider's. */
  datatype Image = Image(fileId: nat)

  /** The provider's answers that the metadata records are built from. */
  datatype ProviderArtist = ProviderArtist(name: string)
  datatype ProviderAlbum = ProviderAlbum(name: string, year: I32, covers: seq<Image>)
  datatype ProviderTrack = ProviderTrack(name: string, duration: I32)

  datatype ArtistMetadata = ArtistMetadata(name: string)
  datatype AlbumMetadata = AlbumMetadata(name: string, year: I32, cover: Option<Image>)
  datatype TrackMetadata = TrackMetadata(artists: seq<ArtistMetadata>, trackName: string, album: AlbumMetadata, duration: I32)

  /** `AlbumMetadata::from`: name and year copied, the first cover if there is one. */
  function AlbumFrom(album: ProviderAlbum): (m: AlbumMetadata)
    ensures m.name == album.name && m.year == album.year
    ensures m.cover.None? <==> album.covers == []
    ensures m.cover.Some? ==> m.cover.value == album.covers[0]
  {
    AlbumMetadata(album.name, album.year, if album.covers == [] then None else Some(album.covers[0]))
  }

  /** `TrackMetadata::from`: artist names in the same order, name and duration copied. */
  function TrackMetadataFrom(track: ProviderTrack, artists: seq<ProviderArtist>, album: ProviderAlbum): (m: TrackMetadata)
    ensures |m.artists| == |artists|
    ensures forall i :: 0 <= i < |artists| ==> m.artists[i].name == artists[i].name
    ensures m.trackName == track.name && m.duration == track.duration
    ensures m.album == AlbumFrom(album)
  {
    TrackMetadata(seq(|artists|, i requires 0 <= i < |artists| => ArtistMetadata(artists[i].name)),
                  track.name, AlbumFrom(album), track.duration)
  }
}
