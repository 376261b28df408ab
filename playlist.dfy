/** The playlist dialog's save handler in src/script.js: a pasted Spotify
    playlist link becomes the embed address shown in the player frame and
    remembered under `spotifyPlaylist`; anything else changes nothing. */
module Playlist {
  import opened Wrappers
  import opened Text

  const PathMarker := "playlist/"
  const Host := "open.spotify.com/"
  const LinkMarker := Host + PathMarker
  const EmbedPrefix := "https://open.spotify.com/embed/playlist/"

  /** The player frame's address and the remembered embed address. */
  datatype Player = Player(frameSrc: string, stored: Option<string>)

  /** A link to the web player contains the path marker. */
  lemma LinkHasPathMarker(url: string)
    requires Contains(url, LinkMarker)
    ensures Contains(url, PathMarker)
  {
    var i := IndexOf(url, LinkMarker).value;
    assert url[i + 17..i + 26] == url[i..i + 26][17..26];
    OccurrenceFound(url, PathMarker, i + 17);
  }

  /** `url.split("playlist/")[1].split("?")[0]`: the text after the first
      path marker, up to the next path marker or question mark. */
  function PlaylistId(url: string): string
    requires Contains(url, PathMarker)
  {
    var i := IndexOf(url, PathMarker).value;
    Before(Before(url[i + |PathMarker|..], PathMarker), "?")
  }

  /** The identifier is the text that follows the first path marker and runs
      to the end, to a question mark or to the next path marker, none of
      which it contains. */
  lemma PlaylistIdBounds(url: string)
    requires Contains(url, PathMarker)
    ensures var i, id := IndexOf(url, PathMarker).value, PlaylistId(url);
      var e := i + |PathMarker| + |id|;
      && e <= |url| && url[i + |PathMarker|..e] == id
      && '?' !in id && !Contains(id, PathMarker)
      && (e == |url| || url[e] == '?' || OccursAt(url, PathMarker, e))
  {
    var i := IndexOf(url, PathMarker).value;
    var rest := url[i + |PathMarker|..];
    var piece := Before(rest, PathMarker);
    var id := Before(piece, "?");
    BeforeLacksSeparator(piece, "?");
    ContainsChar(id, '?');
    BeforeLacksSeparator(rest, PathMarker);
    PrefixLacks(id, piece, PathMarker);
    var e := i + |PathMarker| + |id|;
    BeforeBoundary(piece, "?");
    BeforeBoundary(rest, PathMarker);
    if |id| < |piece| {
      OccursAtChar(piece, "?", |id|, 0);
      assert url[e] == piece[|id|];
    } else if |piece| < |rest| {
      assert url[e..e + |PathMarker|] == rest[|piece|..|piece| + |PathMarker|];
    }
  }

  /** The embed address a saved input leads to, if any. */
  function EmbedFor(input: string): Option<string> {
    var url := Trim(input);
    if url != "" && Contains(url, LinkMarker) then
      LinkHasPathMarker(url);
      Some(EmbedPrefix + PlaylistId(url))
    else None
  }

  /** Saving the dialog. */
  function SavePlaylist(p: Player, input: string): Player {
    match EmbedFor(input)
    case Some(embed) => Player(embed, Some(embed))
    case None => p
  }

  /** A recognised link points the frame and the remembered value at the same
      embed address; any other input leaves both as they were. */
  lemma SaveUpdatesBothOrNeither(p: Player, input: string)
    ensures var r := SavePlaylist(p, input);
      && (Contains(Trim(input), LinkMarker) ==>
            && Contains(Trim(input), PathMarker)
            && r.stored == Some(r.frameSrc)
            && r.frameSrc == EmbedPrefix + PlaylistId(Trim(input)))
      && (!Contains(Trim(input), LinkMarker) ==> r == p)
  {
    if Contains(Trim(input), LinkMarker) {
      assert Trim(input) != "";
      LinkHasPathMarker(Trim(input));
    }
  }

  const Scheme := "https://"
  const ShareBase := Scheme + LinkMarker

  /** The first path marker of a share link is the one after the host name. */
  lemma ShareBaseMarker()
    ensures IndexOf(ShareBase, PathMarker) == Some(25)
  {
    forall j | 0 <= j < 25 ensures !OccursAt(ShareBase, PathMarker, j) {
      if j == 3 || j == 9 || j == 14 {
        MismatchNoOccurrence(ShareBase, PathMarker, j, 8);
      } else {
        MismatchNoOccurrence(ShareBase, PathMarker, j, 0);
      }
    }
    assert ShareBase[25..34] == PathMarker;
    IndexOfFirst(ShareBase, PathMarker, 25);
  }

  /** A share link carries the link marker after the scheme. */
  lemma ShareLinkHasLinkMarker(rest: string)
    ensures Contains(ShareBase + rest, LinkMarker)
  {
    var url := ShareBase + rest;
    assert url == Scheme + LinkMarker + rest;
    assert url[8..8 + |LinkMarker|] == LinkMarker;
    OccurrenceFound(url, LinkMarker, 8);
  }

  /** In a share link the link marker is present and the first path marker
      is the one after the host name. */
  lemma ShareLinkMarkers(rest: string)
    ensures Contains(ShareBase + rest, LinkMarker)
    ensures IndexOf(ShareBase + rest, PathMarker) == Some(25)
    ensures (ShareBase + rest)[25 + |PathMarker|..] == rest
  {
    ShareLinkHasLinkMarker(rest);
    var url := ShareBase + rest;
    ShareBaseMarker();
    forall j | 0 <= j < 25 ensures !OccursAt(url, PathMarker, j) {
      OccursAtPrefix(ShareBase, rest, PathMarker, j);
    }
    assert url == Scheme + Host + PathMarker + rest;
    assert url[25..34] == PathMarker;
    IndexOfFirst(url, PathMarker, 25);
  }

  /** After the path marker, the identifier runs to the question mark that
      starts the query, or to the end. */
  lemma IdBeforeQuery(id: string, tail: string)
    requires '?' !in id && !Contains(id, PathMarker)
    requires tail == [] || tail[0] == '?'
    ensures Before(Before(id + tail, PathMarker), "?") == id
  {
    var rest := id + tail;
    var piece := Before(rest, PathMarker);
    if tail == [] {
      assert rest == id;
      ContainsChar(id, '?');
    } else {
      assert |id| < |piece| by {
        if Contains(rest, PathMarker) {
          var k := IndexOf(rest, PathMarker).value;
          if k + 9 <= |id| {
            assert rest[k..k + 9] == id[k..k + 9];
            OccurrenceFound(id, PathMarker, k);
          } else if k <= |id| {
            OccursAtChar(rest, PathMarker, k, |id| - k);
          }
        }
      }
      assert piece == id + "?" + piece[|id| + 1..];
      BeforeCharAfterPrefix(id, '?', piece[|id| + 1..]);
    }
  }

  /** A share link `https://open.spotify.com/playlist/<id>` followed by
      nothing or by a `?` query, with no surrounding whitespace, embeds
      exactly `<id>`. */
  lemma ShareLinkEmbed(url: string, id: string, tail: string)
    requires url == ShareBase + id + tail
    requires '?' !in id && !Contains(id, PathMarker)
    requires tail == [] || tail[0] == '?'
    requires !IsJsWhitespace(url[|url| - 1])
    ensures EmbedFor(url) == Some(EmbedPrefix + id)
  {
    assert url == ShareBase + (id + tail);
    TrimUnchanged(url);
    ShareLinkMarkers(id + tail);
    IdBeforeQuery(id, tail);
    assert PlaylistId(url) == id;
  }

  /** The link `https://open.spotify.com/playlist/abc123?si=xyz` embeds
      playlist `abc123`: the `si` query is dropped. */
  lemma ShareLinkExample(link: string)
    requires link == ShareBase + "abc123" + "?si=xyz"
    ensures EmbedFor(link) == Some(EmbedPrefix + "abc123")
  {
    MissingCharNoMatch("abc123", PathMarker, '/');
    ShareLinkEmbed(link, "abc123", "?si=xyz");
  }

  /** An input without a slash, such as a `spotify:playlist:<id>` URI, is not
      a web link and changes nothing. */
  lemma SlashlessIgnored(p: Player, input: string)
    requires '/' !in input
    ensures SavePlaylist(p, input) == p
  {
    TrimIsSlice(input);
    var url := Trim(input);
    assert '/' !in url by {
      forall k | 0 <= k < |url| ensures url[k] != '/' {
        assert url[k] in input;
      }
    }
    MissingCharNoMatch(url, LinkMarker, '/');
  }
}
