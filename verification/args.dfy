/** The `yt-dlp` argument vector built by `downloadAndConvert`
    (index.js:21-34): extract audio, convert to mp3 at the best quality,
    name files by playlist index and title under the destination folder,
    and choose single-item or playlist mode from the URL.

    `path.join` is the parameter `join`: nothing about it is assumed in the
    construction itself. */
module Args {
  import opened Text

  /** The file name template joined onto the destination folder. */
  const OutputTemplate := "%(playlist_index)03d-%(title)s.%(ext)s"
  const NoPlaylist := "--no-playlist"
  const YesPlaylist := "--yes-playlist"

  /** The audio extraction options, then the output option (index.js:22-25). */
  const AudioOptions: seq<string> := ["-x", "--audio-format", "mp3", "--audio-quality", "0", "-o"]

  /** `path.join(outputPath, template)`, however `join` computes it. */
  function OutputPath(join: (string, string) -> string, outputPath: string): string {
    join(outputPath, OutputTemplate)
  }

  /** The array literal of index.js:21-28, before any playlist override. */
  function InitialArgs(join: (string, string) -> string, url: string, outputPath: string): (r: seq<string>)
    ensures |r| == 9 && r[..6] == AudioOptions
    ensures r[6] == OutputPath(join, outputPath) && r[7] == NoPlaylist && r[8] == url
  {
    AudioOptions + [OutputPath(join, outputPath), NoPlaylist, url]
  }

  /** The test of index.js:31: only these two substrings turn on playlist mode. */
  predicate IsPlaylistUrl(url: string)
    ensures IsPlaylistUrl(url) <==> exists i :: OccursAt(url, "playlist", i) || OccursAt(url, "&list=", i)
  {
    Includes(url, "playlist") || Includes(url, "&list=")
  }

  /** A mode flag token. */
  predicate IsFlag(t: string) {
    t == NoPlaylist || t == YesPlaylist
  }

  /** The arguments `downloadAndConvert` passes to `yt-dlp`: the initial
      array, and for a playlist URL the first `--no-playlist` spliced out
      (at the index `indexOf` finds) and `--yes-playlist` pushed. */
  function BuildArgs(join: (string, string) -> string, url: string, outputPath: string): (r: seq<string>)
    ensures |r| == 9 && r[..6] == AudioOptions
    ensures !IsPlaylistUrl(url) ==> r == AudioOptions + [OutputPath(join, outputPath), NoPlaylist, url]
    ensures IsPlaylistUrl(url) ==> r[7] == url && r[8] == YesPlaylist
    ensures IsPlaylistUrl(url) ==> r == AudioOptions + [OutputPath(join, outputPath), url, YesPlaylist]
  {
    var args := InitialArgs(join, url, outputPath);
    if IsPlaylistUrl(url) then
      PlaylistOverrideShape(args);
      RemoveOne(args, IndexOf(args, NoPlaylist)) + [YesPlaylist]
    else
      args
  }

  /** The override on any initial array: the splice removes index 6 or 7,
      whichever holds the first `--no-playlist`, and the flag is pushed.
      Either way the first seven tokens survive, since a `--no-playlist` at
      index 6 is the same string as the one at index 7. */
  lemma PlaylistOverrideShape(args: seq<string>)
    requires |args| == 9 && args[..6] == AudioOptions && args[7] == NoPlaylist
    ensures var r := RemoveOne(args, IndexOf(args, NoPlaylist)) + [YesPlaylist];
      && |r| == 9 && r[..6] == AudioOptions && r[7] == args[8] && r[8] == YesPlaylist
      && r == args[..7] + [args[8], YesPlaylist]
  {
    var k := IndexOf(args, NoPlaylist);
    assert forall i :: 0 <= i < 6 ==> args[i] == AudioOptions[i];
    assert k == 6 || k == 7;
    var r := RemoveOne(args, k) + [YesPlaylist];
    if k == 6 {
      assert r[6] == args[7] == NoPlaylist == args[6];
    }
    assert r == args[..7] + [args[8], YesPlaylist];
  }

  /** The splice of index.js:32 always finds `--no-playlist` at index 7,
      just before the URL, unless the joined output path were that very token. */
  lemma SpliceFindsFlagAtSeven(join: (string, string) -> string, url: string, outputPath: string)
    requires OutputPath(join, outputPath) != NoPlaylist
    ensures IndexOf(InitialArgs(join, url, outputPath), NoPlaylist) == 7
    ensures InitialArgs(join, url, outputPath)[8] == url
  {
    var args := InitialArgs(join, url, outputPath);
    assert args[7] == NoPlaylist;
    assert NoPlaylist !in args[..7];
  }

  /** `path.join(dir, template)` ends with the template, since the template
      holds no separator and no `.`/`..` segment; such a path is never a flag.
      Since `join` is a parameter, nothing in the model establishes the
      hypothesis: this lemma documents why the `!IsFlag` requirement of
      `SpliceFindsFlagAtSeven` and `ExactlyOneFlag` holds of Node's
      `path.join`, and no proof here uses it. */
  lemma JoinedPathIsNotAFlag(joined: string)
    requires EndsWith(joined, OutputTemplate)
    ensures !IsFlag(joined)
  {
  }

  /** The two tokens after the output path: flag then URL in single mode,
      URL then flag in playlist mode. */
  function ModeTail(url: string): seq<string> {
    if IsPlaylistUrl(url) then [url, YesPlaylist] else [NoPlaylist, url]
  }

  /** The arguments are the audio options, the joined path and the mode tail,
      whatever `join` returns. */
  lemma ArgsShape(join: (string, string) -> string, url: string, outputPath: string)
    ensures BuildArgs(join, url, outputPath) == AudioOptions + [OutputPath(join, outputPath)] + ModeTail(url)
  {
  }

  /** Exactly one mode flag is passed: `--no-playlist` in single mode and
      `--yes-playlist` in playlist mode, given that neither the URL nor the
      joined output path is itself a flag token. */
  lemma ExactlyOneFlag(join: (string, string) -> string, url: string, outputPath: string)
    requires !IsFlag(url) && !IsFlag(OutputPath(join, outputPath))
    ensures var r := BuildArgs(join, url, outputPath);
      && (NoPlaylist in r <==> !IsPlaylistUrl(url))
      && (YesPlaylist in r <==> IsPlaylistUrl(url))
      && (IsPlaylistUrl(url) ==> r[8] == YesPlaylist && forall i :: 0 <= i < 8 ==> !IsFlag(r[i]))
      && (!IsPlaylistUrl(url) ==> r[7] == NoPlaylist && forall i :: 0 <= i < 9 && i != 7 ==> !IsFlag(r[i]))
  {
    ArgsShape(join, url, outputPath);
    var r := BuildArgs(join, url, outputPath);
    assert forall i :: 0 <= i < 6 ==> r[i] == AudioOptions[i] && !IsFlag(AudioOptions[i]);
    assert r[6] == OutputPath(join, outputPath);
  }

  /** The URL token is never dropped: it is the last token in single mode
      and the one before the final flag in playlist mode. */
  lemma UrlIsKept(join: (string, string) -> string, url: string, outputPath: string)
    ensures var r := BuildArgs(join, url, outputPath);
      && url in r
      && (IsPlaylistUrl(url) ==> r[|r| - 2] == url && r[|r| - 1] == YesPlaylist)
      && (!IsPlaylistUrl(url) ==> r[|r| - 1] == url)
  {
  }

  /** The mode decision depends on the URL only: two destinations give the
      same tokens everywhere except the output path at index 6. */
  lemma ModeIgnoresOutputPath(join: (string, string) -> string, url: string, out1: string, out2: string)
    ensures var r1 := BuildArgs(join, url, out1);
      var r2 := BuildArgs(join, url, out2);
      && r1[..6] == r2[..6] && r1[7..] == r2[7..]
      && r1[6] == OutputPath(join, out1) && r2[6] == OutputPath(join, out2)
  {
    ArgsShape(join, url, out1);
    ArgsShape(join, url, out2);
  }

  lemma QueryListHasNoAmpersandList()
    ensures !Includes("https://youtube.com/watch?list=X", "&list=")
  {
    NotIncludedByChar("https://youtube.com/watch?list=X", "&list=", 0);
  }

  lemma QueryListHasNoPlaylist()
    ensures !Includes("https://youtube.com/watch?list=X", "playlist")
  {
    var single := "https://youtube.com/watch?list=X";
    assert forall j :: 1 <= j <= 25 ==> single[j] != 'l';
    NotIncludedByChar(single, "playlist", 1);
  }

  /** A watch URL with `?list=` but no `&` before `list=` stays in single mode. */
  lemma QueryListAloneIsSingle()
    ensures !IsPlaylistUrl("https://youtube.com/watch?list=X")
  {
    QueryListHasNoAmpersandList();
    QueryListHasNoPlaylist();
  }

  /** `&list=` in a watch URL switches to playlist mode. */
  lemma AmpersandListIsPlaylist()
    ensures IsPlaylistUrl("https://youtube.com/watch?v=a&list=X")
  {
    var mixed := "https://youtube.com/watch?v=a&list=X";
    assert mixed[29..35] == "&list=";
    assert OccursAt(mixed, "&list=", 29);
  }

  /** A playlist page URL is in playlist mode. */
  lemma PlaylistPathIsPlaylist()
    ensures IsPlaylistUrl("https://www.youtube.com/playlist?list=X")
  {
    var list := "https://www.youtube.com/playlist?list=X";
    assert list[24..32] == "playlist";
    assert OccursAt(list, "playlist", 24);
  }
}
