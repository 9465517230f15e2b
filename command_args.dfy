// The yt-dlp argument lists a download request is turned into: the
// per-platform presets and the list built from the advanced options.
// The referer a URL yields is a parameter: it comes from a URL parser
// that is not part of this model.

module CommandArgs {
  import opened Text

  /** The advanced download options a request carries. */
  datatype Config = Config(
    enableAdvanced: bool,
    downloadType: string,
    separateDownload: string,
    videoResolution: string,
    audioFormat: string,
    downloadSubtitle: bool,
    downloadAutoSubtitle: bool,
    subtitleLanguage: string,
    embedSubtitle: bool,
    subtitleOnly: bool,
    playlistStart: int,
    playlistEnd: int,
    playlistMode: string,
    enableThreads: bool,
    threadCount: int,
    enableRateLimit: bool,
    rateLimit: string,
    continueOnError: bool,
    enableReferer: bool)

  /** The block every advanced list carries, after any `-f` block. */
  const FixedArgs: seq<string> := ["--cookies-from-browser", "firefox", "--newline"]

  /** A referer pair when the referer is known, nothing otherwise. */
  function RefererArgs(referer: string): seq<string>
  {
    if referer != "" then ["--referer", referer] else []
  }

  // ---------------------------------------------------------------------
  // Presets
  // ---------------------------------------------------------------------

  /** The preset arguments for a platform, ahead of the trailing `--newline` and URL. */
  function PresetHead(platform: string, url: string, referer: string -> string): seq<string>
  {
    match platform
    case "youtube" =>
      ["-f", "bv*+ba/b", "-S", "res,codec", "--merge-output-format", "mp4",
       "--cookies-from-browser", "firefox"]
    case "tiktok" =>
      ["-f", "bv*+ba/b", "-S", "res:desc,br:desc", "--merge-output-format", "mp4",
       "--cookies-from-browser", "firefox"]
    case "bilibili" =>
      ["-f", "bv*+ba", "-S", "res:desc,br:desc", "--merge-output-format", "mp4",
       "--cookies-from-browser", "firefox", "--sub-langs", "all"]
    case "generic1" =>
      ["-f", "bv*+ba/b", "-S", "res,codec", "--merge-output-format", "mp4",
       "--cookies-from-browser", "firefox"] + RefererArgs(referer(url))
    case "generic2" =>
      ["--merge-output-format", "mp4", "--cookies-from-browser", "firefox"] + RefererArgs(referer(url))
    case _ => []
  }

  /**
   * The argument list of a platform preset. Every list ends with
   * `--newline` and the URL; a referer pair appears ahead of them exactly
   * for the two generic presets when the URL yields a referer, and is
   * then followed by that referer.
   */
  function BuildCommandArgs(platform: string, url: string, referer: string -> string): (r: seq<string>)
    ensures |r| >= 2 && r[|r| - 2] == "--newline" && r[|r| - 1] == url
    ensures "--referer" in r[..|r| - 2] <==>
      (platform == "generic1" || platform == "generic2") && referer(url) != ""
    ensures forall k :: 0 <= k < |r| - 3 && r[k] == "--referer" ==> r[k + 1] == referer(url)
    ensures platform !in {"youtube", "tiktok", "bilibili", "generic1", "generic2"} ==> r == ["--newline", url]
  {
    var r := PresetHead(platform, url, referer) + ["--newline", url];
    assert r[..|r| - 2] == PresetHead(platform, url, referer);
    r
  }

  // ---------------------------------------------------------------------
  // Advanced options
  // ---------------------------------------------------------------------

  /** The resolutions a height cap can be taken from. */
  const Resolutions: set<string> := {"4320p", "2160p", "1440p", "1080p", "720p"}

  /**
   * The height of a listed resolution, `""` for anything else. A non-empty
   * height is the resolution without its trailing `p`, and is all digits.
   */
  function ExtractHeightFromResolution(resolution: string): (r: string)
    ensures r != "" <==> resolution in Resolutions
    ensures r != "" ==> resolution == r + "p"
    ensures forall k :: 0 <= k < |r| ==> '0' <= r[k] <= '9'
  {
    match resolution
    case "4320p" => "4320"
    case "2160p" => "2160"
    case "1440p" => "1440"
    case "1080p" => "1080"
    case "720p" => "720"
    case _ => ""
  }

  /** Whether the options choose a format, i.e. put a `-f` block first. */
  predicate SelectsFormat(c: Config) {
    c.separateDownload == "video" || c.separateDownload == "audio"
    || c.downloadType == "bestQuality" || c.downloadType == "bestAudio" || c.downloadType == "bestMerge"
  }

  /**
   * The `-f` block: a separate video or audio download wins over the
   * download type. A separate video download takes the best video-only
   * stream, capped at a listed resolution; a separate audio download takes
   * the best audio-only stream, extracted to the requested format unless
   * that is empty or `default`; otherwise the download type decides.
   */
  function FormatArgs(c: Config): (r: seq<string>)
    ensures r == [] <==> !SelectsFormat(c)
    ensures r != [] ==> 2 <= |r| <= 5 && r[0] == "-f"
    ensures c.separateDownload == "video" ==>
      |r| == 4 && r[2..] == ["--merge-output-format", "mp4"]
      && (c.videoResolution !in Resolutions ==> r[1] == "bestvideo")
      && (c.videoResolution in Resolutions ==>
            r[1] == "bestvideo[height<=" + ExtractHeightFromResolution(c.videoResolution) + "]")
    ensures c.separateDownload == "audio" ==>
      r[..2] == ["-f", "bestaudio"]
      && (c.audioFormat in {"", "default"} ==> |r| == 2)
      && (c.audioFormat !in {"", "default"} ==> r[2..] == ["-x", "--audio-format", c.audioFormat])
    ensures "-x" in r <==> c.separateDownload == "audio" && c.audioFormat !in {"", "default"}
    ensures c.separateDownload != "video" && c.separateDownload != "audio" ==>
      && (c.downloadType == "bestQuality" ==> r == ["-f", "bestvideo", "--merge-output-format", "mp4"])
      && (c.downloadType == "bestAudio" ==> r == ["-f", "bestaudio"])
      && (c.downloadType == "bestMerge" ==> r == ["-f", "bestvideo+bestaudio", "--merge-output-format", "mp4"])
  {
    if c.separateDownload == "video" then
      var height := ExtractHeightFromResolution(c.videoResolution);
      if height != "" then ["-f", "bestvideo[height<=" + height + "]", "--merge-output-format", "mp4"]
      else ["-f", "bestvideo", "--merge-output-format", "mp4"]
    else if c.separateDownload == "audio" then
      if c.audioFormat != "default" && c.audioFormat != "" then
        ["-f", "bestaudio", "-x", "--audio-format", c.audioFormat]
      else ["-f", "bestaudio"]
    else
      match c.downloadType
      case "bestQuality" => ["-f", "bestvideo", "--merge-output-format", "mp4"]
      case "bestAudio" => ["-f", "bestaudio"]
      case "bestMerge" => ["-f", "bestvideo+bestaudio", "--merge-output-format", "mp4"]
      case _ => []
  }

  /** The subtitle language and subtitle switches. */
  function SubtitleArgs(c: Config): seq<string>
  {
    (match c.subtitleLanguage
     case "all" => ["--sub-langs", "all"]
     case "zh-CN,en" => ["--sub-langs", "\"zh-CN,en\""]
     case "zh-CN" => ["--sub-langs", "\"zh-CN\""]
     case "en" => ["--sub-langs", "\"en\""]
     case _ => [])
    + (if c.downloadSubtitle then ["--write-subs"] else [])
    + (if c.downloadAutoSubtitle then ["--write-auto-subs"] else [])
    + (if c.embedSubtitle then ["--embed-subs"] else [])
    + (if c.subtitleOnly then ["--skip-download"] else [])
  }

  /** The playlist switches; `default`, `all` and anything else add none. */
  function PlaylistArgs(c: Config): seq<string>
  {
    match c.playlistMode
    case "single" => ["--no-playlist"]
    case "force" => ["--yes-playlist"]
    case "range" =>
      (if c.playlistStart > 0 then ["--playlist-start", IntToDecimal(c.playlistStart)] else [])
      + (if c.playlistEnd > 0 then ["--playlist-end", IntToDecimal(c.playlistEnd)] else [])
    case _ => []
  }

  /** Threads, rate limit, error handling and referer. */
  function ControlArgs(c: Config, url: string, referer: string -> string): seq<string>
  {
    (if c.enableThreads then ["-N", IntToDecimal(c.threadCount)] else [])
    + (if c.enableRateLimit && c.rateLimit != "" then ["--limit-rate", c.rateLimit] else [])
    + (if c.continueOnError then ["--ignore-errors"] else [])
    + (if c.enableReferer then RefererArgs(referer(url)) else [])
  }

  /** The fixed block starts at index `f` of `r`. */
  predicate FixedBlockAt(r: seq<string>, f: nat) {
    f + |FixedArgs| <= |r| && r[f..f + |FixedArgs|] == FixedArgs
  }

  /**
   * The argument list built from the advanced options. The URL is last;
   * the fixed cookie-and-newline block is present, preceded by a `-f`
   * block exactly when the options select a format and by nothing
   * otherwise. The list opens with the format block FormatArgs chooses,
   * so what FormatArgs promises (a separate download wins over the
   * download type, `-x` only for a non-default audio format) holds of the
   * list yt-dlp receives.
   */
  function BuildAdvancedCommandArgs(c: Config, url: string, referer: string -> string): (r: seq<string>)
    ensures |r| >= 4 && r[|r| - 1] == url
    ensures exists f: nat :: (f <= 5 && FixedBlockAt(r, f)
      && (f > 0 <==> SelectsFormat(c)) && (f > 0 <==> r[0] == "-f"))
    ensures |FormatArgs(c)| <= |r| && r[..|FormatArgs(c)|] == FormatArgs(c) && FixedBlockAt(r, |FormatArgs(c)|)
  {
    var head := FormatArgs(c);
    var r := head + FixedArgs + SubtitleArgs(c) + PlaylistArgs(c) + ControlArgs(c, url, referer) + [url];
    assert r[|head|..|head| + |FixedArgs|] == FixedArgs;
    assert FixedBlockAt(r, |head|);
    r
  }

  /** The argument list of a request: the advanced list when enabled, the preset otherwise. */
  function RequestArgs(platform: string, url: string, c: Config, referer: string -> string): (r: seq<string>)
    ensures |r| >= 2 && r[|r| - 1] == url
    ensures !c.enableAdvanced ==> r[|r| - 2] == "--newline"
  {
    if c.enableAdvanced then BuildAdvancedCommandArgs(c, url, referer)
    else BuildCommandArgs(platform, url, referer)
  }

  // ---------------------------------------------------------------------
  // Properties of the advanced list
  // ---------------------------------------------------------------------

  /** An argument that reads as a long option. */
  predicate IsLongFlag(v: string) {
    |v| >= 2 && v[0] == '-' && v[1] == '-'
  }

  /** The values a user supplies do not themselves read as long options. */
  predicate UserValuesAreNotFlags(c: Config, url: string, referer: string -> string) {
    !IsLongFlag(c.audioFormat) && !IsLongFlag(c.rateLimit) && !IsLongFlag(url) && !IsLongFlag(referer(url))
  }

  /** A formatted number never reads as a long option. */
  lemma DecimalIsNotFlag(i: int)
    ensures !IsLongFlag(IntToDecimal(i))
  {
    var r := IntToDecimal(i);
    if i < 0 && |r| >= 2 {
      assert r[1] == NatToDecimal(-i)[0];
    }
  }

  /** The playlist bound options and the referer option, which the lemmas below track. */
  predicate Tracked(v: string) {
    v == "--playlist-start" || v == "--playlist-end" || v == "--referer"
  }

  lemma FormatArgsUntracked(c: Config)
    requires !IsLongFlag(c.audioFormat)
    ensures forall v :: v in FormatArgs(c) ==> !Tracked(v)
  {
    if c.separateDownload == "video" {
      var height := ExtractHeightFromResolution(c.videoResolution);
      assert ("bestvideo[height<=" + height + "]")[0] == 'b';
    }
  }

  lemma SubtitleArgsUntracked(c: Config)
    ensures forall v :: v in SubtitleArgs(c) ==> !Tracked(v)
  {
  }

  lemma ControlArgsTracked(c: Config, url: string, referer: string -> string)
    requires !IsLongFlag(c.rateLimit) && !IsLongFlag(referer(url))
    ensures "--playlist-start" !in ControlArgs(c, url, referer)
    ensures "--playlist-end" !in ControlArgs(c, url, referer)
    ensures "--referer" in ControlArgs(c, url, referer) <==> c.enableReferer && referer(url) != ""
  {
    var threads := if c.enableThreads then ["-N", IntToDecimal(c.threadCount)] else [];
    var rate := if c.enableRateLimit && c.rateLimit != "" then ["--limit-rate", c.rateLimit] else [];
    var errors := if c.continueOnError then ["--ignore-errors"] else [];
    var ref := if c.enableReferer then RefererArgs(referer(url)) else [];
    assert ControlArgs(c, url, referer) == threads + rate + errors + ref;
    DecimalIsNotFlag(c.threadCount);
    assert forall v :: v in threads + rate + errors ==> !Tracked(v);
    assert forall v :: v in ref ==> v == "--referer" || v == referer(url);
  }

  lemma PlaylistArgsTracked(c: Config)
    ensures "--playlist-start" in PlaylistArgs(c) <==> c.playlistMode == "range" && c.playlistStart > 0
    ensures "--playlist-end" in PlaylistArgs(c) <==> c.playlistMode == "range" && c.playlistEnd > 0
    ensures "--referer" !in PlaylistArgs(c)
  {
    DecimalIsNotFlag(c.playlistStart);
    DecimalIsNotFlag(c.playlistEnd);
  }

  /** Where each tracked option of the advanced list comes from. */
  lemma TrackedOptions(c: Config, url: string, referer: string -> string, v: string)
    requires UserValuesAreNotFlags(c, url, referer) && Tracked(v)
    ensures v in BuildAdvancedCommandArgs(c, url, referer) <==>
      v in PlaylistArgs(c) || v in ControlArgs(c, url, referer)
  {
    FormatArgsUntracked(c);
    SubtitleArgsUntracked(c);
    var r := BuildAdvancedCommandArgs(c, url, referer);
    assert r == FormatArgs(c) + FixedArgs + SubtitleArgs(c) + PlaylistArgs(c) + ControlArgs(c, url, referer) + [url];
    assert v !in FixedArgs;
  }

  /**
   * `--playlist-start` and `--playlist-end` appear only in `range` mode,
   * and there exactly when the matching bound is positive.
   */
  lemma PlaylistBoundsOnlyInRange(c: Config, url: string, referer: string -> string)
    requires UserValuesAreNotFlags(c, url, referer)
    ensures var r := BuildAdvancedCommandArgs(c, url, referer);
      ("--playlist-start" in r <==> c.playlistMode == "range" && c.playlistStart > 0)
      && ("--playlist-end" in r <==> c.playlistMode == "range" && c.playlistEnd > 0)
  {
    TrackedOptions(c, url, referer, "--playlist-start");
    TrackedOptions(c, url, referer, "--playlist-end");
    PlaylistArgsTracked(c);
    ControlArgsTracked(c, url, referer);
  }

  /**
   * With separate video download and a listed resolution, the format
   * selector caps the height at the resolution's number.
   */
  lemma VideoHeightCap(c: Config, url: string, referer: string -> string)
    requires c.separateDownload == "video" && c.videoResolution in Resolutions
    ensures var r := BuildAdvancedCommandArgs(c, url, referer);
      |r| > 1 && r[0] == "-f"
      && r[1] == "bestvideo[height<=" + c.videoResolution[..|c.videoResolution| - 1] + "]"
  {
    var height := ExtractHeightFromResolution(c.videoResolution);
    assert c.videoResolution[..|c.videoResolution| - 1] == height;
  }

  /** The referer pair appears exactly when asked for and the URL yields a referer. */
  lemma AdvancedRefererOnlyWhenEnabled(c: Config, url: string, referer: string -> string)
    requires UserValuesAreNotFlags(c, url, referer)
    ensures "--referer" in BuildAdvancedCommandArgs(c, url, referer)
      <==> c.enableReferer && referer(url) != ""
  {
    TrackedOptions(c, url, referer, "--referer");
    PlaylistArgsTracked(c);
    ControlArgsTracked(c, url, referer);
  }
}
