# VideoDown-Go server core, in Dafny

VideoDown-Go is a small web server that runs yt-dlp for the browser. It
offers download tasks, WebSocket log streaming, a list of the downloaded
videos, and removal of partial files when a download is stopped. This
project models the sequential core of its `main.go` and proves properties
of it:

- `extract.dfy` (`Extract`, with the Go `strings`/`unicode`/`fmt` helpers
  in `text.dfy`): `extractFilename`. This recognises the name of the file
  yt-dlp writes in one output line. It checks four phrasings in a fixed
  order. The three regular expressions are written out as the
  leftmost-first backtracking search Go's `regexp` performs: lazy groups
  take the shortest end, greedy runs give back one character at a time,
  and `.` excludes the line feed.
- `command_args.dfy` (`CommandArgs`): the per-platform preset argument
  lists, the list built from the advanced options, and the resolution to
  height mapping. The referer a URL yields is a function parameter.
- `registry.dfy` (`Registry.Server`): a class over three maps.
  - `activeTasks` maps a task id to its command (its process, and whether
    that process was started) and `taskFiles` maps it to
    its file name. `clients` maps a subscriber connection to its bound task
    id.
  - It covers subscriber connect/register/disconnect, fan-out to
    subscribers, handleRun's checks and registration, recording the file
    name from output lines, natural completion, and handleStop.
  - Write, kill, spawn, stat and remove outcomes are inputs.
- `cleanup.dfy` (`Cleanup`): handleStop's selection and removal loop for
  partial files.
- `videos.dfy` (`Videos`): handleVideoList's filter loop and its nested
  exchange sort, which works in place on an array.
- `listing.dfy` (`Listing`) describes directory entries. `wrappers.dfy`
  holds `Option`.

### Notes on the regular expressions

- In `\[download\]\s+(.+?)\s+has already been downloaded`, the first `\s+`
  may give back a character. On a line with three spaces before the phrase,
  such as `[download]   has already been downloaded`, the match then has a
  one-space group (two spaces are too few: the two `\s+` and the group
  need three white-space characters between them). `extractFilename` then returns `""` and does not try
  the later phrasings. The model does the same: `Extract.LazyGroupFrom`
  tries group starts in backtracking order.
- The destination phrasing wins over all others, whatever else the line
  holds.

## Model

| member | source | states |
|---|---|---|
| Text.IndexFrom | main.go:120-121 | the first occurrence of a pattern at or after an index, or None exactly when it occurs nowhere there |
| Text.TrimSpace | main.go:123 | the result is the input with its leading and trailing Unicode white space removed: it is a slice of the input, its ends are not space, and everything cut off is space |
| Text.TrimSpaceOf | main.go:123 | trimming any all-space margin around a core that starts and ends with non-space gives back that core, and an all-space string trims to the empty string |
| Text.NatToDecimalRoundTrip | main.go:1234 | reading the `%d` digits of a number back gives the number |
| Text.IntToDecimal | main.go:1244 | `%d` of an int starts with `-` exactly for negative values and is otherwise the digits of its magnitude |
| Text.SkipReSpace | main.go:130 | the end of the maximal run of RE2 `\s` characters from an index |
| Extract.MatchAt | main.go:130-150 | an index yields group bounds exactly when a match of the expression starts there, and the bounds are those of such a match: for the already-downloaded one, `[download]`, white space, a one-line group, then white space and the phrase; for the multi-item one, `[download]`, white space, `Downloading`, white space, one-line text up to a colon, white space, and a group running to the end of the line; for the merge one, the opening, a one-line group and a closing quote; among the matches at that index, the already-downloaded one picks the latest group start and, from it, the earliest end, and the merge one's group holds no quote after its first character (it stops at the first closing quote) |
| Extract.Leftmost | main.go:131 | the leftmost index at which a match starts; no match starts earlier, and None means none starts anywhere |
| Extract.LazyEnd | main.go:130 | a lazy group `(.+?)` ends at the first index where the rest of the expression matches, and never crosses a line feed |
| Extract.DestinationIsExtracted | main.go:120-126 | a line containing `Destination:` yields the trimmed text between the first marker and the next one, or the end of the line, whatever else it holds |
| Extract.DestinationRoundTrip | main.go:120-126 | `Destination: NAME` yields NAME for every NAME without colons and with non-space ends |
| Extract.AlreadyDownloadedRoundTrip | main.go:129-135 | `[download] NAME has already been downloaded` yields NAME for every one-line NAME with non-space ends, inner spaces and brackets included, unless a white-space-led copy of the phrase sits inside it or the line holds a destination marker |
| Extract.AlreadyDownloadedColonFree | main.go:118-135 | for a colon-free NAME no destination marker can form, so the round trip needs only the conditions on NAME |
| Extract.DownloadingRoundTrip | main.go:138-144 | `[download] Downloading ITEM: NAME` yields NAME for every ITEM without colons or line feeds and every one-line NAME with non-space ends, when the line holds no earlier phrasing |
| Extract.MergingRoundTrip | main.go:147-153 | `Merging formats into "NAME"` yields NAME for every one-line NAME without quotes and with non-space ends, inner spaces and brackets included, when the line holds no destination marker and not the keywords of an earlier phrasing |
| Extract.SubmatchAtStart | main.go:131-133 | a match that starts the line is the one whose group FindStringSubmatch returns |
| Extract.DestinationExample | main.go:120-126 | `Destination: movie.mp4` yields `movie.mp4` |
| Extract.AlreadyDownloadedExample | main.go:129-135 | `[download] clip.mp4 has already been downloaded` yields `clip.mp4` |
| Extract.AlreadyDownloadedTitleExample | main.go:129-135 | `[download] My Clip [abc].mp4 has already been downloaded` yields `My Clip [abc].mp4` |
| Extract.MergingExample | main.go:147-153 | `Merging formats into "final.mp4"` yields `final.mp4` |
| Extract.MergingTitleExample | main.go:147-153 | `Merging formats into "My Clip [abc].mp4"` yields `My Clip [abc].mp4` |
| Extract.ProgressLineExample | main.go:118-156 | `[download]  50.0% of 10MiB` matches no phrasing and yields `""` |
| CommandArgs.BuildCommandArgs | main.go:1087-1157 | every preset ends with `--newline` then the URL; a `--referer` appears before them exactly for `generic1`/`generic2` with a non-empty referer, and is followed by that referer; an unknown platform gives just `--newline` and the URL |
| CommandArgs.ExtractHeightFromResolution | main.go:1269-1284 | a non-empty height exactly for the five listed resolutions; it is all digits, and the resolution is the height followed by `p` |
| CommandArgs.FormatArgs | main.go:1167-1195 | a `-f` block exactly when a separate download or a known download type selects a format; a separate video download gives `bestvideo`, capped at the height of a listed resolution, merged to mp4, and a separate audio download gives `bestaudio`, whatever the download type; `-x --audio-format F` appears exactly for a separate audio download with F neither empty nor `default`; otherwise `bestQuality`, `bestAudio` and `bestMerge` give `bestvideo`, `bestaudio` and `bestvideo+bestaudio` |
| CommandArgs.BuildAdvancedCommandArgs | main.go:1160-1266 | the URL is last; `--cookies-from-browser firefox --newline` is present at index 0, 2, 4 or 5, preceded by a `-f` block exactly when the options select a format |
| CommandArgs.RequestArgs | main.go:477-483 | the argument list of a request ends with its URL, and with `--newline` before it when advanced options are off |
| CommandArgs.PlaylistBoundsOnlyInRange | main.go:1227-1240 | `--playlist-start`/`--playlist-end` appear exactly in `range` mode with a positive bound, when user-supplied values do not read as long options |
| CommandArgs.VideoHeightCap | main.go:1169-1173 | a separate video download at a listed resolution selects `bestvideo[height<=H]` with H the resolution's number |
| CommandArgs.AdvancedRefererOnlyWhenEnabled | main.go:1255-1260 | `--referer` appears exactly when enabled and the URL yields a referer, when user-supplied values do not read as long options |
| CommandArgs.DecimalIsNotFlag | main.go:1244 | a `%d`-formatted number never reads as a long option |
| Cleanup.PartialFiles | main.go:935-946 | the selected names all start with the base name and contain `.mp4.` |
| Cleanup.PartialFilesMembers | main.go:935-946 | a name is selected exactly when some non-directory entry with that name starts with the base name and contains `.mp4.` |
| Cleanup.Removed | main.go:951-955 | only names that could be stat'ed and removed are counted as removed |
| Cleanup.RemovedMembers | main.go:951-955 | a name is removed exactly when it was selected and could be stat'ed and removed |
| Cleanup.RemovePartialFiles | main.go:927-960 | the loop removes exactly the selected files that can be stat'ed and removed, and `deletedCount` is the number of removals |
| Cleanup.ExtraSuffixSelected | main.go:943-946 | any file extending an `.mp4` download's name by a further `.` suffix is selected |
| Cleanup.FinishedFileKept | main.go:943-946 | the finished file itself is never selected when its own name has no `.mp4.` |
| Cleanup.CleanupExample | main.go:935-956 | for base name `video.mp4` and files `video.mp4`, `video.mp4.part`, `video.mp4.temp` and `video2.mp4`, exactly the `.part` and `.temp` files are selected |
| Videos.Mp4Suffix | main.go:290 | a name ends in `.mp4` once lowered exactly when its last four characters are `.`, `m`/`M`, `p`/`P` and `4` |
| Videos.VideoList | main.go:283-301 | the listed videos, at most one per entry, all with video names |
| Videos.VideoListComplete | main.go:283-301 | every non-directory entry with a video name and readable metadata is in the list |
| Videos.VideoListSound | main.go:283-301 | everything in the list comes from such an entry |
| Videos.CollectVideos | main.go:282-301 | the collecting loop produces exactly the listed videos, in listing order |
| Videos.ExchangeSort | main.go:305-324 | the nested swap loops leave the array non-increasing by the key and a permutation of what it held |
| Videos.HandleVideoList | main.go:262-324 | the result is a permutation of the listed videos, newest first for `time` or no key, largest first for `size`, and in listing order for any other key |
| Registry.StopRemovals | main.go:899-966 | a stop removes nothing without a file name or a readable directory, and only files that could be stat'ed and removed |
| Registry.StopRemovalsMembers | main.go:933-964 | with a file name and a readable directory, a file is removed exactly when a non-directory entry of that name starts with the base name, contains `.mp4.`, and could be stat'ed and removed |
| Registry.Server.Connect | main.go:222-227 | a new connection is added, bound to no task, and nothing else changes |
| Registry.Server.ReceiveMessage | main.go:243-250 | only a `register` message with a non-empty task id from a connected subscriber rebinds it; anything else changes nothing |
| Registry.Server.Disconnect | main.go:228-232 | the closed connection is removed, and nothing else changes |
| Registry.Server.Deliver | main.go:398-410 | exactly the targeted subscribers with successful writes are delivered to; exactly the targeted subscribers whose write fails are removed; the count equals the deliveries |
| Registry.Server.SendMessageToTask | main.go:388-413 | only subscribers bound to the task id receive the message; failed ones are removed and no one else; `sentCount` is the number of successful writes |
| Registry.Server.BroadcastMessage | main.go:416-436 | every subscriber is written to; exactly those whose write fails are removed |
| Registry.Server.CheckRun | main.go:449-465 | a missing platform, URL or task id is a bad request; otherwise a running task id is a conflict, and anything else is accepted; no map changes |
| Registry.Server.StartProcess | main.go:505-519 | the command is recorded under the task id, replacing any entry, and stays recorded, without a process, when it fails to start |
| Registry.Server.RecordOutputLine | main.go:537-543 | a line naming a file records that name for the task; any other line changes nothing |
| Registry.Server.FinishTask | main.go:557-563 | after completion the task id is in neither map; finishing an absent id changes nothing |
| Registry.Server.Stop | main.go:853-989 | an empty id, an unknown id, a command that was never started (the kill panics on its nil process), or a failed kill leaves every map unchanged; otherwise the task's partial files are removed and counted, and the id leaves both maps |
| Registry.Server.TryStart | main.go:459-507 | check and registration in one step: accepted exactly when the fields are present and the id is not running, and only then registered |
| Registry.Server.StartProcessReleasing | main.go:505-519 | a command that fails to start is unregistered again |
| Registry.DuplicateStartAsWritten | main.go:459-507 | two requests for one task id are both accepted, and the registry keeps only the second process |
| Registry.DuplicateStartRefused | main.go:459-465 | with check and registration in one step, the second request for a running id is refused |
| Registry.SpawnFailureAsWritten | main.go:505-519 | after a failed start, a new request with the same task id is refused as a duplicate, and a stop of it panics on the nil process (main.go:888) |
| Registry.SpawnFailureReleased | main.go:505-519 | when a failed start unregisters the command, the same task id is accepted again and a stop finds no task |

## Left out

- HTTP request decoding, status codes and response bodies, static files,
  templates, CORS headers: the models return the outcome (`RunCheck`,
  `StopOutcome`) in place of the status.
- The panic of a stop whose command was never started: net/http's
  recovery and the dropped response are not modelled; the outcome is
  `NilProcess` and nothing changes.
- Goroutines, mutexes and the wait group: every operation is one
  sequential step. handleRun's duplicate check and its registration are
  separate steps (`CheckRun`, `StartProcess`), as in the server.
- The log and progress messages that handleRun and handleStop send, and
  their wording. Each send is a `SendMessageToTask` and may drop
  subscribers whose write fails; the stop and run models do not repeat
  that effect.
- Process spawning, waiting and killing, `time.Sleep`, `os.Getwd`,
  `os.ReadDir`, `os.Stat` and `os.Remove`: these are flags, functions and
  listings given as inputs.
- `extractReferer` (URL parsing) and `filepath.Join`/`Base`/`Dir`: these
  are function parameters (`referer`, `baseOf`), and the directory listing
  is given directly.
- GBK to UTF-8 decoding of output lines: lines reach `RecordOutputLine`
  already decoded.
- Rendering the full command line for the log.
- `bufio.Scanner`'s 64 KiB line limit.
- Go's 64-bit `int` range for the playlist bounds and thread count: they
  come from JSON, which refuses values outside it, so the model uses
  unbounded integers.
- Videos.ToLower: only ASCII capitals are lowered. No other character
  lowers to `.`, `m`, `p` or `4` under Go's full Unicode lowering either,
  so the `.mp4` suffix test that `Videos.Mp4Suffix` characterises gives
  the same answer.
- Time stamps: `CreatedAt.Before` is a comparison of integer nanosecond
  times.
- The self-update flow, thumbnails, rename/delete handlers, configuration
  save/load and app information: network and file I/O outside the core.
- The update flow's kill-all over the task map.
- Extract.Submatch, Extract.ExtractFilename, Extract.RegexFilename: these
  carry no contract of their own. What they yield is stated by the
  round-trip and example lemmas above.
- Extract.MatchAt: for the multi-item expression it states that the bounds
  belong to a match at the index, not which of several such matches the
  backtracking picks (the group always runs to the end of its line).
- Extract.AlreadyDownloadedRoundTrip: it is not stated for names holding a
  line feed, which the lazy group cannot cross.
- Extract.MergingRoundTrip: it excludes every line that holds `[download]`
  together with `has already been downloaded` or `Downloading`, even where
  the earlier expression then fails to match and the merge phrasing would
  still be reached. It is not stated for names holding a line feed.
- Extract.DownloadingRoundTrip: it requires that the line holds no
  `Destination:` marker and no `has already been downloaded` phrase, which
  would take priority. It is not stated for items with a leading space.
- CommandArgs.PlaylistBoundsOnlyInRange,
  CommandArgs.AdvancedRefererOnlyWhenEnabled: they are stated for
  user-supplied values (audio format, rate limit, URL, referer) that do
  not themselves start with `--`, since such a value could equal the
  option.

## Findings

| source | as written | input that shows it | evidently intended | confidence | as-written member | corrected member |
|---|---|---|---|---|---|---|
| main.go:459-507 | the duplicate-id check releases the lock before the process is registered, and registration overwrites any entry | two start requests for task id `t` that both pass the check before either registers | a task id is refused while a task with that id is starting or running | medium (needs two requests to interleave), not executed | Registry.DuplicateStartAsWritten | Registry.DuplicateStartRefused |
| main.go:505-519 | when the output pipe or the process start fails, the goroutine returns with the process still in `activeTasks` | a start whose spawn fails, followed by a new request with the same task id, or by a stop of that id (which panics at main.go:888) | a failed start frees its task id | high, not executed | Registry.SpawnFailureAsWritten | Registry.SpawnFailureReleased |

In the first row, the as-written member runs `Registry.Server.CheckRun`
and `Registry.Server.StartProcess` as two steps. The corrected member runs
`Registry.Server.TryStart`, which does both in one step. In the second
row, the as-written member runs `Registry.Server.StartProcess` and the
corrected member runs `Registry.Server.StartProcessReleasing`. A task stuck
this way is not released by completion either, since there is no process
to wait for, and stopping it panics on the command's nil process before
anything is removed (`NilProcess`).
