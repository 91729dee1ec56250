# My_Video_Manager in Dafny

My_Video_Manager is a desktop video manager. It downloads a video from a URL with yt-dlp, together with its thumbnail and a metadata record. It lists the downloaded videos in a four-column grid of thumbnails, searches their metadata by title and uploader, and plays a video in a VLC window. `test.py` holds a second, stand-alone VLC player, `VideoPlayerApp`.

This project models the deterministic logic between the toolkit, VLC and yt-dlp calls and proves what that logic promises.

- `text.dfy` (module `Text`) defines the Python string built-ins the core uses, over `seq<char>`:
  - `str.lower()`;
  - `str.split()` with no separator;
  - the substring test `p in s`;
  - `str.endswith`;
  - `str.replace`.
- `catalog.dfy` (module `Catalog`) covers three operations:
  - `get_videos`, the extension filter on the downloads listing;
  - `search_videos`, the AND-over-title / OR-over-uploader match rule and its list-building loop;
  - `show_videos_on_ui`, which skips an entry whose thumbnail is missing and places the others with a `row`/`col` counter that wraps after column 3.

  The file system is an input. A listing is a sequence of names in `os.listdir` order. The parsed metadata files are a map from name to JSON object. Whether a thumbnail exists is a predicate on its path.
- `acquisition.dfy` (module `Acquisition`) covers `download_video` and `long_running_task`.
  - Three stores share one key scheme: thumbnails, downloads and metadata are all named by the digest of the URL.
  - The steps run in a fixed order: title probe, thumbnail, video, metadata. Each step method appends its own entry to the library's step log, so the order is a consequence of the calls.
  - Each yt-dlp call is given the outcome it had.
  - The digest is a function parameter. The lemmas that need its shape require `IsHexDigest`: 64 lower-case hex digits, as `sha256(...).hexdigest()` gives.
- `player.dfy` (module `Player`) covers the player:
  - the volume stepping of main.py's player window;
  - the `mm:ss / mm:ss` label of both players;
  - the `VideoPlayerApp` class of `test.py`, with its mute flag, mute-button label, progress slider and time label.

  Each call into VLC is appended to a command log. The player's real mute state is the parity of the mute toggles in that log.
- `wrappers.dfy` (module `Optional`) holds the `Option` type.

Python's `//` and `%` floor the quotient. With the positive divisors used here (1000, 60, 4) they agree with Dafny's Euclidean `/` and `%`, including for the -1 that VLC reports for an unknown time.

The program targets Windows, so `os.path.join` is modelled with the separator `\`.

Two behaviours of the code are easy to miss:

- **The refresh after a download is not unconditional.** The title probe (main.py:285) and the metadata extraction (main.py:340-351) are not inside a `try`. If either raises, `download_video` raises, and `long_running_task` never posts the refresh (main.py:398). `Acquisition.Library.LongRunningTask` states exactly when the refresh is posted.
- **The metadata record is written even when the video download failed.** `install_video` swallows every error (main.py:376-379), so the metadata step runs whether or not a video was stored.

## Model

| member | source | states |
|---|---|---|
| Text.SplitConcat | main.py:52 | Joining the words of `str.split()` back together gives the query with all its whitespace removed: no character is lost or reordered. |
| Text.SplitEmptyIff | main.py:52 | `str.split()` gives no words exactly when the string is empty or all whitespace. |
| Text.ContainsIff | main.py:59 | The substring test `w in text` holds exactly when `w` occurs at some index of `text`. |
| Text.ReplaceSuffix | main.py:60 | `replace` rewrites a trailing extension when no occurrence of the extension starts inside the rest of the name. |
| Text.ReplaceAfterPrefix | main.py:84 | A prefix at none of whose positions the pattern starts passes through `replace` unchanged, and the rest is replaced on its own. |
| Text.Lower | main.py:52 | `str.lower()` keeps the length, and each character is the lower-case form of the one at the same place. |
| Text.Split | main.py:52 | Every word of `str.split()` is non-empty and contains no whitespace. |
| Text.SplitWordThen | main.py:52 | Words are maximal: a run of non-whitespace followed by whitespace is taken whole as the first word, and splitting carries on after it. |
| Text.Contains | main.py:59 | The substring test `w in text` fails whenever `w` is longer than `text`. |
| Text.Replace | main.py:84 | `replace` leaves a string in which the pattern does not occur unchanged. |
| Catalog.GetVideos | main.py:70-73 | Every name returned is in the downloads listing and ends in .mp4, .avi or .mkv, and there are no more of them than there are listed names. |
| Catalog.GetVideosMember | main.py:72 | A name is returned exactly when it is listed and ends in .mp4, .avi or .mkv. |
| Catalog.GetVideosAppend | main.py:72 | The filter distributes over concatenation, so the original listing order is kept. |
| Catalog.GetVideosKeepsVideos | main.py:72 | A listing of video files only is returned whole. |
| Catalog.GetVideosIdempotent | main.py:72 | Filtering twice gives the same list as filtering once. |
| Catalog.MatchesIff | main.py:59-62 | A record matches exactly when every token occurs somewhere in the lower-cased title, or some token occurs somewhere in the lower-cased uploader. |
| Catalog.NullIsMissing | main.py:59-61 | In the corrected rule, a null title or uploader matches exactly as a missing one does, that is, as "". |
| Catalog.Matches | main.py:59-62 | With no tokens, every record matches, whatever its fields hold. |
| Catalog.MatchesAsWritten | main.py:59-62 | With no tokens the code as written answers true without raising. Whenever it does not raise, its verdict equals the corrected rule's. |
| Catalog.MatchesAsWrittenRaisesIff | main.py:59-62 | The code as written raises exactly in two cases, both with at least one token: the title is not a string, or the title test fails and the uploader is not a string. |
| Catalog.SearchVideos | main.py:50-69 | An empty query shows `get_videos()`. Any other query shows the video names of the `.json` files that match its lower-cased, split tokens, in listing order. |
| Catalog.MatchingAsWritten | main.py:55-62 | The loop as written either raises, exactly when some listed `.json` file's record raises in the match rule, or yields the same matching files as the corrected rule. |
| Catalog.SearchAsWritten | main.py:55-62 | The search as written raises exactly when some listed `.json` file's record raises in the match rule; otherwise it shows the same names as `Catalog.SearchVideos`. |
| Catalog.VideoNameOfStem | main.py:60 | A listed `stem.json` is shown as `stem.mp4` whenever no `.json` starts inside the stem; dotted stems are included. |
| Catalog.DottedStemRenamed | main.py:60 | `a.b.json` is shown as `a.b.mp4`: only the final extension is renamed. |
| Catalog.SearchStep | main.py:55-62 | Each listed name adds exactly one result if it is a `.json` file whose record matches, and none otherwise; because of the `elif`, a file never adds two. The result is the name with `.json` replaced by `.mp4`. |
| Catalog.MatchingMember | main.py:55-62 | A name is matched exactly when it is listed, ends in `.json` and its record matches; every other name is ignored. |
| Catalog.SearchMember | main.py:55-62 | A video name is in the search result exactly when some listed `.json` file matches and maps to that name. |
| Catalog.MatchingAppend | main.py:55-62 | The matches of a concatenated listing are the matches of its parts, in order. |
| Catalog.SearchAppend | main.py:55-62 | The search result of a concatenated listing is the results of its parts, in order. |
| Catalog.NoTokensMatchAll | main.py:59 | With no tokens, every `.json` file matches, whatever its record holds. |
| Catalog.BlankQueryListsAllMetadata | main.py:51-52 | A non-empty, all-whitespace query lists the video name of every `.json` file. |
| Catalog.ShowVideos | main.py:75-121 | The `k`-th name whose thumbnail exists gets tile `k`, at row `k div 4`, column `k mod 4`, with its download and thumbnail paths. Skipped names do not advance the counter. |
| Catalog.RefreshView | main.py:389-393 | The refreshed grid is that of `get_videos()`: every tile is a listed video file whose thumbnail exists. |
| Catalog.ThumbnailPathOf | main.py:83-84 | The thumbnail path is the joined path `thumbnails\name` with `.mp4` rewritten, and the rewrite leaves the directory part untouched. |
| Catalog.DisplayedMember | main.py:86 | A name gets a tile exactly when it is given and its thumbnail path exists. |
| Catalog.ColumnsBounded | main.py:116-119 | Every tile's column stays in 0..3, and `row * 4 + col` is its place among the displayed names. |
| Catalog.GridPosition | main.py:116-119 | The counter position `row * 4 + col` with `col < 4` decodes back to `(row, col)`. |
| Catalog.ThumbnailOfMp4 | main.py:83-84 | For `stem.mp4` with no dot in the stem, the thumbnail path is `thumbnails\stem.webp`: only the file name is rewritten. |
| Catalog.ThumbnailOfOther | main.py:83-84 | A name that does not contain `.mp4`, such as an `.avi` or `.mkv` file, is looked up under its own name in the thumbnail store. |
| Catalog.VideoNameOfKeyed | main.py:60 | `stem.json` is a metadata name, and it is searched into `stem.mp4`. |
| Acquisition.WrittenRecord | main.py:342-348 | The record has exactly the keys title, id, original_url, duration and uploader. `title`, `id` and `uploader` are the info's strings, or null when missing; `duration` is its number, or null. `original_url` is always a string: the info's own non-empty value, or else the requested URL. |
| Acquisition.WrittenRecordMatches | main.py:342-348 | A written record matches exactly when the tokens are all in the info's title, or some token is in its uploader; a missing field counts as "". |
| Acquisition.NullUploaderRaises | main.py:347 | An info with a title but no uploader yields a record on which the query "dog" raises in the code as written. The corrected rule simply does not match it. |
| Acquisition.KeyedNamesJoin | main.py:298-357 | For a hex key, `key.json` is a metadata name searched into `key.mp4`, which is a video file. That file is played from `downloads\key.mp4`, and its thumbnail is looked up at `thumbnails\key.webp`. |
| Acquisition.SearchFindsStored | main.py:350 | Once a matching record is stored as `key.json`, searching that listing yields exactly `[key.mp4]`. |
| Acquisition.Library.ProbeTitle | main.py:275-285 | Appends the title step to the log, and raises exactly when the extraction fails. |
| Acquisition.Library.FetchThumbnail | main.py:288-332 | Appends the thumbnail step to the log. The thumbnail store gains `key.ext` when yt-dlp wrote one, and nothing otherwise. The result is true exactly when no exception was caught and a .webp, .jpg or .png starting with the key is in the store. |
| Acquisition.Library.InstallVideo | main.py:353-379 | Appends the video step to the log. The download store gains `key.ext` when yt-dlp stored a video. Every failure is swallowed, so the call always returns. |
| Acquisition.Library.WriteMetadata | main.py:334-351 | Appends the metadata step to the log. On a successful extraction, the metadata store maps `key.json` to the written record. A failed extraction raises and writes nothing. |
| Acquisition.Library.DownloadVideo | main.py:271-388 | The log grows by the title step alone when the probe fails, and otherwise by the title, thumbnail, video and metadata steps in that order; every step but the probe uses the same key. A failed video does not stop the metadata step. The call raises exactly when the probe or the metadata extraction fails. The method states all three stores afterwards. |
| Acquisition.Library.LongRunningTask | main.py:394-398 | The log and the stores change as `download_video` changes them. The refresh is posted exactly when the download did not raise. |
| Acquisition.DownloadThenSearch | main.py:381-384 | A full download into an empty library, then a query whose tokens are all in the title. The log holds the four steps in order, the search shows exactly `[key.mp4]`, that video is stored, and its tile's thumbnail `key.webp` is stored. |
| Player.VolumeUp | main.py:190-195 | The Up key gives `min(v + 10, 200)`: never above 200 nor above `v + 10`, and equal to one of them. |
| Player.VolumeDown | main.py:196-201 | The Down key gives `max(v - 10, 0)`: never below 0 nor below `v - 10`, and equal to one of them. |
| Player.VolumeStaysInRange | main.py:193-199 | From any volume in 0..200, both steps stay in 0..200. |
| Player.VolumeFixedAtBounds | main.py:193-199 | Up does nothing at 200, and Down does nothing at 0. |
| Player.VolumeStepsInverse | main.py:193-199 | Down undoes Up from any volume in 0..190, and Up undoes Down from any volume in 10..200. |
| Player.MinSec | main.py:212-213 | `divmod(ms // 1000, 60)` gives seconds in 0..59, and `minutes * 60 + seconds == ms div 1000`. |
| Player.MinSecUnique | main.py:212-213 | That split is the only one with seconds below 60. |
| Player.DigitsRoundTrip | main.py:214 | The decimal digits of a number read back as the number. |
| Player.Pad2RoundTrip | main.py:214 | `f"{n:02}"` of a non-negative number is at least two digits that read back as `n`, and exactly two below 100. |
| Player.ClockRoundTrip | main.py:214 | A rendered `mm:ss` decodes back: digits, ':', two digits below 60, together worth `ms div 1000` seconds. |
| Player.StartShowsReset | main.py:216 | Under one second of both time and length, the rendered label is `00:00 / 00:00`. |
| Player.PlaybackLabel | main.py:203-216 | The label is updated exactly when the player is playing. It shows `00:00 / 00:00` when the length is not positive, and the computed `mm:ss / mm:ss` otherwise. |
| Player.ProgressLabel | test.py:164-176 | When either time is -1, the label is `00:00 / 00:00`; otherwise it is the computed `mm:ss / mm:ss`. |
| Player.LabelsAgree | test.py:164-176 | For a positive length and a known time, test.py's label equals main.py's. |
| Player.ZeroLengthLabelsAgree | main.py:211-216 | For a zero length and a time under one second, main.py's guard and test.py's computation give the same reset label. |
| Player.ClockPastFirstSecond | main.py:212-214 | From one second on, the clock no longer reads `00:00`. |
| Player.ZeroLengthLabelsDisagree | test.py:164-176 | For a zero length and a time of one second or more, test.py shows the elapsed time while main.py shows the reset label, so the two players disagree. |
| Player.Trunc | test.py:124 | `int(value)` truncates toward zero. |
| Player.VideoPlayerApp.constructor | test.py:49-63 | The app starts unmuted, labelled "Mute", with no media, the slider at 0 and the reset label. The only command sent is volume 70, and the flag agrees with the player. |
| Player.VideoPlayerApp.PlayVideo | test.py:100-106 | Sends Play exactly when a media is loaded. |
| Player.VideoPlayerApp.PauseVideo | test.py:108-112 | Sends Pause exactly when a media is loaded. |
| Player.VideoPlayerApp.StopVideo | test.py:114-120 | With a media loaded, sends Stop and resets the slider to 0 and the label; with none, changes nothing. The player's mute state is unchanged. |
| Player.VideoPlayerApp.SetPositionFromSlider | test.py:142-148 | With a media loaded, sends the position `value / 1000`; with none, changes nothing. |
| Player.VideoPlayerApp.OpenVideo | test.py:81-98 | A chosen file becomes the media and is played, and the slider and label are reset. A cancelled dialog changes nothing. Agreement between the flag and the player is unchanged. |
| Player.VideoPlayerApp.SetVolumeFromSlider | test.py:122-132 | The volume is always sent. Muted with a positive value: unmuted, one toggle, label "Mute". Unmuted with 0: the flag is set and the label reads "Unmute" with no toggle, so the flag and the player now disagree. Otherwise the flag and the label are unchanged. |
| Player.VideoPlayerApp.ToggleMuteButton | test.py:134-140 | With a media loaded, flips the flag and toggles the player once; with none, changes nothing. The label reads "Unmute" exactly when muted. |
| Player.VideoPlayerApp.UpdateProgressBar | test.py:150-180 | With a media loaded, the slider follows the position unless it is -1, and the label is the computed time label. A finished video is stopped and reset. With no media, nothing changes. |
| Player.MuteDriftScenario | test.py:122-139 | This sequence ends with the flag clear, the button reading "Mute" and the volume at 50, yet the player muted: open a file, drag the volume to 0, press Mute, drag the volume to 50. |

## Left out

- Widgets, layout, key bindings and scrolling (main.py:17-33, 219-264; test.py:26-64) are user-interface code.
- The text of the metadata caption under each tile (main.py:100-114) and the PIL resizing (main.py:88-93) are widget content.
- Catalog.ShowVideos: does not model the error path of a tile. An unreadable thumbnail image (`Image.open`, main.py:88) or a malformed metadata file (`json.load`, main.py:103) raises out of `show_videos_on_ui`, because only `FileNotFoundError` is caught (main.py:111), and the grid then ends at that tile. The model always completes the grid.
- VLC window handles, `on_video_frame_configure`, `_stop_and_close_player`, `on_closing` and resource release are calls into VLC.
- The play/pause toggle and full-screen switch of main.py's player window (main.py:177-189) are also VLC and window calls.
- The mouse-driven sliders of main.py's player window (main.py:235, 246) are left out for the same reason.
- yt-dlp extraction and download are network I/O. Each call is replaced by the outcome it had: the file written, nothing, or an exception.
- `get_video_title_yt` only prints the title. Only whether it raised is kept.
- `get_video_thumbnail` (main.py:125-163) runs ffmpeg as a subprocess, and its default output name calls `hexdromd`, which `hashlib` does not provide (main.py:133). Nothing in the core calls it.
- Threads, `time.sleep` and the `app.after` hand-back (main.py:394-403) are concurrency and timing. Only whether the refresh is posted is modelled.
- SHA-256 itself is not modelled. The digest is any function parameter; the lemmas that need its shape (`KeyedNamesJoin`, `SearchFindsStored`, `DownloadThenSearch`) assume `IsHexDigest`.
- `os.makedirs` is not modelled; the stores are assumed to exist.
- The order of `os.listdir` is an input sequence. In `Acquisition.Library` the directories are sets, because no member there depends on their order.
- Reading files and parsing JSON are not modelled: the records are handed over already parsed.
- Catalog.SearchVideos: requires every listed `.json` name to have a parsed record, because the failure of a file that cannot be opened or parsed is not modelled; in the source that failure raises out of the search.
- Catalog.SearchVideos: follows the corrected match rule, in which a null or numeric title or uploader counts as "", where the source raises `AttributeError` on `.lower()`. The search as written, which raises on such a record, is `Catalog.SearchAsWritten`.
- JSON floats and booleans are left out: a record value is a string, an integer or null.
- Playback positions are `real`s, not IEEE doubles. The ±0.05 seeking keys of main.py (main.py:259-260) are left out as floating-point code.
- `Text.Lower`: does not model Unicode case mapping, because only the ASCII letters are lower-cased; Python's `str.lower` also maps non-ASCII letters.
- `Player.VideoPlayerApp.OpenVideo`: does not model the file dialog; the chosen path, or "" for a cancelled dialog, is a parameter.
- Atomic write-then-rename, duplicate detection and in-flight guards are left out because they do not exist in the source.

## Findings

| source | as written | input that shows it | evidently intended | confidence | as-written member | corrected member |
|---|---|---|---|---|---|---|
| main.py:347 | `get_video_metadata` stores a missing uploader (or title) as JSON null. The match rule of `search_videos` (main.py:59-61) calls `.lower()` on whatever `metadata.get` returns, so a null field raises `AttributeError` and the whole search fails. | A record written for an info with title "cat" and no uploader, searched with the query "dog": the title test fails, then `None.lower()` raises. | A null field counts as "", as a missing field does, so the record simply does not match. | not executed | Catalog.MatchesAsWritten, Acquisition.NullUploaderRaises | Catalog.Matches, Catalog.NullIsMissing |
