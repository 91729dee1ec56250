/**
 * The catalog side of `VideoManager` (main.py): listing the downloaded videos,
 * searching the metadata records, and laying the entries that have a thumbnail
 * out in a four-column grid.
 *
 * The file system is an input: a directory listing is a `seq<string>` of names
 * in the order `os.listdir` gives them, the parsed metadata files are a map
 * from file name to record, and whether a thumbnail file exists is a predicate
 * on its path.
 */
module Catalog {
  import opened Text

  /** A JSON value as `json.load` hands it back, as far as the core looks at it. */
  datatype Json = Null | Str(s: string) | Num(n: int)

  /** A parsed metadata file: a JSON object. */
  type Record = map<string, Json>

  /** `os.path.join`'s separator; the program targets Windows. */
  const Sep: char := '\\'

  function Join(dir: string, name: string): string {
    dir + [Sep] + name
  }

  // ---------------------------------------------------------------------------
  // get_videos

  predicate IsVideoFile(f: string) {
    EndsWith(f, ".mp4") || EndsWith(f, ".avi") || EndsWith(f, ".mkv")
  }

  /** `get_videos`: the names of the downloads listing that end in .mp4, .avi or .mkv. */
  function GetVideos(files: seq<string>): (videos: seq<string>)
    ensures |videos| <= |files|
    ensures forall k :: 0 <= k < |videos| ==> IsVideoFile(videos[k]) && videos[k] in files
  {
    if files == [] then []
    else (if IsVideoFile(files[0]) then [files[0]] else []) + GetVideos(files[1..])
  }

  /** The filter keeps the listing's order: it distributes over concatenation. */
  lemma {:induction false} GetVideosAppend(a: seq<string>, b: seq<string>)
    ensures GetVideos(a + b) == GetVideos(a) + GetVideos(b)
  {
    if a == [] {
      assert a + b == b;
    } else {
      assert (a + b)[0] == a[0] && (a + b)[1..] == a[1..] + b;
      GetVideosAppend(a[1..], b);
    }
  }

  /** A name is listed exactly when it is in the directory and has a video extension. */
  lemma {:induction false} GetVideosMember(files: seq<string>, f: string)
    ensures f in GetVideos(files) <==> f in files && IsVideoFile(f)
  {
    if files != [] {
      GetVideosMember(files[1..], f);
      assert files == [files[0]] + files[1..];
    }
  }

  /** A listing of video files only is returned whole; hence the filter is idempotent. */
  lemma {:induction false} GetVideosKeepsVideos(files: seq<string>)
    requires forall k :: 0 <= k < |files| ==> IsVideoFile(files[k])
    ensures GetVideos(files) == files
  {
    if files != [] {
      GetVideosKeepsVideos(files[1..]);
      assert [files[0]] + files[1..] == files;
    }
  }

  lemma GetVideosIdempotent(files: seq<string>)
    ensures GetVideos(GetVideos(files)) == GetVideos(files)
  {
    GetVideosKeepsVideos(GetVideos(files));
  }

  // ---------------------------------------------------------------------------
  // The match rule of search_videos

  /** `metadata.get(key, default)`. */
  function Get(rec: Record, key: string, default: string): Json {
    if key in rec then rec[key] else Str(default)
  }

  /**
   * The searchable text of a field: the lower-cased string, with a missing
   * field, a null and a number all counting as "" (the intended reading; see
   * `MatchesAsWritten` for what the code does with a null).
   */
  function FieldText(rec: Record, key: string): string {
    match Get(rec, key, "")
    case Str(s) => Lower(s)
    case _ => ""
  }

  /** `all(word in text for word in tokens)`. */
  predicate AllIn(tokens: seq<string>, text: string) {
    forall w :: w in tokens ==> Contains(text, w)
  }

  /** `any(word in text for word in tokens)`. */
  predicate AnyIn(tokens: seq<string>, text: string) {
    exists w :: w in tokens && Contains(text, w)
  }

  /**
   * A record matches when every token is in its title or some token is in its
   * uploader; with no tokens `all` is vacuously true, so every record matches.
   */
  predicate Matches(tokens: seq<string>, rec: Record)
    ensures tokens == [] ==> Matches(tokens, rec)
  {
    AllIn(tokens, FieldText(rec, "title")) || AnyIn(tokens, FieldText(rec, "uploader"))
  }

  /**
   * The match rule in terms of occurrences: every token occurs somewhere in
   * the lower-cased title, or some token occurs somewhere in the lower-cased
   * uploader.
   */
  lemma MatchesIff(tokens: seq<string>, rec: Record)
    ensures Matches(tokens, rec) <==>
              (forall w :: w in tokens ==> exists i :: OccursAt(FieldText(rec, "title"), w, i)) ||
              (exists w :: w in tokens && exists i :: OccursAt(FieldText(rec, "uploader"), w, i))
  {
    var title, uploader := FieldText(rec, "title"), FieldText(rec, "uploader");
    forall w | w in tokens
      ensures Contains(title, w) <==> exists i :: OccursAt(title, w, i)
      ensures Contains(uploader, w) <==> exists i :: OccursAt(uploader, w, i)
    {
      ContainsIff(title, w);
      ContainsIff(uploader, w);
    }
  }

  /** Evaluation of a Python expression that may raise `AttributeError`. */
  datatype Outcome<+T> = Ok(value: T) | AttributeError

  /** `value.lower()`: only a string has that method. */
  function LowerAttr(v: Json): Outcome<string> {
    if v.Str? then Ok(Lower(v.s)) else AttributeError
  }

  /**
   * The match rule as written: `.lower()` is applied to whatever `get`
   * returns, once per token, so with at least one token a null (or numeric)
   * title raises, and a null uploader raises when the title test failed.
   * With no tokens neither generator evaluates its element, and `all` is true.
   */
  function MatchesAsWritten(tokens: seq<string>, rec: Record): (r: Outcome<bool>)
    ensures tokens == [] ==> r == Ok(true)
    ensures r.Ok? ==> r.value == Matches(tokens, rec)
  {
    if tokens == [] then Ok(true)
    else
      match LowerAttr(Get(rec, "title", ""))
      case AttributeError => AttributeError
      case Ok(title) =>
        if AllIn(tokens, title) then Ok(true)
        else
          match LowerAttr(Get(rec, "uploader", ""))
          case AttributeError => AttributeError
          case Ok(uploader) => Ok(AnyIn(tokens, uploader))
  }

  predicate IsTextField(rec: Record, key: string) {
    Get(rec, key, "").Str?
  }

  /** Exactly when the code as written raises: a non-text field that the evaluation reaches. */
  lemma MatchesAsWrittenRaisesIff(tokens: seq<string>, rec: Record)
    ensures MatchesAsWritten(tokens, rec) == AttributeError <==>
              tokens != [] &&
              (!IsTextField(rec, "title") ||
               (!AllIn(tokens, FieldText(rec, "title")) && !IsTextField(rec, "uploader")))
  {
  }

  /** In the intended rule a null field is the same as a missing one. */
  lemma NullIsMissing(tokens: seq<string>, rec: Record, key: string)
    requires key == "title" || key == "uploader"
    ensures Matches(tokens, rec[key := Null]) == Matches(tokens, rec - {key})
  {
    var withNull, without := rec[key := Null], rec - {key};
    assert FieldText(withNull, key) == "" == FieldText(without, key);
    assert key == "title" ==> FieldText(withNull, "uploader") == FieldText(without, "uploader");
    assert key == "uploader" ==> FieldText(withNull, "title") == FieldText(without, "title");
  }

  // ---------------------------------------------------------------------------
  // search_videos

  predicate IsMetadataFile(f: string) {
    EndsWith(f, ".json")
  }

  /** `metadata_file.replace('.json', '.mp4')`; a name without `.json` is kept as it is. */
  function VideoNameOf(metadataFile: string): (name: string)
    ensures !Contains(metadataFile, ".json") ==> name == metadataFile
  {
    Replace(metadataFile, ".json", ".mp4")
  }

  /** Every .json name of the listing has been read and parsed. */
  predicate Readable(listing: seq<string>, records: map<string, Record>) {
    forall f :: f in listing && IsMetadataFile(f) ==> f in records
  }

  lemma ReadablePrefix(listing: seq<string>, n: nat, records: map<string, Record>)
    requires Readable(listing, records) && n <= |listing|
    ensures Readable(listing[..n], records)
  {
    forall f | f in listing[..n]
      ensures f in listing
    {
      var k :| 0 <= k < n && listing[..n][k] == f;
      assert listing[k] == f;
    }
  }

  /** What one listed name contributes: itself when it is a .json file whose record matches. */
  function Hit(tokens: seq<string>, f: string, records: map<string, Record>): seq<string>
    requires IsMetadataFile(f) ==> f in records
  {
    if IsMetadataFile(f) && Matches(tokens, records[f]) then [f] else []
  }

  /** The .json names of a listing whose record matches the tokens, in listing order. */
  function Matching(tokens: seq<string>, listing: seq<string>, records: map<string, Record>): seq<string>
    requires Readable(listing, records)
  {
    if listing == [] then []
    else
      var n := |listing| - 1;
      ReadablePrefix(listing, n, records);
      Matching(tokens, listing[..n], records) + Hit(tokens, listing[n], records)
  }

  /** The video names `search_videos` derives from a list of .json names. */
  function VideoNames(metadataFiles: seq<string>): (names: seq<string>)
    ensures |names| == |metadataFiles|
    ensures forall i :: 0 <= i < |names| ==> names[i] == VideoNameOf(metadataFiles[i])
  {
    seq(|metadataFiles|, i requires 0 <= i < |metadataFiles| => VideoNameOf(metadataFiles[i]))
  }

  lemma VideoNamesAppend(a: seq<string>, b: seq<string>)
    ensures VideoNames(a + b) == VideoNames(a) + VideoNames(b)
  {
    assert forall i :: 0 <= i < |a + b| ==> VideoNames(a + b)[i] == (VideoNames(a) + VideoNames(b))[i] by {
      forall i | 0 <= i < |a + b|
        ensures VideoNames(a + b)[i] == (VideoNames(a) + VideoNames(b))[i]
      {
        if i < |a| {
          assert (a + b)[i] == a[i];
        } else {
          assert (a + b)[i] == b[i - |a|];
        }
      }
    }
  }

  /** The search result for the matched .json names: each with '.json' replaced by '.mp4'. */
  function SearchResult(tokens: seq<string>, listing: seq<string>, records: map<string, Record>): seq<string>
    requires Readable(listing, records)
  {
    VideoNames(Matching(tokens, listing, records))
  }

  lemma ReadableAppend(a: seq<string>, b: seq<string>, records: map<string, Record>)
    requires Readable(a, records) && Readable(b, records)
    ensures Readable(a + b, records)
  {
  }

  /** One more listed name adds its hit at the end. */
  lemma MatchingSnoc(tokens: seq<string>, s: seq<string>, f: string, records: map<string, Record>)
    requires Readable(s + [f], records)
    ensures Readable(s, records) && (IsMetadataFile(f) ==> f in records)
    ensures Matching(tokens, s + [f], records) == Matching(tokens, s, records) + Hit(tokens, f, records)
  {
    var sf := s + [f];
    assert sf[..|s|] == s && sf[|s|] == f;
    ReadablePrefix(sf, |s|, records);
  }

  /** The matches of a listing are the matches of its parts, in order. */
  lemma {:induction false} MatchingAppend(tokens: seq<string>, a: seq<string>, b: seq<string>, records: map<string, Record>)
    requires Readable(a, records) && Readable(b, records)
    ensures Readable(a + b, records)
    ensures Matching(tokens, a + b, records) == Matching(tokens, a, records) + Matching(tokens, b, records)
    decreases |b|
  {
    ReadableAppend(a, b, records);
    if b == [] {
      assert a + b == a;
    } else {
      var n := |b| - 1;
      var front, f := b[..n], b[n];
      assert b == front + [f];
      assert a + b == (a + front) + [f];
      MatchingSnoc(tokens, front, f, records);
      MatchingSnoc(tokens, a + front, f, records);
      MatchingAppend(tokens, a, front, records);
    }
  }

  /** Hence the search result of a listing is the results of its parts, in order. */
  lemma SearchAppend(tokens: seq<string>, a: seq<string>, b: seq<string>, records: map<string, Record>)
    requires Readable(a, records) && Readable(b, records)
    ensures Readable(a + b, records)
    ensures SearchResult(tokens, a + b, records) == SearchResult(tokens, a, records) + SearchResult(tokens, b, records)
  {
    MatchingAppend(tokens, a, b, records);
    VideoNamesAppend(Matching(tokens, a, records), Matching(tokens, b, records));
  }

  /** A name is matched exactly when it is a listed .json file whose record matches. */
  lemma {:induction false} MatchingMember(tokens: seq<string>, listing: seq<string>, records: map<string, Record>, f: string)
    requires Readable(listing, records)
    ensures f in Matching(tokens, listing, records) <==>
              f in listing && IsMetadataFile(f) && Matches(tokens, records[f])
  {
    if listing != [] {
      var n := |listing| - 1;
      var front := listing[..n];
      assert listing == front + [listing[n]];
      MatchingSnoc(tokens, front, listing[n], records);
      MatchingMember(tokens, front, records, f);
    }
  }

  /** A video name is in the search result exactly when some matched .json file maps to it. */
  lemma SearchMember(tokens: seq<string>, listing: seq<string>, records: map<string, Record>, v: string)
    requires Readable(listing, records)
    ensures v in SearchResult(tokens, listing, records) <==>
              exists f :: f in listing && IsMetadataFile(f) && Matches(tokens, records[f]) && v == VideoNameOf(f)
  {
    var found := Matching(tokens, listing, records);
    if v in SearchResult(tokens, listing, records) {
      var i :| 0 <= i < |found| && VideoNames(found)[i] == v;
      MatchingMember(tokens, listing, records, found[i]);
    }
    if exists f :: f in listing && IsMetadataFile(f) && Matches(tokens, records[f]) && v == VideoNameOf(f) {
      var f :| f in listing && IsMetadataFile(f) && Matches(tokens, records[f]) && v == VideoNameOf(f);
      MatchingMember(tokens, listing, records, f);
      var i :| 0 <= i < |found| && found[i] == f;
      assert VideoNames(found)[i] == v;
    }
  }

  /** The .json names of a listing, in order. */
  function MetadataFiles(listing: seq<string>): seq<string> {
    if listing == [] then []
    else
      var n := |listing| - 1;
      MetadataFiles(listing[..n]) + (if IsMetadataFile(listing[n]) then [listing[n]] else [])
  }

  /** With no tokens every .json file matches, whatever its record says. */
  lemma {:induction false} NoTokensMatchAll(listing: seq<string>, records: map<string, Record>)
    requires Readable(listing, records)
    ensures Matching([], listing, records) == MetadataFiles(listing)
  {
    if listing != [] {
      var n := |listing| - 1;
      ReadablePrefix(listing, n, records);
      NoTokensMatchAll(listing[..n], records);
    }
  }

  /**
   * The matching .json names as the code computes them: the first record on
   * which the match rule raises ends the whole search with `AttributeError`.
   * Otherwise the list is the one the corrected rule gives.
   */
  function MatchingAsWritten(tokens: seq<string>, listing: seq<string>, records: map<string, Record>): (r: Outcome<seq<string>>)
    requires Readable(listing, records)
    ensures r.Ok? ==> r.value == Matching(tokens, listing, records)
    ensures r == AttributeError <==>
              exists f :: f in listing && IsMetadataFile(f) && MatchesAsWritten(tokens, records[f]) == AttributeError
  {
    if listing == [] then Ok([])
    else
      var n := |listing| - 1;
      var f := listing[n];
      ReadablePrefix(listing, n, records);
      assert listing == listing[..n] + [f];
      match MatchingAsWritten(tokens, listing[..n], records)
      case AttributeError => AttributeError
      case Ok(found) =>
        if !IsMetadataFile(f) then Ok(found)
        else
          match MatchesAsWritten(tokens, records[f])
          case AttributeError => AttributeError
          case Ok(b) => Ok(found + (if b then [f] else []))
  }

  /**
   * `search_videos` on a non-empty query as written: it raises exactly when
   * some listed .json record makes the match rule raise, and otherwise gives
   * the corrected search result.
   */
  function SearchAsWritten(tokens: seq<string>, listing: seq<string>, records: map<string, Record>): (r: Outcome<seq<string>>)
    requires Readable(listing, records)
    ensures r.Ok? ==> r.value == SearchResult(tokens, listing, records)
    ensures r == AttributeError <==>
              exists f :: f in listing && IsMetadataFile(f) && MatchesAsWritten(tokens, records[f]) == AttributeError
  {
    match MatchingAsWritten(tokens, listing, records)
    case AttributeError => AttributeError
    case Ok(found) => Ok(VideoNames(found))
  }

  /** The search result of a listing prefix grows by the video name of the next name, if that one matches. */
  lemma SearchStep(tokens: seq<string>, listing: seq<string>, i: nat, records: map<string, Record>)
    requires Readable(listing, records) && i < |listing|
    ensures Readable(listing[..i], records) && Readable(listing[..i + 1], records)
    ensures IsMetadataFile(listing[i]) ==> listing[i] in records
    ensures SearchResult(tokens, listing[..i + 1], records)
         == SearchResult(tokens, listing[..i], records)
            + (if IsMetadataFile(listing[i]) && Matches(tokens, records[listing[i]]) then [VideoNameOf(listing[i])] else [])
  {
    var f := listing[i];
    assert listing[..i + 1] == listing[..i] + [f];
    ReadablePrefix(listing, i + 1, records);
    MatchingSnoc(tokens, listing[..i], f, records);
    VideoNamesAppend(Matching(tokens, listing[..i], records), Hit(tokens, f, records));
  }

  /**
   * `search_videos`, up to the list it hands to `show_videos_on_ui`: an empty
   * query shows `get_videos()`; any other query is lower-cased, split on
   * whitespace and matched against every .json file of the metadata listing.
   */
  method SearchVideos(query: string, metadataListing: seq<string>, records: map<string, Record>,
                      downloadsListing: seq<string>) returns (shown: seq<string>)
    requires Readable(metadataListing, records)
    ensures query == "" ==> shown == GetVideos(downloadsListing)
    ensures query != "" ==> shown == SearchResult(Split(Lower(query)), metadataListing, records)
  {
    if query != "" {
      var tokens := Split(Lower(query));
      var matching := [];
      for i := 0 to |metadataListing|
        invariant Readable(metadataListing[..i], records)
        invariant matching == SearchResult(tokens, metadataListing[..i], records)
      {
        var metadataFile := metadataListing[i];
        SearchStep(tokens, metadataListing, i, records);
        if IsMetadataFile(metadataFile) {
          var metadata := records[metadataFile];
          if AllIn(tokens, FieldText(metadata, "title")) {
            matching := matching + [VideoNameOf(metadataFile)];
          } else if AnyIn(tokens, FieldText(metadata, "uploader")) {
            matching := matching + [VideoNameOf(metadataFile)];
          }
        }
      }
      assert metadataListing[..|metadataListing|] == metadataListing;
      shown := matching;
    } else {
      shown := GetVideos(downloadsListing);
    }
  }

  /** A query of whitespace only is not empty, yet it lists the video name of every .json file. */
  lemma BlankQueryListsAllMetadata(query: string, listing: seq<string>, records: map<string, Record>)
    requires Readable(listing, records)
    requires query != "" && AllSpace(query)
    ensures SearchResult(Split(Lower(query)), listing, records) == VideoNames(MetadataFiles(listing))
  {
    assert AllSpace(Lower(query));
    SplitEmptyIff(Lower(query));
    NoTokensMatchAll(listing, records);
  }

  // ---------------------------------------------------------------------------
  // show_videos_on_ui

  /** One grid cell: the video it plays, the thumbnail it shows, and its position. */
  datatype Tile = Tile(video: string, videoPath: string, thumbnailPath: string, row: nat, col: nat)

  const Columns: nat := 4

  function VideoPathOf(videoFile: string): string {
    Join("downloads", videoFile)
  }

  /**
   * `os.path.join("thumbnails", f).replace('.mp4', '.webp')`: the directory
   * holds no '.', so only the file name is rewritten.
   */
  function ThumbnailPathOf(videoFile: string): (path: string)
    ensures path == Join("thumbnails", Replace(videoFile, ".mp4", ".webp"))
  {
    var dir := "thumbnails" + [Sep];
    assert Join("thumbnails", videoFile) == dir + videoFile;
    FirstCharAbsent(dir, videoFile, ".mp4");
    ReplaceAfterPrefix(dir, videoFile, ".mp4", ".webp");
    Replace(Join("thumbnails", videoFile), ".mp4", ".webp")
  }

  /** The names that get a tile: those whose thumbnail file exists, in order. */
  function Displayed(files: seq<string>, thumbnailExists: string -> bool): seq<string> {
    if files == [] then []
    else
      var n := |files| - 1;
      Displayed(files[..n], thumbnailExists)
        + (if thumbnailExists(ThumbnailPathOf(files[n])) then [files[n]] else [])
  }

  /** One more listed name adds itself to the displayed names exactly when its thumbnail exists. */
  lemma DisplayedStep(files: seq<string>, i: nat, thumbnailExists: string -> bool)
    requires i < |files|
    ensures Displayed(files[..i + 1], thumbnailExists) ==
            Displayed(files[..i], thumbnailExists) + (if thumbnailExists(ThumbnailPathOf(files[i])) then [files[i]] else [])
  {
    assert files[..i + 1][..i] == files[..i];
  }

  /** Placing the next displayed name at the next position keeps every tile at its place. */
  lemma TilesStep(tiles: seq<Tile>, shown: seq<string>, videoFile: string)
    requires |tiles| == |shown|
    requires forall k :: 0 <= k < |tiles| ==> tiles[k] == TileAt(shown[k], k)
    ensures forall k :: 0 <= k < |tiles| + 1 ==>
              (tiles + [TileAt(videoFile, |tiles|)])[k] == TileAt((shown + [videoFile])[k], k)
  {
  }

  /** The tile for the `k`-th displayed name: row `k div 4`, column `k mod 4`. */
  function TileAt(videoFile: string, k: nat): Tile {
    Tile(videoFile, VideoPathOf(videoFile), ThumbnailPathOf(videoFile), k / Columns, k % Columns)
  }

  lemma GridPosition(row: nat, col: nat)
    requires col < Columns
    ensures (row * Columns + col) / Columns == row && (row * Columns + col) % Columns == col
  {
  }

  /**
   * `show_videos_on_ui`: a name whose thumbnail is missing is skipped and does
   * not advance the counter; the others are placed by a `row`/`col` counter
   * that wraps after column 3, so the `k`-th one lands at `(k div 4, k mod 4)`.
   */
  method ShowVideos(videoFiles: seq<string>, thumbnailExists: string -> bool) returns (tiles: seq<Tile>)
    ensures |tiles| == |Displayed(videoFiles, thumbnailExists)|
    ensures forall k :: 0 <= k < |tiles| ==> tiles[k] == TileAt(Displayed(videoFiles, thumbnailExists)[k], k)
  {
    tiles := [];
    var row: nat, col: nat := 0, 0;
    for i := 0 to |videoFiles|
      invariant |tiles| == |Displayed(videoFiles[..i], thumbnailExists)|
      invariant forall k :: 0 <= k < |tiles| ==> tiles[k] == TileAt(Displayed(videoFiles[..i], thumbnailExists)[k], k)
      invariant col < Columns && row * Columns + col == |tiles|
    {
      var videoFile := videoFiles[i];
      DisplayedStep(videoFiles, i, thumbnailExists);
      var videoPath := VideoPathOf(videoFile);
      var thumbnailPath := ThumbnailPathOf(videoFile);
      if thumbnailExists(thumbnailPath) {
        GridPosition(row, col);
        ghost var shown := Displayed(videoFiles[..i], thumbnailExists);
        assert Displayed(videoFiles[..i + 1], thumbnailExists) == shown + [videoFile];
        assert Tile(videoFile, videoPath, thumbnailPath, row, col) == TileAt(videoFile, |tiles|);
        TilesStep(tiles, shown, videoFile);
        tiles := tiles + [Tile(videoFile, videoPath, thumbnailPath, row, col)];
        col := col + 1;
        if col > 3 {
          col := 0;
          row := row + 1;
        }
      }
    }
    assert videoFiles[..|videoFiles|] == videoFiles;
  }

  /**
   * `refresh_ui_after_download` (and the start-up view): the grid of
   * `get_videos()`, so only .mp4, .avi and .mkv files with a thumbnail appear.
   */
  method RefreshView(downloadsListing: seq<string>, thumbnailExists: string -> bool) returns (tiles: seq<Tile>)
    ensures |tiles| == |Displayed(GetVideos(downloadsListing), thumbnailExists)|
    ensures forall k :: 0 <= k < |tiles| ==>
              tiles[k] == TileAt(Displayed(GetVideos(downloadsListing), thumbnailExists)[k], k)
    ensures forall k :: 0 <= k < |tiles| ==>
              tiles[k].video in downloadsListing && IsVideoFile(tiles[k].video) && thumbnailExists(tiles[k].thumbnailPath)
  {
    var videoFiles := GetVideos(downloadsListing);
    tiles := ShowVideos(videoFiles, thumbnailExists);
    forall k | 0 <= k < |tiles|
      ensures tiles[k].video in downloadsListing && IsVideoFile(tiles[k].video) && thumbnailExists(tiles[k].thumbnailPath)
    {
      var f := Displayed(videoFiles, thumbnailExists)[k];
      DisplayedMember(videoFiles, thumbnailExists, f);
      GetVideosMember(downloadsListing, f);
    }
  }

  /** A name gets a tile exactly when it is listed and its thumbnail exists. */
  lemma {:induction false} DisplayedMember(files: seq<string>, thumbnailExists: string -> bool, f: string)
    ensures f in Displayed(files, thumbnailExists) <==> f in files && thumbnailExists(ThumbnailPathOf(f))
  {
    if files != [] {
      var n := |files| - 1;
      DisplayedMember(files[..n], thumbnailExists, f);
      assert files == files[..n] + [files[n]];
    }
  }

  /** The column of every tile stays within 0..3. */
  lemma ColumnsBounded(tiles: seq<Tile>, files: seq<string>, thumbnailExists: string -> bool)
    requires |tiles| == |Displayed(files, thumbnailExists)|
    requires forall k :: 0 <= k < |tiles| ==> tiles[k] == TileAt(Displayed(files, thumbnailExists)[k], k)
    ensures forall k :: 0 <= k < |tiles| ==> tiles[k].col <= 3 && tiles[k].row * Columns + tiles[k].col == k
  {
  }

  /** The `.mp4` to `.webp` rewrite touches only the file name, never the directory. */
  lemma ThumbnailOfMp4(stem: string)
    requires '.' !in stem
    ensures ThumbnailPathOf(stem + ".mp4") == Join("thumbnails", stem + ".webp")
  {
    var dir := "thumbnails" + [Sep];
    assert Join("thumbnails", stem + ".mp4") == (dir + stem) + ".mp4";
    FirstCharAbsent(dir + stem, ".mp4", ".mp4");
    ReplaceSuffix(dir + stem, ".mp4", ".webp");
    assert (dir + stem) + ".webp" == Join("thumbnails", stem + ".webp");
  }

  /** An .avi or .mkv file is looked up under its own name in the thumbnail store. */
  lemma ThumbnailOfOther(videoFile: string)
    requires !Contains(videoFile, ".mp4")
    ensures ThumbnailPathOf(videoFile) == Join("thumbnails", videoFile)
  {
    var dir := "thumbnails" + [Sep];
    assert Join("thumbnails", videoFile) == dir + videoFile;
    FirstCharAbsent(dir, videoFile, ".mp4");
    ReplaceAfterPrefix(dir, videoFile, ".mp4", ".webp");
  }

  /**
   * A metadata name `stem.json` is searched into `stem.mp4` whenever no
   * `.json` starts inside the stem, so a dotted stem such as `a.b` is renamed
   * at its final extension only.
   */
  lemma VideoNameOfStem(stem: string)
    requires forall i :: 0 <= i < |stem| ==> !IsPrefix(".json", stem[i..] + ".json")
    ensures VideoNameOf(stem + ".json") == stem + ".mp4"
  {
    ReplaceSuffix(stem, ".json", ".mp4");
  }

  /** A dotted name: `a.b.json` is shown as `a.b.mp4`. */
  lemma DottedStemRenamed()
    ensures VideoNameOf("a.b.json") == "a.b.mp4"
  {
    var stem := "a.b";
    forall i | 0 <= i < |stem|
      ensures !IsPrefix(".json", stem[i..] + ".json")
    {
      assert (stem[i..] + ".json")[..5] != ".json" by {
        if i == 1 {
          assert (stem[i..] + ".json")[1] == 'b';
        } else {
          assert (stem[i..] + ".json")[0] == stem[i];
        }
      }
    }
    VideoNameOfStem(stem);
    assert stem + ".json" == "a.b.json" && stem + ".mp4" == "a.b.mp4";
  }

  /** A metadata name `key.json` is searched into `key.mp4` when the key has no dot. */
  lemma VideoNameOfKeyed(stem: string)
    requires '.' !in stem
    ensures IsMetadataFile(stem + ".json") && VideoNameOf(stem + ".json") == stem + ".mp4"
  {
    FirstCharAbsent(stem, ".json", ".json");
    VideoNameOfStem(stem);
    assert (stem + ".json")[|stem + ".json"| - 5..] == ".json";
  }
}
