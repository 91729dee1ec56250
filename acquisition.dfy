/**
 * `download_video` and the background task around it (main.py): one URL is
 * turned into a key, the digest of the URL, and the thumbnail, the video and
 * the metadata record are stored under that key in three directories.
 *
 * The downloader and the network are not modelled; each step is given the
 * outcome it has (what file yt-dlp wrote, whether an extraction raised), and
 * the digest is a function parameter whose values are 64 lower-case hex digits.
 */
module Acquisition {
  import opened Optional
  import opened Text
  import opened Catalog

  /** The fields of yt-dlp's info dictionary that `get_video_metadata` copies. */
  datatype Info = Info(title: Option<string>, id: Option<string>, originalUrl: Option<string>,
                       duration: Option<int>, uploader: Option<string>)

  /** The helper calls of `download_video`, in the order they can run. */
  datatype Step = TitleStep | ThumbnailStep | VideoStep | MetadataStep

  /** What the thumbnail download did: wrote `key.ext`, wrote nothing, or raised (and was caught). */
  datatype ThumbnailFetch = Wrote(ext: string) | WroteNothing | Raised

  /** What `hashlib.sha256(url.encode('utf-8')).hexdigest()` returns. */
  predicate IsHexDigest(d: string) {
    |d| == 64 && forall i :: 0 <= i < |d| ==> d[i] in "0123456789abcdef"
  }

  /** A field of the info as `json.dump` writes it: a missing one becomes null. */
  function JsonOf(v: Option<string>): (j: Json)
    ensures v.None? <==> j == Null
  {
    if v.Some? then Str(v.value) else Null
  }

  function JsonOfNumber(v: Option<int>): (j: Json)
    ensures v.None? <==> j == Null
  {
    if v.Some? then Num(v.value) else Null
  }

  /**
   * The record `get_video_metadata` dumps: the five fields of the info, a
   * missing one written as null, except `original_url`, which falls back to
   * the requested URL when the info has none or an empty one.
   */
  function WrittenRecord(url: string, info: Info): (rec: Record)
    ensures rec.Keys == {"title", "id", "original_url", "duration", "uploader"}
    ensures rec["title"] == JsonOf(info.title) && rec["id"] == JsonOf(info.id) && rec["uploader"] == JsonOf(info.uploader)
    ensures rec["duration"] == JsonOfNumber(info.duration)
    ensures info.originalUrl.Some? && info.originalUrl.value != "" ==> rec["original_url"] == Str(info.originalUrl.value)
    ensures info.originalUrl.None? || info.originalUrl == Some("") ==> rec["original_url"] == Str(url)
  {
    map["title" := JsonOf(info.title),
        "id" := JsonOf(info.id),
        "original_url" := Str(if info.originalUrl.Some? && info.originalUrl.value != "" then info.originalUrl.value else url),
        "duration" := JsonOfNumber(info.duration),
        "uploader" := JsonOf(info.uploader)]
  }

  function OrEmpty(v: Option<string>): string {
    if v.Some? then v.value else ""
  }

  /** Searching a record the downloader wrote applies the rule to its title and uploader. */
  lemma WrittenRecordMatches(url: string, info: Info, tokens: seq<string>)
    ensures Matches(tokens, WrittenRecord(url, info)) <==>
              AllIn(tokens, Lower(OrEmpty(info.title))) || AnyIn(tokens, Lower(OrEmpty(info.uploader)))
  {
    var rec := WrittenRecord(url, info);
    assert FieldText(rec, "title") == Lower(OrEmpty(info.title));
    assert FieldText(rec, "uploader") == Lower(OrEmpty(info.uploader));
  }

  /**
   * The as-written match rule raises on records the downloader itself writes:
   * an info without an uploader gives `"uploader": null`, and a query that
   * misses the title then calls `None.lower()`.
   */
  lemma NullUploaderRaises()
    ensures var rec := WrittenRecord("u", Info(Some("cat"), None, None, None, None));
            MatchesAsWritten(Split("dog"), rec) == AttributeError && !Matches(Split("dog"), rec)
  {
    var rec := WrittenRecord("u", Info(Some("cat"), None, None, None, None));
    SplitWord("dog");
    NullUploaderFields(rec);
    DogNotInCat();
    assert !AllIn(["dog"], "cat") && !AnyIn(["dog"], "");
  }

  lemma NullUploaderFields(rec: Record)
    requires rec == WrittenRecord("u", Info(Some("cat"), None, None, None, None))
    ensures Get(rec, "title", "") == Str("cat") && Get(rec, "uploader", "") == Null
    ensures FieldText(rec, "title") == "cat" && FieldText(rec, "uploader") == ""
  {
    LowerOfLower("cat");
  }

  lemma DogNotInCat()
    ensures !Contains("cat", "dog") && !Contains("", "dog")
  {
    assert "cat"[..3] == "cat" && "dog"[0] != "cat"[0];
    assert !Contains("", "dog");
    assert "cat"[1..] == "at" && !Contains("at", "dog");
  }

  /** The key scheme joins the three stores: `key.json` searches into `key.mp4`, shown with `key.webp`. */
  lemma KeyedNamesJoin(key: string)
    requires IsHexDigest(key)
    ensures IsMetadataFile(key + ".json") && VideoNameOf(key + ".json") == key + ".mp4"
    ensures IsVideoFile(key + ".mp4")
    ensures VideoPathOf(key + ".mp4") == Join("downloads", key + ".mp4")
    ensures ThumbnailPathOf(key + ".mp4") == Join("thumbnails", key + ".webp")
  {
    forall i | 0 <= i < |key|
      ensures key[i] != '.'
    {
      assert key[i] in "0123456789abcdef";
    }
    VideoNameOfKeyed(key);
    ThumbnailOfMp4(key);
    assert (key + ".mp4")[|key + ".mp4"| - 4..] == ".mp4";
  }

  /** After a download stored record `rec` as `key.json`, searching for its tokens finds `key.mp4`. */
  lemma SearchFindsStored(key: string, rec: Record, records: map<string, Record>, tokens: seq<string>)
    requires IsHexDigest(key) && Matches(tokens, rec)
    ensures Readable([key + ".json"], records[key + ".json" := rec])
    ensures SearchResult(tokens, [key + ".json"], records[key + ".json" := rec]) == [key + ".mp4"]
  {
    KeyedNamesJoin(key);
    var listing := [key + ".json"];
    MatchingSnoc(tokens, [], key + ".json", records[key + ".json" := rec]);
    assert [] + [key + ".json"] == listing;
  }

  /**
   * The three directories `download_video` writes to, as sets of file names
   * (`os.listdir` order is not kept), the parsed content of each metadata
   * file, and the helper calls made so far, oldest first.
   */
  class Library {
    var downloads: set<string>
    var thumbnails: set<string>
    var metadata: map<string, Record>
    var log: seq<Step>

    constructor ()
      ensures downloads == {} && thumbnails == {} && metadata == map[] && log == []
    {
      downloads, thumbnails, metadata, log := {}, {}, map[], [];
    }

    /**
     * `get_video_title_yt`: the extraction is not guarded, so a failure
     * raises. The title itself is only printed.
     */
    method ProbeTitle(probeOk: bool) returns (raised: bool)
      modifies this`log
      ensures log == old(log) + [TitleStep]
      ensures raised <==> !probeOk
    {
      log := log + [TitleStep];
      raised := !probeOk;
    }

    /**
     * `get_video_thumbnail_yt`: yt-dlp writes `key.ext` into the thumbnail
     * store, or nothing; an exception is caught. The result is whether a
     * .webp, .jpg or .png starting with the key is then in the store.
     */
    method FetchThumbnail(url: string, digest: string -> string, fetch: ThumbnailFetch) returns (found: bool)
      modifies this`thumbnails, this`log
      ensures log == old(log) + [ThumbnailStep]
      ensures thumbnails == old(thumbnails) + (if fetch.Wrote? then {digest(url) + "." + fetch.ext} else {})
      ensures found <==> !fetch.Raised? &&
                         exists f :: f in thumbnails && IsPrefix(digest(url), f) &&
                                     (EndsWith(f, ".webp") || EndsWith(f, ".jpg") || EndsWith(f, ".png"))
    {
      log := log + [ThumbnailStep];
      var urlHash := digest(url);
      if fetch.Raised? {
        return false;
      }
      if fetch.Wrote? {
        thumbnails := thumbnails + {urlHash + "." + fetch.ext};
      }
      found := exists f :: f in thumbnails && IsPrefix(urlHash, f) &&
                           (EndsWith(f, ".webp") || EndsWith(f, ".jpg") || EndsWith(f, ".png"));
    }

    /**
     * `install_video`: yt-dlp stores `key.ext` in the download store, or
     * fails; every failure is caught (and `ignoreerrors` is set), so the
     * call always returns.
     */
    method InstallVideo(url: string, digest: string -> string, stored: Option<string>)
      modifies this`downloads, this`log
      ensures log == old(log) + [VideoStep]
      ensures downloads == old(downloads) + (if stored.Some? then {digest(url) + "." + stored.value} else {})
    {
      log := log + [VideoStep];
      var urlHash := digest(url);
      if stored.Some? {
        downloads := downloads + {urlHash + "." + stored.value};
      }
    }

    /**
     * `get_video_metadata`: the extraction is not guarded, so a failure
     * (`info == None`) raises out of the call and nothing is written.
     */
    method WriteMetadata(url: string, digest: string -> string, info: Option<Info>) returns (raised: bool)
      modifies this`metadata, this`log
      ensures log == old(log) + [MetadataStep]
      ensures raised <==> info.None?
      ensures metadata == if info.Some? then old(metadata)[digest(url) + ".json" := WrittenRecord(url, info.value)]
                          else old(metadata)
    {
      log := log + [MetadataStep];
      if info.None? {
        return true;
      }
      metadata := metadata[digest(url) + ".json" := WrittenRecord(url, info.value)];
      raised := false;
    }

    /**
     * `download_video`: the unguarded title probe comes first and, if it
     * raises, ends the call; otherwise thumbnail, video and metadata run in
     * that order, each naming its file by the digest of the same URL. A
     * failed video download does not stop the metadata step, and a raising
     * metadata extraction raises out of `download_video`.
     */
    method DownloadVideo(url: string, digest: string -> string, probeOk: bool, thumbnail: ThumbnailFetch,
                         video: Option<string>, info: Option<Info>) returns (raised: bool)
      modifies this
      ensures log == old(log) + if probeOk then [TitleStep, ThumbnailStep, VideoStep, MetadataStep] else [TitleStep]
      ensures raised <==> !probeOk || info.None?
      ensures thumbnails == old(thumbnails) + (if probeOk && thumbnail.Wrote? then {digest(url) + "." + thumbnail.ext} else {})
      ensures downloads == old(downloads) + (if probeOk && video.Some? then {digest(url) + "." + video.value} else {})
      ensures metadata == if probeOk && info.Some? then old(metadata)[digest(url) + ".json" := WrittenRecord(url, info.value)]
                          else old(metadata)
    {
      raised := ProbeTitle(probeOk);
      if raised {
        return;
      }
      var downloadedThumbnail := FetchThumbnail(url, digest, thumbnail);
      InstallVideo(url, digest, video);
      raised := WriteMetadata(url, digest, info);
    }

    /**
     * `long_running_task`: after the download, the refresh is handed back to
     * the interface thread with `app.after`, but only when `download_video`
     * returned; an exception ends the thread before that.
     */
    method LongRunningTask(url: string, digest: string -> string, probeOk: bool, thumbnail: ThumbnailFetch,
                           video: Option<string>, info: Option<Info>) returns (refreshPosted: bool)
      modifies this
      ensures log == old(log) + if probeOk then [TitleStep, ThumbnailStep, VideoStep, MetadataStep] else [TitleStep]
      ensures refreshPosted <==> probeOk && info.Some?
      ensures thumbnails == old(thumbnails) + (if probeOk && thumbnail.Wrote? then {digest(url) + "." + thumbnail.ext} else {})
      ensures downloads == old(downloads) + (if probeOk && video.Some? then {digest(url) + "." + video.value} else {})
      ensures metadata == if probeOk && info.Some? then old(metadata)[digest(url) + ".json" := WrittenRecord(url, info.value)]
                          else old(metadata)
    {
      var raised := DownloadVideo(url, digest, probeOk, thumbnail, video, info);
      refreshPosted := !raised;
    }
  }

  /**
   * A complete download into an empty library, followed by a search whose
   * tokens all occur in the title: the search lists `key.mp4`, the video is
   * stored under that name, and its tile looks for `key.webp`, which the
   * thumbnail step stored.
   */
  method DownloadThenSearch(url: string, digest: string -> string, title: string, query: string)
    returns (shown: seq<string>, videoStored: bool, thumbnailStored: bool, steps: seq<Step>)
    requires IsHexDigest(digest(url))
    requires query != "" && AllIn(Split(Lower(query)), Lower(title))
    ensures steps == [TitleStep, ThumbnailStep, VideoStep, MetadataStep]
    ensures shown == [digest(url) + ".mp4"]
    ensures videoStored && thumbnailStored
  {
    var library := new Library();
    var info := Info(Some(title), None, None, None, None);
    var raised := library.DownloadVideo(url, digest, true, Wrote("webp"), Some("mp4"), Some(info));
    steps := library.log;
    var key := digest(url);
    var rec := WrittenRecord(url, info);
    var tokens := Split(Lower(query));
    assert library.metadata == map[][key + ".json" := rec];
    assert key + "." + "mp4" == key + ".mp4" && key + "." + "webp" == key + ".webp";
    assert library.downloads == {key + ".mp4"} && library.thumbnails == {key + ".webp"};
    WrittenRecordMatches(url, info, tokens);
    SearchFindsStored(key, rec, map[], tokens);
    shown := SearchVideos(query, [key + ".json"], library.metadata, []);
    KeyedNamesJoin(key);
    videoStored := shown[0] in library.downloads;
    thumbnailStored := ThumbnailPathOf(shown[0]) == Join("thumbnails", key + ".webp")
                       && key + ".webp" in library.thumbnails;
  }
}
