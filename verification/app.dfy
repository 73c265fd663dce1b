/**
 The memoised `get_mappings` (app.py lines 11-17 and 49) and the data logic
 of the `index` and `download` handlers. The process-wide `CACHED_MAPPINGS`
 global is threaded through the calls as an explicit state value.
 */
module App {
  import opened Wrappers
  import opened EmojiSource
  import opened Builder
  import opened Export

  /** `CACHED_MAPPINGS`: `None` until a build has completed. */
  datatype Cache = Cache(stored: Option<seq<Mapping>>)

  /** The state at process start (line 12). */
  const Cold: Cache := Cache(None)

  /** Lines 14-50: answer from the cache when it is filled; otherwise build
      from `src` and fill the cache with the result. A build that raises
      leaves the cache as it was, so the next call builds again. */
  function GetMappings(c: Cache, src: Source): (r: (Cache, Result<seq<Mapping>, BuildError>))
    ensures c.stored.Some? ==> r == (c, Success(c.stored.value))
    ensures c.stored.None? ==> r.1 == Build(src)
    ensures r.1.Success? ==> r.0 == Cache(Some(r.1.value))
    ensures r.1.Failure? ==> r.0 == c
  {
    match c.stored
    case Some(ms) => (c, Success(ms))
    case None =>
      match Build(src)
      case Success(ms) => (Cache(Some(ms)), Success(ms))
      case Failure(e) => (c, Failure(e))
  }

  /** A run of calls to `GetMappings`, one per source, each seeing the cache
      the previous one left. The sources may differ from call to call (the
      library could change under the process); this is what shows that a
      filled cache never looks at its source again. */
  function Serve(c: Cache, srcs: seq<Source>): (r: (Cache, seq<Result<seq<Mapping>, BuildError>>))
    ensures |r.1| == |srcs|
    decreases |srcs|
  {
    if srcs == [] then (c, [])
    else
      var (c1, first) := GetMappings(c, srcs[0]);
      var (c2, rest) := Serve(c1, srcs[1..]);
      (c2, [first] + rest)
  }

  /** Once the cache holds a mapping, every later call returns that same
      mapping and the cache stays as it is. */
  lemma {:induction false} FilledCacheIsFinal(ms: seq<Mapping>, srcs: seq<Source>)
    ensures Serve(Cache(Some(ms)), srcs).0 == Cache(Some(ms))
    ensures forall i :: 0 <= i < |srcs| ==> Serve(Cache(Some(ms)), srcs).1[i] == Success(ms)
  {
    if srcs != [] {
      FilledCacheIsFinal(ms, srcs[1..]);
    }
  }

  /** From process start, a call builds from its own source exactly while no
      earlier call has succeeded; after the first success every call returns
      the mapping that success built. */
  lemma BuildsUntilFirstSuccess(srcs: seq<Source>)
    ensures forall i :: 0 <= i < |srcs| && (forall j :: 0 <= j < i ==> Serve(Cold, srcs).1[j].Failure?) ==>
      Serve(Cold, srcs).1[i] == Build(srcs[i])
    ensures forall i, j :: 0 <= j < i < |srcs| && Serve(Cold, srcs).1[j].Success? ==>
      Serve(Cold, srcs).1[i] == Serve(Cold, srcs).1[j]
  {
    BuildsWhileFailing(srcs);
    SuccessIsFinal(srcs);
  }

  /** The first half: while every earlier call failed, a call builds. */
  lemma {:induction false} BuildsWhileFailing(srcs: seq<Source>)
    ensures forall i :: 0 <= i < |srcs| && (forall j :: 0 <= j < i ==> Serve(Cold, srcs).1[j].Failure?) ==>
      Serve(Cold, srcs).1[i] == Build(srcs[i])
  {
    if srcs != [] {
      var rs := Serve(Cold, srcs).1;
      var (c1, first) := GetMappings(Cold, srcs[0]);
      assert first == rs[0] == Build(srcs[0]);
      if first.Failure? {
        assert c1 == Cold;
        var rest := Serve(Cold, srcs[1..]).1;
        assert forall i :: 1 <= i < |srcs| ==> srcs[1..][i - 1] == srcs[i] && rest[i - 1] == rs[i];
        BuildsWhileFailing(srcs[1..]);
        forall i | 1 <= i < |srcs| && (forall j :: 0 <= j < i ==> rs[j].Failure?)
          ensures rs[i] == Build(srcs[i])
        {
          assert forall j :: 0 <= j < i - 1 ==> rest[j] == rs[j + 1];
        }
      }
    }
  }

  /** The second half: after a call succeeds, every later call returns its mapping. */
  lemma {:induction false} SuccessIsFinal(srcs: seq<Source>)
    ensures forall i, j :: 0 <= j < i < |srcs| && Serve(Cold, srcs).1[j].Success? ==>
      Serve(Cold, srcs).1[i] == Serve(Cold, srcs).1[j]
  {
    if srcs != [] {
      var rs := Serve(Cold, srcs).1;
      var (c1, first) := GetMappings(Cold, srcs[0]);
      assert first == rs[0];
      assert forall i :: 1 <= i < |srcs| ==> Serve(c1, srcs[1..]).1[i - 1] == rs[i];
      if first.Success? {
        FilledCacheIsFinal(first.value, srcs[1..]);
      } else {
        SuccessIsFinal(srcs[1..]);
        forall i, j | 0 <= j < i < |srcs| && rs[j].Success?
          ensures rs[i] == rs[j]
        {
          assert Serve(Cold, srcs[1..]).1[j - 1] == rs[j];
        }
      }
    }
  }

  /** What the index page is rendered with (lines 57-62). */
  datatype IndexPage = Rendered(examples: seq<Mapping>) | IndexError(error: BuildError)

  /** Lines 53-62 without the templating: the first `PreviewSize` mappings, or the error. */
  function Index(c: Cache, src: Source): (r: (Cache, IndexPage))
    ensures r.0 == GetMappings(c, src).0
    ensures r.1.IndexError? <==> GetMappings(c, src).1.Failure?
    ensures r.1.IndexError? ==> r.1.error == GetMappings(c, src).1.error
    ensures r.1.Rendered? ==>
              && r.0.stored.Some?
              && r.1.examples <= r.0.stored.value
              && |r.1.examples| == if |r.0.stored.value| < PreviewSize then |r.0.stored.value| else PreviewSize
  {
    match GetMappings(c, src)
    case (c', Success(ms)) => (c', Rendered(Preview(ms)))
    case (c', Failure(e)) => (c', IndexError(e))
  }

  /** What the download route answers (lines 66-80). */
  datatype DownloadReply = File(attachment: Attachment) | DownloadError(error: BuildError)

  /** Lines 65-80 without the HTTP response: the file for `platform`, or the error. */
  function Download(c: Cache, src: Source, platform: string): (r: (Cache, DownloadReply))
    ensures r.0 == GetMappings(c, src).0
    ensures r.1.DownloadError? <==> GetMappings(c, src).1.Failure?
    ensures r.1.DownloadError? ==> r.1.error == GetMappings(c, src).1.error
    ensures r.1.File? ==>
              && r.0.stored.Some?
              && (r.1.attachment.body.PlistRecords? <==> platform == "ios")
              && (platform == "ios" ==> r.1.attachment == Attachment(PlistRecords(r.0.stored.value), PlistFileName))
              && (platform != "ios" ==> r.1.attachment == Attachment(CsvText(ToCsv(r.0.stored.value)), CsvFileName))
  {
    match GetMappings(c, src)
    case (c', Success(ms)) => (c', File(ExportFor(platform, ms)))
    case (c', Failure(e)) => (c', DownloadError(e))
  }

  /** With no emoji metadata at all: an empty preview, a header-only CSV file
      and an empty property list, and no error. */
  lemma EmptySourceEndToEnd(platform: string)
    ensures Index(Cold, Unavailable).1 == Rendered([])
    ensures platform == "ios" ==> Download(Cold, Unavailable, platform).1 == File(Attachment(PlistRecords([]), PlistFileName))
    ensures platform != "ios" ==> Download(Cold, Unavailable, platform).1 == File(Attachment(CsvText(CsvHeader), CsvFileName))
  {
  }
}
