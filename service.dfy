/** VideoService: uploads go through metadata probing, a pending record and
    a transcoding job; reads of a tier's playlist URL go through a chain of
    checks, a cache of the last signed URL and, on a miss, regeneration of
    the playlist with the first storage backend. */
module Service {
  import opened Errors
  import opened Videos
  import opened Manifest
  import opened Probe
  import opened Pipeline
  import opened Database

  /** What GetVideoURL does with the video the database gave back: the
      result, the playlist text written to the backend (if any), and the
      video to save (if any). */
  datatype UrlOutcome = UrlOutcome(result: Result<string>, manifest: Option<string>, save: Option<VideoRecord>)

  /** GetVideoURL's decision. The checks run in order: the tier name, the
      lookup, readiness, the cached URL, the tier entry; then the playlist is
      regenerated and, when that succeeds, the refreshed video is saved.
      checkedAt is the clock reading of the expiry test, assignedAt that of
      the new expiry. */
  function ReadURL(found: Result<VideoRecord>, videoID: string, resolution: string, storage: FileStorage,
                   checkedAt: Instant, assignedAt: Instant): (o: UrlOutcome)
    ensures o.save.Some? ==> o.result.Ok?
    ensures !IsValidResolution(resolution) ==> o == UrlOutcome(Err(ResolutionInvalid), None, None)
    ensures IsValidResolution(resolution) && found.Err? ==> o == UrlOutcome(Err(found.error), None, None)
    ensures IsValidResolution(resolution) && found.Ok? && found.value.status != Complete ==>
      o == UrlOutcome(Err(VideoNotReady), None, None)
    ensures IsValidResolution(resolution) && found.Ok? && found.value.status == Complete ==>
      var rs := found.value.resolutions;
      var url := ResolutionURL(rs, resolution);
      && (url != "" && !Expired(rs, resolution, checkedAt) ==> o == UrlOutcome(Ok(url), None, None))
      && (NoMatch(rs, resolution) ==> o == UrlOutcome(Err(ResolutionNotFound), None, None))
      && forall i :: IsFirstMatch(rs, resolution, i) && !(url != "" && !Expired(rs, resolution, checkedAt)) ==>
        var m := SignedManifest(videoID, rs[i], storage);
        && o.result == m.result && o.manifest == m.stored
        && (m.result.Err? ==> o.save.None?)
        && (m.result.Ok? ==>
              o.save == Some(found.value.(resolutions := Refreshed(rs, resolution, m.result.value, assignedAt))))
  {
    if !IsValidResolution(resolution) then UrlOutcome(Err(ResolutionInvalid), None, None)
    else match found
      case Err(e) => UrlOutcome(Err(e), None, None)
      case Ok(video) =>
        if video.status != Complete then UrlOutcome(Err(VideoNotReady), None, None)
        else
          var currentUrl := ResolutionURL(video.resolutions, resolution);
          if currentUrl != "" && !Expired(video.resolutions, resolution, checkedAt) then
            UrlOutcome(Ok(currentUrl), None, None)
          else match ResolutionOf(video.resolutions, resolution)
            case None => UrlOutcome(Err(ResolutionNotFound), None, None)
            case Some(current) =>
              var m := SignedManifest(videoID, current, storage);
              match m.result
              case Err(e) => UrlOutcome(Err(e), m.stored, None)
              case Ok(url) =>
                UrlOutcome(Ok(url), m.stored, Some(video.(resolutions := Refreshed(video.resolutions, resolution, url, assignedAt))))
  }

  /** A regenerated, non-empty URL, once saved, is served from the cache with
      no signing and no save until UrlTTL after it was assigned; after that
      the playlist is generated again. */
  lemma CachedUntilExpiry(video: VideoRecord, videoID: string, resolution: string, storage: FileStorage,
                          checkedAt: Instant, assignedAt: Instant, storage': FileStorage, later: Instant, assignedAt': Instant)
    requires IsValidResolution(resolution) && video.status == Complete
    requires var o := ReadURL(Ok(video), videoID, resolution, storage, checkedAt, assignedAt);
      o.save.Some? && o.result.value != ""
    ensures var o := ReadURL(Ok(video), videoID, resolution, storage, checkedAt, assignedAt);
      var next := ReadURL(Ok(o.save.value), videoID, resolution, storage', later, assignedAt');
      && (later <= assignedAt + UrlTTL ==> next == UrlOutcome(Ok(o.result.value), None, None))
      && (later > assignedAt + UrlTTL ==>
            next.result == SignedManifest(videoID, ResolutionOf(o.save.value.resolutions, resolution).value, storage').result)
  {
    var o := ReadURL(Ok(video), videoID, resolution, storage, checkedAt, assignedAt);
    var rs := video.resolutions;
    var i := FirstIndex(rs, resolution).value;
    var url := o.result.value;
    var saved := o.save.value;
    assert saved.resolutions == Refreshed(rs, resolution, url, assignedAt);
    RefreshedLookup(rs, resolution, url, assignedAt, later);
    assert IsFirstMatch(saved.resolutions, resolution, i);
  }

  /** The tiers a successful job hands back, one per tier in order, with no
      URL yet. */
  lemma FinishedTiers(job: Job, rs: seq<Resolution>)
    requires RunJob(job).result == Ok(rs)
    ensures |rs| == |Tiers|
    ensures forall k :: 0 <= k < |Tiers| ==>
      rs[k] == Resolution(Tiers[k], ManifestName(job.videoId, Tiers[k]), SegmentCount(job, Tiers[k], 0), "", ZeroTime)
  {
    ProcessVideoOutcome(job);
    ResolutionsFromShape(job, 0);
  }

  /** A video the background step has just completed carries no URL, so the
      first read of any tier signs that tier's playlist: the one listing the
      SegmentCount segments the job uploaded, plus the one index past them
      that the playlist loop also signs although nothing was uploaded there. */
  lemma FirstReadSigns(job: Job, video: VideoRecord, k: nat, storage: FileStorage, checkedAt: Instant, assignedAt: Instant)
    requires k < |Tiers|
    requires video.status == Complete && RunJob(job).result == Ok(video.resolutions)
    ensures ReadURL(Ok(video), job.videoId, Tiers[k], storage, checkedAt, assignedAt).result
      == SignedManifest(job.videoId,
                        Resolution(Tiers[k], ManifestName(job.videoId, Tiers[k]), SegmentCount(job, Tiers[k], 0), "", ZeroTime),
                        storage).result
  {
    var rs := video.resolutions;
    FinishedTiers(job, rs);
    forall j | 0 <= j < k
      ensures rs[j].resolution != Tiers[k]
    {
      assert rs[j].resolution == Tiers[j];
    }
    assert IsFirstMatch(rs, Tiers[k], k);
    assert ResolutionURL(rs, Tiers[k]) == "";
    assert IsValidResolution(Tiers[k]);
  }

  class VideoService {
    const storages: seq<FileStorage>
    const database: BoltDB

    /** At least one backend is configured, as the server's start-up insists. */
    ghost predicate Valid()
      reads database
    {
      |storages| >= 1 && database.Valid()
    }

    constructor (storages: seq<FileStorage>, database: BoltDB)
      requires |storages| >= 1 && database.Valid()
      ensures this.storages == storages && this.database == database && Valid()
    {
      this.storages := storages;
      this.database := database;
    }

    /** Passes the database's answer through. */
    method GetVideo(videoID: string) returns (r: Result<VideoRecord>)
      ensures r == Lookup(database.videos, database.bucket, videoID)
    {
      r := database.GetVideo(videoID);
    }

    /** The synchronous part of an upload: probe the file, then save the new
        video as pending with no tiers. videoID is the fresh uuid the source
        draws; probeOutput is ffprobe's standard output. */
    method CreateVideo(inputFilePath: string, probeOutput: Option<string>, videoID: string, saveFault: bool)
      returns (r: Result<Video>)
      requires Valid()
      modifies database
      ensures Valid()
      ensures var m := ProbeMetadata(inputFilePath, probeOutput);
        && (m.Err? ==> r == Err(m.error))
        && (m.Ok? && (saveFault || videoID == "") ==> r == Err(SaveFailed(videoID)))
        && (m.Ok? && !(saveFault || videoID == "") ==>
              && r.Ok? && fresh(r.value)
              && r.value.Record() == VideoRecord(videoID, m.value, Pending, [])
              && database.videos == old(database.videos)[videoID := r.value.Record()] && database.bucket)
      ensures r.Err? ==> database.videos == old(database.videos) && database.bucket == old(database.bucket)
    {
      var metadata := GetMetadata(inputFilePath, probeOutput);
      if metadata.Err? {
        return Err(metadata.error);
      }
      // The source fills the struct before the save; the object is allocated
      // after it here, which no caller can tell apart.
      var record := VideoRecord(videoID, metadata.value, Pending, []);
      var saved := database.SaveVideo(record, saveFault);
      if saved.Fail? {
        return Err(saved.error);
      }
      var video := new Video(record.id, record.videoMetadata, record.status, record.resolutions);
      return Ok(video);
    }

    /** The background step of an upload: run the job, mark the video
        complete with the job's tiers or as failed, and save it; a failed save
        is only logged. */
    method FinishVideo(video: Video, env: Environment, saveFault: bool) returns (stores: seq<StoreCall>)
      requires Valid()
      modifies video, database
      ensures Valid()
      ensures var job := RunJob(Job(old(video.id), storages, env));
        && stores == job.stores
        && video.id == old(video.id) && video.videoMetadata == old(video.videoMetadata)
        && (job.result.Err? ==> video.status == Failed && video.resolutions == old(video.resolutions))
        && (job.result.Ok? ==> video.status == Complete && video.resolutions == job.result.value)
      ensures saveFault || video.id == "" ==>
        database.videos == old(database.videos) && database.bucket == old(database.bucket)
      ensures !(saveFault || video.id == "") ==>
        database.videos == old(database.videos)[video.id := video.Record()] && database.bucket
    {
      var processed;
      processed, stores := ProcessVideo(video.id, storages, env);
      if processed.Err? {
        video.status := Failed;
      } else {
        video.status := Complete;
        video.resolutions := processed.value;
      }
      var saved := database.SaveVideo(video.Record(), saveFault);
    }

    /** GetVideoURL, with the database read, the playlist written to
        Storages[0] and the save of the refreshed video. */
    method GetVideoURL(videoID: string, resolution: string, checkedAt: Instant, assignedAt: Instant, saveFault: bool)
      returns (r: Result<string>, manifest: Option<string>)
      requires Valid()
      modifies database
      ensures Valid()
      ensures var o := ReadURL(Lookup(old(database.videos), old(database.bucket), videoID), videoID, resolution,
                               storages[0], checkedAt, assignedAt);
        && r == o.result && manifest == o.manifest
        && (o.save.None? || saveFault || o.save.value.id == "" ==>
              database.videos == old(database.videos) && database.bucket == old(database.bucket))
        && (o.save.Some? && !saveFault && o.save.value.id != "" ==>
              database.videos == old(database.videos)[o.save.value.id := o.save.value] && database.bucket)
    {
      if !IsValidResolution(resolution) {
        return Err(ResolutionInvalid), None;
      }
      var found := database.GetVideo(videoID);
      if found.Err? {
        return Err(found.error), None;
      }
      var record := found.value;
      var video := new Video(record.id, record.videoMetadata, record.status, record.resolutions);
      if !video.VideoIsReady() {
        return Err(VideoNotReady), None;
      }
      var currentUrl := video.GetResolutionURL(resolution);
      if currentUrl != "" && !video.IsExpired(resolution, checkedAt) {
        return Ok(currentUrl), None;
      }
      var currentResolution := video.GetResolution(resolution);
      if currentResolution.None? {
        return Err(ResolutionNotFound), None;
      }
      var signed;
      signed, manifest := GenerateSegmentedManifestSigned(videoID, currentResolution.value, storages[0]);
      if signed.Err? {
        return Err(signed.error), manifest;
      }
      video.AssignNewURL(resolution, signed.value, assignedAt);
      var saved := database.SaveVideo(video.Record(), saveFault);
      return Ok(signed.value), manifest;
    }
  }
}
