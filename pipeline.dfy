/** ProcessVideo: the transcoding job that turns an upload into the four HLS
    tiers. ffmpeg, the working directory and the storage backends are
    abstracted: the job sees the encoder listing, whether the output
    directory could be made, which tiers' encodes fail, what probing each
    file of the working directory gives, and which keys each backend
    accepts. */
module Pipeline {
  import opened Errors
  import opened Text
  import opened Videos
  import opened Probe

  /** What os.Stat and then os.ReadFile give for a segment file that exists. */
  datatype FileProbe = Present(content: seq<bv8>) | StatError | ReadError

  datatype Environment = Environment(
    encoderListing: Option<string>,       // stdout of `ffmpeg -encoders`
    outputDirCreated: bool,               // os.MkdirAll(videoId) succeeded
    failingEncodes: set<string>,          // tiers whose ffmpeg run fails to start or exits non-zero
    workDir: map<string, FileProbe>)      // files after encoding; a missing path does not exist

  /** The inputs of one job. */
  datatype Job = Job(videoId: string, storages: seq<FileStorage>, env: Environment)

  /** One Store call as made: backend index, key and bytes. */
  datatype StoreCall = StoreCall(storage: nat, key: string, content: seq<bv8>)

  /** What a job returns together with the Store calls it made, in order. */
  datatype JobOutcome = JobOutcome(result: Result<seq<Resolution>>, stores: seq<StoreCall>)

  // ---------------------------------------------------------------- segment discovery

  function SegmentFile(job: Job, tier: string, i: nat): string
  {
    SegmentKey(job.videoId, tier, i)
  }

  /** The segments 0..n-1 of the tier all exist. */
  predicate AllPresent(job: Job, tier: string, n: nat) {
    forall j :: 0 <= j < n ==> SegmentFile(job, tier, j) in job.env.workDir
  }

  function PresentFiles(job: Job, tier: string, n: nat): set<string>
  {
    set j | 0 <= j < n :: SegmentFile(job, tier, j)
  }

  lemma {:induction false} PresentFilesCount(job: Job, tier: string, n: nat)
    ensures |PresentFiles(job, tier, n)| == n
    decreases n
  {
    if n > 0 {
      PresentFilesCount(job, tier, n - 1);
      PresentFilesSnoc(job, tier, n - 1);
    }
  }

  lemma PresentFilesSnoc(job: Job, tier: string, n: nat)
    ensures SegmentFile(job, tier, n) !in PresentFiles(job, tier, n)
    ensures PresentFiles(job, tier, n + 1) == PresentFiles(job, tier, n) + {SegmentFile(job, tier, n)}
  {
    var key := SegmentFile(job, tier, n);
    if key in PresentFiles(job, tier, n) {
      var j :| 0 <= j < n && SegmentFile(job, tier, j) == key;
      SegmentKeyInjective(job.videoId, tier, j, n);
    }
  }

  /** Distinct indices name distinct files, so a finite directory holds only
      finitely many consecutive segments: the probing loop ends. */
  lemma PresentBound(job: Job, tier: string, n: nat)
    requires AllPresent(job, tier, n)
    ensures n <= |job.env.workDir|
  {
    var files := PresentFiles(job, tier, n);
    var keys := job.env.workDir.Keys;
    PresentFilesCount(job, tier, n);
    assert files <= keys;
    assert keys == files + (keys - files);
    assert |keys| == |files| + |keys - files|;
  }

  /** TotalSegments of a tier: the first index from i on whose file is absent. */
  function SegmentCount(job: Job, tier: string, i: nat): (n: nat)
    requires AllPresent(job, tier, i)
    ensures i <= n && AllPresent(job, tier, n) && SegmentFile(job, tier, n) !in job.env.workDir
    decreases |job.env.workDir| - i
  {
    PresentBound(job, tier, i);
    if SegmentFile(job, tier, i) !in job.env.workDir then i
    else
      PresentBound(job, tier, i + 1);
      SegmentCount(job, tier, i + 1)
  }

  // ---------------------------------------------------------------- the job, step by step

  /** The job from the top of the tier loop at tier t, with the resolutions
      done and the Store calls made so far. */
  function RunTiers(job: Job, t: nat, done: seq<Resolution>, stores: seq<StoreCall>): JobOutcome
    requires t <= |Tiers|
    decreases |Tiers| - t, |job.env.workDir| + 2, 0
  {
    if t == |Tiers| then JobOutcome(Ok(done), stores)
    else if Tiers[t] in job.env.failingEncodes then JobOutcome(Err(EncodeFailed(Tiers[t])), stores)
    else RunSegments(job, t, 0, done, stores)
  }

  /** The job from the top of the probing loop at segment i of tier t. */
  function RunSegments(job: Job, t: nat, i: nat, done: seq<Resolution>, stores: seq<StoreCall>): JobOutcome
    requires t < |Tiers| && AllPresent(job, Tiers[t], i)
    decreases |Tiers| - t, |job.env.workDir| + 1 - i, |job.storages| + 1
  {
    PresentBound(job, Tiers[t], i);
    var key := SegmentFile(job, Tiers[t], i);
    if key !in job.env.workDir then
      RunTiers(job, t + 1, done + [TierResolution(job, Tiers[t], i)], stores)
    else match job.env.workDir[key]
      case StatError => JobOutcome(Err(SegmentStatFailed(key)), stores)
      case ReadError => JobOutcome(Err(SegmentReadFailed(key)), stores)
      case Present(content) => RunReplicas(job, t, i, content, 0, done, stores)
  }

  /** The job from the top of the storage loop at backend s, replicating
      segment i of tier t. */
  function RunReplicas(job: Job, t: nat, i: nat, content: seq<bv8>, s: nat, done: seq<Resolution>, stores: seq<StoreCall>): JobOutcome
    requires t < |Tiers| && AllPresent(job, Tiers[t], i + 1)
    decreases |Tiers| - t, |job.env.workDir| + 1 - i, |job.storages| - s
  {
    PresentBound(job, Tiers[t], i + 1);
    var key := SegmentFile(job, Tiers[t], i);
    if s >= |job.storages| then RunSegments(job, t, i + 1, done, stores)
    else
      var calls := stores + [StoreCall(s, key, content)];
      if job.storages[s].accepts(key) then RunReplicas(job, t, i, content, s + 1, done, calls)
      else JobOutcome(Err(SegmentStoreFailed(key, s)), calls)
  }

  /** The entry a finished tier contributes: no URL signed yet. */
  function TierResolution(job: Job, tier: string, totalSegments: nat): Resolution
  {
    Resolution(tier, ManifestName(job.videoId, tier), totalSegments, "", ZeroTime)
  }

  /** The whole job: encoder selection and the output directory come first. */
  function RunJob(job: Job): JobOutcome
  {
    match SelectH264Encoder(job.env.encoderListing)
    case Err(e) => JobOutcome(Err(e), [])
    case Ok(_) =>
      if !job.env.outputDirCreated then JobOutcome(Err(OutputDirFailed), [])
      else RunTiers(job, 0, [], [])
  }

  method ProcessVideo(videoId: string, storages: seq<FileStorage>, env: Environment)
    returns (r: Result<seq<Resolution>>, stores: seq<StoreCall>)
    ensures JobOutcome(r, stores) == RunJob(Job(videoId, storages, env))
  {
    ghost var job := Job(videoId, storages, env);
    var processedResolutions: seq<Resolution> := [];
    stores := [];
    var encoder := SelectH264Encoder(env.encoderListing);
    if encoder.Err? {
      return Err(encoder.error), stores;
    }
    if !env.outputDirCreated {
      return Err(OutputDirFailed), stores;
    }
    for t := 0 to |Tiers|
      invariant RunTiers(job, t, processedResolutions, stores) == RunJob(job)
    {
      var res := Tiers[t];
      if res in env.failingEncodes {
        return Err(EncodeFailed(res)), stores;
      }
      var segmentIndex := 0;
      while true
        invariant AllPresent(job, res, segmentIndex)
        invariant RunSegments(job, t, segmentIndex, processedResolutions, stores) == RunJob(job)
        decreases |env.workDir| - segmentIndex
      {
        PresentBound(job, res, segmentIndex);
        var segmentFileName := SegmentKey(videoId, res, segmentIndex);
        if segmentFileName !in env.workDir {
          break;
        }
        var probe := env.workDir[segmentFileName];
        if probe.StatError? {
          return Err(SegmentStatFailed(segmentFileName)), stores;
        }
        if probe.ReadError? {
          return Err(SegmentReadFailed(segmentFileName)), stores;
        }
        var segmentBuffer := probe.content;
        for s := 0 to |storages|
          invariant RunReplicas(job, t, segmentIndex, segmentBuffer, s, processedResolutions, stores) == RunJob(job)
        {
          stores := stores + [StoreCall(s, segmentFileName, segmentBuffer)];
          if !storages[s].accepts(segmentFileName) {
            return Err(SegmentStoreFailed(segmentFileName, s)), stores;
          }
        }
        segmentIndex := segmentIndex + 1;
        PresentBound(job, res, segmentIndex);
      }
      processedResolutions := processedResolutions + [Resolution(res, ManifestName(videoId, res), segmentIndex, "", ZeroTime)];
    }
    return Ok(processedResolutions), stores;
  }

  // ---------------------------------------------------------------- what the job does

  /** Every backend from s on accepts the key. */
  predicate ReplicatedFrom(job: Job, key: string, s: nat) {
    forall k :: s <= k < |job.storages| ==> job.storages[k].accepts(key)
  }

  /** The Store calls that replicate one segment to the backends from s on. */
  function Replicas(job: Job, key: string, content: seq<bv8>, s: nat): seq<StoreCall>
    decreases |job.storages| - s
  {
    if s >= |job.storages| then [] else [StoreCall(s, key, content)] + Replicas(job, key, content, s + 1)
  }

  /** The segments of the tier from i up to its count can all be read and
      are accepted by every backend. */
  predicate TierClean(job: Job, tier: string, i: nat)
    requires AllPresent(job, tier, i)
    decreases |job.env.workDir| - i
  {
    PresentBound(job, tier, i);
    var key := SegmentFile(job, tier, i);
    key !in job.env.workDir
    || (&& job.env.workDir[key].Present?
        && ReplicatedFrom(job, key, 0)
        && (PresentBound(job, tier, i + 1); TierClean(job, tier, i + 1)))
  }

  /** The Store calls of a clean tier from segment i on: each segment to
      every backend in backend order, segments in index order. */
  function TierStores(job: Job, tier: string, i: nat): seq<StoreCall>
    requires AllPresent(job, tier, i) && TierClean(job, tier, i)
    decreases |job.env.workDir| - i
  {
    PresentBound(job, tier, i);
    var key := SegmentFile(job, tier, i);
    if key !in job.env.workDir then []
    else
      PresentBound(job, tier, i + 1);
      Replicas(job, key, job.env.workDir[key].content, 0) + TierStores(job, tier, i + 1)
  }

  /** No encode fails and every tier from t on is clean. */
  predicate TiersClean(job: Job, t: nat)
    requires t <= |Tiers|
    decreases |Tiers| - t
  {
    t == |Tiers|
    || (Tiers[t] !in job.env.failingEncodes && TierClean(job, Tiers[t], 0) && TiersClean(job, t + 1))
  }

  function ResolutionsFrom(job: Job, t: nat): seq<Resolution>
    requires t <= |Tiers|
    decreases |Tiers| - t
  {
    if t == |Tiers| then []
    else [TierResolution(job, Tiers[t], SegmentCount(job, Tiers[t], 0))] + ResolutionsFrom(job, t + 1)
  }

  function StoresFrom(job: Job, t: nat): seq<StoreCall>
    requires t <= |Tiers| && TiersClean(job, t)
    decreases |Tiers| - t
  {
    if t == |Tiers| then [] else TierStores(job, Tiers[t], 0) + StoresFrom(job, t + 1)
  }

  /** The job succeeds when an encoder is found, the output directory is made
      and every tier is encoded, read and replicated. */
  predicate JobSucceeds(job: Job) {
    SelectH264Encoder(job.env.encoderListing).Ok? && job.env.outputDirCreated && TiersClean(job, 0)
  }

  /** The storage loop either replicates the segment to every remaining
      backend and moves to the next segment, or fails. */
  lemma {:induction false} ReplicasRun(job: Job, t: nat, i: nat, content: seq<bv8>, s: nat, done: seq<Resolution>, stores: seq<StoreCall>)
    requires t < |Tiers| && AllPresent(job, Tiers[t], i + 1)
    ensures var key := SegmentFile(job, Tiers[t], i);
      ReplicatedFrom(job, key, s) ==>
        RunReplicas(job, t, i, content, s, done, stores)
        == RunSegments(job, t, i + 1, done, stores + Replicas(job, key, content, s))
    ensures !ReplicatedFrom(job, SegmentFile(job, Tiers[t], i), s) ==> RunReplicas(job, t, i, content, s, done, stores).result.Err?
    decreases |job.storages| - s
  {
    var key := SegmentFile(job, Tiers[t], i);
    if s >= |job.storages| {
      assert stores + [] == stores;
    } else {
      var calls := stores + [StoreCall(s, key, content)];
      if job.storages[s].accepts(key) {
        ReplicasRun(job, t, i, content, s + 1, done, calls);
        assert calls + Replicas(job, key, content, s + 1) == stores + Replicas(job, key, content, s);
      }
    }
  }

  /** The probing loop of a clean tier finishes the tier with its segment
      count and all its Store calls; otherwise the job fails. */
  lemma {:induction false} SegmentsRun(job: Job, t: nat, i: nat, done: seq<Resolution>, stores: seq<StoreCall>)
    requires t < |Tiers| && AllPresent(job, Tiers[t], i)
    ensures TierClean(job, Tiers[t], i) ==>
      RunSegments(job, t, i, done, stores)
      == RunTiers(job, t + 1, done + [TierResolution(job, Tiers[t], SegmentCount(job, Tiers[t], i))],
                  stores + TierStores(job, Tiers[t], i))
    ensures !TierClean(job, Tiers[t], i) ==> RunSegments(job, t, i, done, stores).result.Err?
    decreases |job.env.workDir| - i
  {
    var tier := Tiers[t];
    PresentBound(job, tier, i);
    var key := SegmentFile(job, tier, i);
    if key !in job.env.workDir {
      assert stores + [] == stores;
    } else if job.env.workDir[key].Present? {
      var content := job.env.workDir[key].content;
      PresentBound(job, tier, i + 1);
      ReplicasRun(job, t, i, content, 0, done, stores);
      if ReplicatedFrom(job, key, 0) {
        var calls := stores + Replicas(job, key, content, 0);
        TierUnfold(job, tier, i);
        SegmentsRun(job, t, i + 1, done, calls);
        if TierClean(job, tier, i) {
          var later := TierStores(job, tier, i + 1);
          assert calls + later == stores + (Replicas(job, key, content, 0) + later);
        }
      }
    }
  }

  /** One present, replicated segment: the tier's facts from i are those
      from i + 1 with the segment's Store calls in front. */
  lemma TierUnfold(job: Job, tier: string, i: nat)
    requires AllPresent(job, tier, i)
    requires SegmentFile(job, tier, i) in job.env.workDir
    requires job.env.workDir[SegmentFile(job, tier, i)].Present? && ReplicatedFrom(job, SegmentFile(job, tier, i), 0)
    ensures AllPresent(job, tier, i + 1)
    ensures SegmentCount(job, tier, i) == SegmentCount(job, tier, i + 1)
    ensures TierClean(job, tier, i) <==> TierClean(job, tier, i + 1)
    ensures TierClean(job, tier, i) ==>
      var key := SegmentFile(job, tier, i);
      TierStores(job, tier, i) == Replicas(job, key, job.env.workDir[key].content, 0) + TierStores(job, tier, i + 1)
  {
  }

  /** From tier t on, the job succeeds exactly when the remaining tiers are
      clean, and then it returns their entries and makes their Store calls. */
  lemma {:induction false} TiersRun(job: Job, t: nat, done: seq<Resolution>, stores: seq<StoreCall>)
    requires t <= |Tiers|
    ensures RunTiers(job, t, done, stores).result.Ok? <==> TiersClean(job, t)
    ensures TiersClean(job, t) ==>
      RunTiers(job, t, done, stores) == JobOutcome(Ok(done + ResolutionsFrom(job, t)), stores + StoresFrom(job, t))
    decreases |Tiers| - t
  {
    if t == |Tiers| {
      assert done + [] == done && stores + [] == stores;
    } else if Tiers[t] !in job.env.failingEncodes {
      var tier := Tiers[t];
      SegmentsRun(job, t, 0, done, stores);
      if TierClean(job, tier, 0) {
        var entry := TierResolution(job, tier, SegmentCount(job, tier, 0));
        var calls := stores + TierStores(job, tier, 0);
        TiersRun(job, t + 1, done + [entry], calls);
        if TiersClean(job, t) {
          TiersAppend(job, t, done, stores);
        }
      }
    }
  }

  lemma TiersAppend(job: Job, t: nat, done: seq<Resolution>, stores: seq<StoreCall>)
    requires t < |Tiers| && TiersClean(job, t)
    ensures var tier := Tiers[t];
      && done + [TierResolution(job, tier, SegmentCount(job, tier, 0))] + ResolutionsFrom(job, t + 1)
         == done + ResolutionsFrom(job, t)
      && stores + TierStores(job, tier, 0) + StoresFrom(job, t + 1) == stores + StoresFrom(job, t)
  {
    ResolutionsAppend(job, t, done);
    StoresAppend(job, t, stores);
  }

  lemma ResolutionsAppend(job: Job, t: nat, done: seq<Resolution>)
    requires t < |Tiers|
    ensures done + [TierResolution(job, Tiers[t], SegmentCount(job, Tiers[t], 0))] + ResolutionsFrom(job, t + 1)
         == done + ResolutionsFrom(job, t)
  {
    var entry := TierResolution(job, Tiers[t], SegmentCount(job, Tiers[t], 0));
    var rest := ResolutionsFrom(job, t + 1);
    assert ResolutionsFrom(job, t) == [entry] + rest;
    assert done + [entry] + rest == done + ([entry] + rest);
  }

  lemma StoresAppend(job: Job, t: nat, stores: seq<StoreCall>)
    requires t < |Tiers| && TiersClean(job, t)
    ensures stores + TierStores(job, Tiers[t], 0) + StoresFrom(job, t + 1) == stores + StoresFrom(job, t)
  {
    var mine := TierStores(job, Tiers[t], 0);
    var later := StoresFrom(job, t + 1);
    assert StoresFrom(job, t) == mine + later;
    assert stores + mine + later == stores + (mine + later);
  }

  /** ProcessVideo is all-or-nothing: it returns the four tiers exactly when
      the job succeeds, having made every segment's Store calls; encoder
      selection and the output directory are checked before anything is
      stored. */
  lemma ProcessVideoOutcome(job: Job)
    ensures RunJob(job).result.Ok? <==> JobSucceeds(job)
    ensures JobSucceeds(job) ==> RunJob(job) == JobOutcome(Ok(ResolutionsFrom(job, 0)), StoresFrom(job, 0))
    ensures SelectH264Encoder(job.env.encoderListing).Err? ==>
      RunJob(job) == JobOutcome(Err(SelectH264Encoder(job.env.encoderListing).error), [])
    ensures SelectH264Encoder(job.env.encoderListing).Ok? && !job.env.outputDirCreated ==>
      RunJob(job) == JobOutcome(Err(OutputDirFailed), [])
  {
    TiersRun(job, 0, [], []);
    if TiersClean(job, 0) {
      assert [] + ResolutionsFrom(job, 0) == ResolutionsFrom(job, 0);
      assert [] + StoresFrom(job, 0) == StoresFrom(job, 0);
    }
  }

  /** The entries of a successful job: one per tier in the order 360p, 480p,
      720p, 1080p, each naming its manifest key and its segment count, with no
      URL yet. */
  lemma {:induction false} ResolutionsFromShape(job: Job, t: nat)
    requires t <= |Tiers|
    ensures |ResolutionsFrom(job, t)| == |Tiers| - t
    ensures forall k :: t <= k < |Tiers| ==>
      ResolutionsFrom(job, t)[k - t]
      == Resolution(Tiers[k], ManifestName(job.videoId, Tiers[k]), SegmentCount(job, Tiers[k], 0), "", ZeroTime)
    decreases |Tiers| - t
  {
    if t < |Tiers| {
      ResolutionsFromShape(job, t + 1);
      var r := ResolutionsFrom(job, t);
      var rest := ResolutionsFrom(job, t + 1);
      assert r == [TierResolution(job, Tiers[t], SegmentCount(job, Tiers[t], 0))] + rest;
      forall k | t <= k < |Tiers|
        ensures r[k - t] == Resolution(Tiers[k], ManifestName(job.videoId, Tiers[k]), SegmentCount(job, Tiers[k], 0), "", ZeroTime)
      {
        if k > t {
          assert r[k - t] == rest[k - (t + 1)];
        }
      }
    }
  }

  /** A tier is clean exactly when each of its segments below the count can
      be read and is accepted by every backend. */
  lemma {:induction false} TierCleanMeans(job: Job, tier: string, i: nat)
    requires AllPresent(job, tier, i)
    ensures TierClean(job, tier, i) <==>
      forall j :: i <= j < SegmentCount(job, tier, i) ==>
        job.env.workDir[SegmentFile(job, tier, j)].Present? && ReplicatedFrom(job, SegmentFile(job, tier, j), 0)
    decreases |job.env.workDir| - i
  {
    PresentBound(job, tier, i);
    var key := SegmentFile(job, tier, i);
    if key in job.env.workDir {
      PresentBound(job, tier, i + 1);
      TierCleanMeans(job, tier, i + 1);
    }
  }

  /** A segment is offered to every backend once, in backend order. */
  lemma {:induction false} ReplicasInOrder(job: Job, key: string, content: seq<bv8>, s: nat)
    requires s <= |job.storages|
    ensures |Replicas(job, key, content, s)| == |job.storages| - s
    ensures forall k :: s <= k < |job.storages| ==> Replicas(job, key, content, s)[k - s] == StoreCall(k, key, content)
    decreases |job.storages| - s
  {
    if s < |job.storages| {
      ReplicasInOrder(job, key, content, s + 1);
    }
  }
}
