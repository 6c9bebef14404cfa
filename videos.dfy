/** The video entity of video.go: its resolution tiers, the deterministic
    storage keys of segments and manifests, the lookups by tier and the
    per-tier signed-URL cache with its expiry. */
module Videos {
  import opened Errors
  import opened Text

  /** An instant on Go's time line, in nanoseconds from the Unix epoch. */
  type Instant = int

  const NanosPerSecond: int := 1_000_000_000

  /** The zero time.Time (January 1, year 1, 00:00:00 UTC): the expiry of a
      resolution whose URL was never signed. */
  const ZeroTime: Instant := -62_135_596_800 * NanosPerSecond

  /** time.Minute * 60: how long a freshly signed manifest URL is trusted. */
  const UrlTTL: int := 60 * 60 * NanosPerSecond

  /** VideoStatus: Unset is the empty status of a zero Video, Failed the
      source's "error" status. */
  datatype VideoStatus = Unset | Pending | Complete | Failed

  datatype Resolution = Resolution(
    resolution: string,
    manifest: string,
    totalSegments: nat,
    url: string,
    urlExpirationTime: Instant)

  datatype VideoMetadata = VideoMetadata(width: int, height: int, name: string, duration: string)

  /** A Video as a value: what the database stores and hands back. */
  datatype VideoRecord = VideoRecord(
    id: string,
    videoMetadata: VideoMetadata,
    status: VideoStatus,
    resolutions: seq<Resolution>)

  /** The FileStorage interface, as the answers a backend gives: whether Store
      of a key succeeds, and what SignedURL returns for a key (None: an error). */
  datatype FileStorage = FileStorage(accepts: string -> bool, sign: string -> Option<string>)

  /** The fixed quality tiers, in the order the pipeline produces them. */
  const Tiers: seq<string> := ["360p", "480p", "720p", "1080p"]

  function IsValidResolution(resolution: string): (valid: bool)
    ensures valid <==> resolution == "360p" || resolution == "480p" || resolution == "720p" || resolution == "1080p"
  {
    resolution in Tiers
  }

  // ---------------------------------------------------------------- naming

  function VideoSegmentName(resolution: string, segment: nat): string
  {
    "video_" + resolution + "_" + Pad3(segment) + ".ts"
  }

  /** The storage key of a segment: the video id as directory. */
  function SegmentKey(videoId: string, resolution: string, segment: nat): string
  {
    videoId + "/" + VideoSegmentName(resolution, segment)
  }

  function ManifestName(videoId: string, resolution: string): string
  {
    videoId + "/manifest_" + resolution + ".m3u8"
  }

  /** A segment name is "video_", the tier, "_", the index written with at
      least three decimal digits (exactly three below 100), and ".ts". */
  lemma SegmentNameFormat(resolution: string, segment: nat)
    ensures var name := VideoSegmentName(resolution, segment);
      var digits := name[|resolution| + 7..|name| - 3];
      && name == "video_" + resolution + "_" + digits + ".ts"
      && |digits| >= 3 && AllDigits(digits) && DigitsValue(digits) == segment
      && (segment < 100 ==> |digits| == 3)
      && (segment >= 100 ==> digits == Decimal(segment))
  {
    var name := VideoSegmentName(resolution, segment);
    Pad3Digits(segment);
    assert name[|resolution| + 7..|name| - 3] == Pad3(segment);
  }

  lemma {:induction false} SplitSegmentName(r1: string, p1: string, r2: string, p2: string)
    requires '_' !in p1 && '_' !in p2
    requires "video_" + r1 + "_" + p1 + ".ts" == "video_" + r2 + "_" + p2 + ".ts"
    ensures r1 == r2 && p1 == p2
  {
    var n := "video_" + r1 + "_" + p1 + ".ts";
    var m1, m2 := r1 + "_" + p1, r2 + "_" + p2;
    assert n == "video_" + m1 + ".ts";
    assert "video_" + r2 + "_" + p2 + ".ts" == "video_" + m2 + ".ts";
    assert m1 == n[6..|n| - 3] == m2;
    AfterLastJoin(r1, p1, '_');
    AfterLastJoin(r2, p2, '_');
    assert r1 == m1[..|r1|] && r2 == m2[..|r2|];
  }

  /** Distinct (tier, index) pairs never share a segment name: the tier and
      the digits are recovered around the last '_'. */
  lemma SegmentNameInjective(r1: string, i1: nat, r2: string, i2: nat)
    requires VideoSegmentName(r1, i1) == VideoSegmentName(r2, i2)
    ensures r1 == r2 && i1 == i2
  {
    var p1, p2 := Pad3(i1), Pad3(i2);
    Pad3Digits(i1);
    Pad3Digits(i2);
    assert '_' !in p1 && '_' !in p2 by {
      assert forall k :: 0 <= k < |p1| ==> IsDigit(p1[k]);
      assert forall k :: 0 <= k < |p2| ==> IsDigit(p2[k]);
    }
    SplitSegmentName(r1, p1, r2, p2);
  }

  /** Within one video and tier, a segment key determines the index. */
  lemma SegmentKeyInjective(videoId: string, resolution: string, i: nat, j: nat)
    requires SegmentKey(videoId, resolution, i) == SegmentKey(videoId, resolution, j)
    ensures i == j
  {
    var k := SegmentKey(videoId, resolution, i);
    assert VideoSegmentName(resolution, i) == k[|videoId| + 1..] == VideoSegmentName(resolution, j);
    SegmentNameInjective(resolution, i, resolution, j);
  }

  /** For ids without '/', as uuid.New().String() produces, manifest keys are
      distinct for distinct (id, tier) pairs and never coincide with a segment
      key, so a regenerated manifest overwrites only its own older copy. */
  lemma ManifestNameDistinct(id1: string, r1: string, id2: string, r2: string, i: nat)
    requires '/' !in id1 && '/' !in id2
    ensures ManifestName(id1, r1) == ManifestName(id2, r2) ==> id1 == id2 && r1 == r2
    ensures ManifestName(id1, r1) != SegmentKey(id2, r2, i)
  {
    var t1, t2 := "manifest_" + r1 + ".m3u8", "manifest_" + r2 + ".m3u8";
    var m1, m2 := ManifestName(id1, r1), ManifestName(id2, r2);
    var s2 := SegmentKey(id2, r2, i);
    assert m1 == id1 + "/" + t1 && m2 == id2 + "/" + t2;
    BeforeFirstJoin(id1, t1, '/');
    BeforeFirstJoin(id2, t2, '/');
    BeforeFirstJoin(id2, VideoSegmentName(r2, i), '/');
    if m1 == m2 {
      assert id1 == id2;
      assert t1 == m1[|id1| + 1..] && t2 == m2[|id2| + 1..];
      assert r1 == t1[9..|t1| - 5] && r2 == t2[9..|t2| - 5];
    }
    if id1 == id2 {
      assert m1[|id1| + 1] == 'm' && s2[|id2| + 1] == 'v';
    }
  }

  // ---------------------------------------------------------------- lookups

  /** Entry i is the first whose tier is the one asked for. */
  predicate IsFirstMatch(rs: seq<Resolution>, tier: string, i: int) {
    0 <= i < |rs| && rs[i].resolution == tier && forall j :: 0 <= j < i ==> rs[j].resolution != tier
  }

  predicate NoMatch(rs: seq<Resolution>, tier: string) {
    forall j :: 0 <= j < |rs| ==> rs[j].resolution != tier
  }

  /** The index the source's range loops stop at. */
  function FirstIndex(rs: seq<Resolution>, tier: string): (r: Option<nat>)
    ensures r.Some? ==> IsFirstMatch(rs, tier, r.value)
    ensures r.None? <==> NoMatch(rs, tier)
  {
    if rs == [] then None
    else if rs[0].resolution == tier then Some(0)
    else match FirstIndex(rs[1..], tier)
      case None => None
      case Some(i) => Some(i + 1)
  }

  /** GetResolutionURL: the cached URL of the first entry of the tier, "" when
      there is none. */
  function ResolutionURL(rs: seq<Resolution>, tier: string): (url: string)
    ensures NoMatch(rs, tier) ==> url == ""
    ensures forall i :: IsFirstMatch(rs, tier, i) ==> url == rs[i].url
  {
    match FirstIndex(rs, tier)
    case None => ""
    case Some(i) => rs[i].url
  }

  /** GetResolution: a copy of the first entry of the tier (nil: None). */
  function ResolutionOf(rs: seq<Resolution>, tier: string): (r: Option<Resolution>)
    ensures r.None? <==> NoMatch(rs, tier)
    ensures forall i :: IsFirstMatch(rs, tier, i) ==> r == Some(rs[i])
  {
    match FirstIndex(rs, tier)
    case None => None
    case Some(i) => Some(rs[i])
  }

  /** IsExpired: true when no entry has the tier; otherwise true exactly when
      now is strictly after the first such entry's expiry. */
  function Expired(rs: seq<Resolution>, tier: string, now: Instant): (expired: bool)
    ensures NoMatch(rs, tier) ==> expired
    ensures forall i :: IsFirstMatch(rs, tier, i) ==> (expired <==> now > rs[i].urlExpirationTime)
  {
    match FirstIndex(rs, tier)
    case None => true
    case Some(i) => now > rs[i].urlExpirationTime
  }

  /** The entries after AssignNewURL: the first entry of the tier gets the new
      URL, expiring UrlTTL after now; nothing else changes. */
  function Refreshed(rs: seq<Resolution>, tier: string, url: string, now: Instant): (r: seq<Resolution>)
    ensures |r| == |rs|
    ensures NoMatch(rs, tier) ==> r == rs
    ensures forall i :: IsFirstMatch(rs, tier, i) ==>
      && r[i] == rs[i].(url := url, urlExpirationTime := now + UrlTTL)
      && forall j :: 0 <= j < |rs| && j != i ==> r[j] == rs[j]
    ensures forall j :: 0 <= j < |r| ==>
      r[j].resolution == rs[j].resolution && r[j].manifest == rs[j].manifest && r[j].totalSegments == rs[j].totalSegments
  {
    match FirstIndex(rs, tier)
    case None => rs
    case Some(i) => rs[i := rs[i].(url := url, urlExpirationTime := now + UrlTTL)]
  }

  /** After a refresh the tier's lookups see the new URL, and it stays
      unexpired up to and including now + UrlTTL. */
  lemma RefreshedLookup(rs: seq<Resolution>, tier: string, url: string, now: Instant, later: Instant)
    requires !NoMatch(rs, tier)
    ensures FirstIndex(Refreshed(rs, tier, url, now), tier) == FirstIndex(rs, tier)
    ensures ResolutionURL(Refreshed(rs, tier, url, now), tier) == url
    ensures Expired(Refreshed(rs, tier, url, now), tier, later) <==> later > now + UrlTTL
  {
    var i := FirstIndex(rs, tier).value;
    var r := Refreshed(rs, tier, url, now);
    assert IsFirstMatch(r, tier, i);
    var k := FirstIndex(r, tier);
    assert k.Some? && IsFirstMatch(r, tier, k.value);
  }

  // ---------------------------------------------------------------- Video

  /** The Video struct as the service holds it in memory: its methods and the
      service update its fields in place. */
  class Video {
    var id: string
    var videoMetadata: VideoMetadata
    var status: VideoStatus
    var resolutions: seq<Resolution>

    constructor (id: string, videoMetadata: VideoMetadata, status: VideoStatus, resolutions: seq<Resolution>)
      ensures this.id == id && this.videoMetadata == videoMetadata
      ensures this.status == status && this.resolutions == resolutions
    {
      this.id := id;
      this.videoMetadata := videoMetadata;
      this.status := status;
      this.resolutions := resolutions;
    }

    /** The value that SaveVideo serialises. */
    function Record(): VideoRecord
      reads this
    {
      VideoRecord(id, videoMetadata, status, resolutions)
    }

    function GetResolutionURL(tier: string): string
      reads this
    {
      ResolutionURL(resolutions, tier)
    }

    function GetResolution(tier: string): Option<Resolution>
      reads this
    {
      ResolutionOf(resolutions, tier)
    }

    /** Ready once the background job has finished successfully: a video
        still pending, one whose job failed, and the zero video are not. */
    function VideoIsReady(): (ready: bool)
      reads this
      ensures ready <==> !(Record().status.Pending? || Record().status.Failed? || Record().status.Unset?)
    {
      status == Complete
    }

    function IsExpired(tier: string, now: Instant): bool
      reads this
    {
      Expired(resolutions, tier, now)
    }

    /** Writes the URL and its expiry into the first entry of the tier. */
    method AssignNewURL(tier: string, url: string, now: Instant)
      modifies this
      ensures resolutions == Refreshed(old(resolutions), tier, url, now)
      ensures id == old(id) && videoMetadata == old(videoMetadata) && status == old(status)
    {
      for i := 0 to |resolutions|
        invariant resolutions == old(resolutions)
        invariant forall j :: 0 <= j < i ==> resolutions[j].resolution != tier
      {
        if resolutions[i].resolution == tier {
          assert IsFirstMatch(resolutions, tier, i);
          resolutions := resolutions[i := resolutions[i].(url := url, urlExpirationTime := now + UrlTTL)];
          return;
        }
      }
    }
  }
}
