/** The BoltDB-backed video store: one bucket "videos" mapping a video id to
    the stored video, read back one at a time or as a page of all videos in
    key order. */
module Database {
  import opened Errors
  import opened Videos

  /** The zero Video that GetVideo hands back while the bucket does not exist. */
  const ZeroVideo: VideoRecord := VideoRecord("", VideoMetadata(0, 0, "", ""), Unset, [])

  datatype Page = Page(currentPage: int, limit: int, totalPages: int, items: seq<VideoRecord>)

  // ---------------------------------------------------------------- key order

  /** Bolt orders keys bytewise; UTF-8 keeps code-point order, so this is the
      lexicographic order of the keys as characters. */
  predicate KeyLess(a: string, b: string)
    decreases |a|
  {
    |b| > 0 && (|a| == 0 || a[0] < b[0] || (a[0] == b[0] && KeyLess(a[1..], b[1..])))
  }

  lemma {:induction false} KeyLessIrreflexive(a: string)
    ensures !KeyLess(a, a)
    decreases |a|
  {
    if |a| > 0 { KeyLessIrreflexive(a[1..]); }
  }

  lemma {:induction false} KeyLessTransitive(a: string, b: string, c: string)
    requires KeyLess(a, b) && KeyLess(b, c)
    ensures KeyLess(a, c)
    decreases |a|
  {
    if |a| > 0 && a[0] == b[0] && b[0] == c[0] {
      KeyLessTransitive(a[1..], b[1..], c[1..]);
    }
  }

  lemma {:induction false} KeyLessTotal(a: string, b: string)
    requires a != b
    ensures KeyLess(a, b) || KeyLess(b, a)
    decreases |a|
  {
    if |a| > 0 && |b| > 0 && a[0] == b[0] {
      assert a == [a[0]] + a[1..] && b == [b[0]] + b[1..];
      KeyLessTotal(a[1..], b[1..]);
    }
  }

  lemma KeyLessAsymmetric(a: string, b: string)
    requires KeyLess(a, b)
    ensures !KeyLess(b, a)
  {
    if KeyLess(b, a) {
      KeyLessTransitive(a, b, a);
      KeyLessIrreflexive(a);
    }
  }

  /** m comes before every other key of the set. */
  predicate IsLeast(m: string, keys: set<string>) {
    m in keys && forall k :: k in keys && k != m ==> KeyLess(m, k)
  }

  /** A finite nonempty set of keys has a least key. */
  lemma LeastExists(keys: set<string>)
    requires keys != {}
    ensures exists m :: IsLeast(m, keys)
  {
    var m := LeastOf(keys);
  }

  lemma {:induction false} LeastOf(keys: set<string>) returns (m: string)
    requires keys != {}
    ensures IsLeast(m, keys)
    decreases |keys|
  {
    var x :| x in keys;
    if keys == {x} {
      m := x;
    } else {
      var m' := LeastOf(keys - {x});
      if KeyLess(x, m') {
        m := x;
        forall k | k in keys && k != x ensures KeyLess(x, k) {
          if k != m' { KeyLessTransitive(x, m', k); }
        }
      } else {
        m := m';
        KeyLessTotal(x, m');
      }
    }
  }

  lemma LeastUnique(m: string, n: string, keys: set<string>)
    requires IsLeast(m, keys) && IsLeast(n, keys)
    ensures m == n
  {
    if m != n {
      KeyLessAsymmetric(m, n);
    }
  }

  /** The keys as a cursor visits them: First, then Next until the end. */
  ghost function SortedKeys(keys: set<string>): seq<string>
    decreases |keys|
  {
    if keys == {} then []
    else
      LeastExists(keys);
      var m :| IsLeast(m, keys);
      [m] + SortedKeys(keys - {m})
  }

  /** The cursor order lists each key once, in strictly increasing order. */
  lemma {:induction false} SortedKeysOrdered(keys: set<string>)
    ensures |SortedKeys(keys)| == |keys|
    ensures forall k :: k in keys <==> k in SortedKeys(keys)
    ensures forall i, j :: 0 <= i < j < |SortedKeys(keys)| ==> KeyLess(SortedKeys(keys)[i], SortedKeys(keys)[j])
    decreases |keys|
  {
    if keys != {} {
      var r := SortedKeys(keys);
      var m := r[0];
      var rest := SortedKeys(keys - {m});
      assert r == [m] + rest && IsLeast(m, keys);
      SortedKeysOrdered(keys - {m});
      forall i, j | 0 <= i < j < |r| ensures KeyLess(r[i], r[j]) {
        if i == 0 {
          assert r[j] == rest[j - 1] && r[j] in keys - {m};
        } else {
          assert r[i] == rest[i - 1] && r[j] == rest[j - 1];
        }
      }
    }
  }

  /** The cursor's first key is the least one, whatever is left after it. */
  lemma SortedKeysFirst(keys: set<string>, m: string)
    requires IsLeast(m, keys)
    ensures SortedKeys(keys) == [m] + SortedKeys(keys - {m})
  {
    var r := SortedKeys(keys);
    assert IsLeast(r[0], keys) && r == [r[0]] + SortedKeys(keys - {r[0]});
    LeastUnique(m, r[0], keys);
  }

  /** The stored videos of the given keys, in that order. */
  function Records(videos: map<string, VideoRecord>, keys: seq<string>): seq<VideoRecord>
    requires forall k :: k in keys ==> k in videos
  {
    seq(|keys|, i requires 0 <= i < |keys| => videos[keys[i]])
  }

  lemma RecordsSnoc(videos: map<string, VideoRecord>, keys: seq<string>, k: string)
    requires forall j :: j in keys ==> j in videos
    requires k in videos
    ensures forall j :: j in keys + [k] ==> j in videos
    ensures Records(videos, keys + [k]) == Records(videos, keys) + [videos[k]]
  {
    assert forall j :: j in keys + [k] ==> j in keys || j == k;
  }

  /** What the cursor loop collects: nothing without the bucket, otherwise
      every stored video in key order. */
  ghost function Listing(videos: map<string, VideoRecord>, bucket: bool): seq<VideoRecord>
  {
    if !bucket then []
    else
      SortedKeysOrdered(videos.Keys);
      Records(videos, SortedKeys(videos.Keys))
  }

  /** With every video filed under its own id, the listing holds each
      stored video exactly once, in increasing id order. */
  lemma ListingOrdered(videos: map<string, VideoRecord>, bucket: bool)
    requires forall id :: id in videos ==> videos[id].id == id
    ensures !bucket ==> Listing(videos, bucket) == []
    ensures bucket ==> |Listing(videos, bucket)| == |videos|
    ensures bucket ==> forall id :: id in videos ==> videos[id] in Listing(videos, bucket)
    ensures forall v :: v in Listing(videos, bucket) ==> v.id in videos && videos[v.id] == v
    ensures forall i, j :: 0 <= i < j < |Listing(videos, bucket)| ==>
      KeyLess(Listing(videos, bucket)[i].id, Listing(videos, bucket)[j].id)
  {
    if bucket {
      var keys := SortedKeys(videos.Keys);
      SortedKeysOrdered(videos.Keys);
      var l := Listing(videos, bucket);
      assert forall i :: 0 <= i < |l| ==> l[i] == videos[keys[i]] && l[i].id == keys[i];
      forall id | id in videos ensures videos[id] in l {
        var i :| 0 <= i < |keys| && keys[i] == id;
        assert l[i] == videos[id];
      }
    }
  }

  // ---------------------------------------------------------------- pagination

  /** Go's integer division, which truncates toward zero. */
  function GoDiv(a: int, b: int): int
    requires b != 0
  {
    var q := (if a < 0 then -a else a) / (if b < 0 then -b else b);
    if (a < 0) == (b < 0) then q else -q
  }

  /** Go's remainder, with the sign of the dividend. */
  function GoRem(a: int, b: int): int
    requires b != 0
  {
    a - b * GoDiv(a, b)
  }

  /** GetVideos' arithmetic on the collected videos: the page count rounds
      up, the slice runs from (page - 1) * size for at most size items. A zero
      size divides by zero and a slice outside the videos panics in the
      source; both are errors here. */
  function GetPage(videos: seq<VideoRecord>, page: int, size: int): (r: Result<Page>)
    ensures size == 0 ==> r == Err(ZeroPageSize)
    ensures size != 0 && r.Err? ==> r == Err(PageOutOfRange)
    ensures r.Ok? <==> size > 0 && page >= 1 && (page - 1) * size <= |videos|
    ensures r.Ok? ==> r.value.currentPage == page && r.value.limit == size
    ensures r.Ok? ==> var start := (page - 1) * size;
      && |r.value.items| == (if start + size <= |videos| then size else |videos| - start)
      && forall k :: 0 <= k < |r.value.items| ==> r.value.items[k] == videos[start + k]
  {
    if size == 0 then Err(ZeroPageSize)
    else
      var totalPages := GoDiv(|videos|, size) + (if GoRem(|videos|, size) != 0 then 1 else 0);
      var start := (page - 1) * size;
      var end := if start + size > |videos| then |videos| else start + size;
      if 0 <= start <= end then Ok(Page(page, size, totalPages, videos[start..end]))
      else Err(PageOutOfRange)
  }

  /** TotalPages is the ceiling of count / size: the fewest pages of size
      items that hold every video. Page 1 always exists, and every page that
      exists reports the same count. */
  lemma TotalPagesCeiling(videos: seq<VideoRecord>, page: int, size: int)
    requires size > 0
    ensures GetPage(videos, 1, size).Ok?
    ensures GetPage(videos, page, size).Ok? ==>
      var pages := GetPage(videos, page, size).value.totalPages;
      pages >= 0 && (pages - 1) * size < |videos| <= pages * size
  {
    var n := |videos|;
    var q := n / size;
    assert GoDiv(n, size) == q;
    assert n == q * size + n % size;
    var pages := GoDiv(n, size) + (if GoRem(n, size) != 0 then 1 else 0);
    assert GetPage(videos, page, size).Ok? ==> GetPage(videos, page, size).value.totalPages == pages;
    if n % size == 0 {
      assert pages == q;
    } else {
      assert pages == q + 1;
      assert pages * size == q * size + size;
    }
  }

  /** The items of pages 1 to p, one after the other. */
  function PagesUpTo(videos: seq<VideoRecord>, size: int, p: nat): seq<VideoRecord>
    requires size > 0 && (p - 1) * size <= |videos|
  {
    if p == 0 then []
    else
      assert (p - 2) * size <= (p - 1) * size;
      PagesUpTo(videos, size, p - 1) + GetPage(videos, p, size).value.items
  }

  /** Paging loses and repeats nothing: the first p pages list the videos
      from the start up to p * size. */
  lemma {:induction false} PagesUpToPrefix(videos: seq<VideoRecord>, size: int, p: nat)
    requires size > 0 && (p - 1) * size <= |videos|
    ensures PagesUpTo(videos, size, p) == videos[..if p * size <= |videos| then p * size else |videos|]
  {
    if p > 0 {
      assert (p - 2) * size <= (p - 1) * size;
      PagesUpToPrefix(videos, size, p - 1);
      var start := (p - 1) * size;
      var items := GetPage(videos, p, size).value.items;
      assert items == videos[start..if start + size <= |videos| then start + size else |videos|];
      assert p * size == start + size;
    }
  }

  /** All pages together list every collected video exactly once, in order. */
  lemma AllPages(videos: seq<VideoRecord>, size: int)
    requires size > 0
    ensures var pages := GetPage(videos, 1, size).value.totalPages;
      pages >= 0 && (pages - 1) * size <= |videos| && PagesUpTo(videos, size, pages) == videos
  {
    TotalPagesCeiling(videos, 1, size);
    var pages := GetPage(videos, 1, size).value.totalPages;
    PagesUpToPrefix(videos, size, pages);
  }

  /** 25 videos in pages of 10: three pages of 10, 10 and 5 items; page 4
      starts past the end and fails. */
  lemma TwentyFiveInTens(videos: seq<VideoRecord>)
    requires |videos| == 25
    ensures GetPage(videos, 1, 10).Ok? && GetPage(videos, 1, 10).value.totalPages == 3
    ensures |GetPage(videos, 1, 10).value.items| == 10 && |GetPage(videos, 2, 10).value.items| == 10
    ensures GetPage(videos, 3, 10).value.items == videos[20..]
    ensures GetPage(videos, 4, 10) == Err(PageOutOfRange)
  {
    assert GoDiv(25, 10) == 2;
  }

  // ---------------------------------------------------------------- reading one video

  /** What GetVideo reads: the zero Video while the bucket does not exist, the
      stored video, or a decoding error for an id that was never saved. */
  function Lookup(videos: map<string, VideoRecord>, bucket: bool, videoID: string): (r: Result<VideoRecord>)
    ensures !bucket ==> r == Ok(ZeroVideo)
    ensures bucket && videoID in videos ==> r == Ok(videos[videoID])
    ensures bucket && videoID !in videos ==> r == Err(NoRecord(videoID))
  {
    if !bucket then Ok(ZeroVideo)
    else if videoID !in videos then Err(NoRecord(videoID))
    else Ok(videos[videoID])
  }

  /** Last write wins: after a successful save the id reads back the saved
      video, and every other id reads what it read before, once the bucket
      exists. */
  lemma SaveThenLookup(videos: map<string, VideoRecord>, bucket: bool, video: VideoRecord, other: string)
    requires !bucket ==> videos == map[]
    ensures Lookup(videos[video.id := video], true, video.id) == Ok(video)
    ensures other != video.id ==>
      Lookup(videos[video.id := video], true, other)
      == (if bucket then Lookup(videos, bucket, other) else Err(NoRecord(other)))
  {
  }

  // ---------------------------------------------------------------- the store

  class BoltDB {
    /** The "videos" bucket, decoded: id to stored video. */
    var videos: map<string, VideoRecord>
    /** Whether the bucket exists; the first successful save creates it. */
    var bucket: bool

    /** Every video is filed under its own id, and nothing is stored before
        the bucket exists. */
    ghost predicate Valid()
      reads this
    {
      && (!bucket ==> videos == map[])
      && forall id :: id in videos ==> videos[id].id == id
    }

    constructor ()
      ensures videos == map[] && !bucket && Valid()
    {
      videos := map[];
      bucket := false;
    }

    /** Puts the video under its id in one write transaction. Bolt refuses an
        empty key; fault stands for any other failure of the transaction.
        A failed transaction leaves the store as it was. */
    method SaveVideo(video: VideoRecord, fault: bool) returns (r: Outcome)
      requires Valid()
      modifies this
      ensures Valid()
      ensures (fault || video.id == "") ==>
        r == Fail(SaveFailed(video.id)) && videos == old(videos) && bucket == old(bucket)
      ensures !(fault || video.id == "") ==>
        r == Pass && videos == old(videos)[video.id := video] && bucket
    {
      if fault || video.id == "" {
        return Fail(SaveFailed(video.id));
      }
      bucket := true;
      videos := videos[video.id := video];
      return Pass;
    }

    method GetVideo(videoID: string) returns (r: Result<VideoRecord>)
      ensures r == Lookup(videos, bucket, videoID)
    {
      if !bucket {
        return Ok(ZeroVideo);
      }
      if videoID !in videos {
        return Err(NoRecord(videoID));
      }
      return Ok(videos[videoID]);
    }

    /** Collects the videos, then cuts out the page. */
    method GetVideos(page: int, size: int) returns (r: Result<Page>)
      ensures r == GetPage(Listing(videos, bucket), page, size)
    {
      var collected := CollectVideos();
      if size == 0 {
        return Err(ZeroPageSize);
      }
      var totalPages := GoDiv(|collected|, size);
      if GoRem(|collected|, size) != 0 {
        totalPages := totalPages + 1;
      }
      var start := (page - 1) * size;
      var end := start + size;
      if end > |collected| {
        end := |collected|;
      }
      if !(0 <= start <= end) {
        return Err(PageOutOfRange);
      }
      return Ok(Page(page, size, totalPages, collected[start..end]));
    }

    /** GetVideos' read transaction: a cursor walks the bucket from its first
        key to its last, collecting every video. */
    method CollectVideos() returns (collected: seq<VideoRecord>)
      ensures collected == Listing(videos, bucket)
    {
      collected := [];
      if !bucket {
        return;
      }
      var remaining := videos.Keys;
      ghost var visited: seq<string> := [];
      while remaining != {}
        invariant remaining <= videos.Keys
        invariant forall k :: k in visited ==> k in videos
        invariant SortedKeys(videos.Keys) == visited + SortedKeys(remaining)
        invariant collected == Records(videos, visited)
        decreases |remaining|
      {
        var k := LeastKey(remaining);
        SortedKeysFirst(remaining, k);
        RecordsSnoc(videos, visited, k);
        ghost var later := SortedKeys(remaining - {k});
        assert visited + ([k] + later) == (visited + [k]) + later;
        collected := collected + [videos[k]];
        visited := visited + [k];
        remaining := remaining - {k};
      }
      assert visited == SortedKeys(videos.Keys);
    }

    /** cursor.First / cursor.Next: the least key not yet visited. */
    static method LeastKey(keys: set<string>) returns (m: string)
      requires keys != {}
      ensures IsLeast(m, keys)
    {
      LeastExists(keys);
      m :| IsLeast(m, keys);
    }
  }
}
