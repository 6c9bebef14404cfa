/** The HLS media playlist of one resolution tier (the tags of sections
    4.3.1.1, 4.3.1.2, 4.3.2.1, 4.3.3.1, 4.3.3.2 and 4.3.3.4 of RFC 8216) and
    GenerateSegmentedManifestSigned, which writes it with signed segment URLs,
    stores it and signs it. */
module Manifest {
  import opened Errors
  import opened Text
  import opened Videos

  /** #EXTM3U, #EXT-X-VERSION, #EXT-X-TARGETDURATION and #EXT-X-MEDIA-SEQUENCE. */
  const HeaderLines: seq<string> := ["#EXTM3U", "#EXT-X-VERSION:3", "#EXT-X-TARGETDURATION:10", "#EXT-X-MEDIA-SEQUENCE:0"]

  /** The #EXTINF tag written before every segment URL: ten seconds, no title. */
  const SegmentTag: string := "#EXTINF:10.0,"

  const EndTag: string := "#EXT-X-ENDLIST"

  /** One #EXTINF line and one URL line per segment, in order. */
  function EntryLines(urls: seq<string>): (lines: seq<string>)
    ensures |lines| == 2 * |urls|
    ensures forall k :: 0 <= k < |urls| ==> lines[2 * k] == SegmentTag && lines[2 * k + 1] == urls[k]
  {
    if urls == [] then [] else EntryLines(urls[..|urls| - 1]) + [SegmentTag, urls[|urls| - 1]]
  }

  /** The playlist text for the given segment URLs. */
  function Playlist(urls: seq<string>): string
  {
    Lines(PlaylistBody(urls))
  }

  /** The lines of the playlist: header tags, entries, end tag. */
  function PlaylistBody(urls: seq<string>): seq<string>
  {
    HeaderLines + EntryLines(urls) + [EndTag]
  }

  /** Line by line, the playlist is the four header tags, then a tag line and a
      URL line per segment in order, then #EXT-X-ENDLIST and the empty text
      after the final newline. */
  lemma PlaylistLayout(urls: seq<string>)
    requires forall k :: 0 <= k < |urls| ==> '\n' !in urls[k]
    ensures var lines := Split(Playlist(urls), '\n');
      && |lines| == 2 * |urls| + 6
      && lines[..4] == HeaderLines
      && (forall k :: 0 <= k < |urls| ==> lines[4 + 2 * k] == SegmentTag && lines[5 + 2 * k] == urls[k])
      && lines[2 * |urls| + 4] == EndTag && lines[2 * |urls| + 5] == ""
  {
    var entries := EntryLines(urls);
    var body := PlaylistBody(urls);
    BodyWithoutNewline(urls);
    SplitLines(body);
    var lines := Split(Playlist(urls), '\n');
    assert lines == body + [""];
    forall k | 0 <= k < |urls|
      ensures lines[4 + 2 * k] == SegmentTag && lines[5 + 2 * k] == urls[k]
    {
      assert lines[4 + 2 * k] == entries[2 * k];
      assert lines[5 + 2 * k] == entries[2 * k + 1];
    }
  }

  lemma BodyWithoutNewline(urls: seq<string>)
    requires forall k :: 0 <= k < |urls| ==> '\n' !in urls[k]
    ensures forall k :: 0 <= k < |PlaylistBody(urls)| ==> '\n' !in PlaylistBody(urls)[k]
  {
    var entries := EntryLines(urls);
    var body := PlaylistBody(urls);
    TagsWithoutNewline();
    forall k | 0 <= k < |entries|
      ensures '\n' !in entries[k]
    {
      var j := k / 2;
      if k == 2 * j {
        assert entries[2 * j] == SegmentTag;
      } else {
        assert entries[2 * j + 1] == urls[j];
      }
    }
    forall k | 0 <= k < |body|
      ensures '\n' !in body[k]
    {
      if k < 4 {
        assert body[k] == HeaderLines[k];
      } else if k < 4 + |entries| {
        assert body[k] == entries[k - 4];
      } else {
        assert body[k] == EndTag;
      }
    }
  }

  lemma TagsWithoutNewline()
    ensures forall j :: 0 <= j < |HeaderLines| ==> '\n' !in HeaderLines[j]
    ensures '\n' !in SegmentTag && '\n' !in EndTag
  {
    assert '\n' !in HeaderLines[0];
    assert '\n' !in HeaderLines[1];
    assert '\n' !in HeaderLines[2];
    assert '\n' !in HeaderLines[3];
  }

  /** The header block, each tag followed by a newline. */
  lemma HeaderText()
    ensures var h := HeaderLines;
      Lines(h) == h[0] + "\n" + h[1] + "\n" + h[2] + "\n" + h[3] + "\n"
  {
    var h := HeaderLines;
    var a, b, c, d := h[0], h[1], h[2], h[3];
    LinesSnoc([], a);
    assert [] + [a] == [a];
    LinesSnoc([a], b);
    assert [a] + [b] == [a, b];
    LinesSnoc([a, b], c);
    assert [a, b] + [c] == [a, b, c];
    LinesSnoc([a, b, c], d);
    assert [a, b, c] + [d] == [a, b, c, d] == h;
  }

  /** One more segment appends its tag line and its URL line. */
  lemma PlaylistGrows(urls: seq<string>, url: string)
    ensures Lines(HeaderLines + EntryLines(urls + [url]))
         == Lines(HeaderLines + EntryLines(urls)) + SegmentTag + "\n" + url + "\n"
  {
    var before := HeaderLines + EntryLines(urls);
    assert (urls + [url])[..|urls|] == urls;
    assert HeaderLines + EntryLines(urls + [url]) == (before + [SegmentTag]) + [url];
    LinesSnoc(before + [SegmentTag], url);
    LinesSnoc(before, SegmentTag);
  }

  /** The playlist is the header and entries followed by #EXT-X-ENDLIST. */
  lemma PlaylistEnds(urls: seq<string>)
    ensures Playlist(urls) == Lines(HeaderLines + EntryLines(urls)) + EndTag + "\n"
  {
    LinesSnoc(HeaderLines + EntryLines(urls), EndTag);
  }

  // ---------------------------------------------------------------- signing

  /** The answers SignedURL gives for the keys of segments 0 .. n-1, in order. */
  function Signatures(storage: FileStorage, videoId: string, resolution: string, n: nat): (answers: seq<Option<string>>)
    ensures |answers| == n
  {
    if n == 0 then [] else Signatures(storage, videoId, resolution, n - 1) + [storage.sign(SegmentKey(videoId, resolution, n - 1))]
  }

  /** The answers for fewer segments are a prefix of the answers for more. */
  lemma {:induction false} SignaturesPrefix(storage: FileStorage, videoId: string, resolution: string, n: nat, m: nat)
    requires m <= n
    ensures Signatures(storage, videoId, resolution, n)[..m] == Signatures(storage, videoId, resolution, m)
  {
    if m < n {
      SignaturesPrefix(storage, videoId, resolution, n - 1, m);
      assert Signatures(storage, videoId, resolution, n)[..n - 1] == Signatures(storage, videoId, resolution, n - 1);
    }
  }

  lemma {:induction false} SignaturesAt(storage: FileStorage, videoId: string, resolution: string, n: nat, k: nat)
    requires k < n
    ensures Signatures(storage, videoId, resolution, n)[k] == storage.sign(SegmentKey(videoId, resolution, k))
  {
    if k < n - 1 {
      SignaturesAt(storage, videoId, resolution, n - 1, k);
    }
  }

  predicate AllSome(answers: seq<Option<string>>)
  {
    forall k :: 0 <= k < |answers| ==> answers[k].Some?
  }

  /** The position of the first failed answer. */
  function FirstNone(answers: seq<Option<string>>): (r: Option<nat>)
    ensures r.None? <==> AllSome(answers)
    ensures r.Some? ==> r.value < |answers| && answers[r.value].None? && AllSome(answers[..r.value])
  {
    if answers == [] then None
    else if answers[0].None? then Some(0)
    else match FirstNone(answers[1..])
      case None => None
      case Some(k) =>
        assert answers[1..][..k] == answers[1..k + 1];
        assert forall j :: 0 <= j < k ==> answers[1..][j] == answers[j + 1];
        Some(k + 1)
  }

  /** FirstNone finds the only failed answer with no failed answer before it. */
  lemma FirstNoneUnique(answers: seq<Option<string>>, k: nat)
    requires k < |answers| && answers[k].None? && AllSome(answers[..k])
    ensures FirstNone(answers) == Some(k)
  {
    var j := FirstNone(answers).value;
    assert forall m :: 0 <= m < k ==> answers[..k][m] == answers[m];
    assert forall m :: 0 <= m < j ==> answers[..j][m] == answers[m];
  }

  /** The URLs of a run of successful answers. */
  function Values(answers: seq<Option<string>>): (urls: seq<string>)
    requires AllSome(answers)
    ensures |urls| == |answers|
    ensures forall k :: 0 <= k < |answers| ==> answers[k] == Some(urls[k])
  {
    if answers == [] then [] else Values(answers[..|answers| - 1]) + [answers[|answers| - 1].value]
  }

  lemma ValuesSnoc(answers: seq<Option<string>>, url: string)
    requires AllSome(answers)
    ensures AllSome(answers + [Some(url)]) && Values(answers + [Some(url)]) == Values(answers) + [url]
  {
    assert (answers + [Some(url)])[..|answers|] == answers;
  }

  /** What generating a manifest returns, and the text handed to Store (None
      when Store is not called). */
  datatype ManifestOutcome = ManifestOutcome(result: Result<string>, stored: Option<string>)

  /** The outcome of GenerateSegmentedManifestSigned, over the answers for
      segments 0 .. totalSegments: one more segment than the tier has. */
  function SignedManifest(videoId: string, resolution: Resolution, storage: FileStorage): (out: ManifestOutcome)
    ensures var answers := Signatures(storage, videoId, resolution.resolution, resolution.totalSegments + 1);
      out.result.Err? <==> !AllSome(answers)
    ensures out.result.Err? ==> out.stored.None?
    ensures var answers := Signatures(storage, videoId, resolution.resolution, resolution.totalSegments + 1);
      forall k :: 0 <= k < |answers| && answers[k].None? && AllSome(answers[..k]) ==>
        out == ManifestOutcome(Err(SignFailed(SegmentKey(videoId, resolution.resolution, k))), None)
    ensures var answers := Signatures(storage, videoId, resolution.resolution, resolution.totalSegments + 1);
      var key := ManifestName(videoId, resolution.resolution);
      AllSome(answers) ==>
        && out.stored == Some(Playlist(Values(answers)))
        && (!storage.accepts(key) ==> out.result == Ok(""))
        && (storage.accepts(key) && storage.sign(key).None? ==> out.result == Ok(""))
        && (storage.accepts(key) && storage.sign(key).Some? ==> out.result == Ok(storage.sign(key).value))
  {
    var answers := Signatures(storage, videoId, resolution.resolution, resolution.totalSegments + 1);
    match FirstNone(answers)
    case Some(k) =>
      assert forall j :: 0 <= j < |answers| && answers[j].None? && AllSome(answers[..j]) ==> j == k by {
        forall j | 0 <= j < |answers| && answers[j].None? && AllSome(answers[..j]) ensures j == k {
          FirstNoneUnique(answers, j);
        }
      }
      ManifestOutcome(Err(SignFailed(SegmentKey(videoId, resolution.resolution, k))), None)
    case None => Finish(videoId, resolution, storage, Playlist(Values(answers)))
  }

  /** The playlist stored when every segment signs (see SignedManifest), line
      by line, when no signed URL contains a newline: the header, an #EXTINF
      tag and a URL for each index 0 .. totalSegments, then #EXT-X-ENDLIST. */
  lemma StoredManifestLines(videoId: string, resolution: Resolution, storage: FileStorage)
    requires AllSome(Signatures(storage, videoId, resolution.resolution, resolution.totalSegments + 1))
    requires forall key :: storage.sign(key).Some? ==> '\n' !in storage.sign(key).value
    ensures var lines := Split(Playlist(Values(Signatures(storage, videoId, resolution.resolution, resolution.totalSegments + 1))), '\n');
      && |lines| == 2 * (resolution.totalSegments + 1) + 6
      && lines[..4] == HeaderLines
      && lines[|lines| - 2] == EndTag && lines[|lines| - 1] == ""
  {
    var n := resolution.totalSegments + 1;
    SignedURLs(storage, videoId, resolution.resolution, n);
    PlaylistLayout(Values(Signatures(storage, videoId, resolution.resolution, n)));
  }

  /** In that playlist, entry k is the #EXTINF tag and the signed URL of
      segment k's key. */
  lemma StoredManifestEntries(videoId: string, resolution: Resolution, storage: FileStorage, k: nat)
    requires AllSome(Signatures(storage, videoId, resolution.resolution, resolution.totalSegments + 1))
    requires forall key :: storage.sign(key).Some? ==> '\n' !in storage.sign(key).value
    requires k <= resolution.totalSegments
    ensures var lines := Split(Playlist(Values(Signatures(storage, videoId, resolution.resolution, resolution.totalSegments + 1))), '\n');
      && 5 + 2 * k < |lines|
      && lines[4 + 2 * k] == SegmentTag
      && storage.sign(SegmentKey(videoId, resolution.resolution, k)) == Some(lines[5 + 2 * k])
  {
    var n := resolution.totalSegments + 1;
    var urls := Values(Signatures(storage, videoId, resolution.resolution, n));
    SignedURLs(storage, videoId, resolution.resolution, n);
    PlaylistLayout(urls);
    assert Split(Playlist(urls), '\n')[5 + 2 * k] == urls[k];
  }

  /** The URLs the answers carry are the segments' signed URLs, index by index. */
  lemma SignedURLs(storage: FileStorage, videoId: string, resolution: string, n: nat)
    requires AllSome(Signatures(storage, videoId, resolution, n))
    requires forall key :: storage.sign(key).Some? ==> '\n' !in storage.sign(key).value
    ensures var urls := Values(Signatures(storage, videoId, resolution, n));
      |urls| == n && forall k :: 0 <= k < |urls| ==> '\n' !in urls[k]
    ensures var urls := Values(Signatures(storage, videoId, resolution, n));
      forall k :: 0 <= k < n ==> storage.sign(SegmentKey(videoId, resolution, k)) == Some(urls[k])
  {
    var urls := Values(Signatures(storage, videoId, resolution, n));
    forall k | 0 <= k < n
      ensures storage.sign(SegmentKey(videoId, resolution, k)) == Some(urls[k])
    {
      SignaturesAt(storage, videoId, resolution, n, k);
    }
  }

  /** What happens once every segment is listed: the text is stored under
      ManifestName and that key is signed; either failure yields "". */
  function Finish(videoId: string, resolution: Resolution, storage: FileStorage, text: string): (out: ManifestOutcome)
  {
    var key := ManifestName(videoId, resolution.resolution);
    if storage.accepts(key) && storage.sign(key).Some? then ManifestOutcome(Ok(storage.sign(key).value), Some(text))
    else ManifestOutcome(Ok(""), Some(text))
  }

  /** The rest of the generating loop from segment i on, given the text
      written so far. */
  function Emit(videoId: string, resolution: Resolution, storage: FileStorage, i: nat, manifest: string): ManifestOutcome
    decreases resolution.totalSegments + 1 - i
  {
    if i > resolution.totalSegments then Finish(videoId, resolution, storage, manifest + EndTag + "\n")
    else
      var key := SegmentKey(videoId, resolution.resolution, i);
      match storage.sign(key)
      case None => ManifestOutcome(Err(SignFailed(key)), None)
      case Some(url) => Emit(videoId, resolution, storage, i + 1, manifest + SegmentTag + "\n" + url + "\n")
  }

  /** The text after i signed segments: header, then their entries. */
  predicate WrittenSoFar(videoId: string, resolution: Resolution, storage: FileStorage, i: nat, manifest: string)
  {
    var answers := Signatures(storage, videoId, resolution.resolution, i);
    AllSome(answers) && manifest == Lines(HeaderLines + EntryLines(Values(answers)))
  }

  lemma EmitStep(videoId: string, resolution: Resolution, storage: FileStorage, i: nat, manifest: string, url: string)
    requires WrittenSoFar(videoId, resolution, storage, i, manifest)
    requires storage.sign(SegmentKey(videoId, resolution.resolution, i)) == Some(url)
    ensures WrittenSoFar(videoId, resolution, storage, i + 1, manifest + SegmentTag + "\n" + url + "\n")
  {
    var answers := Signatures(storage, videoId, resolution.resolution, i);
    assert Signatures(storage, videoId, resolution.resolution, i + 1) == answers + [Some(url)];
    ValuesSnoc(answers, url);
    PlaylistGrows(Values(answers), url);
  }

  lemma EmitSignFailure(videoId: string, resolution: Resolution, storage: FileStorage, i: nat)
    requires i <= resolution.totalSegments
    requires AllSome(Signatures(storage, videoId, resolution.resolution, i))
    requires storage.sign(SegmentKey(videoId, resolution.resolution, i)).None?
    ensures SignedManifest(videoId, resolution, storage)
         == ManifestOutcome(Err(SignFailed(SegmentKey(videoId, resolution.resolution, i))), None)
  {
    var n := resolution.totalSegments + 1;
    var all := Signatures(storage, videoId, resolution.resolution, n);
    SignaturesAt(storage, videoId, resolution.resolution, n, i);
    SignaturesPrefix(storage, videoId, resolution.resolution, n, i);
    assert all[i].None? && AllSome(all[..i]);
  }

  lemma EmitEnd(videoId: string, resolution: Resolution, storage: FileStorage, manifest: string)
    requires WrittenSoFar(videoId, resolution, storage, resolution.totalSegments + 1, manifest)
    ensures Finish(videoId, resolution, storage, manifest + EndTag + "\n") == SignedManifest(videoId, resolution, storage)
  {
    PlaylistEnds(Values(Signatures(storage, videoId, resolution.resolution, resolution.totalSegments + 1)));
  }

  /** Running the loop from segment i, after i segments were signed and
      written, ends in the outcome SignedManifest describes. */
  lemma {:induction false} EmitFrom(videoId: string, resolution: Resolution, storage: FileStorage, i: nat, manifest: string)
    requires i <= resolution.totalSegments + 1
    requires WrittenSoFar(videoId, resolution, storage, i, manifest)
    ensures Emit(videoId, resolution, storage, i, manifest) == SignedManifest(videoId, resolution, storage)
    decreases resolution.totalSegments + 1 - i
  {
    if i == resolution.totalSegments + 1 {
      EmitEnd(videoId, resolution, storage, manifest);
    } else {
      var key := SegmentKey(videoId, resolution.resolution, i);
      match storage.sign(key)
      case None =>
        EmitSignFailure(videoId, resolution, storage, i);
      case Some(url) =>
        EmitStep(videoId, resolution, storage, i, manifest, url);
        EmitFrom(videoId, resolution, storage, i + 1, manifest + SegmentTag + "\n" + url + "\n");
    }
  }

  /** Builds the playlist line by line, signing each segment; stores it under
      ManifestName and returns its signed URL. A failing segment signature is
      an error; a failing Store or manifest signature yields "". */
  method GenerateSegmentedManifestSigned(videoId: string, resolution: Resolution, storage: FileStorage)
    returns (r: Result<string>, stored: Option<string>)
    ensures ManifestOutcome(r, stored) == SignedManifest(videoId, resolution, storage)
  {
    var manifest := HeaderLines[0] + "\n" + HeaderLines[1] + "\n";
    manifest := manifest + HeaderLines[2] + "\n";
    manifest := manifest + HeaderLines[3] + "\n";
    HeaderText();
    assert HeaderLines + EntryLines(Values([])) == HeaderLines;
    EmitFrom(videoId, resolution, storage, 0, manifest);
    var i := 0;
    while i <= resolution.totalSegments
      invariant 0 <= i <= resolution.totalSegments + 1
      invariant Emit(videoId, resolution, storage, i, manifest) == SignedManifest(videoId, resolution, storage)
    {
      manifest := manifest + SegmentTag + "\n";
      var segmentToSign := SegmentKey(videoId, resolution.resolution, i);
      var signedSegment := storage.sign(segmentToSign);
      if signedSegment.None? {
        return Err(SignFailed(segmentToSign)), None;
      }
      manifest := manifest + signedSegment.value + "\n";
      i := i + 1;
    }
    manifest := manifest + EndTag + "\n";
    var manifestPath := ManifestName(videoId, resolution.resolution);
    stored := Some(manifest);
    if !storage.accepts(manifestPath) {
      return Ok(""), stored;
    }
    var manifestSigned := storage.sign(manifestPath);
    if manifestSigned.None? {
      return Ok(""), stored;
    }
    return Ok(manifestSigned.value), stored;
  }
}
