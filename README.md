# go-video-server core, modelled in Dafny

This project models the core of a small HTTP video server written in Go.
An uploaded file is treated as follows:

- It is probed with ffprobe, and a video record with status `pending` is saved in a BoltDB bucket.
- It is transcoded in the background into four HLS tiers (360p, 480p, 720p, 1080p) of ten-second `.ts` segments.
- Every segment is copied to every configured storage backend (S3, GCS).
- The record is then marked `complete` with one entry per tier, or `error`.

A client asks for a tier's playlist URL. The server checks the request in order, then either serves the tier's cached signed URL or regenerates it:

1. Is the tier name valid?
2. Does the lookup succeed?
3. Is the video ready?
4. Is the cached URL set and not yet expired?
5. Does the video have this tier?

Regenerating builds an HLS media playlist (RFC 8216). Each segment URL in it is signed by the first backend. The playlist is stored, and its own signed URL is cached for 60 minutes.

The Dafny modules follow the Go files:

| module | models |
|---|---|
| `Errors` | error values of the core; `Option`, `Result`, `Outcome` |
| `Text` | the Go library text functions the core relies on: `strings.Split`, `TrimSpace`, `Contains`, `Fields`; `strconv.Atoi`/`Itoa`; `%03d`; `filepath.Base` |
| `Videos` | `video.go` types, the tier list, key naming, and the `Video` struct as a class with its lookup methods and `AssignNewURL` |
| `Manifest` | `GenerateSegmentedManifestSigned` and the playlist text it writes |
| `Probe` | `GetMetadata`, `ListAvailableCodecs` and `SelectH264Encoder`, given the tools' standard output as strings |
| `Pipeline` | `ProcessVideo`, with the encoder, the working directory and the backends as parameters |
| `Database` | `BoltDB` as a class over a map from id to record, and `GetVideos` pagination |
| `Service` | `VideoService`: `GetVideo`, `CreateVideo`, its background completion step, and `GetVideoURL` |

Each loop of the source that builds a value or stores something is a Dafny `method` with a loop. Each such method is proved equal to a specification function, and the properties are lemmas about that function. The specification functions and lemmas are:

- `Emit`/`SignedManifest` for the playlist loop.
- `RunJob`/`ResolutionsFrom`/`StoresFrom` for the transcoding loops.
- `ProbeMetadata` and `CodecNames` for the probe parsers.
- `Listing` for the cursor loop.

The search loops of `GetResolutionURL`, `GetResolution`, `IsExpired` and `IsValidResolution` (video.go:56-97, 191-199) return at the first match and change nothing. They are functions: `FirstIndex` and membership in `Tiers`.

### Outside world

The outside world enters only as parameters:

- **Storage backends:** each is given by which keys its `Store` accepts and what its `SignedURL` answers.
- **Tool output:** ffprobe and `ffmpeg -codecs`/`-encoders` output is an `Option<string>` (`None`: the command failed).
- **Encoding:** the set of tiers whose encode fails.
- **Working directory:** after encoding, it is a map from path to a probe result: present with its bytes, a stat error, or a read error. An absent path does not exist.
- **Time:** `time.Now()` is an `Instant` in nanoseconds passed in by the caller.
- **Database failures:** a failed BoltDB transaction is a `fault` flag.
- **Video ids:** the fresh uuid is an argument.

### Where the code departs from its evident intent

The model follows the code in each case:

- **Pages past the end:** `GetVideos` (database.go:127-145) slices `videos[start:end]` with `start = (page - 1) * size`.
  - When the size divides the count, the page right after the last one has `start == end == count`. It is an empty page, as paging is meant to give. Page 1 of an empty store is empty in the same way.
  - The slice panics when the start is past the count (`(page - 1) * size > count`), when the start is negative (`page < 1`), or when the size is negative, so that the end comes before the start (page 1 with size -5 slices `videos[0:-5]`). `GetPage` returns `Err(PageOutOfRange)` for all three.
  - A zero page size divides by zero and gives `Err(ZeroPageSize)`.
- **Manifest store and sign failures:** `GenerateSegmentedManifestSigned` returns an error when a segment URL cannot be signed (video.go:306-310). A failure to store the playlist or to sign its URL returns `("", nil)` instead (video.go:318-328), although it is the same kind of failure. `GetVideoURL` then caches and saves the empty URL (`SignedManifest`, `ReadURL`).
- **Unknown ids:** `video_not_found` (video_service.go:15) is evidently meant for an unknown id, and api.go maps it to 404. Nothing in the core produces it.
  - While the `videos` bucket does not exist, `GetVideo` returns the zero `Video` with no error. Its status is the empty string, modelled as `Unset`, so `GetVideoURL` answers `video_not_ready`.
  - Once the bucket exists, an unknown id makes `json.Unmarshal` fail on the missing value (`NoRecord`).
- **One extra segment:** the playlist loop runs `i <= TotalSegments` and signs one segment more than the tier has. This is kept as written (`SignedManifest`).

## Model

| member | source | states |
|---|---|---|
| Text.TrimSpace | video.go:119 | the result is no longer than the input and has no white space (unicode.IsSpace) at either end |
| Text.TrimSpacePadded | video.go:119 | trimming white space around a text that has none at either end gives back that text |
| Text.Split | video.go:110 | strings.Split on one character: at least one part, no part holds the separator, and joining the parts gives back the input |
| Text.SplitJoin | video.go:110 | splitting on a separator inverts joining pieces that do not contain it |
| Text.SplitLines | video.go:110 | the lines of a newline-terminated text are its lines plus a final empty piece |
| Text.FieldsAreWords | video.go:159 | strings.Fields returns non-empty runs that contain no white space |
| Text.FieldsKeepVisible | video.go:159 | the fields concatenated hold exactly the text's non-space characters, in order |
| Text.FieldsOfSpaced | video.go:159 | strings.Fields splits exactly at the gaps: non-empty words separated by non-empty white space, with optional white space at the ends, come back as those words |
| Text.ParseInt | video.go:122-130 | strconv.Atoi succeeds exactly on an optional sign followed by one or more decimal digits whose value fits in 64 bits, and yields that value; anything else, surrounding white space included, fails |
| Text.ParseItoa | video.go:122 | Atoi reads back any 64-bit integer written in decimal |
| Text.Pad3Digits | video.go:288-290 | %03d writes decimal digits whose value is the number: exactly three below 100, the plain decimal from 100 up |
| Text.Base | video.go:139 | filepath.Base is never empty, holds no slash unless it is "/", and is the path itself when the path has no slash |
| Text.BaseOfJoin | video.go:139 | the base name of dir + "/" + name is name, for a name with no slash |
| Videos.IsValidResolution | video.go:191-199 | true exactly for "360p", "480p", "720p" and "1080p" |
| Videos.SegmentNameFormat | video.go:288-290 | a segment name is "video_" + tier + "_" + the index's digits + ".ts"; the digits denote the index, are exactly three below 100 and the plain decimal from 100 up |
| Videos.SegmentNameInjective | video.go:288-290 | equal segment names come from the same tier and the same index |
| Videos.SegmentKeyInjective | video.go:244 | a video's segment storage keys of one tier differ for different indices |
| Videos.ManifestNameDistinct | video.go:292-294 | for ids without '/', equal manifest keys come from the same id and tier, and a manifest key is never a segment key |
| Videos.FirstIndex | video.go:56-74 | finds the first entry of the tier, or reports that none has it |
| Videos.ResolutionURL | video.go:56-64 | GetResolutionURL: the URL of the first entry of the tier, "" when none matches |
| Videos.ResolutionOf | video.go:66-74 | GetResolution: the first entry of the tier, None (nil) when none matches |
| Videos.Video.VideoIsReady | video.go:76-78 | ready exactly when the status is complete: not pending, not failed, not the zero video's empty status |
| Videos.Expired | video.go:90-97 | IsExpired: true when no entry matches, otherwise now strictly after that entry's expiry |
| Videos.Refreshed | video.go:80-88 | only the first entry of the tier changes: its URL is the new one and its expiry now + 60 min; the length and other entries are kept; with no match the list is unchanged |
| Videos.RefreshedLookup | video.go:80-97 | after a refresh the tier reads the new URL and is not expired for 60 minutes, then expires |
| Videos.Video.AssignNewURL | video.go:80-88 | the in-place loop leaves the resolutions equal to Refreshed of the old ones, and no other field changes |
| Manifest.PlaylistLayout | video.go:297-315 | line by line the playlist is the four header tags, a #EXTINF:10.0, line and a URL per segment in order, then #EXT-X-ENDLIST |
| Manifest.PlaylistEnds | video.go:315 | the playlist is its header and entries followed by the end tag and a newline |
| Manifest.SignaturesAt | video.go:302-306 | answer k of the signing loop is the backend's SignedURL of segment k's key |
| Manifest.FirstNone | video.go:306-310 | the first failed signature, none exactly when all succeed |
| Manifest.SignedManifest | video.go:296-331 | fails exactly when a segment signature fails, with the first failing key and nothing stored; otherwise stores the playlist of indices 0 .. TotalSegments and returns the manifest's signed URL, or "" when its store or signing fails |
| Manifest.StoredManifestLines | video.go:297-315 | the stored playlist has TotalSegments + 1 entries between header and end tag |
| Manifest.StoredManifestEntries | video.go:302-312 | entry k of the stored playlist is the #EXTINF tag and the signed URL of segment k's key |
| Manifest.EmitFrom | video.go:302-330 | the rest of the loop from index i, with the text written so far, ends in SignedManifest |
| Manifest.GenerateSegmentedManifestSigned | video.go:296-331 | the string-building loop returns and stores exactly what SignedManifest says |
| Probe.ProbeMetadata | video.go:99-142 | no output: error; fewer than three lines: error; otherwise trimmed lines 0 and 1 parse as width and height: the width error exactly when line 0 does not parse, the height error exactly when line 0 parses and line 1 does not; trimmed line 2 is the duration and the name is the base name of the path |
| Probe.GetMetadata | video.go:99-142 | the line loop returns ProbeMetadata |
| Probe.ProbeRoundTrip | video.go:110-141 | ffprobe output of width, height and duration lines parses back to exactly those values |
| Probe.ProbeNeedsThreeLines | video.go:111-113 | output of fewer than three lines is refused |
| Probe.CodecOf | video.go:158-162 | a line yields its second field when it contains "V" and has more than one field, else nothing |
| Probe.CodecNamesMembers | video.go:155-166 | a name is listed exactly when one of the lines names it; at most one name per line |
| Probe.CodecNamesAreWords | video.go:159-161 | every listed codec name is non-empty and has no white space |
| Probe.ListAvailableCodecs | video.go:144-167 | a failed command is an error; otherwise the append loop returns the codec names of the lines in order |
| Probe.SelectH264Encoder | video.go:169-189 | the first of libx264, h264_nvenc, h264_qsv contained in the listing; "H264 unavailable" when none is; the command's error when it fails |
| Probe.SelectsPreferred | video.go:180-186 | when the listing contains encoder i and none listed before it, encoder i is chosen |
| Pipeline.SegmentCount | video.go:242-266 | the first index from i whose segment file is absent, with every file before it present |
| Pipeline.PresentBound | video.go:243-266 | the segment count is bounded by the number of files in the directory, so probing ends |
| Pipeline.ProcessVideo | video.go:201-286 | the tier, segment and storage loops return and record exactly what RunJob says |
| Pipeline.ProcessVideoOutcome | video.go:201-286 | success exactly when the encoder is found, the directory is made and every tier is clean; then the tier entries and all stores; an encoder or directory failure stops before any store |
| Pipeline.ResolutionsFromShape | video.go:268-272 | a successful job returns four entries, 360p, 480p, 720p, 1080p, each with its manifest key and segment count |
| Pipeline.TierCleanMeans | video.go:242-263 | a tier is clean exactly when each of its segments can be read and every backend accepts it |
| Pipeline.ReplicasInOrder | video.go:258-263 | a replicated segment is stored once to each backend, in backend order, with the same key and bytes |
| Pipeline.TiersRun | video.go:216-273 | the tier loop from tier t succeeds exactly when every remaining tier is clean, and then appends those tiers' entries and stores |
| Database.KeyLessTotal | database.go:111-113 | the byte order of keys is total, so the cursor order is defined |
| Database.SortedKeysOrdered | database.go:111-113 | the cursor visits every key once, in strictly increasing order |
| Database.ListingOrdered | database.go:104-125 | the collected videos are every stored video once, in increasing id order, and nothing without the bucket |
| Database.Lookup | database.go:68-91 | the zero Video while the bucket is missing, otherwise the stored video or a decoding error |
| Database.SaveThenLookup | database.go:56 | last write wins: the saved id reads the saved video; once the bucket exists, other ids read what they read before; on the first save, which creates the bucket, other ids go from the zero Video to a decoding error |
| Database.GetPage | database.go:127-145 | zero size: error; Ok exactly for size > 0, page >= 1 and (page-1)*size within the count; the page and limit echo the inputs; the items are the run from (page-1)*size of at most size videos |
| Database.TotalPagesCeiling | database.go:127-131 | page 1 always exists, and every page that exists reports the ceiling of count / size: (pages - 1) * size < count <= pages * size |
| Database.AllPages | database.go:127-145 | pages 1 .. TotalPages together hold every video, in order |
| Database.TwentyFiveInTens | database.go:127-145 | 25 videos in pages of 10: 3 pages of 10, 10 and 5 items, page 4 is out of range |
| Database.BoltDB.SaveVideo | database.go:34-66 | an empty key or a failed transaction changes nothing and fails; otherwise the bucket exists and the id maps to the video |
| Database.BoltDB.GetVideo | database.go:68-91 | returns Lookup of the store |
| Database.BoltDB.CollectVideos | database.go:102-125 | the cursor loop returns the Listing of the store |
| Database.BoltDB.GetVideos | database.go:93-146 | returns GetPage of the Listing |
| Service.ReadURL | video_service.go:87-124 | in order: bad tier name; lookup error unchanged; not complete; cached non-expired URL returned with no signing and no save; no entry for the tier; otherwise the playlist signed with the given backend, an error returned with no save, a success saved with the URL refreshed |
| Service.CachedUntilExpiry | video_service.go:101-123 | a regenerated non-empty URL, once saved, is returned from the cache for 60 minutes; after that the playlist is signed again |
| Service.FirstReadSigns | video_service.go:101-111 | the first read of a tier of a just-completed video signs the playlist of that tier's entry: the SegmentCount segments the job uploaded plus one index past them, which the loop also signs although it was never uploaded |
| Service.VideoService.GetVideo | video_service.go:32-39 | passes the database's answer through |
| Service.VideoService.CreateVideo | video_service.go:41-57 | a metadata error returns it and saves nothing; a failed first save is returned; otherwise the store holds the new pending video with no tiers, and it is returned |
| Service.VideoService.FinishVideo | video_service.go:59-82 | a failed job marks the video error with its tiers untouched, a successful one complete with the job's tiers; it is saved once and a failed save changes nothing |
| Service.VideoService.GetVideoURL | video_service.go:87-124 | returns what ReadURL decides for the video as read from the store, with Storages[0]; the refreshed video is saved when ReadURL asks for a save, and a failed save is ignored |

## Left out

- Storage answers are fixed per key: `FileStorage` says for each key whether `Store` accepts it and what `SignedURL` returns. A real backend's answer can depend on state and time, which is not modelled. GCS signing reads the object's attributes first, so it depends on whether the object was stored. S3 presigning depends on the clock. No lemma uses the same backend before and after a store: `CachedUntilExpiry` takes a second backend for the later read.
- storage.go, api.go and main.go are not part of this model. Backends are only the two answers of the FileStorage interface (video.go:40-43). The one start-up rule kept is that at least one backend is configured, as `VideoService.Valid`.
- Running ffprobe and ffmpeg is not modelled: their output is a parameter, and an encode is described only by whether it failed. The encoder's name and the scale filter only feed ffmpeg's command line.
- The filesystem is reduced to the map passed as `workDir`. `os.MkdirAll` is a flag. Removing the output directory and the input file is left out, because a failed removal is only logged. The input path of `ProcessVideo` is then unused and is dropped.
- The goroutine of `CreateVideo` is not modelled. It becomes the separate step `FinishVideo`, so its race with `GetVideoURL` on the same record is not modelled.
- `time.Now()` is not modelled: instants are parameters. `GetVideoURL` reads the clock twice (the expiry check and the new expiry), so it takes two instants.
- `uuid.New()` is not modelled: the id is an argument.
- Logging is not modelled.
- `bolt.Open` failures are not modelled, because the source calls `log.Fatal` on them. JSON encoding is not modelled: stored values are records. BoltDB's key-size limit is not modelled; a failed transaction of any other kind is the `fault` flag.
- Database.GetPage: Go's 64-bit `int` overflow in `(page - 1) * size` is not modelled, because integers are unbounded here.
- Bytes and characters: strings are `seq<char>`, so byte-level UTF-8 handling (e.g. of `strings.Fields` on invalid encodings) is not modelled.
- Error messages are reduced to one `Error` constructor each; their wrapped texts are not modelled.
- CreateVideo: the source builds the struct before the save, while the model allocates the object after the save. The saved record and the returned value are the same.
