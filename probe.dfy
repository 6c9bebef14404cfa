/** Reading the output of the external tools: ffprobe's stream description
    (GetMetadata), `ffmpeg -codecs` (ListAvailableCodecs) and `ffmpeg
    -encoders` (SelectH264Encoder). Running a tool is out of the model: its
    standard output is a parameter, None when the tool could not be run or
    exited with an error. */
module Probe {
  import opened Errors
  import opened Text
  import opened Videos

  // ---------------------------------------------------------------- GetMetadata

  /** What GetMetadata makes of ffprobe's output: line 0 is the width, line 1
      the height (both integers once trimmed), line 2 the duration, and the
      name is the base name of the probed file. Lines after the third are
      ignored, and the first failing check decides the error. */
  function ProbeMetadata(inputFilePath: string, output: Option<string>): (r: Result<VideoMetadata>)
    ensures output.None? ==> r == Err(ProbeFailed)
    ensures output.Some? && |Split(output.value, '\n')| < 3 ==> r == Err(ProbeOutputUnexpected)
    ensures r.Ok? ==> output.Some? && var lines := Split(output.value, '\n');
      && |lines| >= 3
      && ParseInt(TrimSpace(lines[0])) == Some(r.value.width)
      && ParseInt(TrimSpace(lines[1])) == Some(r.value.height)
      && r.value.duration == TrimSpace(lines[2]) && '\n' !in r.value.duration
      && r.value.name == Base(inputFilePath)
    ensures r.Err? && output.Some? ==> r.error == ProbeOutputUnexpected || r.error == WidthParse || r.error == HeightParse
    ensures output.Some? && |Split(output.value, '\n')| >= 3 ==> var lines := Split(output.value, '\n');
      && (r == Err(WidthParse) <==> ParseInt(TrimSpace(lines[0])).None?)
      && (r == Err(HeightParse) <==> ParseInt(TrimSpace(lines[0])).Some? && ParseInt(TrimSpace(lines[1])).None?)
  {
    match output
    case None => Err(ProbeFailed)
    case Some(text) =>
      var lines := Split(text, '\n');
      if |lines| < 3 then Err(ProbeOutputUnexpected)
      else match ParseInt(TrimSpace(lines[0]))
        case None => Err(WidthParse)
        case Some(width) =>
          match ParseInt(TrimSpace(lines[1]))
          case None => Err(HeightParse)
          case Some(height) => Ok(VideoMetadata(width, height, Base(inputFilePath), TrimSpace(lines[2])))
  }

  /** GetMetadata's pass over the lines, assigning width, height and duration
      as their indices come by. */
  method GetMetadata(inputFilePath: string, output: Option<string>) returns (r: Result<VideoMetadata>)
    ensures r == ProbeMetadata(inputFilePath, output)
  {
    if output.None? {
      return Err(ProbeFailed);
    }
    var lines := Split(output.value, '\n');
    if |lines| < 3 {
      return Err(ProbeOutputUnexpected);
    }
    var width, height, duration := 0, 0, "";
    for i := 0 to |lines|
      invariant i >= 1 ==> ParseInt(TrimSpace(lines[0])) == Some(width)
      invariant i >= 2 ==> ParseInt(TrimSpace(lines[1])) == Some(height)
      invariant i >= 3 ==> duration == TrimSpace(lines[2])
    {
      var line := TrimSpace(lines[i]);
      if i == 0 {
        var parsed := ParseInt(line);
        if parsed.None? {
          return Err(WidthParse);
        }
        width := parsed.value;
      } else if i == 1 {
        var parsed := ParseInt(line);
        if parsed.None? {
          return Err(HeightParse);
        }
        height := parsed.value;
      } else if i == 2 {
        duration := line;
      }
    }
    return Ok(VideoMetadata(width, height, Base(inputFilePath), duration));
  }

  /** The output ffprobe writes for one stream, followed by anything else. */
  function ProbeOutput(width: int, height: int, duration: string, rest: string): string
  {
    Itoa(width) + "\n" + Itoa(height) + "\n" + duration + "\n" + rest
  }

  /** GetMetadata reads back every int64 width and height and every trimmed
      one-line duration, whatever follows the third line. */
  lemma ProbeRoundTrip(inputFilePath: string, width: int, height: int, duration: string, rest: string)
    requires MinInt64 <= width <= MaxInt64 && MinInt64 <= height <= MaxInt64
    requires Trimmed(duration) && '\n' !in duration
    ensures ProbeMetadata(inputFilePath, Some(ProbeOutput(width, height, duration, rest)))
         == Ok(VideoMetadata(width, height, Base(inputFilePath), duration))
  {
    var w, h := Itoa(width), Itoa(height);
    ItoaIsTrimmedLine(width);
    ItoaIsTrimmedLine(height);
    var out := ProbeOutput(width, height, duration, rest);
    var lines := Split(out, '\n');
    FirstThreeLines(w, h, duration, rest);
    TrimSpacePadded([], w, []);
    TrimSpacePadded([], h, []);
    TrimSpacePadded([], duration, []);
    assert [] + w + [] == w && [] + h + [] == h && [] + duration + [] == duration;
    ParseItoa(width);
    ParseItoa(height);
    ProbeOfLines(inputFilePath, out, width, height, duration);
  }

  lemma ProbeOfLines(inputFilePath: string, text: string, width: int, height: int, duration: string)
    requires var lines := Split(text, '\n');
      && |lines| >= 3
      && ParseInt(TrimSpace(lines[0])) == Some(width)
      && ParseInt(TrimSpace(lines[1])) == Some(height)
      && TrimSpace(lines[2]) == duration
    ensures ProbeMetadata(inputFilePath, Some(text)) == Ok(VideoMetadata(width, height, Base(inputFilePath), duration))
  {
  }

  lemma FirstThreeLines(a: string, b: string, c: string, rest: string)
    requires '\n' !in a && '\n' !in b && '\n' !in c
    ensures var lines := Split(a + "\n" + b + "\n" + c + "\n" + rest, '\n');
      |lines| >= 3 && lines[0] == a && lines[1] == b && lines[2] == c
  {
    var tail := c + "\n" + rest;
    var mid := b + "\n" + tail;
    assert a + "\n" + b + "\n" + c + "\n" + rest == a + "\n" + mid;
    SplitAtSeparator(a, mid, '\n');
    SplitAtSeparator(b, tail, '\n');
    SplitAtSeparator(c, rest, '\n');
  }

  /** Output of fewer than two line breaks is rejected before any parsing. */
  lemma ProbeNeedsThreeLines(inputFilePath: string, a: string, b: string)
    requires '\n' !in a && '\n' !in b
    ensures ProbeMetadata(inputFilePath, Some(a)) == Err(ProbeOutputUnexpected)
    ensures ProbeMetadata(inputFilePath, Some(a + "\n" + b)) == Err(ProbeOutputUnexpected)
  {
    SplitWithoutSeparator(a, '\n');
    SplitWithoutSeparator(b, '\n');
    SplitAtSeparator(a, b, '\n');
  }

  // ---------------------------------------------------------------- ListAvailableCodecs

  /** A line of `ffmpeg -codecs` names a codec when it holds a 'V'
      (strings.Contains with a one-letter needle) and has a second field. */
  predicate NamesCodec(line: string, name: string) {
    'V' in line && |Fields(line)| > 1 && Fields(line)[1] == name
  }

  /** What one line contributes to the codec list. */
  function CodecOf(line: string): (r: seq<string>)
    ensures |r| <= 1
    ensures forall name :: name in r <==> NamesCodec(line, name)
  {
    if 'V' in line && |Fields(line)| > 1 then [Fields(line)[1]] else []
  }

  /** The codec list of the lines, in line order. */
  function CodecNames(lines: seq<string>): seq<string>
    decreases |lines|
  {
    if lines == [] then [] else CodecNames(lines[..|lines| - 1]) + CodecOf(lines[|lines| - 1])
  }

  method ListAvailableCodecs(output: Option<string>) returns (r: Result<seq<string>>)
    ensures output.None? ==> r == Err(CodecListFailed)
    ensures output.Some? ==> r == Ok(CodecNames(Split(output.value, '\n')))
  {
    if output.None? {
      return Err(CodecListFailed);
    }
    var codecs: seq<string> := [];
    var lines := Split(output.value, '\n');
    for i := 0 to |lines|
      invariant codecs == CodecNames(lines[..i])
    {
      assert lines[..i + 1][..i] == lines[..i];
      var line := lines[i];
      if 'V' in line {
        var parts := Fields(line);
        if |parts| > 1 {
          codecs := codecs + [parts[1]];
        }
      }
    }
    assert lines[..|lines|] == lines;
    return Ok(codecs);
  }

  /** A name is listed exactly when some line names it; there is at most one
      name per line. */
  lemma CodecNamesMembers(lines: seq<string>, name: string)
    ensures |CodecNames(lines)| <= |lines|
    ensures name in CodecNames(lines) <==> exists j :: 0 <= j < |lines| && NamesCodec(lines[j], name)
  {
    CodecNamesLength(lines);
    if name in CodecNames(lines) {
      var j := CodecSource(lines, name);
    }
    forall j | 0 <= j < |lines| && NamesCodec(lines[j], name)
      ensures name in CodecNames(lines)
    {
      CodecListed(lines, j, name);
    }
  }

  lemma {:induction false} CodecNamesLength(lines: seq<string>)
    ensures |CodecNames(lines)| <= |lines|
    decreases |lines|
  {
    if lines != [] {
      CodecNamesLength(lines[..|lines| - 1]);
    }
  }

  /** The line a listed name comes from. */
  lemma {:induction false} CodecSource(lines: seq<string>, name: string) returns (j: nat)
    requires name in CodecNames(lines)
    ensures j < |lines| && NamesCodec(lines[j], name)
    decreases |lines|
  {
    var init, last := lines[..|lines| - 1], lines[|lines| - 1];
    assert CodecNames(lines) == CodecNames(init) + CodecOf(last);
    if name in CodecOf(last) {
      j := |lines| - 1;
    } else {
      j := CodecSource(init, name);
      assert lines[j] == init[j];
    }
  }

  /** A line that names a codec puts it in the list. */
  lemma {:induction false} CodecListed(lines: seq<string>, j: nat, name: string)
    requires j < |lines| && NamesCodec(lines[j], name)
    ensures name in CodecNames(lines)
    decreases |lines|
  {
    var init, last := lines[..|lines| - 1], lines[|lines| - 1];
    assert CodecNames(lines) == CodecNames(init) + CodecOf(last);
    if j < |init| {
      assert init[j] == lines[j];
      CodecListed(init, j, name);
    } else {
      assert j == |lines| - 1;
      assert NamesCodec(last, name);
    }
  }

  /** Every listed codec name is a nonempty word without white space. */
  lemma {:induction false} CodecNamesAreWords(lines: seq<string>)
    ensures forall k :: 0 <= k < |CodecNames(lines)| ==> CodecNames(lines)[k] != [] && NoSpace(CodecNames(lines)[k])
    decreases |lines|
  {
    if lines != [] {
      var init := lines[..|lines| - 1];
      var last := lines[|lines| - 1];
      CodecNamesAreWords(init);
      FieldsAreWords(last);
      var r := CodecNames(lines);
      assert r == CodecNames(init) + CodecOf(last);
      forall k | 0 <= k < |r|
        ensures r[k] != [] && NoSpace(r[k])
      {
        if k >= |CodecNames(init)| {
          assert r[k] == Fields(last)[1];
        } else {
          assert r[k] == CodecNames(init)[k];
        }
      }
    }
  }

  // ---------------------------------------------------------------- SelectH264Encoder

  /** The H.264 encoders SelectH264Encoder knows, most preferred first. */
  const H264Encoders: seq<string> := ["libx264", "h264_nvenc", "h264_qsv"]

  /** Encoder i occurs in the listing and no preferred one does. */
  predicate PreferredEncoder(listing: string, i: int) {
    && 0 <= i < |H264Encoders|
    && Contains(listing, H264Encoders[i])
    && forall j :: 0 <= j < i ==> !Contains(listing, H264Encoders[j])
  }

  /** The first known encoder whose name occurs in the `ffmpeg -encoders`
      listing, or an error naming why there is none. */
  function SelectH264Encoder(listing: Option<string>): (r: Result<string>)
    ensures listing.None? ==> r == Err(EncoderListFailed)
    ensures r.Ok? ==> listing.Some? && exists i :: PreferredEncoder(listing.value, i) && r.value == H264Encoders[i]
    ensures listing.Some? && r.Err? ==>
      r.error == H264Unavailable && forall i :: 0 <= i < |H264Encoders| ==> !Contains(listing.value, H264Encoders[i])
  {
    match listing
    case None => Err(EncoderListFailed)
    case Some(encoders) =>
      if Contains(encoders, "libx264") then
        assert PreferredEncoder(encoders, 0);
        Ok("libx264")
      else if Contains(encoders, "h264_nvenc") then
        assert PreferredEncoder(encoders, 1);
        Ok("h264_nvenc")
      else if Contains(encoders, "h264_qsv") then
        assert PreferredEncoder(encoders, 2);
        Ok("h264_qsv")
      else
        Err(H264Unavailable)
  }

  /** A selection is exactly the preferred encoder: whenever some known
      encoder is listed, the first listed one is chosen. */
  lemma SelectsPreferred(listing: string, i: int)
    requires PreferredEncoder(listing, i)
    ensures SelectH264Encoder(Some(listing)) == Ok(H264Encoders[i])
  {
    var r := SelectH264Encoder(Some(listing));
    if r.Ok? {
      var k :| PreferredEncoder(listing, k) && r.value == H264Encoders[k];
      assert k == i;
    }
  }
}
