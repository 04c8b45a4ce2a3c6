/** Reading the size of an image from its first bytes: PNG, GIF and the JPEG segment walk. */
module ImageDimensions {
  import opened Wrappers

  type Byte = b: int | 0 <= b < 256

  datatype Dimensions = Dimensions(width: nat, height: nat)

  const JPEG_SOI: seq<Byte> := [0xff, 0xd8]
  const PNG_SIGNATURE: seq<Byte> := [0x89, 0x50, 0x4e, 0x47, 0x0d, 0x0a, 0x1a, 0x0a]
  const GIF87A: seq<Byte> := [0x47, 0x49, 0x46, 0x38, 0x37, 0x61]
  const GIF89A: seq<Byte> := [0x47, 0x49, 0x46, 0x38, 0x39, 0x61]
  const RIFF: seq<Byte> := [0x52, 0x49, 0x46, 0x46]
  const WEBP: seq<Byte> := [0x57, 0x45, 0x42, 0x50]

  function Word(high: Byte, low: Byte): nat {
    high as int * 256 + low as int
  }

  function BigEndian16(data: seq<Byte>, i: nat): nat
    requires i + 2 <= |data|
  {
    Word(data[i], data[i + 1])
  }

  function LittleEndian16(data: seq<Byte>, i: nat): nat
    requires i + 2 <= |data|
  {
    Word(data[i + 1], data[i])
  }

  function BigEndian32(data: seq<Byte>, i: nat): nat
    requires i + 4 <= |data|
  {
    BigEndian16(data, i) * 0x1_0000 + BigEndian16(data, i + 2)
  }

  // ----- the walk -----

  /** SOF0 to SOF15 without DHT, JPG and DAC, as table B.1 of ITU-T T.81 assigns them. */
  predicate IsFrame(marker: Byte) {
    0xc0 <= marker <= 0xcf && marker != 0xc4 && marker != 0xc8 && marker != 0xcc
  }

  predicate Stops(marker: Byte) {
    marker == 0xda || marker == 0xd9
  }

  /** Where the walk goes from a marker that is not a frame, if it goes on. */
  function Next(data: seq<Byte>, offset: nat): Option<nat>
    requires offset + 1 < |data|
  {
    var marker := data[offset + 1];
    if data[offset] != 0xff || IsFrame(marker) || Stops(marker) then None
    else if marker == 0 then Some(offset + 1)
    else if offset + 3 >= |data| then None
    else Some(offset + 2 + BigEndian16(data, offset + 2))
  }

  predicate FrameAt(data: seq<Byte>, offset: nat) {
    offset + 9 < |data| && data[offset] == 0xff && IsFrame(data[offset + 1])
  }

  function FrameSize(data: seq<Byte>, offset: nat): Dimensions
    requires FrameAt(data, offset)
  {
    Dimensions(BigEndian16(data, offset + 7), BigEndian16(data, offset + 5))
  }

  function Walk(data: seq<Byte>, offset: nat): Option<Dimensions>
    decreases |data| - offset
  {
    if offset + 1 >= |data| then None
    else if FrameAt(data, offset) then Some(FrameSize(data, offset))
    else
      var next := Next(data, offset);
      if next.None? then None else Walk(data, next.value)
  }

  /** Every read of the loop is in bounds and every turn of it moves on, whatever the bytes. */
  method ParseJpegDimensions(data: array<Byte>) returns (r: Option<Dimensions>)
    ensures r == Walk(data[..], 2)
  {
    var offset := 2;
    while offset < data.Length - 1
      invariant 2 <= offset
      invariant Walk(data[..], 2) == Walk(data[..], offset)
      decreases data.Length - offset
    {
      if data[offset] != 0xff {
        return None;
      }
      var marker := data[offset + 1];
      if (0xc0 <= marker <= 0xc3) || (0xc5 <= marker <= 0xc7) || (0xc9 <= marker <= 0xcb) || (0xcd <= marker <= 0xcf) {
        if offset + 9 >= data.Length {
          return None;
        }
        var height := Word(data[offset + 5], data[offset + 6]);
        var width := Word(data[offset + 7], data[offset + 8]);
        return Some(Dimensions(width, height));
      }
      if marker == 0xda {
        break;
      }
      if marker == 0xd9 {
        break;
      }
      if marker == 0 {
        offset := offset + 1;
        continue;
      }
      if offset + 3 >= data.Length {
        return None;
      }
      var segLen := Word(data[offset + 2], data[offset + 3]);
      offset := offset + 2 + segLen;
    }
    r := None;
  }

  // ----- what the walk finds -----

  /** A chain of offsets that begins at `from`, follows the segments and ends at a frame header. */
  predicate Chain(data: seq<Byte>, from: nat, path: seq<nat>)
    decreases |path|
  {
    && path != [] && path[0] == from
    && if |path| == 1 then FrameAt(data, from)
       else from + 1 < |data| && Next(data, from) == Some(path[1]) && Chain(data, path[1], path[1..])
  }

  lemma {:induction false} ChainIsFound(data: seq<Byte>, from: nat, path: seq<nat>)
    requires Chain(data, from, path)
    ensures FrameAt(data, path[|path| - 1]) && Walk(data, from) == Some(FrameSize(data, path[|path| - 1]))
    decreases |path|
  {
    if |path| > 1 {
      ChainIsFound(data, path[1], path[1..]);
    }
  }

  lemma {:induction false} FoundHasChain(data: seq<Byte>, from: nat) returns (path: seq<nat>)
    requires Walk(data, from).Some?
    ensures Chain(data, from, path)
    decreases |data| - from
  {
    if FrameAt(data, from) {
      path := [from];
    } else {
      var rest := FoundHasChain(data, Next(data, from).value);
      path := [from] + rest;
      assert path[1..] == rest;
    }
  }

  ghost predicate HasFrame(data: seq<Byte>, from: nat, d: Dimensions) {
    exists path :: ChainTo(data, from, path, d)
  }

  predicate ChainTo(data: seq<Byte>, from: nat, path: seq<nat>, d: Dimensions) {
    Chain(data, from, path) && FrameAt(data, path[|path| - 1]) && FrameSize(data, path[|path| - 1]) == d
  }

  lemma WalkFindsFrom(data: seq<Byte>, from: nat, d: Dimensions)
    ensures Walk(data, from) == Some(d) <==> HasFrame(data, from, d)
  {
    if Walk(data, from) == Some(d) {
      var path := FoundHasChain(data, from);
      ChainIsFound(data, from, path);
      assert ChainTo(data, from, path, d);
    }
    if path :| ChainTo(data, from, path, d) {
      ChainIsFound(data, from, path);
    }
  }

  /** A size is reported exactly when a chain of segments from the third byte leads to a frame of that size. */
  lemma WalkFindsExactlyTheFrame(data: seq<Byte>, d: Dimensions)
    ensures Walk(data, 2) == Some(d) <==> HasFrame(data, 2, d)
  {
    WalkFindsFrom(data, 2, d);
  }

  // ----- files as the standard writes them -----

  /** A marker segment that carries its length and is not a frame, section B.1.1.4 of ITU-T T.81. */
  datatype Segment = Segment(marker: Byte, body: seq<Byte>)

  /** Markers that stand alone, section B.1.1.3: TEM, the restarts, SOI and EOI. */
  predicate StandsAlone(marker: Byte) {
    marker == 0x01 || 0xd0 <= marker <= 0xd9
  }

  predicate WellFormed(s: Segment) {
    && !IsFrame(s.marker) && !Stops(s.marker) && !StandsAlone(s.marker)
    && s.marker != 0 && s.marker != 0xff && |s.body| + 2 < 0x1_0000
  }

  function Write16(n: nat): seq<Byte>
    requires n < 0x1_0000
  {
    [n / 256, n % 256]
  }

  function WriteSegment(s: Segment): seq<Byte>
    requires WellFormed(s)
  {
    [0xff, s.marker] + Write16(|s.body| + 2) + s.body
  }

  function WriteSegments(ss: seq<Segment>): seq<Byte>
    requires forall i :: 0 <= i < |ss| ==> WellFormed(ss[i])
  {
    if ss == [] then [] else WriteSegment(ss[0]) + WriteSegments(ss[1..])
  }

  /** Frame header, section B.2.2: marker, length, precision, lines, samples per line, components. */
  function WriteFrame(marker: Byte, length: nat, precision: Byte, lines: nat, samples: nat): seq<Byte>
    requires length < 0x1_0000 && lines < 0x1_0000 && samples < 0x1_0000
  {
    [0xff, marker] + Write16(length) + [precision] + Write16(lines) + Write16(samples)
  }

  lemma FrameIsRead(
      before: seq<Byte>, marker: Byte, length: nat, precision: Byte, lines: nat, samples: nat, rest: seq<Byte>)
    requires length < 0x1_0000 && lines < 0x1_0000 && samples < 0x1_0000 && IsFrame(marker) && rest != []
    ensures var data := before + WriteFrame(marker, length, precision, lines, samples) + rest;
      FrameAt(data, |before|) && FrameSize(data, |before|) == Dimensions(samples, lines)
  {
    var frame := WriteFrame(marker, length, precision, lines, samples);
    var data := before + frame + rest;
    assert |frame| == 9;
    assert forall i :: 0 <= i < 9 ==> data[|before| + i] == frame[i];
    assert frame[5] == lines / 256 && frame[6] == lines % 256 && frame[7] == samples / 256 && frame[8] == samples % 256;
  }

  lemma SegmentIsPassed(before: seq<Byte>, s: Segment, rest: seq<Byte>)
    requires WellFormed(s)
    ensures var data := before + WriteSegment(s) + rest;
      |before| + 1 < |data| && Next(data, |before|) == Some(|before| + |WriteSegment(s)|) && !FrameAt(data, |before|)
  {
    var segment := WriteSegment(s);
    var data := before + segment + rest;
    assert forall i :: 0 <= i < |segment| ==> data[|before| + i] == segment[i];
    assert segment[0] == 0xff && segment[1] == s.marker;
    assert segment[2] == (|s.body| + 2) / 256 && segment[3] == (|s.body| + 2) % 256;
  }

  lemma WalkStep(data: seq<Byte>, offset: nat)
    requires offset + 1 < |data| && !FrameAt(data, offset) && Next(data, offset).Some?
    ensures Walk(data, offset) == Walk(data, Next(data, offset).value)
  {
  }

  lemma SegmentIsSkipped(before: seq<Byte>, s: Segment, rest: seq<Byte>)
    requires WellFormed(s)
    ensures var data := before + WriteSegment(s) + rest;
      Walk(data, |before|) == Walk(data, |before| + |WriteSegment(s)|)
  {
    hide Walk, Next, FrameAt, WriteSegment, WellFormed;
    SegmentIsPassed(before, s, rest);
    WalkStep(before + WriteSegment(s) + rest, |before|);
  }

  lemma {:induction false} SegmentsAreSkipped(before: seq<Byte>, ss: seq<Segment>, rest: seq<Byte>)
    requires forall i :: 0 <= i < |ss| ==> WellFormed(ss[i])
    ensures var data := before + WriteSegments(ss) + rest;
      Walk(data, |before|) == Walk(data, |before| + |WriteSegments(ss)|)
    decreases |ss|
  {
    hide Walk, WriteSegment, WellFormed;
    if ss != [] {
      var s, tail := ss[0], WriteSegments(ss[1..]);
      SegmentIsSkipped(before, s, tail + rest);
      SegmentsAreSkipped(before + WriteSegment(s), ss[1..], rest);
      assert before + WriteSegments(ss) + rest == before + WriteSegment(s) + (tail + rest);
      assert before + WriteSegments(ss) + rest == (before + WriteSegment(s)) + tail + rest;
    }
  }

  lemma WalkEnds(data: seq<Byte>, offset: nat)
    requires FrameAt(data, offset)
    ensures Walk(data, offset) == Some(FrameSize(data, offset))
  {
  }

  /**
   * A JPEG that begins with any well-formed list of length-carrying segments and a frame header has
   * the size that the header says: samples per line wide, lines high.
   */
  lemma WellFormedJpegIsMeasured(
      ss: seq<Segment>, marker: Byte, length: nat, precision: Byte, lines: nat, samples: nat, rest: seq<Byte>)
    requires forall i :: 0 <= i < |ss| ==> WellFormed(ss[i])
    requires length < 0x1_0000 && lines < 0x1_0000 && samples < 0x1_0000 && IsFrame(marker) && rest != []
    ensures var data := JPEG_SOI + WriteSegments(ss) + WriteFrame(marker, length, precision, lines, samples) + rest;
      Walk(data, 2) == Some(Dimensions(samples, lines))
  {
    hide WriteFrame, WriteSegments, WellFormed, Walk, FrameAt, FrameSize;
    var frame := WriteFrame(marker, length, precision, lines, samples);
    SegmentsAreSkipped(JPEG_SOI, ss, frame + rest);
    var before := JPEG_SOI + WriteSegments(ss);
    FrameIsRead(before, marker, length, precision, lines, samples, rest);
    assert before + (frame + rest) == before + frame + rest;
    WalkEnds(before + frame + rest, |before|);
  }

  // ----- fill bytes -----

  /** `n` fill bytes, which section B.1.1.2 allows before any marker. */
  function Fill(n: nat): seq<Byte> {
    seq(n, i => 0xff)
  }

  /** Where the walk goes on from a fill byte: the two bytes behind the next one are taken for a length. */
  function Landing(data: seq<Byte>, offset: nat): nat
    requires offset + 3 < |data|
  {
    offset + 2 + BigEndian16(data, offset + 2)
  }

  /** At a fill byte, or a marker that stands alone, the walk jumps by what happens to stand behind it. */
  lemma MarkerJumps(data: seq<Byte>, offset: nat)
    requires offset + 3 < |data| && data[offset] == 0xff
    requires !IsFrame(data[offset + 1]) && !Stops(data[offset + 1]) && data[offset + 1] != 0
    ensures Walk(data, offset) == Walk(data, Landing(data, offset))
  {
  }

  lemma JumpDecides(before: seq<Byte>, ss: seq<Segment>, more: seq<Byte>, d: Dimensions)
    requires forall i :: 0 <= i < |ss| ==> WellFormed(ss[i])
    requires |more| >= 4 && more[0] == 0xff && !IsFrame(more[1]) && !Stops(more[1]) && more[1] != 0
    ensures var data := before + WriteSegments(ss) + more; var offset := |before| + |WriteSegments(ss)|;
      && Walk(data, |before|) == Walk(data, Landing(data, offset))
      && (Walk(data, |before|) == Some(d) <==> HasFrame(data, Landing(data, offset), d))
  {
    hide WriteSegments, Walk, Chain, WellFormed, IsFrame, Stops, HasFrame;
    var data := before + WriteSegments(ss) + more;
    var offset := |before| + |WriteSegments(ss)|;
    SegmentsAreSkipped(before, ss, more);
    assert data[offset] == more[0] && data[offset + 1] == more[1];
    MarkerJumps(data, offset);
    WalkFindsFrom(data, Landing(data, offset), d);
  }

  /**
   * A marker that stands alone (TEM, a restart, or SOI again) is not skipped either: behind any
   * well-formed segments it makes the walk land where the two bytes behind it say.
   */
  lemma StandaloneMarkerIsNotSkipped(ss: seq<Segment>, marker: Byte, more: seq<Byte>, d: Dimensions)
    requires forall i :: 0 <= i < |ss| ==> WellFormed(ss[i])
    requires StandsAlone(marker) && !Stops(marker) && |more| >= 2
    ensures var data := JPEG_SOI + WriteSegments(ss) + ([0xff, marker] + more);
      var landing := Landing(data, |JPEG_SOI| + |WriteSegments(ss)|);
      Walk(data, 2) == Walk(data, landing) && (Walk(data, 2) == Some(d) <==> HasFrame(data, landing, d))
  {
    JumpDecides(JPEG_SOI, ss, [0xff, marker] + more, d);
  }

  /** A JPEG with fill bytes before its frame header. */
  function FilledJpeg(ss: seq<Segment>, n: nat, frame: seq<Byte>, rest: seq<Byte>): seq<Byte>
    requires forall i :: 0 <= i < |ss| ==> WellFormed(ss[i])
  {
    JPEG_SOI + WriteSegments(ss) + (Fill(n) + frame + rest)
  }

  lemma FillBytes(n: nat, frame: seq<Byte>, rest: seq<Byte>)
    requires n > 0 && |frame| >= 2 && frame[0] == 0xff && frame[1] >= 0xc0
    ensures var more := Fill(n) + frame + rest;
      |more| == n + |frame| + |rest| && more[0] == 0xff && more[1] == 0xff && more[2] >= 0xc0
  {
    var more := Fill(n) + frame + rest;
    assert forall i :: 0 <= i < n ==> more[i] == Fill(n)[i];
    assert more[n] == frame[0] && more[n + 1] == frame[1];
  }

  /**
   * Behind any well-formed segments, fill bytes are not skipped: the size that the header says is
   * reported exactly when the place where the walk lands instead begins a chain to some frame of
   * just that size.
   */
  lemma FillByteIsNotSkipped(
      ss: seq<Segment>, n: nat, marker: Byte, length: nat, precision: Byte, lines: nat, samples: nat, rest: seq<Byte>)
    requires forall i :: 0 <= i < |ss| ==> WellFormed(ss[i])
    requires n > 0 && length < 0x1_0000 && lines < 0x1_0000 && samples < 0x1_0000 && IsFrame(marker)
    ensures var data := FilledJpeg(ss, n, WriteFrame(marker, length, precision, lines, samples), rest);
      var offset := |JPEG_SOI| + |WriteSegments(ss)|;
      && offset + 3 < |data|
      && Walk(data, 2) == Walk(data, Landing(data, offset))
      && (Walk(data, 2) == Some(Dimensions(samples, lines))
          <==> HasFrame(data, Landing(data, offset), Dimensions(samples, lines)))
  {
    var frame := WriteFrame(marker, length, precision, lines, samples);
    assert |frame| == 9 && frame[0] == 0xff && frame[1] == marker;
    hide WriteFrame, WriteSegments, Walk, Chain, WellFormed, Fill, HasFrame;
    FillLength(n);
    FillBytes(n, frame, rest);
    JumpDecides(JPEG_SOI, ss, Fill(n) + frame + rest, Dimensions(samples, lines));
  }

  /** The landing place is at least 48 KiB further on, so no file with less behind its fill bytes is measured. */
  lemma FilledShortFileIsUnmeasured(ss: seq<Segment>, n: nat, frame: seq<Byte>, rest: seq<Byte>)
    requires forall i :: 0 <= i < |ss| ==> WellFormed(ss[i])
    requires n > 0 && |frame| >= 2 && frame[0] == 0xff && frame[1] >= 0xc0
    requires n + |frame| + |rest| <= 0xc003
    ensures Walk(FilledJpeg(ss, n, frame, rest), 2) == None
  {
    hide WriteSegments, WellFormed, Fill;
    var data := FilledJpeg(ss, n, frame, rest);
    var offset := |JPEG_SOI| + |WriteSegments(ss)|;
    SegmentsAreSkipped(JPEG_SOI, ss, Fill(n) + frame + rest);
    FillBytes(n, frame, rest);
    BeyondTheEnd(data, offset);
  }

  lemma FillLength(n: nat)
    ensures |Fill(n)| == n
  {
  }

  lemma BeyondTheEnd(data: seq<Byte>, offset: nat)
    requires offset + 2 < |data| <= offset + 0xc003
    requires data[offset] == 0xff && data[offset + 1] == 0xff && data[offset + 2] >= 0xc0
    ensures Walk(data, offset) == None
  {
    var next := Next(data, offset);
    assert next.Some? ==> next.value + 1 >= |data|;
  }

  // ----- every format -----

  predicate StartsWith(data: seq<Byte>, at: nat, part: seq<Byte>) {
    at + |part| <= |data| && forall i :: 0 <= i < |part| ==> data[at + i] == part[i]
  }

  /** `webp` is the reader of the WebP formats. */
  function Extract(data: seq<Byte>, webp: seq<Byte> -> Option<Dimensions>): Option<Dimensions> {
    if |data| < 24 then None
    else if StartsWith(data, 0, PNG_SIGNATURE) then Some(Dimensions(BigEndian32(data, 16), BigEndian32(data, 20)))
    else if StartsWith(data, 0, GIF87A) || StartsWith(data, 0, GIF89A) then
      Some(Dimensions(LittleEndian16(data, 6), LittleEndian16(data, 8)))
    else if StartsWith(data, 0, JPEG_SOI) then Walk(data, 2)
    else if StartsWith(data, 0, RIFF) && StartsWith(data, 8, WEBP) then webp(data)
    else None
  }

  function Write32(n: nat): (bytes: seq<Byte>)
    requires n < 0x1_0000_0000
    ensures |bytes| == 4
  {
    Write16(n / 0x1_0000) + Write16(n % 0x1_0000)
  }

  lemma Read32(before: seq<Byte>, n: nat, rest: seq<Byte>)
    requires n < 0x1_0000_0000
    ensures BigEndian32(before + Write32(n) + rest, |before|) == n
  {
    var data := before + Write32(n) + rest;
    assert forall i :: 0 <= i < 4 ==> data[|before| + i] == Write32(n)[i];
    assert BigEndian16(data, |before|) == n / 0x1_0000 && BigEndian16(data, |before| + 2) == n % 0x1_0000;
  }

  /** A PNG has the size that its IHDR chunk says, up to the full 32 bits of either side. */
  lemma PngIsMeasured(chunk: seq<Byte>, width: nat, height: nat, rest: seq<Byte>, webp: seq<Byte> -> Option<Dimensions>)
    requires |chunk| == 8 && width < 0x1_0000_0000 && height < 0x1_0000_0000
    ensures var signature: seq<Byte> := [0x89, 0x50, 0x4e, 0x47, 0x0d, 0x0a, 0x1a, 0x0a];
      Extract(signature + chunk + Write32(width) + Write32(height) + rest, webp) == Some(Dimensions(width, height))
  {
    hide Write32, BigEndian32;
    Read32(PNG_SIGNATURE + chunk, width, Write32(height) + rest);
    Read32(PNG_SIGNATURE + chunk + Write32(width), height, rest);
    var data := PNG_SIGNATURE + chunk + Write32(width) + Write32(height) + rest;
    assert data == PNG_SIGNATURE + chunk + Write32(width) + (Write32(height) + rest);
    assert StartsWith(data, 0, PNG_SIGNATURE);
  }

  /** A GIF of either version has the size of its logical screen, low byte first. */
  lemma GifIsMeasured(
      version: char, width: nat, height: nat, rest: seq<Byte>, webp: seq<Byte> -> Option<Dimensions>)
    requires (version == '7' || version == '9') && width < 0x1_0000 && height < 0x1_0000 && |rest| >= 14
    ensures Extract([0x47, 0x49, 0x46, 0x38, version as int, 0x61]
                    + [width % 256, width / 256, height % 256, height / 256] + rest, webp)
         == Some(Dimensions(width, height))
  {
    var data := [0x47, 0x49, 0x46, 0x38, version as int, 0x61]
      + [width % 256, width / 256, height % 256, height / 256] + rest;
    assert StartsWith(data, 0, if version == '7' then GIF87A else GIF89A);
    DifferentStart(data, if version == '7' then GIF87A else GIF89A, PNG_SIGNATURE);
    assert data[6] == width % 256 && data[7] == width / 256 && data[8] == height % 256 && data[9] == height / 256;
  }

  lemma StartsAlike(data: seq<Byte>, part: seq<Byte>)
    requires part != [] && data != []
    ensures StartsWith(data, 0, part) ==> data[0] == part[0]
  {
    assert StartsWith(data, 0, part) ==> data[0 + 0] == part[0];
  }

  /** What is shorter than 24 bytes, or begins as none of the formats, has no size. */
  lemma OthersAreUnmeasured(data: seq<Byte>, webp: seq<Byte> -> Option<Dimensions>)
    requires |data| < 24 || (data[0] != 0x89 && data[0] != 0x47 && data[0] != 0xff && data[0] != 0x52)
    ensures Extract(data, webp) == None
  {
    if |data| >= 24 {
      StartsAlike(data, PNG_SIGNATURE);
      StartsAlike(data, GIF87A);
      StartsAlike(data, GIF89A);
      StartsAlike(data, JPEG_SOI);
      StartsAlike(data, RIFF);
    }
  }

  /** A RIFF file is left to the WebP reader exactly when its form type is WEBP. */
  lemma RiffIsWebp(form: seq<Byte>, size: seq<Byte>, rest: seq<Byte>, webp: seq<Byte> -> Option<Dimensions>)
    requires |size| == 4 && |form| == 4 && |rest| >= 12
    ensures var data := [0x52, 0x49, 0x46, 0x46] + size + form + rest;
      Extract(data, webp) == if form == [0x57, 0x45, 0x42, 0x50] then webp(data) else None
  {
    var data := [0x52, 0x49, 0x46, 0x46] + size + form + rest;
    StartsAlike(data, PNG_SIGNATURE);
    StartsAlike(data, GIF87A);
    StartsAlike(data, GIF89A);
    StartsAlike(data, JPEG_SOI);
    assert StartsWith(data, 0, RIFF);
    assert data[8 + 0] == form[0] && data[8 + 1] == form[1] && data[8 + 2] == form[2] && data[8 + 3] == form[3];
    if StartsWith(data, 8, WEBP) { assert form == WEBP; }
  }

  lemma DifferentStart(data: seq<Byte>, part: seq<Byte>, other: seq<Byte>)
    requires part != [] && other != [] && part[0] != other[0] && StartsWith(data, 0, part)
    ensures !StartsWith(data, 0, other)
  {
    assert data[0 + 0] == part[0];
  }

  /** Nothing that begins as a JPEG is taken for another format. */
  lemma JpegIsNoOther(data: seq<Byte>, webp: seq<Byte> -> Option<Dimensions>)
    requires |data| >= 24 && data[0] == 0xff && data[1] == 0xd8
    ensures Extract(data, webp) == Walk(data, 2)
  {
    assert StartsWith(data, 0, JPEG_SOI);
    DifferentStart(data, JPEG_SOI, PNG_SIGNATURE);
    DifferentStart(data, JPEG_SOI, GIF87A);
    DifferentStart(data, JPEG_SOI, GIF89A);
  }
}
