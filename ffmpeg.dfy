/**
 * The FFmpeg helpers of the web client: the argument vectors for each kind of ffmpeg job,
 * one run of the WebAssembly build with its input staging and output collection, the HLS
 * master playlist generator (section 4.3.4.2 of RFC 8216), the preview-image names, and
 * the final packaging of an encrypted HLS rendition with its EXT-X-KEY tag (section
 * 4.3.2.4 of RFC 8216).
 */
module FFmpeg {
  import opened Wrappers
  import opened JsValues
  import opened FFmpegFs

  datatype InputType = GetDimensions | Hls | PreviewImage

  datatype Dimension = Dimension(width: int, height: int)

  /** One ffmpeg job: the input file, what to do with it, and the extra files it needs. */
  datatype Input = Input(fileName: string, fileData: Bytes, inputType: InputType,
                         dimensions: Option<Dimension>, output: Option<string>,
                         keyInfoData: Option<Bytes>, keyData: Option<Bytes>)

  /** The name a variant stream playlist gets, for a given output height. */
  function VariantUri(height: int): string
  {
    "video" + IntToString(height) + "-stream.m3u8"
  }

  /** The `-s` size of a preview image: the given size when both sides are positive. */
  function PreviewSize(dims: Option<Dimension>): string
  {
    if dims.Some? && dims.value.height > 0 && dims.value.width > 0
    then IntToString(dims.value.width) + "x" + IntToString(dims.value.height)
    else "400x300"
  }

  /** getArgsFromInput: the ffmpeg argument vector of a job, empty when the job is incomplete. */
  function Args(input: Input): (r: seq<string>)
    ensures r == [] <==>
      (input.inputType == Hls && input.dimensions.None?) ||
      (input.inputType == PreviewImage && !TruthyStr(input.output))
    ensures r != [] ==> |r| >= 3 && r[..3] == ["-y", "-i", input.fileName]
    ensures input.inputType == GetDimensions ==> |r| == 3
    ensures input.inputType == PreviewImage && r != [] ==>
      r[|r| - 1] == input.output.value && r[|r| - 2] == PreviewSize(input.dimensions)
    ensures input.inputType == Hls && r != [] ==>
      r[|r| - 1] == VariantUri(input.dimensions.value.height) &&
      "scale=-1:" + IntToString(input.dimensions.value.height) in r
  {
    match input.inputType
    case GetDimensions => ["-y", "-i", input.fileName]
    case Hls =>
      if input.dimensions.Some? then
        var h := IntToString(input.dimensions.value.height);
        ["-y", "-i", input.fileName,
         "-c:v", "libx264", "-profile:v", "high", "-level", "4.2", "-crf", "20",
         "-g", "48", "-keyint_min", "48",
         "-vf", "scale=-1:" + h, "-start_number", "0",
         "-hls_time", "4", "-hls_list_size", "0", "-f", "hls",
         VariantUri(input.dimensions.value.height)]
      else []
    case PreviewImage =>
      if TruthyStr(input.output) then
        ["-y", "-i", input.fileName, "-an", "-ss", "5", "-vframes", "1",
         "-s", PreviewSize(input.dimensions), input.output.value]
      else []
  }

  /** What runFFMpegWasm returns once the program has left the directory `after`. */
  function WasmResult(input: Input, after: seq<FsEntry>): Option<seq<FsEntry>>
  {
    if input.inputType == GetDimensions || after == [] then None
    else Some(Outputs(after, input.fileName))
  }

  /** The directory the program runs on: cleared, then the job's input files written. */
  function StagedFor(es: seq<FsEntry>, input: Input): seq<FsEntry>
  {
    Staged(Cleared(es), input.fileName, input.fileData,
           if input.keyInfoData.Some? then input.keyInfoData.value else [], input.keyInfoData.Some?,
           if input.keyData.Some? then input.keyData.value else [], input.keyData.Some?)
  }

  /** A job's result: the program's output files, or an error message. */
  datatype RunResult = RunResult(result: Option<seq<FsEntry>>, error: string)

  const InvalidArguments := "Invalid arguments for ffmpeg input."

  /**
   * runFFMpegWasm: clears the file system, writes the job's files, runs the program and,
   * unless only the dimensions were asked for, collects every output file in listing order.
   */
  method RunWasm(ffmpeg: Instance, input: Input, args: seq<string>, tool: Tool)
    returns (result: Option<seq<FsEntry>>)
    requires ffmpeg.Valid() && KeepsDistinct(tool)
    modifies ffmpeg
    ensures ffmpeg.Valid()
    ensures ffmpeg.root == tool(StagedFor(old(ffmpeg.root), input), args)
    ensures result == WasmResult(input, ffmpeg.root)
  {
    ffmpeg.Clear();
    ffmpeg.WriteFile(input.fileName, input.fileData);
    if input.keyInfoData.Some? {
      ffmpeg.WriteFile("key.info", input.keyInfoData.value);
    }
    if input.keyData.Some? {
      ffmpeg.WriteFile("key.bin", input.keyData.value);
    }
    ffmpeg.Run(args, tool);
    result := None;
    if input.inputType != GetDimensions {
      var files := ffmpeg.Ls();
      if |files| > 0 {
        result := CollectOutputs(ffmpeg, files, input.fileName);
      }
    }
  }

  /** The output-collecting loop of runFFMpegWasm. */
  method CollectOutputs(ffmpeg: Instance, files: seq<string>, inputName: string)
    returns (result: Option<seq<FsEntry>>)
    requires ffmpeg.Valid() && files == Names(ffmpeg.root)
    ensures result == Some(Outputs(ffmpeg.root, inputName))
  {
    var memfs: seq<FsEntry> := [];
    var i := 0;
    while i < |files|
      invariant 0 <= i <= |files|
      invariant memfs == Outputs(ffmpeg.root[..i], inputName)
    {
      var name := files[i];
      assert ffmpeg.root[..i + 1][..i] == ffmpeg.root[..i];
      if IsSystemFile(name) {
      } else if name == "key.info" || name == "key.bin" || name == inputName {
      } else {
        var data := ffmpeg.Read(name);
        EntryByName(ffmpeg.root, i, data);
        memfs := memfs + [FsEntry(name, data)];
      }
      i := i + 1;
    }
    assert ffmpeg.root[..|files|] == ffmpeg.root;
    result := Some(memfs);
  }

  /**
   * runFFMeg with a WebAssembly instance: an incomplete job is refused with an error and
   * nothing runs; otherwise the job runs and its result is returned without error.
   */
  method RunFFmpeg(ffmpeg: Instance, input: Input, tool: Tool) returns (r: RunResult)
    requires ffmpeg.Valid() && KeepsDistinct(tool)
    modifies ffmpeg
    ensures ffmpeg.Valid()
    ensures Args(input) == [] ==> r == RunResult(None, InvalidArguments) && ffmpeg.root == old(ffmpeg.root)
    ensures Args(input) != [] ==>
      ffmpeg.root == tool(StagedFor(old(ffmpeg.root), input), Args(input)) &&
      r == RunResult(WasmResult(input, ffmpeg.root), "")
  {
    var args := Args(input);
    if |args| > 0 {
      var result := RunWasm(ffmpeg, input, args, tool);
      r := RunResult(result, "");
    } else {
      r := RunResult(None, InvalidArguments);
    }
  }

  // ---------------------------------------------------------------------------------------
  // The master playlist.

  /** One EXT-X-STREAM-INF variant of the master playlist. */
  datatype Variant = Variant(bandwidth: int, width: int, height: int)

  /** The bandwidth ladder: the peak bit rate announced for an output height. */
  function Bandwidth(height: int): int
  {
    if height < 360 then 500000
    else if height < 480 then 1000000
    else if height < 720 then 1500000
    else 2000000
  }

  /** A taller rendition never announces a lower bandwidth. */
  lemma BandwidthMonotone(a: int, b: int)
    requires a <= b
    ensures Bandwidth(a) <= Bandwidth(b)
    ensures Bandwidth(a) in {500000, 1000000, 1500000, 2000000}
  {
  }

  /** The variants listed when the dimensions are not known: 720, 240, 360 and 480 lines. */
  const DefaultVariants: seq<Variant> :=
    [Variant(2000000, 1280, 720), Variant(500000, 426, 240),
     Variant(1000000, 640, 360), Variant(1500000, 852, 480)]

  /** The two lines of one variant: its EXT-X-STREAM-INF tag and its URI. */
  function StreamInf(v: Variant): string
  {
    StreamInfTag(v) + VariantUri(v.height) + "\n"
  }

  function StreamInfTag(v: Variant): string
  {
    "#EXT-X-STREAM-INF:PROGRAM-ID=1,BANDWIDTH=" + IntToString(v.bandwidth)
    + ",CODECS=\"mp4a.40.5,avc1.42000d\",RESOLUTION="
    + IntToString(v.width) + "x" + IntToString(v.height)
    + ",NAME=\"" + IntToString(v.height) + "\"\n"
  }

  const PlaylistHeader := "#EXTM3U\n"

  /**
   * createM3u8Data, as text: the fixed four-variant playlist when the dimensions are not
   * known, otherwise the header and a single variant whose bandwidth follows the ladder.
   */
  function M3u8Data(dims: Option<Dimension>): string
  {
    if dims.None? then DefaultPlaylist
    else PlaylistHeader + StreamInf(Variant(Bandwidth(dims.value.height), dims.value.width, dims.value.height))
  }

  /** The literal playlist createM3u8Data writes when the dimensions are not known. */
  const DefaultPlaylist := PlaylistHeader + Default720 + Default240 + Default360 + Default480

  const Default720 :=
    "#EXT-X-STREAM-INF:PROGRAM-ID=1,BANDWIDTH=" + "2000000" + ",CODECS=\"mp4a.40.5,avc1.42000d\",RESOLUTION="
    + "1280" + "x" + "720" + ",NAME=\"" + "720" + "\"\n" + "video" + "720" + "-stream.m3u8" + "\n"
  const Default240 :=
    "#EXT-X-STREAM-INF:PROGRAM-ID=1,BANDWIDTH=" + "500000" + ",CODECS=\"mp4a.40.5,avc1.42000d\",RESOLUTION="
    + "426" + "x" + "240" + ",NAME=\"" + "240" + "\"\n" + "video" + "240" + "-stream.m3u8" + "\n"
  const Default360 :=
    "#EXT-X-STREAM-INF:PROGRAM-ID=1,BANDWIDTH=" + "1000000" + ",CODECS=\"mp4a.40.5,avc1.42000d\",RESOLUTION="
    + "640" + "x" + "360" + ",NAME=\"" + "360" + "\"\n" + "video" + "360" + "-stream.m3u8" + "\n"
  const Default480 :=
    "#EXT-X-STREAM-INF:PROGRAM-ID=1,BANDWIDTH=" + "1500000" + ",CODECS=\"mp4a.40.5,avc1.42000d\",RESOLUTION="
    + "852" + "x" + "480" + ",NAME=\"" + "480" + "\"\n" + "video" + "480" + "-stream.m3u8" + "\n"

  /** A variant whose numbers render as b, w and h renders as the template with them filled in. */
  lemma RungText(v: Variant, b: string, w: string, h: string)
    requires IntToString(v.bandwidth) == b && IntToString(v.width) == w && IntToString(v.height) == h
    ensures StreamInf(v) ==
      "#EXT-X-STREAM-INF:PROGRAM-ID=1,BANDWIDTH=" + b + ",CODECS=\"mp4a.40.5,avc1.42000d\",RESOLUTION="
      + w + "x" + h + ",NAME=\"" + h + "\"\n" + "video" + h + "-stream.m3u8" + "\n"
  {
  }

  /**
   * Each of the four literal variants of the default playlist is the rendering of its
   * variant, and its bandwidth is the one the ladder gives its height.
   */
  lemma Rung720()
    ensures DefaultVariants[0].bandwidth == Bandwidth(DefaultVariants[0].height)
    ensures StreamInf(DefaultVariants[0]) == Default720
  {
    Shows2000000(); Shows1280(); Shows720();
    RungText(DefaultVariants[0], "2000000", "1280", "720");
  }

  lemma Rung240()
    ensures DefaultVariants[1].bandwidth == Bandwidth(DefaultVariants[1].height)
    ensures StreamInf(DefaultVariants[1]) == Default240
  {
    Shows500000(); Shows426(); Shows240();
    RungText(DefaultVariants[1], "500000", "426", "240");
  }

  lemma Rung360()
    ensures DefaultVariants[2].bandwidth == Bandwidth(DefaultVariants[2].height)
    ensures StreamInf(DefaultVariants[2]) == Default360
  {
    Shows1000000(); Shows640(); Shows360();
    RungText(DefaultVariants[2], "1000000", "640", "360");
  }

  lemma Rung480()
    ensures DefaultVariants[3].bandwidth == Bandwidth(DefaultVariants[3].height)
    ensures StreamInf(DefaultVariants[3]) == Default480
  {
    Shows1500000(); Shows852(); Shows480();
    RungText(DefaultVariants[3], "1500000", "852", "480");
  }

  lemma Shows2000000()
    ensures IntToString(2000000) == "2000000"
  {
    AppendDigit(2, 0);
    AppendDigit(20, 0);
    AppendDigit(200, 0);
    AppendDigit(2000, 0);
    AppendDigit(20000, 0);
    AppendDigit(200000, 0);
  }

  lemma Shows1280()
    ensures IntToString(1280) == "1280"
  {
    AppendDigit(1, 2);
    AppendDigit(12, 8);
    AppendDigit(128, 0);
  }

  lemma Shows720()
    ensures IntToString(720) == "720"
  {
    AppendDigit(7, 2);
    AppendDigit(72, 0);
  }

  lemma Shows500000()
    ensures IntToString(500000) == "500000"
  {
    AppendDigit(5, 0);
    AppendDigit(50, 0);
    AppendDigit(500, 0);
    AppendDigit(5000, 0);
    AppendDigit(50000, 0);
  }

  lemma Shows426()
    ensures IntToString(426) == "426"
  {
    AppendDigit(4, 2);
    AppendDigit(42, 6);
  }

  lemma Shows240()
    ensures IntToString(240) == "240"
  {
    AppendDigit(2, 4);
    AppendDigit(24, 0);
  }

  lemma Shows1000000()
    ensures IntToString(1000000) == "1000000"
  {
    AppendDigit(1, 0);
    AppendDigit(10, 0);
    AppendDigit(100, 0);
    AppendDigit(1000, 0);
    AppendDigit(10000, 0);
    AppendDigit(100000, 0);
  }

  lemma Shows640()
    ensures IntToString(640) == "640"
  {
    AppendDigit(6, 4);
    AppendDigit(64, 0);
  }

  lemma Shows360()
    ensures IntToString(360) == "360"
  {
    AppendDigit(3, 6);
    AppendDigit(36, 0);
  }

  lemma Shows1500000()
    ensures IntToString(1500000) == "1500000"
  {
    AppendDigit(1, 5);
    AppendDigit(15, 0);
    AppendDigit(150, 0);
    AppendDigit(1500, 0);
    AppendDigit(15000, 0);
    AppendDigit(150000, 0);
  }

  lemma Shows852()
    ensures IntToString(852) == "852"
  {
    AppendDigit(8, 5);
    AppendDigit(85, 2);
  }

  lemma Shows480()
    ensures IntToString(480) == "480"
  {
    AppendDigit(4, 8);
    AppendDigit(48, 0);
  }

  /** Appending a digit to a positive number appends its character to the rendering. */
  lemma AppendDigit(n: nat, k: nat)
    requires n >= 1 && k < 10
    ensures NatToString(10 * n + k) == NatToString(n) + [DigitChar(k)]
  {
    assert (10 * n + k) / 10 == n && (10 * n + k) % 10 == k;
  }

  /** Every playlist starts with the EXTM3U tag (section 4.3.1.1 of RFC 8216). */
  lemma PlaylistStartsWithHeader(dims: Option<Dimension>)
    ensures StartsWith(M3u8Data(dims), PlaylistHeader)
  {
    var s := M3u8Data(dims);
    assert s[..|PlaylistHeader|] == PlaylistHeader;
  }

  /**
   * With known dimensions the playlist has a single variant whose bandwidth follows the
   * ladder, and whose URI is the very playlist name the HLS job writes.
   */
  lemma SingleVariantIsHlsOutput(input: Input)
    requires input.inputType == Hls && input.dimensions.Some?
    ensures var args := Args(input);
      var d := input.dimensions.value;
      M3u8Data(input.dimensions)
        == PlaylistHeader + StreamInf(Variant(Bandwidth(d.height), d.width, d.height)) &&
      EndsWith(M3u8Data(input.dimensions), args[|args| - 1] + "\n")
  {
    var d := input.dimensions.value;
    SingleVariantPlaylist(d);
    var v := Variant(Bandwidth(d.height), d.width, d.height);
    EndsWithConcat(PlaylistHeader + StreamInfTag(v), VariantUri(d.height) + "\n");
  }

  lemma SingleVariantPlaylist(d: Dimension)
    ensures var v := Variant(Bandwidth(d.height), d.width, d.height);
      M3u8Data(Some(d)) == PlaylistHeader + StreamInf(v) &&
      M3u8Data(Some(d)) == (PlaylistHeader + StreamInfTag(v)) + (VariantUri(d.height) + "\n")
  {
    var v := Variant(Bandwidth(d.height), d.width, d.height);
  }

  lemma EndsWithConcat(a: string, b: string)
    ensures EndsWith(a + b, b)
  {
    assert (a + b)[|a|..] == b;
  }

  // ---------------------------------------------------------------------------------------
  // Preview names.

  const PreviewSuffix := "_preview.jpg"

  /** computeNameFromImageFile: the name without its last extension. */
  function NameFromImageFile(name: string): (r: string)
    ensures |r| <= |name| && r == name[..|r|]
    ensures '.' !in name ==> r == name
    ensures '.' in name ==> |r| < |name| && name[|r|] == '.' && '.' !in name[|r| + 1..]
  {
    var i := LastIndexOfChar(name, '.');
    if i >= 0 then name[..i] else name
  }

  /** Dropping the extension of `base.ext` gives back `base`. */
  lemma NameFromExtended(base: string, ext: string)
    requires '.' !in ext
    ensures NameFromImageFile(base + "." + ext) == base
  {
    var s := base + "." + ext;
    assert s[|base|] == '.';
    assert forall j :: |base| < j < |s| ==> s[j] == ext[j - |base| - 1];
    assert s[..|base|] == base;
  }

  /** computePreviewFileName. */
  function PreviewFileName(name: string): (r: string)
    ensures EndsWith(r, PreviewSuffix)
    ensures StartsWith(r, NameFromImageFile(name))
    ensures |r| == |NameFromImageFile(name)| + |PreviewSuffix|
  {
    var b := NameFromImageFile(name);
    EndsWithConcat(b, PreviewSuffix);
    assert (b + PreviewSuffix)[..|b|] == b;
    b + PreviewSuffix
  }

  /** The preview file encryptVideo keeps: the first output, renamed when it lacks the suffix. */
  function PreviewEntry(first: FsEntry): (r: FsEntry)
    ensures EndsWith(r.name, PreviewSuffix)
    ensures r.data == first.data
    ensures EndsWith(first.name, PreviewSuffix) <==> r == first
  {
    if EndsWith(first.name, PreviewSuffix) then first
    else
      var n := first.name + PreviewSuffix;
      assert n[|n| - |PreviewSuffix|..] == PreviewSuffix;
      FsEntry(n, first.data)
  }

  // ---------------------------------------------------------------------------------------
  // The key tag and the packaged rendition.

  function HexDigit(d: int): char
    requires 0 <= d < 16
  {
    if d < 10 then ('0' as int + d) as char else ('a' as int + d - 10) as char
  }

  /** Buffer.toString('hex'): two lower-case digits per byte. */
  function Hex(b: Bytes): (r: string)
    ensures |r| == 2 * |b|
  {
    if b == [] then "" else [HexDigit((b[0] >> 4) as int), HexDigit((b[0] & 15) as int)] + Hex(b[1..])
  }

  lemma ByteFromDigits(x: bv8, y: bv8)
    requires HexDigit((x >> 4) as int) == HexDigit((y >> 4) as int)
    requires HexDigit((x & 15) as int) == HexDigit((y & 15) as int)
    ensures x == y
  {
    HexDigitInjective((x >> 4) as int, (y >> 4) as int);
    HexDigitInjective((x & 15) as int, (y & 15) as int);
    assert x >> 4 == y >> 4 && x & 15 == y & 15;
  }

  lemma HexDigitInjective(d: int, e: int)
    requires 0 <= d < 16 && 0 <= e < 16
    requires HexDigit(d) == HexDigit(e)
    ensures d == e
  {
    assert HexDigit(d) as int == if d < 10 then 48 + d else 87 + d;
    assert HexDigit(e) as int == if e < 10 then 48 + e else 87 + e;
  }

  /** Different keys or IVs never print the same. */
  lemma {:induction false} HexInjective(a: Bytes, b: Bytes)
    requires Hex(a) == Hex(b)
    ensures a == b
  {
    if a != [] {
      var ha, hb := Hex(a), Hex(b);
      assert ha[0] == hb[0] && ha[1] == hb[1];
      ByteFromDigits(a[0], b[0]);
      assert ha[2..] == Hex(a[1..]) && hb[2..] == Hex(b[1..]);
      HexInjective(a[1..], b[1..]);
      assert a == [a[0]] + a[1..] && b == [b[0]] + b[1..];
    }
  }

  /** The key-info file: key URI, key file and IV, one per line. */
  function KeyInfo(ivHex: string): string
  {
    "key.bin\nkey.bin\n" + ivHex + "\n"
  }

  const MediaSequenceTag := "#EXT-X-MEDIA-SEQUENCE:0"

  function KeyTag(ivHex: string): string
  {
    "#EXT-X-KEY:METHOD=AES-128,URI=\"key.bin\",IV=0x" + ivHex
  }

  /** The line break and key tag inserted into a playlist. */
  function KeyLine(ivHex: string): string
  {
    "\n" + KeyTag(ivHex)
  }

  /** The playlist rewrite: the key tag goes on a new line after the first media-sequence tag. */
  function InjectKey(text: string, ivHex: string): string
  {
    ReplaceFirst(text, MediaSequenceTag, MediaSequenceTag + KeyLine(ivHex))
  }

  /**
   * Without a media-sequence tag the playlist is unchanged. Otherwise the first tag stays
   * where it was, the key line follows it, and removing that line gives back the input.
   */
  lemma InjectKeyPlacement(text: string, ivHex: string)
    ensures IndexOf(text, MediaSequenceTag) == -1 ==> InjectKey(text, ivHex) == text
    ensures IndexOf(text, MediaSequenceTag) >= 0 ==>
      var i := IndexOf(text, MediaSequenceTag);
      var r := InjectKey(text, ivHex);
      var j := i + |MediaSequenceTag|;
      var line := KeyLine(ivHex);
      IndexOf(r, MediaSequenceTag) == i &&
      OccursAt(r, line, j) &&
      r[..j] + r[j + |line|..] == text
  {
    if IndexOf(text, MediaSequenceTag) >= 0 {
      InsertAfterFirst(text, MediaSequenceTag, KeyLine(ivHex));
    } else {
      ReplaceFirstSplit(text, MediaSequenceTag, MediaSequenceTag + KeyLine(ivHex));
    }
  }

  /** Inserting `ins` after the first occurrence of `t` keeps that occurrence first and can be undone. */
  lemma InsertAfterFirst(text: string, t: string, ins: string)
    requires IndexOf(text, t) >= 0
    ensures var i := IndexOf(text, t);
      var r := ReplaceFirst(text, t, t + ins);
      IndexOf(r, t) == i && OccursAt(r, ins, i + |t|) && r[..i + |t|] + r[i + |t| + |ins|..] == text
  {
    ReplaceFirstSplit(text, t, t + ins);
    var i := IndexOf(text, t);
    var j := i + |t|;
    var pre, post := text[..i], text[j..];
    var r := ReplaceFirst(text, t, t + ins);
    assert r == pre + t + ins + post;
    assert text == pre + t + post;
    assert r[..j] == pre + t == text[..j];
    assert r[j..j + |ins|] == ins;
    assert r[j + |ins|..] == post;
    SamePrefixSameFirst(text, r, t);
  }

  /** A text that agrees with another up to its first occurrence of t has the same first occurrence. */
  lemma SamePrefixSameFirst(text: string, r: string, t: string)
    requires IndexOf(text, t) >= 0
    requires IndexOf(text, t) + |t| <= |r|
    requires r[..IndexOf(text, t) + |t|] == text[..IndexOf(text, t) + |t|]
    ensures IndexOf(r, t) == IndexOf(text, t)
  {
    var i := IndexOf(text, t);
    var n := i + |t|;
    assert OccursAt(text, t, i);
    var p := text[..n];
    assert r[..n] == p;
    assert r[..n][i..n] == r[i..n];
    assert p[i..n] == text[i..n];
    assert OccursAt(r, t, i);
    forall j | 0 <= j < i
      ensures !OccursAt(r, t, j)
    {
      assert !OccursAt(text, t, j);
      assert r[..n][j..j + |t|] == r[j..j + |t|];
      assert p[j..j + |t|] == text[j..j + |t|];
    }
  }

  /** AES-128-CBC encryption of a segment under a key and an IV. */
  type Cipher = (Bytes, Bytes, Bytes) -> Bytes

  /** The key material and the text conversions encryptVideo uses. */
  datatype Keys = Keys(keyData: Bytes, ivData: Bytes, cipher: Cipher,
                       utf8Decode: Bytes -> string, utf8Encode: string -> Bytes)

  /** One output of the HLS job, as shipped: a playlist keyed and renamed, a segment encrypted. */
  function Packaged(k: Keys, out: FsEntry): FsEntry
  {
    if EndsWith(out.name, ".m3u8")
    then FsEntry("master.m3u8", k.utf8Encode(InjectKey(k.utf8Decode(out.data), Hex(k.ivData))))
    else FsEntry(out.name, k.cipher(k.keyData, k.ivData, out.data))
  }

  function PackagedAll(k: Keys, outs: seq<FsEntry>): (r: seq<FsEntry>)
    ensures |r| == |outs|
    ensures forall i :: 0 <= i < |outs| ==> r[i] == Packaged(k, outs[i])
  {
    if outs == [] then [] else PackagedAll(k, outs[..|outs| - 1]) + [Packaged(k, outs[|outs| - 1])]
  }

  /** The files of an encrypted rendition: the preview, the packaged outputs, the key. */
  function HlsFiles(k: Keys, preview: FsEntry, outs: seq<FsEntry>): seq<FsEntry>
  {
    [preview] + PackagedAll(k, outs) + [FsEntry("key.bin", k.keyData)]
  }

  /** The packaging loop of encryptVideo. */
  method Package(k: Keys, preview: FsEntry, outs: seq<FsEntry>) returns (files: seq<FsEntry>)
    ensures files == HlsFiles(k, preview, outs)
  {
    files := [preview];
    var i := 0;
    while i < |outs|
      invariant 0 <= i <= |outs|
      invariant files == [preview] + PackagedAll(k, outs[..i])
    {
      var out := outs[i];
      if EndsWith(out.name, ".m3u8") {
        var text := InjectKey(k.utf8Decode(out.data), Hex(k.ivData));
        files := files + [FsEntry("master.m3u8", k.utf8Encode(text))];
      } else {
        var encrypted := k.cipher(k.keyData, k.ivData, out.data);
        files := files + [FsEntry(out.name, encrypted)];
      }
      assert outs[..i + 1][..i] == outs[..i];
      i := i + 1;
    }
    assert outs[..|outs|] == outs;
    files := files + [FsEntry("key.bin", k.keyData)];
  }

  /**
   * The manifest lists the preview first, then every output in order (each playlist as
   * master.m3u8), then key.bin.
   */
  lemma ManifestOrder(k: Keys, preview: FsEntry, outs: seq<FsEntry>)
    ensures var m := Names(HlsFiles(k, preview, outs));
      |m| == |outs| + 2 && m[0] == preview.name && m[|m| - 1] == "key.bin" &&
      forall i :: 0 <= i < |outs| ==>
        m[i + 1] == (if EndsWith(outs[i].name, ".m3u8") then "master.m3u8" else outs[i].name)
  {
    var files := HlsFiles(k, preview, outs);
    var middle := PackagedAll(k, outs);
    var m := Names(files);
    assert files == [preview] + middle + [FsEntry("key.bin", k.keyData)];
    assert |files| == |outs| + 2 && files[0] == preview && files[|files| - 1].name == "key.bin";
    forall i | 0 <= i < |outs|
      ensures m[i + 1] == (if EndsWith(outs[i].name, ".m3u8") then "master.m3u8" else outs[i].name)
    {
      assert files[i + 1] == middle[i];
      assert middle[i] == Packaged(k, outs[i]);
      PackagedName(k, outs[i]);
    }
  }

  /** A packaged output keeps its name, except that a playlist becomes master.m3u8. */
  lemma PackagedName(k: Keys, out: FsEntry)
    ensures Packaged(k, out).name == if EndsWith(out.name, ".m3u8") then "master.m3u8" else out.name
  {
  }

  /** The media metadata fields encryptVideo sets. */
  datatype MediaMeta = MediaMeta(id: string, previewImageName: Option<string>,
                                 manifest: seq<string>, mediaType: string)

  /** What encryptVideo returns or throws. */
  datatype EncryptOutcome =
    | Encrypted(metaData: MediaMeta, hlsFiles: seq<FsEntry>)
    | Failed(errorMessage: string)
    | Threw(message: string)

  const NoPreviewName := "No preview image name specified."
  const NoPreviewImage := "Unknown error. Could not generate preview image."
  const NoHlsFiles := "Unknown error. No encrypted hls files were generated."
  const UnknownSize := "Unable to determine size of the input video."

  /** The dimension probe encryptVideo runs first. */
  function ProbeJob(fileName: string, fileData: Bytes): Input
  {
    Input(fileName, fileData, GetDimensions, None, None, None, None)
  }

  /** The preview job, named after the preview image name. */
  function PreviewJob(fileName: string, fileData: Bytes, dimensions: Option<Dimension>, previewImageName: string): Input
  {
    Input(fileName, fileData, PreviewImage, dimensions, Some(PreviewFileName(previewImageName)), None, None)
  }

  /** The encrypting HLS job: the scaled size, the key info file and the key. */
  function HlsJob(fileName: string, fileData: Bytes, dimensions: Dimension, k: Keys): Input
  {
    Input(fileName, fileData, Hls, Some(dimensions), Some(VariantUri(dimensions.height)),
          Some(k.utf8Encode(KeyInfo(Hex(k.ivData)))), Some(k.keyData))
  }

  /** The directory once `job` has run on a directory that was `root`. */
  function RanOn(root: seq<FsEntry>, job: Input, tool: Tool): seq<FsEntry>
  {
    tool(StagedFor(root, job), Args(job))
  }

  /** The directory after the dimension probe and the preview run, from the directory `root0`. */
  function PreviewRoot(root0: seq<FsEntry>, fileName: string, fileData: Bytes, dimensions: Option<Dimension>,
                       previewImageName: string, tool: Tool): seq<FsEntry>
  {
    RanOn(RanOn(root0, ProbeJob(fileName, fileData), tool),
          PreviewJob(fileName, fileData, dimensions, previewImageName), tool)
  }

  /** What the preview run collects, starting from the directory `root0` encryptVideo finds. */
  function PreviewOutputs(root0: seq<FsEntry>, fileName: string, fileData: Bytes, dimensions: Option<Dimension>,
                          previewImageName: string, tool: Tool): Option<seq<FsEntry>>
  {
    WasmResult(PreviewJob(fileName, fileData, dimensions, previewImageName),
               PreviewRoot(root0, fileName, fileData, dimensions, previewImageName, tool))
  }

  /** `dimensions && dimensions.height && dimensions.width`. */
  predicate KnownSize(dimensions: Option<Dimension>)
  {
    dimensions.Some? && dimensions.value.height != 0 && dimensions.value.width != 0
  }

  /**
   * encryptVideo with a WebAssembly instance. `dimensions` is the size the dimension probe's
   * log yields once scaled, `hash` is createHashAddress on the joined parts, and `videosType`
   * the media type constant for videos.
   */
  method EncryptVideo(ffmpeg: Instance, meta: MediaMeta, fileName: string, fileData: Bytes,
                      dimensions: Option<Dimension>, k: Keys, hash: string -> string,
                      videosType: string, tool: Tool)
    returns (r: EncryptOutcome)
    requires ffmpeg.Valid() && KeepsDistinct(tool)
    modifies ffmpeg
    ensures ffmpeg.Valid()
    ensures !TruthyStr(meta.previewImageName) ==>
      r == Failed(NoPreviewName) && ffmpeg.root == old(ffmpeg.root)
    ensures r.Failed? ==> r.errorMessage != ""
    ensures TruthyStr(meta.previewImageName) ==>
      var preview := PreviewOutputs(old(ffmpeg.root), fileName, fileData, dimensions, meta.previewImageName.value, tool);
      ((preview.None? || |preview.value| == 0) ==> r == Failed(NoPreviewImage)) &&
      (preview.Some? && |preview.value| > 0 && !KnownSize(dimensions) ==> r == Threw(UnknownSize))
    ensures TruthyStr(meta.previewImageName) && KnownSize(dimensions) ==>
      var root1 := PreviewRoot(old(ffmpeg.root), fileName, fileData, dimensions, meta.previewImageName.value, tool);
      var preview := PreviewOutputs(old(ffmpeg.root), fileName, fileData, dimensions, meta.previewImageName.value, tool);
      var hls := HlsJob(fileName, fileData, dimensions.value, k);
      var outs := WasmResult(hls, RanOn(root1, hls, tool));
      preview.Some? && |preview.value| > 0 ==>
        (outs.Some? && |outs.value| > 0 <==> r.Encrypted?) &&
        (!r.Encrypted? ==> r == Failed(NoHlsFiles) && ffmpeg.root == RanOn(root1, hls, tool))
    ensures r.Threw? ==> r.message == UnknownSize && !KnownSize(dimensions)
    ensures r.Encrypted? ==> KnownSize(dimensions)
    ensures (r.Threw? || r == Failed(NoPreviewImage)) ==>
      ffmpeg.root == PreviewRoot(old(ffmpeg.root), fileName, fileData, dimensions, meta.previewImageName.value, tool)
    ensures r.Encrypted? ==>
      var root1 := PreviewRoot(old(ffmpeg.root), fileName, fileData, dimensions, meta.previewImageName.value, tool);
      var preview := PreviewOutputs(old(ffmpeg.root), fileName, fileData, dimensions, meta.previewImageName.value, tool);
      var hls := HlsJob(fileName, fileData, dimensions.value, k);
      var outs := WasmResult(hls, RanOn(root1, hls, tool));
      preview.Some? && |preview.value| > 0 && outs.Some? && |outs.value| > 0 &&
      r.hlsFiles == HlsFiles(k, PreviewEntry(preview.value[0]), outs.value) &&
      ffmpeg.root == RanOn(root1, hls, tool)
    ensures r.Encrypted? ==>
      var files := r.hlsFiles;
      |files| >= 3 &&
      EndsWith(files[0].name, PreviewSuffix) &&
      r.metaData.id == hash(meta.id + "_" + ReplaceFirst(files[0].name, PreviewSuffix, "")) &&
      r.metaData.previewImageName == Some("videos/" + r.metaData.id + "/" + files[0].name) &&
      r.metaData.manifest == Names(files) &&
      r.metaData.mediaType == videosType
  {
    if !TruthyStr(meta.previewImageName) {
      return Failed(NoPreviewName);
    }
    var probe := RunFFmpeg(ffmpeg, ProbeJob(fileName, fileData), tool);
    if probe.error != "" {
      return Failed(probe.error);
    }
    var previewJob := PreviewJob(fileName, fileData, dimensions, meta.previewImageName.value);
    var previewRun := RunFFmpeg(ffmpeg, previewJob, tool);
    if !(previewRun.error == "" && previewRun.result.Some? && |previewRun.result.value| > 0) {
      return Failed(NoPreviewImage);
    }
    var preview := PreviewEntry(previewRun.result.value[0]);
    var id := hash(meta.id + "_" + ReplaceFirst(preview.name, PreviewSuffix, ""));
    var previewImageName := "videos/" + id + "/" + preview.name;
    if !KnownSize(dimensions) {
      return Threw(UnknownSize);
    }
    var hlsJob := HlsJob(fileName, fileData, dimensions.value, k);
    var hlsRun := RunFFmpeg(ffmpeg, hlsJob, tool);
    if hlsRun.error != "" {
      return Failed(hlsRun.error);
    }
    if !(hlsRun.result.Some? && |hlsRun.result.value| > 0) {
      return Failed(NoHlsFiles);
    }
    var files := Package(k, preview, hlsRun.result.value);
    assert files[0] == preview;
    r := Encrypted(MediaMeta(id, Some(previewImageName), Names(files), videosType), files);
  }
}
