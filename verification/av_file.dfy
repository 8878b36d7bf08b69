/**
  How a media source is opened: the options dictionary `AVFile` hands to the
  demuxer, and the per-platform input format and device name the
  `fromFile`, `fromDevice` and `defaultDevice` factories choose.
*/
module AvFile {
  import opened Wrappers
  import opened PlayModes
  import Decimal

  /** Browser identification sent to network sources on every open. */
  const UserAgent: string := "Mozilla/5.0 (Windows NT 10.0; Win64; x64) AppleWebKit/537.36 (KHTML, like Gecko) Chrome/75.0.3770.100 Safari/537.36"

  /** The configuration value that means "no real-time buffer size given". */
  const NoRealtimeBufferSize: int := -1

  const RtspScheme: string := "rtsp://"

  /**
    The frame rate after the demuxer's own conversion to a fraction
    (`av_d2q`); that conversion is not part of this model.
  */
  datatype Rational = Rational(num: int, den: int)

  /** Everything `AVFile` needs to build its options. */
  datatype OpenRequest = OpenRequest(
    fileName: string,
    playMode: PlayMode,
    formatName: Option<string>,
    frameRate: Option<Rational>,
    imageWidth: Option<int>,
    imageHeight: Option<int>)

  /** The keys `AVFile` may set. */
  const OptionKeys: set<string> := {"rtbufsize", "framerate", "video_size", "max_delay", "allowed_media_types", "user_agent"}

  predicate StartsWith(s: string, prefix: string) {
    |prefix| <= |s| && s[..|prefix|] == prefix
  }

  function VideoSize(w: int, h: int): string {
    Decimal.IntToString(w) + "x" + Decimal.IntToString(h)
  }

  function FrameRateText(r: Rational): string {
    Decimal.IntToString(r.num) + "/" + Decimal.IntToString(r.den)
  }

  /** The dictionary `AVFile` builds before opening `req.fileName`. */
  function Options(realtimeBufferSize: int, req: OpenRequest): (opts: map<string, string>)
    ensures opts.Keys <= OptionKeys
    ensures "rtbufsize" in opts <==> realtimeBufferSize != NoRealtimeBufferSize
    ensures "rtbufsize" in opts ==> opts["rtbufsize"] == Decimal.IntToString(realtimeBufferSize)
    ensures "framerate" in opts <==> req.frameRate.Some?
    ensures "framerate" in opts ==> opts["framerate"] == FrameRateText(req.frameRate.value)
    ensures "video_size" in opts <==> req.imageWidth.Some? && req.imageHeight.Some?
    ensures "video_size" in opts ==> opts["video_size"] == VideoSize(req.imageWidth.value, req.imageHeight.value)
    ensures "max_delay" in opts <==> StartsWith(req.fileName, RtspScheme)
    ensures "max_delay" in opts ==> opts["max_delay"] == "0"
    ensures "allowed_media_types" in opts <==> StartsWith(req.fileName, RtspScheme) && req.playMode == Video
    ensures "allowed_media_types" in opts ==> opts["allowed_media_types"] == "video"
    ensures "user_agent" in opts && opts["user_agent"] == UserAgent
  {
    var o0: map<string, string> := map[];
    var o1 := if realtimeBufferSize != NoRealtimeBufferSize then o0["rtbufsize" := Decimal.IntToString(realtimeBufferSize)] else o0;
    var o2 := if req.frameRate.Some? then o1["framerate" := FrameRateText(req.frameRate.value)] else o1;
    var o3 := if req.imageWidth.Some? && req.imageHeight.Some? then o2["video_size" := VideoSize(req.imageWidth.value, req.imageHeight.value)] else o2;
    var o4 := if StartsWith(req.fileName, RtspScheme) then o3["max_delay" := "0"] else o3;
    var o5 := if StartsWith(req.fileName, RtspScheme) && req.playMode == Video then o4["allowed_media_types" := "video"] else o4;
    o5["user_agent" := UserAgent]
  }

  /** Position of the first `c` in `s`. */
  function IndexOf(s: string, c: char): (r: Option<nat>)
    ensures r.None? <==> c !in s
    ensures r.Some? ==> r.value < |s| && s[r.value] == c && c !in s[..r.value]
  {
    if |s| == 0 then None
    else if s[0] == c then Some(0)
    else match IndexOf(s[1..], c)
      case None => None
      case Some(i) => assert s[..i + 1] == [s[0]] + s[1..][..i]; Some(i + 1)
  }

  /** Reads a `WxH` size back into its two integers. */
  function ParseVideoSize(s: string): Option<(int, int)> {
    match IndexOf(s, 'x')
    case None => None
    case Some(i) =>
      var ws, hs := s[..i], s[i + 1..];
      if IsInteger(ws) && IsInteger(hs) then Some((Decimal.ParseInt(ws), Decimal.ParseInt(hs))) else None
  }

  predicate IsInteger(s: string) {
    && |s| >= 1
    && (s[0] == '-' || Decimal.IsDigit(s[0]))
    && (forall k :: 0 < k < |s| ==> Decimal.IsDigit(s[k]))
  }

  /** The `video_size` option carries the requested width and height without loss. */
  lemma VideoSizeRoundTrip(w: int, h: int)
    ensures ParseVideoSize(VideoSize(w, h)) == Some((w, h))
  {
    var ws, hs := Decimal.IntToString(w), Decimal.IntToString(h);
    var s := VideoSize(w, h);
    assert 'x' !in ws;
    assert s[|ws|] == 'x';
    assert s[..|ws|] == ws;
    assert IndexOf(s, 'x') == Some(|ws|);
    assert s[|ws| + 1..] == hs;
    Decimal.IntToStringRoundTrip(w);
    Decimal.IntToStringRoundTrip(h);
  }

  datatype Platform = Windows | Mac | Generic

  /** The capture device each platform opens when none is named. */
  function DefaultDevice(p: Platform): (name: string)
    ensures |name| > 0 && !StartsWith(name, RtspScheme)
    ensures p == Generic <==> StartsWith(name, "/dev/")
  {
    match p
    case Windows =>
      assert "Integrated Webcam"[0] != RtspScheme[0] && "Integrated Webcam"[0] != '/';
      "Integrated Webcam"
    case Mac => "0"
    case Generic =>
      assert "/dev/video0"[0] != RtspScheme[0];
      "/dev/video0"
  }

  /** The input format each platform captures through. */
  function DeviceFormat(p: Platform): string {
    match p
    case Windows => "dshow"
    case Mac => "avfoundation"
    case Generic => "video4linux2"
  }

  /** DirectShow wants `video=<name>`; the other platforms take the name unchanged. */
  function DeviceFileName(p: Platform, deviceName: string): (r: string)
    ensures p != Windows ==> r == deviceName
    ensures p == Windows ==> StartsWith(r, "video=") && r[|"video="|..] == deviceName
  {
    if p == Windows then "video=" + deviceName else deviceName
  }

  /** Opening a capture device: the platform's format and device name, the requested rate and size. */
  function FromDevice(p: Platform, deviceName: string, mode: PlayMode, frameRate: Option<Rational>,
                      imageWidth: Option<int>, imageHeight: Option<int>): (req: OpenRequest)
    ensures req.formatName == Some(DeviceFormat(p))
    ensures req.playMode == mode && req.frameRate == frameRate
    ensures req.imageWidth == imageWidth && req.imageHeight == imageHeight
    ensures req.fileName == DeviceFileName(p, deviceName)
  {
    OpenRequest(DeviceFileName(p, deviceName), mode, Some(DeviceFormat(p)), frameRate, imageWidth, imageHeight)
  }

  /** `fromDevice()` with every argument left at its default. */
  function FromDefaultDevice(p: Platform): OpenRequest {
    FromDevice(p, DefaultDevice(p), Video, None, None, None)
  }

  /**
    Opening a file or URL: the name and mode are passed on, the demuxer
    guesses the format, and no rate or size is forced.
  */
  function FromFile(fileName: string, mode: PlayMode): (req: OpenRequest)
    ensures req.fileName == fileName && req.playMode == mode
    ensures req.formatName.None? && req.frameRate.None?
    ensures req.imageWidth.None? && req.imageHeight.None?
  {
    OpenRequest(fileName, mode, None, None, None, None)
  }

  /** `fromFile(fileName)` with the mode left at its default: video and audio. */
  function FromFileDefault(fileName: string): (req: OpenRequest)
    ensures req.fileName == fileName && req.playMode == Both
    ensures UseVideo(req.playMode) && UseAudio(req.playMode)
  {
    FromFile(fileName, Both)
  }

  /**
    Files are where the RTSP options come from: an `rtsp://` URL gets
    `max_delay=0`, and video-only when the mode is VIDEO; any other name
    gets neither, and a file never has a rate or size forced.
  */
  lemma FromFileOptions(realtimeBufferSize: int, fileName: string, mode: PlayMode)
    ensures var opts := Options(realtimeBufferSize, FromFile(fileName, mode));
      && ("max_delay" in opts <==> StartsWith(fileName, RtspScheme))
      && ("allowed_media_types" in opts <==> StartsWith(fileName, RtspScheme) && mode == Video)
      && "framerate" !in opts && "video_size" !in opts
    ensures StartsWith(fileName, RtspScheme) ==>
      Options(realtimeBufferSize, FromFile(fileName, mode))["max_delay"] == "0"
    ensures "allowed_media_types" !in Options(realtimeBufferSize, FromFileDefault(fileName))
  {
  }

  /**
    Different device names on one platform give different device file names,
    so `fromDevice` never confuses two devices.
  */
  lemma DeviceFileNameInjective(p: Platform, a: string, b: string)
    requires DeviceFileName(p, a) == DeviceFileName(p, b)
    ensures a == b
  {
    if p == Windows {
      assert a == DeviceFileName(p, a)[|"video="|..];
    }
  }

  /**
    With defaults, a capture device is opened in video-only mode and only the
    user agent is set (plus `rtbufsize` when configured): devices are never RTSP streams.
  */
  lemma DefaultDeviceOptions(p: Platform, realtimeBufferSize: int)
    ensures var opts := Options(realtimeBufferSize, FromDefaultDevice(p));
      && "max_delay" !in opts && "allowed_media_types" !in opts
      && "framerate" !in opts && "video_size" !in opts
      && UseVideo(FromDefaultDevice(p).playMode) && !UseAudio(FromDefaultDevice(p).playMode)
  {
    var name := FromDefaultDevice(p).fileName;
    if p == Windows {
      assert |name| >= 1 && name[0] != RtspScheme[0];
      NotPrefixWhenFirstDiffers(name, RtspScheme);
    }
  }

  lemma NotPrefixWhenFirstDiffers(s: string, prefix: string)
    requires |s| >= 1 && |prefix| >= 1 && s[0] != prefix[0]
    ensures !StartsWith(s, prefix)
  {
  }
}
