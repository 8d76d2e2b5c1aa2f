// The configuration and its validity (internal/config/config.go). The nine
// fields a runtime update writes are the Video part; everything else is the
// Site part.

module VideoConfig {
  import opened Common
  import opened Text

  datatype Video = Video(
    width: int, height: int, fps: int, bitrate: string, gopSeconds: int,
    subWidth: int, subHeight: int, subFps: int, subBitrate: string)

  // An advertised address, as net.ParseIP sees it.
  datatype Address = Unset | Parsed | Unparsable

  datatype Site = Site(
    onvifPort: int, rtspPort: int, rtspPath: string,
    substreamEnabled: bool, substreamPath: string,
    snapshotRefreshMs: int, osdTextFile: string, osdFontFile: string, osdFontSize: int,
    metadataEnabled: bool, metadataIntervalMs: int, metadataPayloadType: int,
    encoder: string, advertiseIp: Address, deviceName: string, serialNumber: string,
    recordingEnabled: bool, recordingDir: string, segmentSeconds: int, retentionDays: int, maxRecordingGb: int,
    logFile: string, logMaxMb: int, logBackups: int,
    onvifUsername: string, onvifPassword: string, rtspUsername: string, rtspPassword: string,
    authRealm: string, insecureNoAuth: bool)

  datatype Config = Config(site: Site, video: Video)

  datatype Fault =
    | PortRange | SamePort | FpsRange | Dimensions | GopRange | SegmentTooShort | NegativeRetention | BadPath
    | BadSubPath | SamePath | SubFpsRange | SubDimensions | SubTooLarge | NoSubBitrate
    | SnapshotRange | NoOsdText | NoOsdFont | OsdFontRange | MetadataInterval | MetadataPayload
    | BadEncoder | BadAddress | NoDevice | NoBitrate | NoRecordingDir | BadLog
    | NoOnvifLogin | NoRtspLogin | ShortPassword | NoRealm

  predicate IsWord(s: string) {
    s != "" && forall i :: 0 <= i < |s| ==>
      'A' <= s[i] <= 'Z' || 'a' <= s[i] <= 'z' || IsDigit(s[i]) || s[i] == '_'
  }

  predicate Blank(s: string) {
    TrimSpace(s) == ""
  }

  predicate Frame(width: int, height: int) {
    width >= 64 && height >= 64 && width % 2 == 0 && height % 2 == 0
  }

  // The first complaint of Validate, or None.
  function Validate(c: Config): Option<Fault> {
    var s, v := c.site, c.video;
    if s.onvifPort < 1 || s.onvifPort > 65535 || s.rtspPort < 1 || s.rtspPort > 65535 then Some(PortRange)
    else if s.onvifPort == s.rtspPort then Some(SamePort)
    else if v.fps < 1 || v.fps > 120 then Some(FpsRange)
    else if !Frame(v.width, v.height) then Some(Dimensions)
    else if v.gopSeconds < 1 || v.gopSeconds > 10 then Some(GopRange)
    else if s.segmentSeconds < 10 then Some(SegmentTooShort)
    else if s.retentionDays < 0 || s.maxRecordingGb < 0 then Some(NegativeRetention)
    else if !IsWord(s.rtspPath) then Some(BadPath)
    else
      var sub := if s.substreamEnabled then ValidateSub(s, v) else None;
      if sub.Some? then sub else ValidateRest(s, v)
  }

  function ValidateSub(s: Site, v: Video): Option<Fault> {
    if !IsWord(s.substreamPath) then Some(BadSubPath)
    else if s.substreamPath == s.rtspPath then Some(SamePath)
    else if v.subFps < 1 || v.subFps > v.fps then Some(SubFpsRange)
    else if !Frame(v.subWidth, v.subHeight) then Some(SubDimensions)
    else if v.subWidth > v.width || v.subHeight > v.height then Some(SubTooLarge)
    else if Blank(v.subBitrate) then Some(NoSubBitrate)
    else None
  }

  function ValidateRest(s: Site, v: Video): Option<Fault> {
    if s.snapshotRefreshMs < 250 || s.snapshotRefreshMs > 60000 then Some(SnapshotRange)
    else if Blank(s.osdTextFile) then Some(NoOsdText)
    else if Blank(s.osdFontFile) then Some(NoOsdFont)
    else if s.osdFontSize < 8 || s.osdFontSize > 96 then Some(OsdFontRange)
    else if s.metadataEnabled && (s.metadataIntervalMs < 250 || s.metadataIntervalMs > 5000) then Some(MetadataInterval)
    else if s.metadataEnabled && (s.metadataPayloadType < 96 || s.metadataPayloadType > 127) then Some(MetadataPayload)
    else if s.encoder !in ["auto", "libx264", "h264_nvenc", "h264_qsv", "h264_amf"] then Some(BadEncoder)
    else if s.advertiseIp == Unparsable then Some(BadAddress)
    else if Blank(s.deviceName) || Blank(s.serialNumber) then Some(NoDevice)
    else if Blank(v.bitrate) then Some(NoBitrate)
    else if s.recordingEnabled && Blank(s.recordingDir) then Some(NoRecordingDir)
    else if Blank(s.logFile) || s.logMaxMb < 1 || s.logBackups < 1 then Some(BadLog)
    else if s.insecureNoAuth then None
    else if s.onvifUsername == "" || s.onvifPassword == "" then Some(NoOnvifLogin)
    else if s.rtspUsername == "" || s.rtspPassword == "" then Some(NoRtspLogin)
    else if |s.onvifPassword| < 12 || |s.rtspPassword| < 12 then Some(ShortPassword)
    else if s.authRealm == "" then Some(NoRealm)
    else None
  }

  predicate Valid(c: Config) {
    Validate(c).None?
  }

  // What is asked of everything else.
  predicate SiteOk(s: Site) {
    && 1 <= s.onvifPort <= 65535 && 1 <= s.rtspPort <= 65535 && s.onvifPort != s.rtspPort
    && IsWord(s.rtspPath) && (s.substreamEnabled ==> IsWord(s.substreamPath) && s.substreamPath != s.rtspPath)
    && 250 <= s.snapshotRefreshMs <= 60000
    && !Blank(s.osdTextFile) && !Blank(s.osdFontFile) && 8 <= s.osdFontSize <= 96
    && (s.metadataEnabled ==> 250 <= s.metadataIntervalMs <= 5000 && 96 <= s.metadataPayloadType <= 127)
    && (s.encoder == "auto" || s.encoder == "libx264"
        || s.encoder == "h264_nvenc" || s.encoder == "h264_qsv" || s.encoder == "h264_amf")
    && !s.advertiseIp.Unparsable? && !Blank(s.deviceName) && !Blank(s.serialNumber)
    && s.segmentSeconds >= 10 && s.retentionDays >= 0 && s.maxRecordingGb >= 0
    && (s.recordingEnabled ==> !Blank(s.recordingDir))
    && !Blank(s.logFile) && s.logMaxMb >= 1 && s.logBackups >= 1
    && (!s.insecureNoAuth ==>
          && s.onvifUsername != "" && s.rtspUsername != "" && s.authRealm != ""
          && |s.onvifPassword| >= 12 && |s.rtspPassword| >= 12)
  }

  // ---------------------------------------------------------------------
  // What validity asks of the nine fields
  // ---------------------------------------------------------------------

  predicate MainOk(v: Video) {
    && 1 <= v.fps <= 120 && Frame(v.width, v.height) && 1 <= v.gopSeconds <= 10 && !Blank(v.bitrate)
  }

  predicate SubOk(v: Video) {
    && 1 <= v.subFps <= v.fps && Frame(v.subWidth, v.subHeight)
    && v.subWidth <= v.width && v.subHeight <= v.height && !Blank(v.subBitrate)
  }

  predicate VideoOk(s: Site, v: Video) {
    MainOk(v) && (s.substreamEnabled ==> SubOk(v))
  }

  // Exactly which configurations are valid.
  lemma ValidExactly(c: Config)
    ensures Valid(c) <==> SiteOk(c.site) && VideoOk(c.site, c.video)
  {
  }

  // Exchanging the nine fields of a valid configuration keeps it valid exactly
  // when the new ones satisfy their own conditions.
  lemma ValidByParts(c: Config, v: Video)
    requires Valid(c)
    ensures VideoOk(c.site, c.video)
    ensures Valid(c.(video := v)) <==> VideoOk(c.site, v)
  {
  }

  // UpdateConfig validates `next` as a whole but copies only its nine fields.
  // The result is valid exactly when the target has no substream, or next has
  // one, or next's substream fields are in order anyway.
  lemma UpdateKeepsValidExactly(c: Config, next: Config)
    requires Valid(c) && Valid(next)
    ensures Valid(c.(video := next.video)) <==>
              !c.site.substreamEnabled || next.site.substreamEnabled || SubOk(next.video)
  {
    ValidByParts(c, next.video);
    ValidByParts(next, next.video);
  }

  // ---------------------------------------------------------------------
  // Bit rates
  // ---------------------------------------------------------------------

  // strings.ToLower as far as the suffixes k and m go: the Kelvin sign is the
  // one other character that lowers to either.
  function Lowered(s: string): string {
    seq(|s|, i requires 0 <= i < |s| =>
      if 'A' <= s[i] <= 'Z' then (s[i] as int + 32) as char else if s[i] == '\U{212A}' then 'k' else s[i])
  }

  function BitrateKbps(text: string): int {
    var v := TrimSpace(Lowered(text));
    var suffix := if v != "" && (v[|v| - 1] == 'k' || v[|v| - 1] == 'm') then v[|v| - 1..] else "";
    var n := Atoi(v[..|v| - |suffix|]);
    if n.None? || n.value <= 0 then 4000
    else if suffix == "m" then Wrap64(n.value * 1000)
    else n.value
  }

  // The text a setter stores is read back as the number it was set to.
  lemma BitrateRoundTrip(kbps: int)
    requires 0 < kbps && InInt64(kbps)
    ensures BitrateKbps(Itoa(kbps) + "k") == kbps
    ensures !Blank(Itoa(kbps) + "k")
  {
    var digits, text := Decimal(kbps), Itoa(kbps) + "k";
    assert text == digits + "k";
    assert Lowered(text) == text;
    assert IsDigit(text[0]);
    TrimTight(text);
    assert text[..|text| - 1] == digits;
    AtoiItoa(kbps);
  }

  lemma LoweredDigits(digits: string, suffix: string)
    requires AllDigits(digits)
    ensures Lowered(digits + suffix) == digits + Lowered(suffix)
  {
  }

  // Digits with a suffix, in either case, or with none: kbit/s or Mbit/s.
  // Zero counts as 4000.
  lemma BitrateReads(n: nat, suffix: string)
    requires InInt64(n) && suffix in ["", "k", "K", "\U{212A}", "m", "M"]
    ensures BitrateKbps(Itoa(n) + suffix) ==
              if n == 0 then 4000 else if suffix == "m" || suffix == "M" then Wrap64(n * 1000) else n
  {
    var lower :=
      if suffix == "" then "" else if suffix == "k" || suffix == "K" || suffix == "\U{212A}" then "k" else "m";
    assert Lowered(suffix) == lower;
    SuffixRead(n, suffix, lower);
  }

  lemma SuffixRead(n: nat, suffix: string, lower: string)
    requires InInt64(n) && Lowered(suffix) == lower && lower in ["", "k", "m"]
    ensures BitrateKbps(Itoa(n) + suffix) == if n == 0 then 4000 else if lower == "m" then Wrap64(n * 1000) else n
  {
    var digits := Decimal(n);
    LoweredDigits(digits, suffix);
    SuffixTight(digits, lower);
    TrimTight(digits + lower);
    AtoiItoa(n);
    BitrateOf(Itoa(n) + suffix, digits, lower, n);
  }

  lemma SuffixTight(digits: string, lower: string)
    requires digits != "" && AllDigits(digits) && lower in ["", "k", "m"]
    ensures Tight(digits + lower)
    ensures var v := digits + lower;
      if lower == "" then IsDigit(v[|v| - 1]) else v[|v| - 1..] == lower && v[|v| - 1] == lower[0]
    ensures (digits + lower)[..|digits|] == digits
  {
  }

  lemma BitrateOf(text: string, digits: string, lower: string, n: nat)
    requires TrimSpace(Lowered(text)) == digits + lower && Atoi(digits) == Some(n)
    requires digits != "" && AllDigits(digits) && lower in ["", "k", "m"]
    ensures BitrateKbps(text) == if n == 0 then 4000 else if lower == "m" then Wrap64(n * 1000) else n
  {
    SuffixTight(digits, lower);
  }

  // Text with no digit in it, and the empty text, count as 4000.
  lemma BitrateDefault(text: string)
    requires forall i :: 0 <= i < |text| ==> !IsDigit(text[i])
    ensures BitrateKbps(text) == 4000
  {
    var low := Lowered(text);
    assert forall i :: 0 <= i < |low| ==> !IsDigit(low[i]);
    TrimIsPart(low);
    var v := TrimSpace(low);
    assert forall i :: 0 <= i < |v| ==> !IsDigit(v[i]);
    NoDigitNoNumber(v);
    if v != "" {
      NoDigitNoNumber(v[..|v| - 1]);
    }
    assert v[..|v| - 0] == v;
  }

  lemma NoDigitNoNumber(v: string)
    requires forall i :: 0 <= i < |v| ==> !IsDigit(v[i])
    ensures Atoi(v) == None
  {
    if |v| > 1 {
      assert !IsDigit(v[1..][0]);
    }
  }
}
