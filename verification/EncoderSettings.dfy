// The ONVIF encoder setter and getters over the running configuration
// (internal/onvif/encoder_config.go, internal/onvif/server.go) and the manager
// they update (internal/capture/capture.go).

module EncoderSettings {
  import opened Common
  import opened Text
  import opened VideoConfig

  // ---------------------------------------------------------------------
  // Getters
  // ---------------------------------------------------------------------

  // The numbers an encoder configuration reports, for the main stream or the
  // substream.
  datatype Settings = Settings(width: int, height: int, fps: int, bitrate: int, govLength: int)

  function Report(c: Config, sub: bool): Settings {
    var v := c.video;
    if sub then Settings(v.subWidth, v.subHeight, v.subFps, BitrateKbps(v.subBitrate), v.subFps * v.gopSeconds)
    else Settings(v.width, v.height, v.fps, BitrateKbps(v.bitrate), v.fps * v.gopSeconds)
  }

  // ---------------------------------------------------------------------
  // The setter
  // ---------------------------------------------------------------------

  // The parsed request; zero stands for an absent number. GovLength arrives
  // beside or inside the H264 element, the former taking precedence.
  datatype Request = Request(
    token: string, encoding: string, width: int, height: int, fps: int,
    encodingInterval: int, bitrate: int, govLength: int, h264GovLength: int)

  datatype Refusal =
    | NoSubstream | UnknownToken | BadEncoding | BadInterval | BadGov | BadResolution | BadFrameRate | BadBitrate
    | Invalid(fault: Fault) | NoConfigPath | PersistFailed

  datatype Outcome = Refused(why: Refusal) | Accepted(next: Config)

  const MAIN := "screen_encoder"
  const SUB := "screen_encoder_sub"

  predicate IsH264(encoding: string) {
    |encoding| == 4 && (encoding[0] == 'H' || encoding[0] == 'h') && encoding[1..] == "264"
  }

  function Or(requested: int, current: int): int {
    if requested != 0 then requested else current
  }

  function Gov(r: Request): int {
    Or(r.govLength, r.h264GovLength)
  }

  function Store(c: Config, sub: bool, width: int, height: int, fps: int, bitrate: int, gopSeconds: int): Config {
    var text := Itoa(bitrate) + "k";
    if sub then
      c.(video := c.video.(
           subWidth := width, subHeight := height, subFps := fps, subBitrate := text, gopSeconds := gopSeconds))
    else
      c.(video := c.video.(width := width, height := height, fps := fps, bitrate := text, gopSeconds := gopSeconds))
  }

  // The configuration the handler submits, or why it refuses.
  function Prepare(c: Config, r: Request): Outcome {
    var sub := r.token == SUB;
    if r.token != MAIN && !sub then Refused(UnknownToken)
    else if sub && !c.site.substreamEnabled then Refused(NoSubstream)
    else if r.encoding != "" && !IsH264(r.encoding) then Refused(BadEncoding)
    else
      var now := Report(c, sub);
      Choose(c, sub, r,
             Or(r.width, now.width), Or(r.height, now.height), Or(r.fps, now.fps), Or(r.bitrate, now.bitrate))
  }

  // The checks on the chosen numbers, in the handler's order.
  function Choose(c: Config, sub: bool, r: Request, width: int, height: int, fps: int, bitrate: int): Outcome {
    if r.encodingInterval != 0 && r.encodingInterval != 1 then Refused(BadInterval)
    else if Gov(r) != 0 && (fps < 1 || Gov(r) % fps != 0) then Refused(BadGov)
    else if !Frame(width, height) then Refused(BadResolution)
    else if fps < 1 || fps > 120 then Refused(BadFrameRate)
    else if bitrate < 64 || bitrate > 200000 then Refused(BadBitrate)
    else Accepted(Store(c, sub, width, height, fps, bitrate, if Gov(r) != 0 then Gov(r) / fps else c.video.gopSeconds))
  }

  // ... and after UpdateConfig has validated it.
  function Set(c: Config, r: Request): Outcome {
    match Prepare(c, r)
    case Refused(why) => Refused(why)
    case Accepted(next) => if Valid(next) then Accepted(next) else Refused(Invalid(Validate(next).value))
  }

  // ---------------------------------------------------------------------
  // The objects
  // ---------------------------------------------------------------------

  // capture.Manager: the running configuration, the path and the nine fields
  // of the file, and the capacity-one restart channel.
  class Manager {
    var cfg: Config
    var configPath: string
    var persisted: Video
    var restart: bool

    constructor (cfg: Config, configPath: string)
      ensures this.cfg == cfg && this.configPath == configPath && !restart && persisted == cfg.video
    {
      this.cfg, this.configPath, this.persisted, this.restart := cfg, configPath, cfg.video, false;
    }

    // `written` tells whether rewriting the file succeeds.
    method UpdateConfig(next: Config, persist: bool, written: bool) returns (refusal: Option<Refusal>)
      modifies this
      ensures refusal ==
                if !Valid(next) then Some(Invalid(Validate(next).value))
                else if persist && configPath == "" then Some(NoConfigPath)
                else if persist && !written then Some(PersistFailed)
                else None
      ensures refusal.Some? ==> unchanged(this)
      ensures refusal.None? ==>
                cfg == old(cfg).(video := next.video) && restart && configPath == old(configPath)
                && persisted == if persist then next.video else old(persisted)
    {
      if !Valid(next) {
        return Some(Invalid(Validate(next).value));
      }
      if persist {
        if configPath == "" {
          return Some(NoConfigPath);
        }
        if !written {
          return Some(PersistFailed);
        }
        persisted := next.video;
      }
      cfg := cfg.(video := cfg.video.(fps := next.video.fps));
      cfg := cfg.(video := cfg.video.(width := next.video.width));
      cfg := cfg.(video := cfg.video.(height := next.video.height));
      cfg := cfg.(video := cfg.video.(bitrate := next.video.bitrate));
      cfg := cfg.(video := cfg.video.(gopSeconds := next.video.gopSeconds));
      cfg := cfg.(video := cfg.video.(subFps := next.video.subFps));
      cfg := cfg.(video := cfg.video.(subWidth := next.video.subWidth));
      cfg := cfg.(video := cfg.video.(subHeight := next.video.subHeight));
      cfg := cfg.(video := cfg.video.(subBitrate := next.video.subBitrate));
      restart := true;
      return None;
    }

    // The handler up to its call of UpdateConfig: it reads the configuration
    // and edits a copy field by field.
    method EditedCopy(r: Request) returns (outcome: Outcome)
      ensures outcome == Prepare(cfg, r)
    {
      var current := cfg;
      var next := current;
      var isSub := false;
      if r.token == SUB {
        if !current.site.substreamEnabled {
          return Refused(NoSubstream);
        }
        isSub := true;
      } else if r.token != MAIN {
        return Refused(UnknownToken);
      }
      if r.encoding != "" && !IsH264(r.encoding) {
        return Refused(BadEncoding);
      }
      var now := Report(current, isSub);
      var width, height, fps, bitrate := now.width, now.height, now.fps, now.bitrate;
      if r.width != 0 {
        width := r.width;
      }
      if r.height != 0 {
        height := r.height;
      }
      if r.fps != 0 {
        fps := r.fps;
      }
      if r.bitrate != 0 {
        bitrate := r.bitrate;
      }
      assert Prepare(cfg, r) == Choose(cfg, isSub, r, width, height, fps, bitrate);
      if r.encodingInterval != 0 && r.encodingInterval != 1 {
        return Refused(BadInterval);
      }
      var gov := r.govLength;
      if gov == 0 {
        gov := r.h264GovLength;
      }
      if gov != 0 {
        if fps < 1 || gov % fps != 0 {
          return Refused(BadGov);
        }
        next := next.(video := next.video.(gopSeconds := gov / fps));
      }
      if !Frame(width, height) {
        return Refused(BadResolution);
      }
      if fps < 1 || fps > 120 {
        return Refused(BadFrameRate);
      }
      if bitrate < 64 || bitrate > 200000 {
        return Refused(BadBitrate);
      }
      if isSub {
        next := next.(video := next.video.(
                        subWidth := width, subHeight := height, subFps := fps, subBitrate := Itoa(bitrate) + "k"));
      } else {
        next := next.(video := next.video.(
                        width := width, height := height, fps := fps, bitrate := Itoa(bitrate) + "k"));
      }
      return Accepted(next);
    }

    // The whole handler, run on its own.
    method SetVideoEncoderConfiguration(r: Request, persist: bool, written: bool) returns (refusal: Option<Refusal>)
      modifies this
      ensures Set(old(cfg), r).Refused? ==> refusal == Some(Set(old(cfg), r).why)
      ensures Set(old(cfg), r).Accepted? ==>
                refusal == (if persist && configPath == "" then Some(NoConfigPath)
                            else if persist && !written then Some(PersistFailed)
                            else None)
      ensures refusal.Some? ==> unchanged(this)
      ensures refusal.None? ==> Set(old(cfg), r) == Accepted(cfg) && restart
      ensures refusal.None? && persist ==> persisted == cfg.video
    {
      var outcome := EditedCopy(r);
      if outcome.Refused? {
        return Some(outcome.why);
      }
      SameSite(cfg, r);
      refusal := UpdateConfig(outcome.next, persist, written);
    }
  }

  // The handler never touches the Site part.
  lemma SameSite(c: Config, r: Request)
    requires Prepare(c, r).Accepted?
    ensures Prepare(c, r).next == c.(video := Prepare(c, r).next.video)
  {
  }

  // ---------------------------------------------------------------------
  // The lens laws
  // ---------------------------------------------------------------------

  predicate Meets(requested: int, before: int, after: int) {
    (requested != 0 ==> after == requested) && (requested == 0 ==> after == before)
  }

  // Set then get: every requested number is reported, every absent one keeps
  // its value, and the other stream changes only through the shared GOP.
  lemma SetThenGet(c: Config, r: Request)
    requires Set(c, r).Accepted?
    ensures var sub, next := r.token == SUB, Set(c, r).next;
      var before, after := Report(c, sub), Report(next, sub);
      && (r.govLength != 0 ==> after.govLength == r.govLength)
      && (r.govLength == 0 && r.h264GovLength != 0 ==> after.govLength == r.h264GovLength)
      && (r.govLength == 0 && r.h264GovLength == 0 ==> next.video.gopSeconds == c.video.gopSeconds)
      && Meets(r.width, before.width, after.width)
      && Meets(r.height, before.height, after.height)
      && Meets(r.fps, before.fps, after.fps)
      && Meets(r.bitrate, before.bitrate, after.bitrate)
      && next.site == c.site && Valid(next)
      && Report(next, !sub) == Report(c, !sub).(govLength := Report(c, !sub).fps * next.video.gopSeconds)
  {
    var sub := r.token == SUB;
    var bitrate := Or(r.bitrate, Report(c, sub).bitrate);
    var fps := Or(r.fps, Report(c, sub).fps);
    BitrateRoundTrip(bitrate);
    if Gov(r) != 0 {
      ExactQuotient(Gov(r), fps);
    }
  }

  // In the stored fields: the requested ones as they are, the bit rate in
  // kbit/s, and nothing of the other stream.
  lemma SetStores(c: Config, r: Request)
    requires Set(c, r).Accepted?
    ensures var sub, next := r.token == SUB, Set(c, r).next;
      var before, after := StreamOf(c.video, sub), StreamOf(next.video, sub);
      && after.width == (if r.width != 0 then r.width else before.width)
      && after.height == (if r.height != 0 then r.height else before.height)
      && after.fps == (if r.fps != 0 then r.fps else before.fps)
      && after.bitrate == Itoa(if r.bitrate != 0 then r.bitrate else BitrateKbps(before.bitrate)) + "k"
      && StreamOf(next.video, !sub) == StreamOf(c.video, !sub) && next.site == c.site
  {
  }

  // What a request asks of its stream: a number given, or the present one.
  function Wanted(c: Config, r: Request): Settings {
    var now := StreamOf(c.video, r.token == "screen_encoder_sub");
    Settings(
      if r.width != 0 then r.width else now.width,
      if r.height != 0 then r.height else now.height,
      if r.fps != 0 then r.fps else now.fps,
      if r.bitrate != 0 then r.bitrate else BitrateKbps(now.bitrate),
      if r.govLength != 0 then r.govLength else r.h264GovLength)
  }

  predicate Offered(c: Config, r: Request) {
    && (r.token == "screen_encoder" || (r.token == "screen_encoder_sub" && c.site.substreamEnabled))
    && (r.encoding == "" || r.encoding == "H264" || r.encoding == "h264")
    && (r.encodingInterval == 0 || r.encodingInterval == 1)
  }

  predicate InRange(w: Settings) {
    && w.width >= 64 && w.height >= 64 && w.width % 2 == 0 && w.height % 2 == 0
    && 1 <= w.fps <= 120 && 64 <= w.bitrate <= 200000
    && (w.govLength != 0 ==> w.govLength % w.fps == 0)
  }

  predicate FitsOther(c: Config, sub: bool, w: Settings) {
    if sub then w.width <= c.video.width && w.height <= c.video.height && w.fps <= c.video.fps
    else c.site.substreamEnabled ==>
      c.video.subWidth <= w.width && c.video.subHeight <= w.height && c.video.subFps <= w.fps
  }

  // Exactly which requests a valid configuration accepts: to a stream there
  // is, for numbers in range, a GOP of one to ten whole seconds, and a
  // substream no larger or faster than the main stream.
  predicate Acceptable(c: Config, r: Request) {
    var w := Wanted(c, r);
    && Offered(c, r) && InRange(w)
    && (w.govLength != 0 ==> 1 <= w.govLength / w.fps <= 10)
    && FitsOther(c, r.token == "screen_encoder_sub", w)
  }

  lemma WantedIsChosen(c: Config, r: Request)
    ensures Wanted(c, r) == Chosen(c, r)
  {
  }

  lemma PreparedExactly(c: Config, r: Request)
    ensures Prepare(c, r).Accepted? <==> Offered(c, r) && InRange(Wanted(c, r))
  {
    WantedIsChosen(c, r);
    assert IsH264(r.encoding) <==> r.encoding == "H264" || r.encoding == "h264";
  }

  lemma StoredOk(c: Config, sub: bool, w: Settings, gop: int)
    requires VideoOk(c.site, c.video) && InRange(w) && (sub ==> c.site.substreamEnabled)
    ensures VideoOk(c.site, StoreAll(c, sub, w, gop).video) <==> 1 <= gop <= 10 && FitsOther(c, sub, w)
  {
    BitrateRoundTrip(w.bitrate);
  }

  lemma AcceptedFields(c: Config, r: Request)
    requires VideoOk(c.site, c.video) && Prepare(c, r).Accepted?
    ensures VideoOk(c.site, Prepare(c, r).next.video) <==> Acceptable(c, r)
  {
    PreparedStores(c, r);
    PreparedExactly(c, r);
    WantedIsChosen(c, r);
    StoredOk(c, r.token == SUB, Wanted(c, r), ChosenGop(c, r));
  }

  lemma AcceptedExactly(c: Config, r: Request)
    requires Valid(c)
    ensures Set(c, r).Accepted? <==> Acceptable(c, r)
  {
    ValidByParts(c, c.video);
    if Prepare(c, r).Accepted? {
      SameSite(c, r);
      ValidByParts(c, Prepare(c, r).next.video);
      AcceptedFields(c, r);
    } else {
      PreparedExactly(c, r);
    }
  }

  lemma ExactQuotient(gov: int, fps: int)
    requires fps >= 1 && gov % fps == 0
    ensures fps * (gov / fps) == gov
  {
  }

  // The request that writes a report back, to the stream it came from.
  function WriteBack(s: Settings, sub: bool): Request {
    Request(if sub then SUB else MAIN, "H264", s.width, s.height, s.fps, 1, s.bitrate, s.govLength, 0)
  }

  // The same with the length inside the H264 element.
  function WriteBackH264(s: Settings, sub: bool): Request {
    Request(if sub then SUB else MAIN, "H264", s.width, s.height, s.fps, 1, s.bitrate, 0, s.govLength)
  }

  // What is stored when a stream's own report is written back.
  function Rewritten(c: Config, sub: bool): Config {
    var s := Report(c, sub);
    Store(c, sub, s.width, s.height, s.fps, s.bitrate, c.video.gopSeconds)
  }

  lemma WriteBackPrepared(c: Config, sub: bool)
    requires MainOk(c.video) && (sub ==> SubOk(c.video) && c.site.substreamEnabled)
    ensures Prepare(c, WriteBack(Report(c, sub), sub)) ==
              if 64 <= Report(c, sub).bitrate <= 200000 then Accepted(Rewritten(c, sub)) else Refused(BadBitrate)
    ensures Prepare(c, WriteBackH264(Report(c, sub), sub)) == Prepare(c, WriteBack(Report(c, sub), sub))
  {
    QuotientBack(Report(c, sub).fps, c.video.gopSeconds);
  }

  lemma RewrittenReports(c: Config, sub: bool)
    requires 64 <= Report(c, sub).bitrate <= 200000
    ensures Report(Rewritten(c, sub), sub) == Report(c, sub)
    ensures Report(Rewritten(c, sub), !sub) == Report(c, !sub)
    ensures VideoOk(c.site, c.video) ==> VideoOk(c.site, Rewritten(c, sub).video)
  {
    BitrateRoundTrip(Report(c, sub).bitrate);
  }

  // Get then set: on a valid configuration, writing back what an existing
  // stream reports, its length in either place, succeeds exactly when its bit
  // rate is one the setter takes, and then no reported number changes.
  lemma GetThenSet(c: Config, sub: bool, inside: bool)
    requires Valid(c) && (sub ==> c.site.substreamEnabled)
    ensures var r := if inside then WriteBackH264(Report(c, sub), sub) else WriteBack(Report(c, sub), sub);
      && (Set(c, r).Accepted? <==> 64 <= Report(c, sub).bitrate <= 200000)
      && (Set(c, r).Accepted? ==>
            Report(Set(c, r).next, sub) == Report(c, sub) && Report(Set(c, r).next, !sub) == Report(c, !sub))
  {
    ValidByParts(c, c.video);
    WriteBackPrepared(c, sub);
    if 64 <= Report(c, sub).bitrate <= 200000 {
      RewrittenReports(c, sub);
      ValidByParts(c, Rewritten(c, sub).video);
      assert Rewritten(c, sub) == c.(video := Rewritten(c, sub).video);
    }
  }

  // The limit bites: every valid configuration has a valid neighbour, differing
  // in its bit rate only, whose own report is refused.
  lemma LowBitrateIsRefused(c: Config)
    requires Valid(c)
    ensures var d := c.(video := c.video.(bitrate := "32k"));
      && Valid(d) && Report(d, false).bitrate == 32
      && Set(d, WriteBack(Report(d, false), false)) == Refused(BadBitrate)
  {
    var d := c.(video := c.video.(bitrate := "32k"));
    ThirtyTwo();
    ValidByParts(c, d.video);
    assert MainOk(d.video);
    WriteBackPrepared(d, false);
  }

  lemma ThirtyTwo()
    ensures BitrateKbps("32k") == 32 && !Blank("32k")
  {
    ThirtyTwoPrinted();
    assert "32" + "k" == "32k";
    BitrateRoundTrip(32);
  }

  lemma ThirtyTwoPrinted()
    ensures Itoa(32) == "32"
  {
    assert Decimal(3) == ['3'];
    assert Decimal(32) == ['3'] + ['2'];
  }

  lemma QuotientBack(fps: int, gop: int)
    requires fps >= 1 && gop >= 1
    ensures fps * gop != 0 && fps * gop % fps == 0 && fps * gop / fps == gop
  {
    var x := fps * gop;
    assert x >= 1;
    assert x == fps * (x / fps) + x % fps;
    UniqueQuotient(fps, gop, x / fps, x % fps);
  }

  lemma UniqueQuotient(fps: int, gop: int, q: int, m: int)
    requires 0 <= m < fps && fps * gop == fps * q + m
    ensures q == gop && m == 0
  {
    var d := gop - q;
    assert fps * d == fps * gop - fps * q;
    if d >= 1 {
      AtLeastOnce(fps, d);
    } else if d <= -1 {
      AtLeastOnce(fps, -d);
    }
  }

  lemma AtLeastOnce(fps: int, d: int)
    requires fps >= 0 && d >= 1
    ensures fps * d >= fps
  {
    assert fps * d == fps * (d - 1) + fps;
  }

  predicate Complete(r: Request) {
    r.width != 0 && r.height != 0 && r.fps != 0 && r.bitrate != 0 && Gov(r) != 0
  }

  // Set then set: a complete request leaves nothing of the one before it.
  lemma SetThenSet(c: Config, first: Request, second: Request)
    requires Set(c, first).Accepted? && first.token == second.token && Complete(second)
    ensures Set(Set(c, first).next, second) == Set(c, second)
  {
    assert Prepare(Set(c, first).next, second) == Prepare(c, second);
  }

  // ---------------------------------------------------------------------
  // Setting from a stale copy
  // ---------------------------------------------------------------------

  // The stored fields of one stream.
  datatype Stream = Stream(width: int, height: int, fps: int, bitrate: string)

  function StreamOf(v: Video, sub: bool): Stream {
    if sub then Stream(v.subWidth, v.subHeight, v.subFps, v.subBitrate)
    else Stream(v.width, v.height, v.fps, v.bitrate)
  }

  // The request asks for every number in which the configuration has moved on
  // from the copy.
  predicate Covers(r: Request, stale: Config, now: Config) {
    var sub := r.token == SUB;
    var before, after := Report(stale, sub), Report(now, sub);
    && (r.width != 0 || before.width == after.width)
    && (r.height != 0 || before.height == after.height)
    && (r.fps != 0 || before.fps == after.fps)
    && (r.bitrate != 0 || before.bitrate == after.bitrate)
    && (Gov(r) != 0 || stale.video.gopSeconds == now.video.gopSeconds)
    && StreamOf(stale.video, !sub) == StreamOf(now.video, !sub)
  }

  // The configuration already is what the request asks for, its bit rate
  // written as the setter writes it.
  predicate Settled(r: Request, c: Config) {
    var sub := r.token == SUB;
    var now := Report(c, sub);
    && (r.width == 0 || r.width == now.width)
    && (r.height == 0 || r.height == now.height)
    && (r.fps == 0 || r.fps == now.fps)
    && (r.bitrate == 0 || r.bitrate == now.bitrate)
    && (Gov(r) == 0 || Gov(r) == now.govLength)
    && 64 <= now.bitrate <= 200000 && StreamOf(c.video, sub).bitrate == Itoa(now.bitrate) + "k"
  }

  lemma ItoaInjective(a: int, b: int)
    requires InInt64(a) && InInt64(b) && Itoa(a) + "k" == Itoa(b) + "k"
    ensures a == b
  {
    assert Itoa(a) == (Itoa(a) + "k")[..|Itoa(a)|];
    assert Itoa(b) == (Itoa(b) + "k")[..|Itoa(b)|];
    AtoiItoa(a);
    AtoiItoa(b);
  }

  function StoreAll(c: Config, sub: bool, x: Settings, gop: int): Config {
    Store(c, sub, x.width, x.height, x.fps, x.bitrate, gop)
  }

  // Storing the same numbers into two configurations of one site gives the
  // same exactly when they agree on the rest.
  lemma StoreExactly(c: Config, d: Config, sub: bool, x: Settings, y: Settings, g: int, h: int)
    requires c.site == d.site && InInt64(x.bitrate) && InInt64(y.bitrate)
    ensures StoreAll(c, sub, x, g) == StoreAll(d, sub, y, h) <==>
              && x.width == y.width && x.height == y.height && x.fps == y.fps && x.bitrate == y.bitrate && g == h
              && StreamOf(c.video, !sub) == StreamOf(d.video, !sub)
  {
    var v, w := StoreAll(c, sub, x, g).video, StoreAll(d, sub, y, h).video;
    if Itoa(x.bitrate) + "k" == Itoa(y.bitrate) + "k" {
      ItoaInjective(x.bitrate, y.bitrate);
    }
    assert StreamOf(v, sub) == Stream(x.width, x.height, x.fps, Itoa(x.bitrate) + "k");
    assert StreamOf(w, sub) == Stream(y.width, y.height, y.fps, Itoa(y.bitrate) + "k");
    assert StreamOf(v, !sub) == StreamOf(c.video, !sub) && StreamOf(w, !sub) == StreamOf(d.video, !sub);
    assert v.gopSeconds == g && w.gopSeconds == h;
  }

  // The numbers a request chooses on a configuration.
  function Chosen(c: Config, r: Request): Settings {
    var now := Report(c, r.token == SUB);
    var fps := Or(r.fps, now.fps);
    Settings(Or(r.width, now.width), Or(r.height, now.height), fps, Or(r.bitrate, now.bitrate), Gov(r))
  }

  function ChosenGop(c: Config, r: Request): int
    requires Gov(r) != 0 ==> Chosen(c, r).fps != 0
  {
    if Gov(r) != 0 then Gov(r) / Chosen(c, r).fps else c.video.gopSeconds
  }

  lemma PreparedStores(c: Config, r: Request)
    requires Prepare(c, r).Accepted?
    ensures var x := Chosen(c, r);
      && 64 <= x.bitrate <= 200000 && x.fps >= 1
      && Prepare(c, r).next == StoreAll(c, r.token == SUB, x, ChosenGop(c, r))
  {
  }

  // A request accepted on one configuration passes the same checks on another
  // of that site when it chooses the same numbers.
  lemma ChecksAgain(c: Config, d: Config, r: Request)
    requires Prepare(c, r).Accepted? && c.site == d.site
    requires Chosen(c, r) == Chosen(d, r)
    ensures Prepare(d, r).Accepted?
  {
  }

  // A request applied to a stale copy has the effect it would have on the
  // configuration itself exactly when it asks for everything that moved on.
  lemma StaleSetExactly(stale: Config, now: Config, r: Request)
    requires stale.site == now.site && Set(stale, r).Accepted?
    ensures Set(now, r) == Set(stale, r) <==> Covers(r, stale, now)
  {
    PreparedStores(stale, r);
    if Covers(r, stale, now) {
      ChecksAgain(stale, now, r);
    }
    if Prepare(now, r).Accepted? {
      PreparedStores(now, r);
      StoreExactly(stale, now, r.token == SUB,
                   Chosen(stale, r), Chosen(now, r), ChosenGop(stale, r), ChosenGop(now, r));
    }
  }

  // A request accepted elsewhere on the site changes nothing in a valid
  // configuration exactly when that already is what it asks for.
  lemma SettledExactly(c: Config, r: Request, elsewhere: Config)
    requires Valid(c) && elsewhere.site == c.site && Set(elsewhere, r).Accepted?
    ensures Set(c, r) == Accepted(c) <==> Settled(r, c)
  {
    ValidByParts(c, c.video);
    if Settled(r, c) {
      SettledChecks(c, r, elsewhere);
    }
    if Prepare(c, r).Accepted? {
      PreparedStores(c, r);
      StoresItself(c, r);
    }
  }

  lemma SettledChecks(c: Config, r: Request, elsewhere: Config)
    requires VideoOk(c.site, c.video) && elsewhere.site == c.site && Prepare(elsewhere, r).Accepted? && Settled(r, c)
    ensures Prepare(c, r).Accepted?
  {
    QuotientBack(c.video.fps, c.video.gopSeconds);
    if r.token == SUB {
      QuotientBack(c.video.subFps, c.video.gopSeconds);
    }
  }

  lemma StoresItself(c: Config, r: Request)
    requires VideoOk(c.site, c.video) && Prepare(c, r).Accepted?
    ensures Prepare(c, r).next == c <==> Settled(r, c)
  {
    var sub, x := r.token == SUB, Chosen(c, r);
    var v := Prepare(c, r).next.video;
    PreparedStores(c, r);
    BitrateRoundTrip(x.bitrate);
    assert StreamOf(v, sub) == Stream(x.width, x.height, x.fps, Itoa(x.bitrate) + "k");
    assert StreamOf(v, !sub) == StreamOf(c.video, !sub);
    assert v.gopSeconds == ChosenGop(c, r);
    SameSite(c, r);
    if Gov(r) != 0 {
      ExactQuotient(Gov(r), x.fps);
      QuotientBack(x.fps, c.video.gopSeconds);
    }
    assert v == c.video <==>
      StreamOf(v, sub) == StreamOf(c.video, sub) && StreamOf(v, !sub) == StreamOf(c.video, !sub)
      && v.gopSeconds == c.video.gopSeconds;
  }
}
