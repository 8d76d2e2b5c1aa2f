// The RTP metadata track: packet numbering, the 90 kHz timestamp and the
// VideoLoss property stream of one relay session
// (internal/capture/metadata_relay.go).

module MetadataRelay {
  import opened Common

  // ---------------------------------------------------------------------
  // RTP headers (section 5.1 of RFC 3550)
  // ---------------------------------------------------------------------

  const TWO_16 := 0x1_0000

  datatype Packet = Packet(payloadType: nat, sequence: nat, timestamp: nat, ssrc: nat, payload: seq<Byte>)

  // uint32(uint64(nanoseconds) * 90000 / uint64(second))
  function Timestamp(now: int): nat {
    now % TWO_64 * 90000 % TWO_64 / 1_000_000_000 % TWO_32
  }

  // The number of the k-th packet after one numbered s0.
  function SequenceNumber(s0: nat, k: nat): nat {
    (s0 + k) % TWO_16
  }

  class RtpState {
    const ssrc: nat
    var sequence: nat
    ghost const first: nat
    ghost var sent: nat

    // The number is the first one advanced by the packets made since.
    ghost predicate Valid()
      reads this
    {
      sequence == SequenceNumber(first, sent) && first < TWO_16
    }

    constructor (ssrc: nat, sequence: nat)
      requires sequence < TWO_16
      ensures Valid() && this.ssrc == ssrc && first == this.sequence == sequence && sent == 0
    {
      this.ssrc, this.sequence, this.first, this.sent := ssrc, sequence, sequence, 0;
    }

    method MakePacket(payloadType: nat, now: int, payload: seq<Byte>) returns (p: Packet)
      requires Valid()
      modifies this
      ensures Valid() && sent == old(sent) + 1
      ensures sequence == p.sequence == (old(sequence) + 1) % 65536
      ensures p == Packet(payloadType, SequenceNumber(first, sent), Timestamp(now), ssrc, payload)
    {
      sequence := (sequence + 1) % TWO_16;
      sent := sent + 1;
      p := Packet(payloadType, sequence, Timestamp(now), ssrc, payload);
    }
  }

  // Each packet is numbered one more than the one before it, modulo 2^16.
  lemma SequenceSteps(s0: nat, k: nat)
    requires s0 < 65536
    ensures SequenceNumber(s0, 0) == s0
    ensures SequenceNumber(s0, k + 1) == (SequenceNumber(s0, k) + 1) % 65536
  {
  }

  // Any 65536 consecutive packets carry distinct numbers, and the next one
  // repeats the first.
  lemma SequenceDistinct(s0: nat, i: nat, j: nat)
    requires i < j <= i + TWO_16
    ensures SequenceNumber(s0, i) == SequenceNumber(s0, j) <==> j == i + TWO_16
  {
  }

  // How often the 64-bit product has wrapped by an instant.
  function Wraps(t: int): int {
    t * 90000 / TWO_64
  }

  // The product before the division.
  function Ticks(t: int): int {
    t * 90000 - Wraps(t) * TWO_64
  }

  lemma TimestampOfTicks(t: int)
    ensures 0 <= Ticks(t) < TWO_64
    ensures Timestamp(t) == Ticks(t) / 1_000_000_000 % TWO_32
  {
    var a, r := t / TWO_64, t % TWO_64;
    assert t == a * TWO_64 + r;
    assert t * 90000 == (a * 90000) * TWO_64 + r * 90000;
    Reduce(r * 90000, a * 90000);
    assert t * 90000 % TWO_64 == r * 90000 % TWO_64;
  }

  lemma Reduce(x: int, k: int)
    ensures (x + k * TWO_64) % TWO_64 == x % TWO_64
  {
  }

  // Until the product first wraps, the timestamp is the time since 1970 at
  // 9/100000 of a tick a nanosecond, modulo 2^32.
  lemma TimestampAbsolute(t: int)
    requires Wraps(t) == 0
    ensures Timestamp(t) == 9 * t / 100000 % TWO_32
  {
    TimestampOfTicks(t);
    assert t * 90000 / 1_000_000_000 == 9 * t / 100000;
  }

  // The difference of two timestamps is the elapsed time in ticks, rounded
  // down or up, less what the product lost by wrapping in between.
  lemma TimestampDifference(t: int, u: int) returns (d: int)
    requires t <= u
    ensures var elapsed := (u - t) * 90000 - (Wraps(u) - Wraps(t)) * TWO_64;
      d == elapsed / 1_000_000_000 || d == elapsed / 1_000_000_000 + 1
    ensures (Timestamp(u) - Timestamp(t)) % TWO_32 == d % TWO_32
  {
    TimestampOfTicks(t);
    TimestampOfTicks(u);
    d := Ticks(u) / 1_000_000_000 - Ticks(t) / 1_000_000_000;
    DifferenceModulo(Ticks(u) / 1_000_000_000, Ticks(t) / 1_000_000_000);
  }

  lemma DifferenceModulo(a: int, b: int)
    ensures (a % TWO_32 - b % TWO_32) % TWO_32 == (a - b) % TWO_32
  {
  }

  // The timestamps differ by the elapsed time at 9/100000 of a tick a
  // nanosecond, rounded down or up, modulo 2^32.
  predicate Linear(t: int, u: int) {
    var e, d := 9 * (u - t) / 100000, (Timestamp(u) - Timestamp(t)) % TWO_32;
    d == e % TWO_32 || d == (e + 1) % TWO_32
  }

  // So many wraps come to a whole number of 32-bit timestamp cycles: 5^9 of
  // them are 2^64 * 5^9 / 10^9 = 2^55 ticks.
  const PERIOD := 1_953_125
  const TWO_55: int := 0x80_0000_0000_0000

  lemma Quotients(x: int, w: int)
    ensures var a, b := x / 1_000_000_000, (x - w * TWO_64) / 1_000_000_000;
      -PERIOD < (a - b) * PERIOD - w * TWO_55 < PERIOD
  {
    var a, b := x / 1_000_000_000, (x - w * TWO_64) / 1_000_000_000;
    assert a * 1_000_000_000 <= x < (a + 1) * 1_000_000_000;
    assert b * 1_000_000_000 <= x - w * TWO_64 < (b + 1) * 1_000_000_000;
  }

  // Wraps that shift the quotient by whole cycles, give or take one tick, are
  // a multiple of the period.
  lemma OnlyPeriods(w: int, m: int)
    requires -3 * PERIOD < m * TWO_32 * PERIOD - w * TWO_55 < 3 * PERIOD
    ensures w % PERIOD == 0
  {
    var gap := m * PERIOD - w * 0x80_0000;
    assert m * TWO_32 * PERIOD - w * TWO_55 == gap * TWO_32;
    assert gap == 0;
    var k := 3_054_701 * w - 711_228 * m;
    assert w == 3_054_701 * PERIOD * w - 711_228 * (w * 0x80_0000);
    assert w == k * PERIOD;
  }

  lemma SameModulo(a: int, b: int)
    requires a % TWO_32 == b % TWO_32
    ensures a - b == (a / TWO_32 - b / TWO_32) * TWO_32
  {
  }

  lemma ShiftedModulo(a: int, k: int)
    ensures (a - k * TWO_55) % TWO_32 == a % TWO_32
  {
    assert a - k * TWO_55 == a + (-k * 0x80_0000) * TWO_32;
  }

  // Linear over wraps exactly when there is none, or a multiple of the period.
  lemma LinearExactly(t: int, u: int)
    requires t <= u
    ensures Linear(t, u) <==> (Wraps(u) - Wraps(t)) % PERIOD == 0
  {
    var x, w := (u - t) * 90000, Wraps(u) - Wraps(t);
    var e, b := 9 * (u - t) / 100000, (x - w * TWO_64) / 1_000_000_000;
    assert x / 1_000_000_000 == e;
    var d := TimestampDifference(t, u);
    Quotients(x, w);
    if w % PERIOD == 0 {
      var k := w / PERIOD;
      assert e - b == k * TWO_55;
      ShiftedModulo(e, k);
      ShiftedModulo(e + 1, k);
    }
    if Linear(t, u) {
      var q := if d % TWO_32 == e % TWO_32 then e else e + 1;
      SameModulo(q, d);
      var m := q / TWO_32 - d / TWO_32;
      assert -1 <= q - d - (e - b) <= 1;
      OnlyPeriods(w, m);
    }
  }

  // Between wraps the clock is linear.
  lemma TimestampLinear(t: int, u: int)
    requires t <= u && Wraps(t) == Wraps(u)
    ensures Linear(t, u)
  {
    LinearExactly(t, u);
  }

  // For the instants a 64-bit nanosecond count can hold it is so only there.
  lemma LinearBetweenWrapsExactly(t: int, u: int)
    requires t <= u && InInt64(t) && InInt64(u)
    ensures Linear(t, u) <==> Wraps(t) == Wraps(u)
  {
    LinearExactly(t, u);
    assert 0 <= Wraps(u) - Wraps(t) < PERIOD;
  }

  // A wrap comes every 204963823041218 nanoseconds or so, under 57 hours, and
  // the timestamp then jumps back: one nanosecond later it is zero again.
  lemma TimestampJumps()
    ensures Wraps(204_963_823_041_217) == 0 && Wraps(204_963_823_041_218) == 1
    ensures Timestamp(204_963_823_041_217) == 1_266_874_889 && Timestamp(204_963_823_041_218) == 0
    ensures !Linear(204_963_823_041_217, 204_963_823_041_218)
  {
    LinearExactly(204_963_823_041_217, 204_963_823_041_218);
  }

  // ---------------------------------------------------------------------
  // One relay session
  // ---------------------------------------------------------------------

  datatype Operation = Initialized | Changed | Heartbeat
  datatype Document = Document(operation: Operation, videoLoss: bool)

  // `sent` are the documents written to the track; `ended` that the session
  // has returned.
  datatype Session = Session(first: bool, lastLoss: bool, sent: seq<Document>, ended: bool)

  // One call of sendMetadata: the source readiness it samples, whether the
  // document fits one packet, and whether the write succeeds.
  datatype Sample = Sample(ready: bool, fits: bool, written: bool)

  function Start(ready: bool): Session {
    Session(true, !ready, [], false)
  }

  function NextDocument(s: Session, ready: bool): Document {
    Document(if s.first then Initialized else if !ready != s.lastLoss then Changed else Heartbeat, !ready)
  }

  function Sent(s: Session, x: Sample): Session {
    if s.ended then s
    else
      var doc := NextDocument(s, x.ready);
      if x.fits && x.written then Session(false, !x.ready, s.sent + [doc], false)
      else Session(false, !x.ready, s.sent, true)
  }

  // The error exit: a last Changed document reporting loss, best effort.
  function Failed(s: Session, written: bool): Session {
    if s.ended then s
    else s.(ended := true, sent := if written then s.sent + [Document(Changed, true)] else s.sent)
  }

  class RelaySession {
    var first: bool
    var lastVideoLoss: bool
    var sent: seq<Document>
    var ended: bool

    function State(): Session
      reads this
    {
      Session(first, lastVideoLoss, sent, ended)
    }

    constructor (ready: bool)
      ensures State() == Start(ready)
    {
      first, lastVideoLoss, sent, ended := true, !ready, [], false;
    }

    method SendMetadata(ready: bool, fits: bool, written: bool) returns (ok: bool)
      requires !ended
      modifies this
      ensures State() == Sent(old(State()), Sample(ready, fits, written))
      ensures ok == !ended
    {
      var videoLoss := !ready;
      var operation := Heartbeat;
      if first {
        operation := Initialized;
        first := false;
      } else if videoLoss != lastVideoLoss {
        operation := Changed;
      }
      lastVideoLoss := videoLoss;
      if !fits {
        ended := true;
        return false;
      }
      if written {
        sent := sent + [Document(operation, videoLoss)];
      } else {
        ended := true;
      }
      return written;
    }

    method ExitOnError(written: bool)
      requires !ended
      modifies this
      ensures State() == Failed(old(State()), written)
    {
      if written {
        sent := sent + [Document(Changed, true)];
      }
      ended := true;
    }
  }

  // The state a receiver reconstructs: the latest one reported.
  function Reported(docs: seq<Document>): Option<bool> {
    if docs == [] then None
    else
      var last := docs[|docs| - 1];
      if last.operation.Heartbeat? then Reported(docs[..|docs| - 1]) else Some(last.videoLoss)
  }

  // Initialized once and first; every Changed reverses what was reported.
  ghost predicate WellTold(docs: seq<Document>) {
    && (docs != [] ==> docs[0].operation.Initialized?)
    && (forall i :: 0 < i < |docs| ==> !docs[i].operation.Initialized?)
    && (forall i :: 0 < i < |docs| && docs[i].operation.Changed? ==> Reported(docs[..i]) == Some(!docs[i].videoLoss))
  }

  function AfterSamples(s: Session, samples: seq<Sample>): Session
    decreases |samples|
  {
    if samples == [] then s else AfterSamples(Sent(s, samples[0]), samples[1..])
  }

  // While it lasts, a session has sent something as soon as it is past its
  // first document, and a receiver knows the readiness of the latest send.
  ghost predicate Faithful(s: Session) {
    && WellTold(s.sent)
    && (!s.ended ==> (s.first <==> s.sent == []))
    && (!s.ended && s.sent != [] ==> Reported(s.sent) == Some(s.lastLoss))
    && (s.sent != [] ==> Reported(s.sent) == Some(s.sent[|s.sent| - 1].videoLoss))
  }

  // One more document that continues the story keeps it well told.
  lemma WellToldMore(docs: seq<Document>, doc: Document)
    requires WellTold(docs)
    requires if docs == [] then doc.operation.Initialized? else !doc.operation.Initialized?
    requires docs != [] && doc.operation.Changed? ==> Reported(docs) == Some(!doc.videoLoss)
    ensures WellTold(docs + [doc])
  {
    var more := docs + [doc];
    assert more[..|docs|] == docs;
    forall i | 0 < i < |more| && more[i].operation.Changed?
      ensures Reported(more[..i]) == Some(!more[i].videoLoss)
    {
      assert i < |docs| ==> more[..i] == docs[..i] && more[i] == docs[i];
    }
  }

  lemma ReportedMore(docs: seq<Document>, doc: Document)
    ensures Reported(docs + [doc]) == if doc.operation.Heartbeat? then Reported(docs) else Some(doc.videoLoss)
  {
    assert (docs + [doc])[..|docs|] == docs;
  }

  lemma SentFaithful(s: Session, x: Sample)
    requires Faithful(s)
    ensures Faithful(Sent(s, x))
  {
    if !s.ended {
      WellToldMore(s.sent, NextDocument(s, x.ready));
      ReportedMore(s.sent, NextDocument(s, x.ready));
    }
  }

  lemma {:induction false} SamplesFaithful(s: Session, samples: seq<Sample>)
    requires Faithful(s)
    ensures Faithful(AfterSamples(s, samples))
    decreases |samples|
  {
    if samples != [] {
      SentFaithful(s, samples[0]);
      SamplesFaithful(Sent(s, samples[0]), samples[1..]);
    }
  }

  // While it lasts, a session remembers the readiness it sampled last.
  lemma {:induction false} LastSampled(s: Session, samples: seq<Sample>)
    requires samples != [] && !AfterSamples(s, samples).ended
    ensures AfterSamples(s, samples).lastLoss == !samples[|samples| - 1].ready
    decreases |samples|
  {
    if |samples| > 1 {
      LastSampled(Sent(s, samples[0]), samples[1..]);
    }
  }

  // ... and is past its first document.
  lemma {:induction false} PastFirst(s: Session, samples: seq<Sample>)
    requires samples != [] || s.ended || !s.first
    ensures !AfterSamples(s, samples).ended ==> !AfterSamples(s, samples).first
    decreases |samples|
  {
    if samples != [] {
      PastFirst(Sent(s, samples[0]), samples[1..]);
    }
  }

  // Every session that sends anything sends exactly one Initialized document,
  // first; each Changed reverses the state reported before it; and folding
  // what was sent gives the readiness sampled at the latest send.
  lemma StreamReconstructs(ready: bool, samples: seq<Sample>)
    ensures var s := AfterSamples(Start(ready), samples);
      && WellTold(s.sent)
      && (s.sent != [] ==> Reported(s.sent) == Some(s.sent[|s.sent| - 1].videoLoss))
      && (samples != [] && !s.ended ==> Reported(s.sent) == Some(!samples[|samples| - 1].ready))
  {
    SamplesFaithful(Start(ready), samples);
    if samples != [] && !AfterSamples(Start(ready), samples).ended {
      LastSampled(Start(ready), samples);
      PastFirst(Start(ready), samples);
    }
  }

  // A session lasts exactly as long as every document fits and is written, and
  // then has sent one for each sample.
  lemma {:induction false} SessionLasts(s: Session, samples: seq<Sample>)
    requires !s.ended
    ensures !AfterSamples(s, samples).ended <==>
              forall i :: 0 <= i < |samples| ==> samples[i].fits && samples[i].written
    ensures !AfterSamples(s, samples).ended ==> |AfterSamples(s, samples).sent| == |s.sent| + |samples|
    decreases |samples|
  {
    if samples != [] {
      if samples[0].fits && samples[0].written {
        SessionLasts(Sent(s, samples[0]), samples[1..]);
        assert forall i :: 0 < i < |samples| ==> samples[i] == samples[1..][i - 1];
      } else {
        EndedStays(Sent(s, samples[0]), samples[1..]);
      }
    }
  }

  // ... and after that sends nothing.
  lemma {:induction false} EndedStays(s: Session, samples: seq<Sample>)
    requires s.ended
    ensures AfterSamples(s, samples) == s
    decreases |samples|
  {
    if samples != [] {
      EndedStays(Sent(s, samples[0]), samples[1..]);
    }
  }

  // An error exit after successful sends leaves the receiver at loss if its
  // last packet is written; otherwise at the last state sampled.
  lemma ErrorExitReportsLoss(ready: bool, samples: seq<Sample>, written: bool)
    requires samples != [] && !AfterSamples(Start(ready), samples).ended
    ensures Reported(Failed(AfterSamples(Start(ready), samples), written).sent) ==
              Some(if written then true else !samples[|samples| - 1].ready)
  {
    StreamReconstructs(ready, samples);
    ReportedMore(AfterSamples(Start(ready), samples).sent, Document(Changed, true));
  }

  // That last document is a Changed that may change nothing: the stream stays
  // well told exactly when it is not written, or the source was ready at the
  // latest sample.
  lemma {:induction false} ErrorExitWellToldExactly(ready: bool, samples: seq<Sample>, written: bool)
    requires samples != [] && !AfterSamples(Start(ready), samples).ended
    ensures WellTold(Failed(AfterSamples(Start(ready), samples), written).sent) <==>
              !written || samples[|samples| - 1].ready
  {
    StreamReconstructs(ready, samples);
    var docs, loss := AfterSamples(Start(ready), samples).sent, Document(Changed, true);
    if written {
      if samples[|samples| - 1].ready {
        WellToldMore(docs, loss);
      }
      var more := docs + [loss];
      assert more[..|docs|] == docs && more[|docs|] == loss;
    }
  }
}
