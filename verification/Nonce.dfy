// The server nonce of internal/auth/digest.go: a printed timestamp and its
// MAC, in unpadded base64url (section 5 of RFC 4648). The MAC is an arbitrary
// function from text to bytes.

module Nonce {
  import opened Common
  import opened Text

  type Sextet = d: int | 0 <= d < 64

  // ---------------------------------------------------------------------
  // base64url without padding
  // ---------------------------------------------------------------------

  function Letter(d: Sextet): char {
    if d < 26 then (65 + d) as char
    else if d < 52 then (71 + d) as char
    else if d < 62 then (d - 4) as char
    else if d == 62 then '-' else '_'
  }

  function LetterValue(c: char): Option<Sextet> {
    if 'A' <= c <= 'Z' then Some(c as int - 65)
    else if 'a' <= c <= 'z' then Some(c as int - 71)
    else if '0' <= c <= '9' then Some(c as int + 4)
    else if c == '-' then Some(62)
    else if c == '_' then Some(63)
    else None
  }

  function ToSextets(bs: seq<Byte>): seq<Sextet> {
    if |bs| == 0 then []
    else if |bs| == 1 then [bs[0] / 4, bs[0] % 4 * 16]
    else if |bs| == 2 then [bs[0] / 4, bs[0] % 4 * 16 + bs[1] / 16, bs[1] % 16 * 4]
    else [bs[0] / 4, bs[0] % 4 * 16 + bs[1] / 16, bs[1] % 16 * 4 + bs[2] / 64, bs[2] % 64] + ToSextets(bs[3..])
  }

  // The three bytes of a group of four sextets.
  function Byte0(d0: int, d1: int): int { d0 * 4 + d1 / 16 }
  function Byte1(d1: int, d2: int): int { d1 % 16 * 16 + d2 / 4 }
  function Byte2(d2: int, d3: int): int { d2 % 4 * 64 + d3 }

  // One sextet over is an error; the unused low bits of the last sextet are
  // ignored.
  function FromSextets(ds: seq<Sextet>): Option<seq<Byte>> {
    if |ds| == 0 then Some([])
    else if |ds| == 1 then None
    else if |ds| == 2 then Some([Byte0(ds[0], ds[1])])
    else if |ds| == 3 then Some([Byte0(ds[0], ds[1]), Byte1(ds[1], ds[2])])
    else
      match FromSextets(ds[4..])
      case None => None
      case Some(rest) =>
        Some([Byte0(ds[0], ds[1]), Byte1(ds[1], ds[2]), Byte2(ds[2], ds[3])] + rest)
  }

  function Letters(ds: seq<Sextet>): string {
    if ds == [] then "" else [Letter(ds[0])] + Letters(ds[1..])
  }

  // Line breaks are skipped, any other foreign character is an error.
  function Sextets(s: string): Option<seq<Sextet>> {
    if s == "" then Some([])
    else if s[0] == '\r' || s[0] == '\n' then Sextets(s[1..])
    else
      var d, rest := LetterValue(s[0]), Sextets(s[1..]);
      if d.None? || rest.None? then None else Some([d.value] + rest.value)
  }

  function Encode(bs: seq<Byte>): string {
    Letters(ToSextets(bs))
  }

  function Decode(s: string): Option<seq<Byte>> {
    match Sextets(s)
    case None => None
    case Some(ds) => FromSextets(ds)
  }

  lemma LetterRoundTrip(d: Sextet)
    ensures LetterValue(Letter(d)) == Some(d) && Letter(d) != '\r' && Letter(d) != '\n'
  {
  }

  lemma {:induction false} LettersRoundTrip(ds: seq<Sextet>)
    ensures Sextets(Letters(ds)) == Some(ds)
  {
    if ds != [] {
      LettersRoundTrip(ds[1..]);
      assert Letters(ds)[1..] == Letters(ds[1..]);
      LetterRoundTrip(ds[0]);
      assert [ds[0]] + ds[1..] == ds;
    }
  }

  lemma {:induction false} SextetsRoundTrip(bs: seq<Byte>)
    ensures FromSextets(ToSextets(bs)) == Some(bs)
  {
    if |bs| == 1 || |bs| == 2 {
      assert FromSextets(ToSextets(bs)).value == bs;
    } else if |bs| >= 3 {
      SextetsRoundTrip(bs[3..]);
      var ds := ToSextets(bs);
      assert ds[4..] == ToSextets(bs[3..]);
      assert Byte0(ds[0], ds[1]) == bs[0] && Byte1(ds[1], ds[2]) == bs[1] && Byte2(ds[2], ds[3]) == bs[2];
      assert bs == [bs[0], bs[1], bs[2]] + bs[3..];
    }
  }

  // Decoding inverts encoding on every byte string.
  lemma Base64RoundTrip(bs: seq<Byte>)
    ensures Decode(Encode(bs)) == Some(bs)
  {
    SextetsRoundTrip(bs);
    LettersRoundTrip(ToSextets(bs));
  }

  // ---------------------------------------------------------------------
  // Text and bytes
  // ---------------------------------------------------------------------

  // One character a byte.
  function ToText(bs: seq<Byte>): string {
    seq(|bs|, i requires 0 <= i < |bs| => bs[i] as char)
  }

  function ToBytes(s: string): seq<Byte>
    requires forall i :: 0 <= i < |s| ==> s[i] as int < 256
  {
    seq(|s|, i requires 0 <= i < |s| => s[i] as int)
  }

  function HexDigit(n: int): char
    requires 0 <= n < 16
  {
    if n < 10 then (48 + n) as char else (87 + n) as char
  }

  function Hex(bs: seq<Byte>): (s: string)
    ensures |s| == 2 * |bs|
    ensures forall i :: 0 <= i < |s| ==> '0' <= s[i] <= '9' || 'a' <= s[i] <= 'f'
  {
    if bs == [] then "" else [HexDigit(bs[0] / 16), HexDigit(bs[0] % 16)] + Hex(bs[1..])
  }

  // ---------------------------------------------------------------------
  // The nonce
  // ---------------------------------------------------------------------

  type Mac = string -> seq<Byte>

  // Seconds since 1970 of an instant, rounded down.
  function Unix(t: int): int {
    t / SECOND
  }

  function Payload(mac: Mac, now: int): string {
    Itoa(Unix(now)) + ":" + Hex(mac(Itoa(Unix(now))))
  }

  lemma PayloadIsAscii(mac: Mac, now: int)
    ensures forall i :: 0 <= i < |Payload(mac, now)| ==> Payload(mac, now)[i] as int < 256
  {
  }

  function NewNonce(mac: Mac, now: int): string {
    PayloadIsAscii(mac, now);
    Encode(ToBytes(Payload(mac, now)))
  }

  // The timestamp a nonce carries, if it is one of ours.
  function Stamp(mac: Mac, nonce: string): Option<int> {
    match Decode(nonce)
    case None => None
    case Some(raw) =>
      var parts := Split(ToText(raw), ':');
      if |parts| != 2 then None
      else
        match Atoi(parts[0])
        case None => None
        case Some(ts) => if Hex(mac(parts[0])) == parts[1] then Some(ts * SECOND) else None
  }

  predicate ValidNonce(mac: Mac, nonce: string, now: int, ttl: int) {
    match Stamp(mac, nonce)
    case None => false
    case Some(t) => now - t <= ttl && t - now <= ttl
  }

  // What a nonce must decode to: a number of seconds, a colon, and the MAC of
  // the text of that number.
  ghost predicate Stamped(mac: Mac, nonce: string, text: string, seconds: int) {
    && Decode(nonce).Some? && Atoi(text) == Some(seconds)
    && ToText(Decode(nonce).value) == text + ":" + Hex(mac(text))
  }

  lemma DigitsOnly(text: string)
    requires Atoi(text).Some?
    ensures ':' !in text
  {
  }

  lemma {:induction false} OnlySplit(s: string, a: string, b: string)
    requires s == a + [':'] + b && ':' !in a && ':' !in b
    ensures Split(s, ':') == [a, b]
  {
    SplitJoin([a, b], ':');
    assert Join([a, b], ':') == s by {
      assert [a, b][1..] == [b];
    }
  }

  lemma StampedIsStamp(mac: Mac, nonce: string, text: string, seconds: int)
    requires Stamped(mac, nonce, text, seconds)
    ensures Stamp(mac, nonce) == Some(seconds * SECOND)
  {
    DigitsOnly(text);
    OnlySplit(ToText(Decode(nonce).value), text, Hex(mac(text)));
  }

  lemma StampIsStamped(mac: Mac, nonce: string) returns (text: string, seconds: int)
    requires Stamp(mac, nonce).Some?
    ensures Stamped(mac, nonce, text, seconds) && Stamp(mac, nonce) == Some(seconds * SECOND)
  {
    var whole := ToText(Decode(nonce).value);
    var parts := Split(whole, ':');
    JoinSplit(whole, ':');
    text, seconds := parts[0], Atoi(parts[0]).value;
    assert parts[1..] == [parts[1]];
    assert Join(parts, ':') == parts[0] + [':'] + parts[1];
  }

  // A nonce is valid exactly when it is a number of seconds within TTL of now
  // under the server's own MAC.
  lemma ValidExactly(mac: Mac, nonce: string, now: int, ttl: int)
    ensures ValidNonce(mac, nonce, now, ttl) <==>
              exists text, seconds :: Stamped(mac, nonce, text, seconds) && -ttl <= now - seconds * SECOND <= ttl
  {
    if ValidNonce(mac, nonce, now, ttl) {
      var text, seconds := StampIsStamped(mac, nonce);
      assert Stamped(mac, nonce, text, seconds) && -ttl <= now - seconds * SECOND <= ttl;
    }
    if text, seconds :| Stamped(mac, nonce, text, seconds) && -ttl <= now - seconds * SECOND <= ttl {
      StampedIsStamp(mac, nonce, text, seconds);
    }
  }

  // The alphabet of section 5 of RFC 4648: three runs and two more.
  lemma AlphabetRuns(d: Sextet)
    ensures Letter(0) == 'A' && Letter(26) == 'a' && Letter(52) == '0' && Letter(62) == '-' && Letter(63) == '_'
    ensures d < 61 && d != 25 && d != 51 ==> Letter(d + 1) as int == Letter(d) as int + 1
  {
  }

  // Any character that is neither a letter of the alphabet nor a line break
  // makes the text undecodable, and so does one letter too many.
  lemma {:induction false} ForeignRefused(s: string, i: nat)
    requires i < |s| && s[i] != '\r' && s[i] != '\n'
    requires !('A' <= s[i] <= 'Z' || 'a' <= s[i] <= 'z' || '0' <= s[i] <= '9' || s[i] == '-' || s[i] == '_')
    ensures Sextets(s) == None && Decode(s) == None
  {
    if i > 0 {
      ForeignRefused(s[1..], i - 1);
    }
  }

  lemma {:induction false} OddLetterRefused(ds: seq<Sextet>)
    ensures FromSextets(ds).None? <==> |ds| % 4 == 1
  {
    if |ds| >= 4 {
      OddLetterRefused(ds[4..]);
    }
  }

  // The nonce issued at an instant carries that instant, to the second.
  lemma NonceCarriesItsTime(mac: Mac, t: int)
    requires InInt64(Unix(t))
    ensures Stamp(mac, NewNonce(mac, t)) == Some(Unix(t) * SECOND)
  {
    var ts := Itoa(Unix(t));
    var p := Payload(mac, t);
    PayloadIsAscii(mac, t);
    Base64RoundTrip(ToBytes(p));
    assert ToText(ToBytes(p)) == p;
    assert p == ts + [':'] + Hex(mac(ts));
    SplitJoin([ts, Hex(mac(ts))], ':');
    assert Join([ts, Hex(mac(ts))], ':') == p by {
      assert [ts, Hex(mac(ts))][1..] == [Hex(mac(ts))];
    }
    AtoiItoa(Unix(t));
  }

  // It is valid exactly within TTL, both ways, of that second.
  lemma NonceWindow(mac: Mac, t: int, now: int, ttl: int)
    requires InInt64(Unix(t))
    ensures ValidNonce(mac, NewNonce(mac, t), now, ttl) <==> Unix(t) * SECOND - ttl <= now <= Unix(t) * SECOND + ttl
  {
    NonceCarriesItsTime(mac, t);
  }
}
