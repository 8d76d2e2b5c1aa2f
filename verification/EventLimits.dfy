// The request parameters of the event service: how long a pull waits, how
// many messages it takes and how long a subscription lives
// (internal/onvif/events.go, lines 311-376).

module EventLimits {
  import opened Common
  import opened Text
  import EventBroker

  const MINUTE := 60_000_000_000
  const HOUR := 3_600_000_000_000
  const DEFAULT_PULL_WAIT := 5 * SECOND
  const MAX_PULL_TIMEOUT := MINUTE
  const DEFAULT_PULL_LIMIT := 10

  // The longest prefix made of digits.
  function DigitRun(s: string): (n: nat)
    ensures n <= |s| && AllDigits(s[..n])
  {
    if s != "" && IsDigit(s[0]) then
      var n := 1 + DigitRun(s[1..]);
      assert forall i :: 0 < i < n ==> s[..n][i] == s[1..][..n - 1][i - 1];
      n
    else 0
  }

  // An optional group of digits closed by `unit`: the digits and the rest.
  function Group(s: string, unit: char): (string, string) {
    var n := DigitRun(s);
    if 0 < n < |s| && s[n] == unit then (s[..n], s[n + 1..]) else ("", s)
  }

  // digits, or digits.digits, closed by S at the end of the string
  predicate IsSeconds(s: string) {
    var n := DigitRun(s);
    0 < n < |s|
    && (s[n..] == "S"
        || (s[n] == '.' && (var m := DigitRun(s[n + 1..]); 0 < m && s[n + 1 + m..] == "S")))
  }

  // Atoi's value on digits when its error is ignored: saturated at the top.
  function Saturated(digits: string): int
    requires AllDigits(digits)
  {
    if DigitsValue(digits) < TWO_63 then DigitsValue(digits) else TWO_63 - 1
  }

  // The total of the three groups, every step of it wrapping. `seconds` is
  // the float64 product of the seconds group, converted to an integer; any
  // function will do.
  function IsoTotal(h: string, m: string, sec: string, seconds: string -> int): int
    requires AllDigits(h) && AllDigits(m)
  {
    var t0 := if h == "" then 0 else Wrap64(Saturated(h) * HOUR);
    var t1 := if m == "" then t0 else Wrap64(t0 + Wrap64(Saturated(m) * MINUTE));
    if sec == "" then t1 else Wrap64(t1 + Wrap64(seconds(sec)))
  }

  // parseISODuration on PT[nH][nM][n[.n]S]; zero when the text has another form.
  function ParseIso(value: string, seconds: string -> int): int {
    IsoBody(TrimSpace(value), seconds)
  }

  function IsoBody(v: string, seconds: string -> int): int {
    if |v| < 2 || v[0] != 'P' || v[1] != 'T' then 0
    else
      var (h, v1) := Group(v[2..], 'H');
      var (m, v2) := Group(v1, 'M');
      if v2 != "" && !IsSeconds(v2) then 0 else IsoTotal(h, m, v2, seconds)
  }

  function PullTimeout(value: string, seconds: string -> int): (d: int)
    ensures 0 < d <= MAX_PULL_TIMEOUT
  {
    var d := ParseIso(value, seconds);
    if d <= 0 then DEFAULT_PULL_WAIT else if d > MAX_PULL_TIMEOUT then MAX_PULL_TIMEOUT else d
  }

  function MessageLimit(value: string): (n: nat)
    ensures 1 <= n <= 100
  {
    match Atoi(TrimSpace(value))
    case None => DEFAULT_PULL_LIMIT
    case Some(n) => if n < 1 then DEFAULT_PULL_LIMIT else if n > 100 then 100 else n
  }

  // `until` is the time left to an absolute RFC 3339 instant, None when the
  // text is not one. Whatever the text, the lifetime is positive and at most
  // an hour: what PullProtocol asks of Create and Renew.
  function TerminationDuration(value: string, seconds: string -> int, until: Option<int>, fallback: int): (d: int)
    ensures 0 < fallback <= EventBroker.MAX_TTL ==> 0 < d <= EventBroker.MAX_TTL
  {
    var v := TrimSpace(value);
    var d := ParseIso(v, seconds);
    if v == "" then fallback
    else if d > 0 then (if d > EventBroker.MAX_TTL then EventBroker.MAX_TTL else d)
    else if until.Some? && until.value > 0 then
      (if until.value > EventBroker.MAX_TTL then EventBroker.MAX_TTL else until.value)
    else fallback
  }

  lemma {:induction false} DigitRunStops(digits: string, rest: string)
    requires AllDigits(digits) && (rest == "" || !IsDigit(rest[0]))
    ensures DigitRun(digits + rest) == |digits|
  {
    if digits != "" {
      assert (digits + rest)[1..] == digits[1..] + rest;
      DigitRunStops(digits[1..], rest);
    } else {
      assert digits + rest == rest;
    }
  }

  // A group that is there, or not.
  function GroupText(digits: string, unit: char): string {
    if digits == "" then "" else digits + [unit]
  }

  // What may follow a group: another unit first, or nothing.
  predicate OtherUnit(rest: string, unit: char) {
    rest == "" || (var n := DigitRun(rest); n < |rest| && rest[n] != unit)
  }

  lemma GroupReads(digits: string, unit: char, rest: string)
    requires AllDigits(digits) && !IsDigit(unit) && OtherUnit(rest, unit)
    ensures Group(GroupText(digits, unit) + rest, unit) == (digits, rest)
  {
    if digits == "" {
      assert GroupText(digits, unit) + rest == rest;
    } else {
      var s := GroupText(digits, unit) + rest;
      assert s == digits + ([unit] + rest);
      DigitRunStops(digits, [unit] + rest);
      assert s[..|digits|] == digits && s[|digits| + 1..] == rest;
    }
  }

  lemma GroupFollows(digits: string, unit: char, rest: string, other: char)
    requires AllDigits(digits) && !IsDigit(unit) && unit != other && OtherUnit(rest, other)
    ensures OtherUnit(GroupText(digits, unit) + rest, other)
  {
    var s := GroupText(digits, unit) + rest;
    if digits == "" {
      assert s == rest;
    } else {
      assert s == digits + ([unit] + rest);
      DigitRunStops(digits, [unit] + rest);
    }
  }

  // The duration with these hours and minutes, either of them absent, and this
  // seconds group, if any.
  function DurationText(h: string, m: string, sec: string): string {
    "PT" + (GroupText(h, 'H') + (GroupText(m, 'M') + sec))
  }

  predicate IsDuration(h: string, m: string, sec: string) {
    AllDigits(h) && AllDigits(m) && (sec == "" || IsSeconds(sec))
  }

  // The total before any reduction to 64 bits, each number saturated.
  function Total(h: string, m: string, sec: string, seconds: string -> int): int
    requires AllDigits(h) && AllDigits(m)
  {
    Saturated(h) * HOUR + Saturated(m) * MINUTE + if sec == "" then 0 else seconds(sec)
  }

  lemma WrapShift(n: int, k: int)
    ensures Wrap64(n + k * TWO_64) == Wrap64(n)
  {
  }

  lemma WrapSum(a: int, b: int)
    ensures Wrap64(Wrap64(a) + Wrap64(b)) == Wrap64(a + b)
  {
    var j, k := (a + TWO_63) / TWO_64, (b + TWO_63) / TWO_64;
    assert Wrap64(a) == a - j * TWO_64 && Wrap64(b) == b - k * TWO_64;
    WrapShift(a + b, -j - k);
  }

  lemma TotalWraps(h: string, m: string, sec: string, seconds: string -> int)
    requires AllDigits(h) && AllDigits(m)
    ensures IsoTotal(h, m, sec, seconds) == Wrap64(Total(h, m, sec, seconds))
  {
    var a, b := Saturated(h) * HOUR, Saturated(m) * MINUTE;
    WrapSum(a, b);
    assert h == "" ==> a == 0;
    assert m == "" ==> b == 0;
    if sec != "" {
      WrapSum(a + b, seconds(sec));
    }
  }

  lemma SecondsEnd(sec: string)
    requires IsSeconds(sec)
    ensures OtherUnit(sec, 'M') && OtherUnit(sec, 'H') && sec[|sec| - 1] == 'S'
  {
    var n := DigitRun(sec);
    if sec[n..] != "S" {
      var m := DigitRun(sec[n + 1..]);
      assert sec[n + 1 + m..][0] == 'S';
    }
  }

  // Nothing around a duration to trim.
  lemma DurationIsTight(h: string, m: string, sec: string)
    requires IsDuration(h, m, sec)
    ensures Tight(DurationText(h, m, sec))
  {
    var t := DurationText(h, m, sec);
    if sec != "" {
      SecondsEnd(sec);
      assert t[|t| - 1] == sec[|sec| - 1];
    } else if m != "" {
      assert t[|t| - 1] == 'M';
    } else if h != "" {
      assert t[|t| - 1] == 'H';
    } else {
      assert t == "PT";
    }
  }

  // The groups are read back, and the total reduced to 64 bits once.
  lemma DurationReads(h: string, m: string, sec: string, seconds: string -> int)
    requires IsDuration(h, m, sec)
    ensures ParseIso(DurationText(h, m, sec), seconds) == Wrap64(Total(h, m, sec, seconds))
  {
    var t := DurationText(h, m, sec);
    var rest := GroupText(m, 'M') + sec;
    DurationIsTight(h, m, sec);
    TrimTight(t);
    if sec != "" {
      SecondsEnd(sec);
    }
    GroupFollows(m, 'M', sec, 'H');
    assert t[2..] == GroupText(h, 'H') + rest;
    GroupReads(h, 'H', rest);
    GroupReads(m, 'M', sec);
    TotalWraps(h, m, sec, seconds);
  }

  // Whole hours and minutes, and what they ask for.
  function Asked(h: string, m: string): nat
    requires AllDigits(h) && AllDigits(m)
  {
    DigitsValue(h) * HOUR + DigitsValue(m) * MINUTE
  }

  // They are read back exactly when the total fits in 64 bits.
  lemma HoursAndMinutes(h: string, m: string, seconds: string -> int)
    requires AllDigits(h) && AllDigits(m)
    ensures ParseIso(DurationText(h, m, ""), seconds) == Asked(h, m) <==> Asked(h, m) < TWO_63
  {
    DurationReads(h, m, "", seconds);
    AskedIsTotal(h, m, seconds);
  }

  lemma AskedIsTotal(h: string, m: string, seconds: string -> int)
    requires AllDigits(h) && AllDigits(m)
    ensures Asked(h, m) < TWO_63 ==> Total(h, m, "", seconds) == Asked(h, m)
  {
    if Asked(h, m) < TWO_63 {
      assert DigitsValue(h) < TWO_63 && DigitsValue(m) < TWO_63;
    }
  }

  // What a total comes to as a 64-bit number, with the sign bit last.
  function Residue(h: string, m: string, sec: string, seconds: string -> int): int
    requires AllDigits(h) && AllDigits(m)
  {
    Total(h, m, sec, seconds) % TWO_64
  }

  // A residue in the lower half, capped; the fallback for zero and the upper
  // half.
  function Capped(r: int, limit: int, fallback: int): int {
    if 0 < r < TWO_63 then (if r > limit then limit else r) else fallback
  }

  // For every duration, the residue of its total decides the lifetime and the
  // wait of a pull.
  lemma DurationsGranted(h: string, m: string, sec: string, seconds: string -> int, fallback: int)
    requires IsDuration(h, m, sec)
    ensures var text, r := DurationText(h, m, sec), Residue(h, m, sec, seconds);
      && TerminationDuration(text, seconds, None, fallback) == Capped(r, 3600 * SECOND, fallback)
      && PullTimeout(text, seconds) == Capped(r, 60 * SECOND, 5 * SECOND)
  {
    DurationReads(h, m, sec, seconds);
    DurationIsTight(h, m, sec);
    TrimTight(DurationText(h, m, sec));
    assert DurationText(h, m, sec)[0] == 'P';
    WrapResidue(Total(h, m, sec, seconds));
  }

  lemma WrapResidue(n: int)
    ensures Wrap64(n) == if n % TWO_64 < TWO_63 then n % TWO_64 else n % TWO_64 - TWO_64
  {
  }

  // What a request should get: as much as it asks for, at most the limit, and
  // the fallback when it asks for nothing.
  function Due(asked: nat, limit: int, fallback: int): int {
    if asked == 0 then fallback else if asked > limit then limit else asked
  }

  lemma CappedIsDue(asked: nat, total: int, limit: int, fallback: int)
    requires asked < TWO_63 ==> total == asked
    requires 0 < fallback < limit < TWO_63
    ensures Capped(total % TWO_64, limit, fallback) == Due(asked, limit, fallback) <==>
              asked < limit || limit <= total % TWO_64 < TWO_63
  {
    if asked < TWO_63 {
      assert total % TWO_64 == asked;
    }
  }

  // A lifetime or a wait is what is due exactly when less than the limit is
  // asked for, or the residue of the total is at or over the limit in the
  // lower half.
  lemma DueExactly(h: string, m: string, seconds: string -> int)
    requires AllDigits(h) && AllDigits(m)
    ensures var text, asked, r := DurationText(h, m, ""), Asked(h, m), Residue(h, m, "", seconds);
      && (TerminationDuration(text, seconds, None, MINUTE) == Due(asked, HOUR, MINUTE) <==>
            asked < HOUR || HOUR <= r < TWO_63)
      && (PullTimeout(text, seconds) == Due(asked, MINUTE, 5 * SECOND) <==>
            asked < MINUTE || MINUTE <= r < TWO_63)
  {
    DurationsGranted(h, m, "", seconds, MINUTE);
    AskedIsTotal(h, m, seconds);
    CappedIsDue(Asked(h, m), Total(h, m, "", seconds), HOUR, MINUTE);
    CappedIsDue(Asked(h, m), Total(h, m, "", seconds), MINUTE, 5 * SECOND);
  }

  // The lifetime is the cap, the residue itself, however much was asked for,
  // or the default minute, by the residue alone.
  lemma LongRequests(h: string, m: string, seconds: string -> int)
    requires AllDigits(h) && AllDigits(m)
    ensures var d, r := TerminationDuration(DurationText(h, m, ""), seconds, None, MINUTE), Residue(h, m, "", seconds);
      && (d == HOUR <==> HOUR <= r < TWO_63)
      && (0 < r < HOUR ==> d == r)
      && (r == 0 || r >= TWO_63 ==> d == MINUTE)
  {
    DurationsGranted(h, m, "", seconds, MINUTE);
  }

  lemma HoursResidue(h: string, seconds: string -> int)
    requires AllDigits(h) && DigitsValue(h) < TWO_63
    ensures Residue(h, "", "", seconds) == DigitsValue(h) * HOUR % TWO_64
  {
  }

  lemma CappedHours()
    ensures Capped(2562047 * HOUR % TWO_64, HOUR, MINUTE) == HOUR
    ensures Capped(2562048 * HOUR % TWO_64, HOUR, MINUTE) == MINUTE
    ensures Capped(5124096 * HOUR % TWO_64, HOUR, MINUTE) == 1_526_290_448_384
  {
  }

  // All three happen: 2562047 hours get the cap, 2562048 hours the default
  // minute, and 5124096 hours about 25 minutes.
  lemma LongRequestsHappen(h: string, seconds: string -> int)
    requires AllDigits(h) && DigitsValue(h) in {2562047, 2562048, 5124096}
    ensures TerminationDuration(DurationText(h, "", ""), seconds, None, MINUTE) ==
              if DigitsValue(h) == 2562047 then HOUR
              else if DigitsValue(h) == 2562048 then MINUTE
              else 1_526_290_448_384
  {
    var n := DigitsValue(h);
    DurationsGranted(h, "", "", seconds, MINUTE);
    HoursResidue(h, seconds);
    CappedHours();
    assert n == 2562047 || n == 2562048 || n == 5124096;
  }

  // Every printed integer is read as itself, brought into 1..100, with ten for
  // anything less than one.
  lemma MessageLimitReads(n: int)
    requires InInt64(n)
    ensures MessageLimit(Itoa(n)) == if n < 1 then 10 else if n > 100 then 100 else n
  {
    var s := Itoa(n);
    assert n >= 0 ==> IsDigit(s[0]) && IsDigit(s[|s| - 1]);
    assert n < 0 ==> s[0] == '-' && IsDigit(s[|s| - 1]);
    TrimTight(s);
    AtoiItoa(n);
  }

  // ---------------------------------------------------------------------
  // Everything that is not a duration
  // ---------------------------------------------------------------------

  lemma GroupSplits(s: string, unit: char)
    ensures var (digits, rest) := Group(s, unit);
      AllDigits(digits) && s == GroupText(digits, unit) + rest
  {
    var n := DigitRun(s);
    if 0 < n < |s| && s[n] == unit {
      assert s == s[..n] + [unit] + s[n + 1..];
    }
  }

  // Only a duration is read as other than zero: nothing before, between or
  // after its groups is skipped.
  lemma OnlyDurations(value: string, seconds: string -> int)
    requires ParseIso(value, seconds) != 0
    ensures exists h, m, sec :: IsDuration(h, m, sec) && TrimSpace(value) == DurationText(h, m, sec)
  {
    var v := TrimSpace(value);
    var (h, v1) := Group(v[2..], 'H');
    var (m, sec) := Group(v1, 'M');
    GroupSplits(v[2..], 'H');
    GroupSplits(v1, 'M');
    assert v == "PT" + v[2..];
    assert v == DurationText(h, m, sec);
  }

  lemma BlankIsNothing(value: string, seconds: string -> int)
    requires TrimSpace(value) == ""
    ensures ParseIso(value, seconds) == 0 && Atoi(TrimSpace(value)) == None
  {
  }

  // Nothing asked for: five seconds, ten messages, the default lifetime.
  lemma AbsentGetsDefaults(value: string, seconds: string -> int, until: Option<int>, fallback: int)
    requires TrimSpace(value) == ""
    ensures PullTimeout(value, seconds) == 5 * SECOND
    ensures MessageLimit(value) == 10
    ensures TerminationDuration(value, seconds, until, fallback) == fallback
  {
    BlankIsNothing(value, seconds);
  }

  lemma {:induction false} NoSign(s: string, i: nat)
    requires 0 < i < |s| && !IsDigit(s[i])
    ensures Atoi(s) == None
  {
    assert s[1..][i - 1] == s[i];
  }

  // A limit with a character that is neither a digit nor a leading sign is
  // ten, too.
  lemma MessageLimitDefault(value: string, i: nat)
    requires var s := TrimSpace(value);
      i < |s| && !IsDigit(s[i]) && (i == 0 ==> s[i] != '-' && s[i] != '+')
    ensures MessageLimit(value) == 10
  {
    var s := TrimSpace(value);
    if i > 0 {
      NoSign(s, i);
    }
  }

  lemma TrimTwice(value: string)
    ensures TrimSpace(TrimSpace(value)) == TrimSpace(value)
  {
    TrimmedIsTight(value);
    TrimTight(TrimSpace(value));
  }

  // An absolute instant gives the time left to it, at most an hour, and the
  // fallback when it is past; so does a duration that comes to nothing.
  lemma AbsoluteTime(value: string, seconds: string -> int, until: Option<int>, fallback: int)
    requires TrimSpace(value) != "" && ParseIso(value, seconds) <= 0
    ensures TerminationDuration(value, seconds, until, fallback) ==
              if until.None? || until.value <= 0 then fallback
              else if until.value > 3600 * SECOND then 3600 * SECOND else until.value
  {
    TrimTwice(value);
  }
}
