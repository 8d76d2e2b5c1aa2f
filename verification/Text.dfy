// The string helpers of Go's standard library that the modelled code calls:
// trimming, and decimal printing and parsing of 64-bit integers.

module Text {
  import opened Common

  // unicode.IsSpace
  predicate IsSpace(c: char) {
    || '\t' <= c <= '\r'
    || c == ' '
    || c == '\U{85}'
    || c == '\U{A0}'
    || c == '\U{1680}'
    || '\U{2000}' <= c <= '\U{200A}'
    || c == '\U{2028}'
    || c == '\U{2029}'
    || c == '\U{202F}'
    || c == '\U{205F}'
    || c == '\U{3000}'
  }

  function TrimStart(s: string): (r: string)
    ensures |r| <= |s|
  {
    if s != "" && IsSpace(s[0]) then TrimStart(s[1..]) else s
  }

  function TrimEnd(s: string): (r: string)
    ensures |r| <= |s|
  {
    if s != "" && IsSpace(s[|s| - 1]) then TrimEnd(s[..|s| - 1]) else s
  }

  function TrimSpace(s: string): string {
    TrimEnd(TrimStart(s))
  }

  // Nothing to trim at either end.
  predicate Tight(s: string) {
    s == "" || (!IsSpace(s[0]) && !IsSpace(s[|s| - 1]))
  }

  lemma TrimTight(s: string)
    requires Tight(s)
    ensures TrimSpace(s) == s
  {
  }

  lemma {:induction false} TrimStartIsPart(s: string) returns (i: nat)
    ensures i <= |s| && TrimStart(s) == s[i..]
  {
    i := 0;
    if s != "" && IsSpace(s[0]) {
      i := TrimStartIsPart(s[1..]);
      i := i + 1;
    }
  }

  lemma {:induction false} TrimEndIsPart(s: string) returns (j: nat)
    ensures j <= |s| && TrimEnd(s) == s[..j]
  {
    j := |s|;
    if s != "" && IsSpace(s[|s| - 1]) {
      j := TrimEndIsPart(s[..|s| - 1]);
    }
  }

  // What is left after trimming was there before.
  lemma TrimIsPart(s: string)
    ensures exists i, j :: 0 <= i <= j <= |s| && TrimSpace(s) == s[i..j]
  {
    var i := TrimStartIsPart(s);
    var j := TrimEndIsPart(s[i..]);
    assert s[i..][..j] == s[i..i + j];
  }

  lemma {:induction false} TrimStartStops(s: string)
    ensures TrimStart(s) == "" || !IsSpace(TrimStart(s)[0])
  {
    if s != "" && IsSpace(s[0]) {
      TrimStartStops(s[1..]);
    }
  }

  lemma {:induction false} TrimEndStops(s: string)
    ensures TrimEnd(s) == "" || (!IsSpace(TrimEnd(s)[|TrimEnd(s)| - 1]) && s != "" && TrimEnd(s)[0] == s[0])
  {
    if s != "" && IsSpace(s[|s| - 1]) {
      TrimEndStops(s[..|s| - 1]);
    }
  }

  lemma TrimmedIsTight(s: string)
    ensures Tight(TrimSpace(s))
  {
    TrimStartStops(s);
    TrimEndStops(TrimStart(s));
  }

  predicate AllSpace(s: string) {
    forall i :: 0 <= i < |s| ==> IsSpace(s[i])
  }

  lemma {:induction false} TrimStartPadded(before: string, s: string)
    requires AllSpace(before) && (s == "" || !IsSpace(s[0]))
    ensures TrimStart(before + s) == s
  {
    if before == "" {
      assert before + s == s;
    } else {
      assert (before + s)[1..] == before[1..] + s;
      TrimStartPadded(before[1..], s);
    }
  }

  lemma {:induction false} TrimEndPadded(s: string, after: string)
    requires AllSpace(after) && (s == "" || !IsSpace(s[|s| - 1]))
    ensures TrimEnd(s + after) == s
  {
    if after == "" {
      assert s + after == s;
    } else {
      assert (s + after)[..|s + after| - 1] == s + after[..|after| - 1];
      TrimEndPadded(s, after[..|after| - 1]);
    }
  }

  // White space around a text is taken off, and nothing else.
  lemma TrimPadded(before: string, s: string, after: string)
    requires AllSpace(before) && AllSpace(after) && s != "" && Tight(s)
    ensures TrimSpace(before + s + after) == s
  {
    assert before + s + after == before + (s + after);
    TrimStartPadded(before, s + after);
    TrimEndPadded(s, after);
  }

  // strings.IndexByte: the first position of c, or |s| when there is none.
  function IndexOf(s: string, c: char): (i: nat)
    ensures i <= |s|
    ensures i < |s| ==> s[i] == c
    ensures c !in s[..i]
  {
    if s == "" || s[0] == c then 0
    else
      assert s[..1 + IndexOf(s[1..], c)] == [s[0]] + s[1..][..IndexOf(s[1..], c)];
      1 + IndexOf(s[1..], c)
  }

  // Cutting a string at a separator that the first part does not contain.
  lemma {:induction false} IndexOfConcat(a: string, c: char, b: string)
    requires c !in a
    ensures IndexOf(a + [c] + b, c) == |a|
    ensures (a + [c] + b)[..|a|] == a && (a + [c] + b)[|a| + 1..] == b
  {
    var s := a + [c] + b;
    if a != "" {
      assert a == [a[0]] + a[1..];
      assert s[1..] == a[1..] + [c] + b;
      IndexOfConcat(a[1..], c, b);
    }
  }

  lemma {:induction false} IndexOfAbsent(a: string, c: char)
    requires c !in a
    ensures IndexOf(a, c) == |a|
  {
    if a != "" {
      assert a == [a[0]] + a[1..];
      IndexOfAbsent(a[1..], c);
    }
  }

  predicate IsDigit(c: char) {
    '0' <= c <= '9'
  }

  predicate AllDigits(s: string) {
    forall i :: 0 <= i < |s| ==> IsDigit(s[i])
  }

  function DigitsValue(s: string): nat
    requires AllDigits(s)
  {
    if s == "" then 0 else 10 * DigitsValue(s[..|s| - 1]) + (s[|s| - 1] as int - '0' as int)
  }

  function Decimal(n: nat): (s: string)
    ensures s != "" && AllDigits(s) && DigitsValue(s) == n
  {
    if n < 10 then [('0' as int + n) as char]
    else
      var init := Decimal(n / 10);
      var s := init + [('0' as int + n % 10) as char];
      assert s[..|s| - 1] == init;
      s
  }

  // strconv.Itoa, strconv.FormatInt
  function Itoa(n: int): string {
    if n < 0 then "-" + Decimal(-n) else Decimal(n)
  }

  // strconv.Atoi, strconv.ParseInt(s, 10, 64): None is the error return.
  function Atoi(s: string): Option<int> {
    var signed := s != "" && (s[0] == '-' || s[0] == '+');
    var digits := if signed then s[1..] else s;
    if digits == "" || !AllDigits(digits) then None
    else
      var n: int := if signed && s[0] == '-' then 0 - DigitsValue(digits) else DigitsValue(digits);
      if InInt64(n) then Some(n) else None
  }

  lemma AtoiItoa(n: int)
    requires InInt64(n)
    ensures Atoi(Itoa(n)) == Some(n)
  {
    if n < 0 {
      assert Itoa(n)[1..] == Decimal(-n);
    } else {
      assert IsDigit(Itoa(n)[0]);
    }
  }

  // Digits with a sign or without, leading zeros and all, are their value, as
  // long as it fits.
  lemma AtoiReads(digits: string)
    requires digits != "" && AllDigits(digits)
    ensures var n: int := DigitsValue(digits);
      && Atoi(digits) == Atoi("+" + digits) == (if n < TWO_63 then Some(n) else None)
      && Atoi("-" + digits) == (if n <= TWO_63 then Some(-n) else None)
  {
    assert IsDigit(digits[0]);
    assert ("+" + digits)[1..] == digits && ("-" + digits)[1..] == digits;
  }

  // strings.Split on a one-character separator
  function Split(s: string, c: char): (parts: seq<string>)
    ensures parts != []
  {
    var i := IndexOf(s, c);
    if i == |s| then [s] else [s[..i]] + Split(s[i + 1..], c)
  }

  function Join(parts: seq<string>, c: char): string
    requires parts != []
  {
    if |parts| == 1 then parts[0] else parts[0] + [c] + Join(parts[1..], c)
  }

  lemma CutAt(s: string, i: nat)
    requires i < |s|
    ensures s[..i] + [s[i]] + s[i + 1..] == s
  {
  }

  // Splitting loses nothing.
  lemma {:induction false} JoinSplit(s: string, c: char)
    ensures Join(Split(s, c), c) == s
    decreases |s|
  {
    var i := IndexOf(s, c);
    if i == |s| {
      assert Split(s, c) == [s];
    } else {
      var rest := Split(s[i + 1..], c);
      JoinSplit(s[i + 1..], c);
      assert ([s[..i]] + rest)[1..] == rest;
      CutAt(s, i);
    }
  }

  // Fields free of the separator are recovered, so joining is injective on
  // them, whatever their number.
  lemma {:induction false} SplitJoin(parts: seq<string>, c: char)
    requires parts != [] && forall i :: 0 <= i < |parts| ==> c !in parts[i]
    ensures Split(Join(parts, c), c) == parts
  {
    if |parts| == 1 {
      IndexOfAbsent(parts[0], c);
    } else {
      var rest := Join(parts[1..], c);
      var s := parts[0] + [c] + rest;
      IndexOfConcat(parts[0], c, rest);
      SplitJoin(parts[1..], c);
    }
  }
}
