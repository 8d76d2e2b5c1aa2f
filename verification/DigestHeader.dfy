// The parameter list of an HTTP Digest header: the hand-written parser of
// internal/auth/digest.go (parseDigest), and the printer it must invert
// (sections 3.3 and 3.4 of RFC 7616, quoted strings of section 3.2.6 of
// RFC 7230).

module DigestHeader {
  import opened Common
  import opened Text

  predicate IsSeparator(c: char) {
    c == ' ' || c == ',' || c == '\t'
  }

  function SkipSeparators(v: string): (r: string)
    ensures |r| <= |v|
  {
    if v != "" && IsSeparator(v[0]) then SkipSeparators(v[1..]) else v
  }

  // The value of a quoted string whose opening quote is already consumed, and
  // how much input it takes including the closing quote. An unclosed string
  // runs to the end of the input.
  function Unquote(v: string, escaped: bool): (r: (string, nat))
    ensures r.1 <= |v|
  {
    if v == "" then ("", 0)
    else if escaped || (v[0] != '\\' && v[0] != '"') then
      var (value, n) := Unquote(v[1..], false);
      ([v[0]] + value, n + 1)
    else if v[0] == '\\' then
      var (value, n) := Unquote(v[1..], true);
      (value, n + 1)
    else ("", 1)
  }

  // A trimmed value, quoted or up to the comma, and what follows it.
  function ReadValue(v: string): (r: (string, string))
    ensures |r.1| <= |v|
  {
    if v != "" && v[0] == '"' then
      var (value, n) := Unquote(v[1..], false);
      (value, v[1..][n..])
    else
      var comma := IndexOf(v, ',');
      if comma == |v| then (TrimSpace(v), "") else (TrimSpace(v[..comma]), v[comma + 1..])
  }

  datatype Binding = Binding(key: string, value: string, rest: string)

  // The parameter whose equals sign is at eq.
  function BindingAt(w: string, eq: nat): (b: Binding)
    requires eq < |w|
    ensures |b.rest| < |w|
  {
    var (value, rest) := ReadValue(TrimSpace(w[eq + 1..]));
    Binding(TrimSpace(w[..eq]), value, rest)
  }

  // The first parameter once the leading separators are gone, or None when
  // the parser gives up.
  function First(w: string): (r: Option<Binding>)
    ensures r.Some? ==> |r.value.rest| < |w|
  {
    var eq := IndexOf(w, '=');
    if eq == 0 || eq == |w| then None else Some(BindingAt(w, eq))
  }

  function Parse(v: string): map<string, string>
    decreases |v|
  {
    match First(SkipSeparators(v))
    case None => map[]
    case Some(b) => map[b.key := b.value] + Parse(b.rest)
  }

  // The parser as it is written: one pass over the header, filling `out`.
  method ParseDigest(header: string) returns (out: map<string, string>)
    ensures out == Parse(header)
  {
    out := map[];
    var v := header;
    while |v| > 0
      invariant Parse(header) == out + Parse(v)
      decreases |v|
    {
      ghost var before, out0 := v, out;
      v := SkipSeparators(v);
      if v == "" {
        ParseStops(out, before);
        return;
      }
      var eq := IndexOf(v, '=');
      if eq == 0 || eq == |v| {
        ParseStops(out, before);
        return;
      }
      ghost var w := v;
      var key := TrimSpace(v[..eq]);
      v := TrimSpace(v[eq + 1..]);
      var value;
      value, v := TakeValue(v);
      out := out[key := value];
      assert Binding(key, value, v) == BindingAt(w, eq);
      ParseStep(Parse(header), out0, before, BindingAt(w, eq));
    }
    ParseStops(out, "");
  }

  // The value part of one round: a quoted string, or up to the comma.
  method TakeValue(text: string) returns (value: string, v: string)
    ensures (value, v) == ReadValue(text)
  {
    v := text;
    if v != "" && v[0] == '"' {
      v := v[1..];
      var i;
      value, i := ReadQuoted(v);
      v := v[i..];
    } else {
      var comma := IndexOf(v, ',');
      if comma == |v| {
        value, v := TrimSpace(v), "";
      } else {
        value, v := TrimSpace(v[..comma]), v[comma + 1..];
      }
    }
  }

  lemma ParseStops(out: map<string, string>, v: string)
    requires First(SkipSeparators(v)) == None
    ensures out + Parse(v) == out
  {
  }

  // One binding moves from what is still to be parsed to the map.
  lemma ParseStep(all: map<string, string>, out: map<string, string>, v: string, b: Binding)
    requires First(SkipSeparators(v)) == Some(b) && all == out + Parse(v)
    ensures |b.rest| < |v| && all == out[b.key := b.value] + Parse(b.rest)
  {
    ParseFirst(v, b);
    UnionStep(out, b.key, b.value, Parse(b.rest));
  }

  lemma UnionStep(out: map<string, string>, key: string, value: string, later: map<string, string>)
    ensures out + (map[key := value] + later) == out[key := value] + later
  {
  }

  // The inner loop: unescape up to the closing quote.
  method ReadQuoted(v: string) returns (value: string, i: nat)
    ensures (value, i) == Unquote(v, false)
  {
    value, i := "", 0;
    var escaped := false;
    assert v[0..] == v;
    while i < |v|
      invariant i <= |v|
      invariant Unquote(v, false).0 == value + Unquote(v[i..], escaped).0
      invariant Unquote(v, false).1 == i + Unquote(v[i..], escaped).1
    {
      var c := v[i];
      ghost var later := Unquote(v[i + 1..], !escaped && c == '\\').0;
      assert v[i..][1..] == v[i + 1..];
      assert value + ([c] + later) == value + [c] + later;
      if escaped {
        value := value + [c];
        escaped := false;
      } else if c == '\\' {
        escaped := true;
      } else if c == '"' {
        i := i + 1;
        assert value + "" == value;
        return;
      } else {
        value := value + [c];
      }
      i := i + 1;
    }
    assert value + "" == value;
  }

  // ---------------------------------------------------------------------
  // Printing
  // ---------------------------------------------------------------------

  datatype Style = Quoted | Bare
  datatype Param = Param(key: string, value: string, style: Style)

  function Escape(value: string): string {
    if value == "" then ""
    else (if value[0] == '"' || value[0] == '\\' then ['\\', value[0]] else [value[0]]) + Escape(value[1..])
  }

  function PrintValue(p: Param): string {
    match p.style
    case Quoted => ['"'] + (Escape(p.value) + ['"'])
    case Bare => p.value
  }

  function Print(ps: seq<Param>): string
    decreases |ps|, 0
  {
    if ps == [] then "" else ps[0].key + ['='] + (PrintValue(ps[0]) + Tail(ps[1..]))
  }

  // The parameters after the first, each preceded by a comma and a space.
  function Tail(ps: seq<Param>): string
    decreases |ps|, 1
  {
    if ps == [] then "" else [','] + ([' '] + Print(ps))
  }

  predicate WellFormed(p: Param) {
    && p.key != "" && Tight(p.key) && '=' !in p.key && p.key[0] != ','
    && (p.style.Bare? ==> Tight(p.value) && ',' !in p.value && (p.value == "" || p.value[0] != '"'))
  }

  predicate AllWellFormed(ps: seq<Param>) {
    forall i :: 0 <= i < |ps| ==> WellFormed(ps[i])
  }

  // What a list of parameters means: the last binding of a key wins.
  function LastWins(ps: seq<Param>): map<string, string> {
    if ps == [] then map[] else map[ps[0].key := ps[0].value] + LastWins(ps[1..])
  }

  lemma {:induction false} UnquoteEscape(value: string, rest: string)
    ensures Unquote(Escape(value) + ['"'] + rest, false) == (value, |Escape(value)| + 1)
  {
    var text := Escape(value) + ['"'] + rest;
    if value != "" {
      UnquoteEscape(value[1..], rest);
      var tail := Escape(value[1..]) + ['"'] + rest;
      assert value == [value[0]] + value[1..];
      if value[0] == '"' || value[0] == '\\' {
        assert text[1..] == [value[0]] + tail;
        assert text[1..][1..] == tail;
        assert Unquote(text[1..], true) == (value, |Escape(value)|);
      } else {
        assert text[1..] == tail;
      }
    }
  }

  // ---------------------------------------------------------------------
  // Quoted strings written otherwise
  // ---------------------------------------------------------------------

  // One character of a quoted string, behind a backslash or not. Only the
  // quote and the backslash need one; any character may have one.
  datatype Quotable = Quotable(c: char, escaped: bool)

  predicate AllQuotable(qs: seq<Quotable>) {
    forall i :: 0 <= i < |qs| ==> qs[i].escaped || (qs[i].c != '"' && qs[i].c != '\\')
  }

  function QuotedText(qs: seq<Quotable>): string {
    if qs == [] then "" else Written(qs[0]) + QuotedText(qs[1..])
  }

  function Meant(qs: seq<Quotable>): string {
    if qs == [] then "" else [qs[0].c] + Meant(qs[1..])
  }

  lemma UnquotePlain(c: char, tail: string)
    requires c != '"' && c != '\\'
    ensures Unquote([c] + tail, false) == ([c] + Unquote(tail, false).0, Unquote(tail, false).1 + 1)
  {
    assert ([c] + tail)[1..] == tail;
  }

  lemma UnquoteEscaped(c: char, tail: string)
    ensures Unquote(['\\', c] + tail, false) == ([c] + Unquote(tail, false).0, Unquote(tail, false).1 + 2)
  {
    assert (['\\', c] + tail)[1..] == [c] + tail;
    assert ([c] + tail)[1..] == tail;
  }

  lemma Reassociate(a: string, b: string, c: string)
    ensures a + b + c == a + (b + c)
  {
  }

  function Written(q: Quotable): string {
    if q.escaped then ['\\', q.c] else [q.c]
  }

  lemma UnquoteOne(q: Quotable, tail: string)
    requires q.escaped || (q.c != '"' && q.c != '\\')
    ensures Unquote(Written(q) + tail, false) ==
              ([q.c] + Unquote(tail, false).0, Unquote(tail, false).1 + |Written(q)|)
  {
    if q.escaped {
      UnquoteEscaped(q.c, tail);
    } else {
      UnquotePlain(q.c, tail);
    }
  }

  // However it is written, a quoted string is read as what it means, up to its
  // closing quote and no further, or to the end when it has none.
  lemma {:induction false} UnquoteMeans(qs: seq<Quotable>, rest: string)
    requires AllQuotable(qs) && (rest == "" || rest[0] == '"')
    ensures Unquote(QuotedText(qs) + rest, false) == (Meant(qs), |QuotedText(qs)| + if rest == "" then 0 else 1)
  {
    if qs == [] {
      assert "" + rest == rest;
    } else {
      UnquoteMeans(qs[1..], rest);
      UnquoteOne(qs[0], QuotedText(qs[1..]) + rest);
      Reassociate(Written(qs[0]), QuotedText(qs[1..]), rest);
    }
  }

  // ---------------------------------------------------------------------
  // Headers that are not lists of parameters
  // ---------------------------------------------------------------------

  lemma {:induction false} SkipKeeps(v: string)
    requires '=' !in v
    ensures '=' !in SkipSeparators(v)
  {
    if v != "" && IsSeparator(v[0]) {
      SkipKeeps(v[1..]);
    }
  }

  // Where no key can be read, or an empty one, parsing ends with nothing more.
  lemma NothingParsed(v: string)
    requires '=' !in v || (SkipSeparators(v) != "" && SkipSeparators(v)[0] == '=')
    ensures Parse(v) == map[]
  {
    var w := SkipSeparators(v);
    if '=' !in v {
      SkipKeeps(v);
      IndexOfAbsent(w, '=');
    } else {
      assert w[0] == '=';
    }
  }

  // White space around the equals sign does not matter, ...
  lemma PaddedFirst(key: string, before: string, after: string, v: string)
    requires key != "" && Tight(key) && '=' !in key && v != "" && Tight(v) && AllSpace(before) && AllSpace(after)
    ensures First(key + before + ['='] + (after + v)) == Some(Binding(key, ReadValue(v).0, ReadValue(v).1))
  {
    assert '=' !in key + before;
    IndexOfConcat(key + before, '=', after + v);
    TrimPadded("", key, before);
    assert "" + key + before == key + before;
    TrimPadded(after, v, "");
    assert after + v + "" == after + v;
  }

  // ... nor does it around a bare value.
  lemma PaddedValue(value: string, before: string, after: string, rest: string)
    requires value != "" && Tight(value) && ',' !in value && AllSpace(before) && AllSpace(after)
    requires (before + value)[0] != '"'
    ensures ReadValue(before + value + after + [','] + rest) == (value, rest)
  {
    var v := before + value + after;
    assert ',' !in v;
    IndexOfConcat(v, ',', rest);
    TrimPadded(before, value, after);
    assert (v + [','] + rest)[0] == (before + value)[0];
  }

  // Blanks, tabs and commas before a parameter do not matter.
  lemma LeadingSeparators(c: char, v: string)
    requires c == ' ' || c == ',' || c == '\t'
    ensures Parse([c] + v) == Parse(v)
  {
    assert ([c] + v)[1..] == v;
    ParseSkips([c] + v, v);
  }

  // Nothing printed ends in white space.
  lemma {:induction false} PrintEnds(ps: seq<Param>)
    requires AllWellFormed(ps) && ps != []
    ensures Print(ps) != "" && !IsSpace(Print(ps)[|Print(ps)| - 1])
    decreases |ps|
  {
    var v := PrintValue(ps[0]) + Tail(ps[1..]);
    assert v != "" ==> Print(ps)[|Print(ps)| - 1] == v[|v| - 1];
    if ps[1..] != [] {
      PrintEnds(ps[1..]);
      TailEnds(ps[1..]);
    } else {
      assert v == PrintValue(ps[0]);
    }
  }

  lemma TailEnds(ps: seq<Param>)
    requires ps != [] && Print(ps) != ""
    ensures Tail(ps)[|Tail(ps)| - 1] == Print(ps)[|Print(ps)| - 1]
    ensures Tail(ps)[1..] == [' '] + Print(ps) && ([' '] + Print(ps))[1..] == Print(ps)
  {
  }

  lemma SkipTail(ps: seq<Param>)
    requires AllWellFormed(ps)
    ensures SkipSeparators(Tail(ps)) == SkipSeparators(Print(ps))
    ensures ps != [] ==> SkipSeparators(Tail(ps)[1..]) == SkipSeparators(Print(ps))
  {
    if ps != [] {
      PrintEnds(ps);
      TailEnds(ps);
    }
  }

  lemma PrintedTight(p: Param, ps: seq<Param>)
    requires WellFormed(p) && AllWellFormed(ps)
    ensures Tight(PrintValue(p) + Tail(ps))
  {
    if ps == [] {
      assert PrintValue(p) + Tail(ps) == PrintValue(p);
    } else {
      PrintEnds(ps);
      TailEnds(ps);
    }
  }

  lemma ReadQuotedText(text: string)
    ensures ReadValue(['"'] + text) == (Unquote(text, false).0, text[Unquote(text, false).1..])
  {
    assert (['"'] + text)[1..] == text;
  }

  lemma ReadQuotedValue(p: Param, tail: string)
    requires p.style.Quoted?
    ensures ReadValue(PrintValue(p) + tail) == (p.value, tail)
  {
    var escaped := Escape(p.value);
    var text := escaped + ['"'] + tail;
    UnquoteEscape(p.value, tail);
    ReadQuotedText(text);
    assert PrintValue(p) + tail == ['"'] + text;
    assert text[|escaped| + 1..] == tail;
  }

  lemma ReadLastBareValue(p: Param)
    requires p.style.Bare? && WellFormed(p)
    ensures ReadValue(PrintValue(p) + "") == (p.value, "")
  {
    assert PrintValue(p) + "" == p.value;
    TrimTight(p.value);
    IndexOfAbsent(p.value, ',');
  }

  lemma ReadBareValue(p: Param, rest: string)
    requires p.style.Bare? && WellFormed(p)
    ensures ReadValue(PrintValue(p) + ([','] + rest)) == (p.value, rest)
  {
    var v := p.value + [','] + rest;
    assert PrintValue(p) + ([','] + rest) == v;
    TrimTight(p.value);
    IndexOfConcat(p.value, ',', rest);
    assert v[0] == if p.value == "" then ',' else p.value[0];
  }

  // A printed value followed by more parameters is read back whole.
  lemma ReadPrinted(p: Param, ps: seq<Param>)
    requires WellFormed(p) && AllWellFormed(ps)
    ensures var (value, rest) := ReadValue(PrintValue(p) + Tail(ps));
      value == p.value && SkipSeparators(rest) == SkipSeparators(Print(ps))
  {
    SkipTail(ps);
    if p.style.Quoted? {
      ReadQuotedValue(p, Tail(ps));
    } else if ps == [] {
      ReadLastBareValue(p);
    } else {
      ReadBareValue(p, [' '] + Print(ps));
      assert Tail(ps)[1..] == [' '] + Print(ps);
    }
  }

  lemma FirstOf(key: string, v: string)
    requires key != "" && Tight(key) && '=' !in key && Tight(v)
    ensures First(key + ['='] + v) == Some(Binding(key, ReadValue(v).0, ReadValue(v).1))
  {
    IndexOfConcat(key, '=', v);
    TrimTight(key);
    TrimTight(v);
  }

  // The first printed parameter is read back, leaving the others.
  lemma FirstOfPrint(ps: seq<Param>)
    requires AllWellFormed(ps) && ps != []
    ensures SkipSeparators(Print(ps)) == Print(ps)
    ensures First(Print(ps)).Some?
    ensures var b := First(Print(ps)).value;
      b.key == ps[0].key && b.value == ps[0].value && SkipSeparators(b.rest) == SkipSeparators(Print(ps[1..]))
  {
    PrintedTight(ps[0], ps[1..]);
    ReadPrinted(ps[0], ps[1..]);
    FirstOf(ps[0].key, PrintValue(ps[0]) + Tail(ps[1..]));
    assert !IsSeparator(ps[0].key[0]);
  }

  lemma ParseFirst(v: string, b: Binding)
    requires First(SkipSeparators(v)) == Some(b)
    ensures Parse(v) == map[b.key := b.value] + Parse(b.rest)
  {
  }

  lemma ParseSkips(v: string, w: string)
    requires SkipSeparators(v) == SkipSeparators(w)
    ensures Parse(v) == Parse(w)
  {
  }

  // Printing and parsing back gives the meaning of the list.
  lemma {:induction false} RoundTrip(ps: seq<Param>)
    requires AllWellFormed(ps)
    ensures Parse(Print(ps)) == LastWins(ps)
  {
    if ps == [] {
      assert First("") == None;
    } else {
      FirstOfPrint(ps);
      var b := First(Print(ps)).value;
      ParseFirst(Print(ps), b);
      ParseSkips(b.rest, Print(ps[1..]));
      RoundTrip(ps[1..]);
    }
  }

  // ---------------------------------------------------------------------
  // The challenge
  // ---------------------------------------------------------------------

  // The parameters of Challenge's WWW-Authenticate value. For printable ASCII
  // Go's %q escapes exactly the quote and the backslash.
  function ChallengeParams(realm: string, nonce: string, stale: bool): seq<Param> {
    [Param("realm", realm, Quoted), Param("nonce", nonce, Quoted),
     Param("algorithm", "MD5", Bare), Param("qop", "auth", Quoted)]
    + if stale then [Param("stale", "true", Bare)] else []
  }

  // The last parameter with a key gives that key its value.
  lemma {:induction false} LastWinsAt(ps: seq<Param>, i: nat)
    requires i < |ps| && forall j :: i < j < |ps| ==> ps[j].key != ps[i].key
    ensures ps[i].key in LastWins(ps) && LastWins(ps)[ps[i].key] == ps[i].value
  {
    if i > 0 {
      LastWinsAt(ps[1..], i - 1);
    } else {
      LastWinsKeys(ps[1..]);
    }
  }

  lemma {:induction false} LastWinsKeys(ps: seq<Param>)
    ensures forall k :: k in LastWins(ps) <==> exists i :: 0 <= i < |ps| && ps[i].key == k
  {
    if ps != [] {
      LastWinsKeys(ps[1..]);
      forall k
        ensures k in LastWins(ps) <==> exists i :: 0 <= i < |ps| && ps[i].key == k
      {
        if i :| 0 <= i < |ps[1..]| && ps[1..][i].key == k {
          assert ps[i + 1].key == k;
        }
      }
    }
  }

  ghost predicate DistinctKeys(ps: seq<Param>) {
    forall i, j :: 0 <= i < j < |ps| ==> ps[i].key != ps[j].key
  }

  // With distinct keys nothing is overwritten.
  lemma DistinctRoundTrip(ps: seq<Param>)
    requires AllWellFormed(ps) && DistinctKeys(ps)
    ensures forall i :: 0 <= i < |ps| ==> ps[i].key in Parse(Print(ps)) && Parse(Print(ps))[ps[i].key] == ps[i].value
    ensures forall k :: k in Parse(Print(ps)) <==> exists i :: 0 <= i < |ps| && ps[i].key == k
  {
    RoundTrip(ps);
    LastWinsKeys(ps);
    forall i | 0 <= i < |ps|
      ensures ps[i].key in LastWins(ps) && LastWins(ps)[ps[i].key] == ps[i].value
    {
      LastWinsAt(ps, i);
    }
  }

  lemma ReadBack(ps: seq<Param>, i: nat)
    requires AllWellFormed(ps) && DistinctKeys(ps) && i < |ps|
    ensures Bound(Parse(Print(ps)), ps[i].key, ps[i].value)
  {
    RoundTrip(ps);
    LastWinsAt(ps, i);
  }

  lemma ChallengeWellFormed(realm: string, nonce: string, stale: bool)
    ensures AllWellFormed(ChallengeParams(realm, nonce, stale))
  {
  }

  lemma ChallengeKeysDistinct(realm: string, nonce: string, stale: bool)
    ensures DistinctKeys(ChallengeParams(realm, nonce, stale))
  {
  }

  // A client recovers exactly what the challenge was made from.
  lemma ChallengeRoundTrip(realm: string, nonce: string, stale: bool)
    ensures var m := Parse(Print(ChallengeParams(realm, nonce, stale)));
      && Bound(m, "realm", realm) && Bound(m, "nonce", nonce)
      && Bound(m, "algorithm", "MD5") && Bound(m, "qop", "auth")
      && (stale ==> Bound(m, "stale", "true"))
  {
    var ps := ChallengeParams(realm, nonce, stale);
    ChallengeWellFormed(realm, nonce, stale);
    ChallengeKeysDistinct(realm, nonce, stale);
    ReadBack(ps, 0);
    ReadBack(ps, 1);
    ReadBack(ps, 2);
    ReadBack(ps, 3);
    if stale {
      ReadBack(ps, 4);
    }
  }

  predicate Bound(m: map<string, string>, key: string, value: string) {
    key in m && m[key] == value
  }

  // A challenge that is not stale does not say so.
  lemma FreshChallengeNotStale(realm: string, nonce: string)
    ensures "stale" !in Parse(Print(ChallengeParams(realm, nonce, false)))
  {
    var ps := ChallengeParams(realm, nonce, false);
    ChallengeWellFormed(realm, nonce, false);
    ChallengeKeysDistinct(realm, nonce, false);
    DistinctRoundTrip(ps);
    ChallengeKeysDistinct(realm, nonce, true);
    var qs := ChallengeParams(realm, nonce, true);
    assert qs[4].key == "stale";
    forall i | 0 <= i < |ps|
      ensures ps[i].key != "stale"
    {
      assert qs[i].key != qs[4].key;
    }
  }
}
