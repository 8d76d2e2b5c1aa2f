// Whole runs of the authenticator: how often one credential is accepted, and
// that an honest client is never turned away (internal/auth/digest.go).

module AuthenticatorRuns {
  import opened Common
  import opened Text
  import opened Nonce
  import opened ReplayCache
  import opened Authenticator
  import opened DigestHeader

  // ---------------------------------------------------------------------
  // Requests served one after the other
  // ---------------------------------------------------------------------

  // What the requests ask of the cache, in the order they take its lock.
  function Attempts(a: Auth, reqs: seq<Request>): seq<Attempt> {
    seq(|reqs|, i requires 0 <= i < |reqs| => AttemptOf(a, reqs[i]))
  }

  predicate Served(a: Auth, reqs: seq<Request>, n: nat)
    requires n < |reqs|
  {
    LetThrough(Attempts(a, reqs), a.ttl, n)
  }

  // The clock does not go back between requests, nor between the two readings
  // of one request.
  ghost predicate ClockRuns(reqs: seq<Request>) {
    && (forall i, j :: 0 <= i < j < |reqs| ==> reqs[i].now <= reqs[j].now)
    && (forall i :: 0 <= i < |reqs| && reqs[i].Http? ==> reqs[i].checkedAt <= reqs[i].now)
  }

  lemma AttemptTime(a: Auth, req: Request)
    ensures AttemptOf(a, req).Guarded? ==> AttemptOf(a, req).now == req.now
  {
  }

  lemma AttemptsAdvance(a: Auth, reqs: seq<Request>)
    requires ClockRuns(reqs)
    ensures ClockAdvances(Attempts(a, reqs))
  {
    forall i, j | 0 <= i < j < |reqs| && Attempts(a, reqs)[i].Guarded? && Attempts(a, reqs)[j].Guarded?
      ensures Attempts(a, reqs)[i].now <= Attempts(a, reqs)[j].now
    {
      AttemptTime(a, reqs[i]);
      AttemptTime(a, reqs[j]);
    }
  }

  // Two acceptances of one key are more than TTL apart.
  lemma ServedApart(a: Auth, reqs: seq<Request>, i: nat, j: nat)
    requires i < j < |reqs| && ClockRuns(reqs)
    requires AttemptOf(a, reqs[i]).Guarded? && AttemptOf(a, reqs[j]).Guarded?
    requires AttemptOf(a, reqs[i]).key == AttemptOf(a, reqs[j]).key
    requires Served(a, reqs, i) && Served(a, reqs, j)
    ensures reqs[j].now > reqs[i].now + a.ttl
  {
    AttemptsAdvance(a, reqs);
    AcceptancesAreApart(Attempts(a, reqs), a.ttl, i, j);
    AttemptTime(a, reqs[i]);
    AttemptTime(a, reqs[j]);
  }

  // ---------------------------------------------------------------------
  // Replay keys
  // ---------------------------------------------------------------------

  datatype Credential = Credential(username: string, nonce: string, nc: string, cnonce: string, uri: string)

  function KeyOf(c: Credential): string {
    HttpKey(c.username, c.nonce, c.nc, c.cnonce, c.uri)
  }

  predicate NulFree(c: Credential) {
    NUL !in c.username && NUL !in c.nonce && NUL !in c.nc && NUL !in c.cnonce && NUL !in c.uri
  }

  // The NUL-joined key determines the credential.
  lemma HttpKeyInjective(c: Credential, d: Credential)
    requires NulFree(c) && NulFree(d) && KeyOf(c) == KeyOf(d)
    ensures c == d
  {
    var cs := ["http", c.username, c.nonce, c.nc, c.cnonce, c.uri];
    var ds := ["http", d.username, d.nonce, d.nc, d.cnonce, d.uri];
    SplitJoin(cs, NUL);
    SplitJoin(ds, NUL);
    assert cs[1] == ds[1] && cs[2] == ds[2] && cs[3] == ds[3] && cs[4] == ds[4] && cs[5] == ds[5];
  }

  // ... and an HTTP key is never a WS-Security key.
  lemma KeysDisjoint(c: Credential, token: UsernameToken)
    requires NulFree(c) && NUL !in token.username && NUL !in token.nonce && NUL !in token.created
    ensures KeyOf(c) != WsseKey(token)
  {
    var cs := ["http", c.username, c.nonce, c.nc, c.cnonce, c.uri];
    var ts := [token.username, token.nonce, token.created];
    SplitJoin(cs, NUL);
    SplitJoin(ts, NUL);
    assert |cs| != |ts|;
  }

  // The credential of an Authorization header.
  function CredentialIn(r: HttpRequest): Credential {
    var h := TrimSpace(r.authorization);
    if |h| < 7 then Credential("", "", "", "", "")
    else
      var p := Parse(h[7..]);
      Credential(Get(p, "username"), Get(p, "nonce"), Get(p, "nc"), Get(p, "cnonce"), Get(p, "uri"))
  }

  lemma GuardedByItsCredential(a: Auth, r: HttpRequest, checkedAt: int, now: int)
    requires AttemptOf(a, Http(r, checkedAt, now)).Guarded?
    ensures AttemptOf(a, Http(r, checkedAt, now)) == Guarded(KeyOf(CredentialIn(r)), now)
    ensures ValidNonce(a.mac, CredentialIn(r).nonce, checkedAt, a.ttl)
  {
  }

  // In any run a served request carries the response owed for the password, or
  // the token its digest.
  lemma ServedIsProven(a: Auth, reqs: seq<Request>, n: nat)
    requires n < |reqs| && Served(a, reqs, n)
    ensures match reqs[n]
      case Http(r, checkedAt, _) =>
        var h := TrimSpace(r.authorization);
        SchemeIsDigest(h) && Identified(a, Parse(h[7..])) && exists key :: Proven(a, r.verb, Parse(h[7..]), key)
      case Wsse(token, _) =>
        a.base64(token.nonce).Some?
        && token.password == a.passwordDigest(a.base64(token.nonce).value, token.created, a.password)
  {
    match reqs[n]
    case Http(r, checkedAt, now) =>
      var check := CheckHttp(a, r, checkedAt);
      assert check.Good?;
      CheckedExactly(a, r, checkedAt, check.key);
      assert Proven(a, r.verb, Parse(TrimSpace(r.authorization)[7..]), check.key);
    case Wsse(token, now) =>
      WsseCheckedExactly(a, token, now);
  }

  // ---------------------------------------------------------------------
  // At most once
  // ---------------------------------------------------------------------

  // A qop=auth credential accepted twice is accepted by a request whose two
  // clock readings straddle the end of the first acceptance's window.
  lemma SecondAcceptanceStraddles(a: Auth, reqs: seq<Request>, i: nat, j: nat, issued: int)
    requires i < j < |reqs| && ClockRuns(reqs)
    requires reqs[i].Http? && reqs[j].Http? && CredentialIn(reqs[i].r) == CredentialIn(reqs[j].r)
    requires AttemptOf(a, reqs[i]).Guarded? && AttemptOf(a, reqs[j]).Guarded?
    requires InInt64(Unix(issued)) && CredentialIn(reqs[i].r).nonce == NewNonce(a.mac, issued)
    requires issued <= reqs[i].checkedAt
    requires Served(a, reqs, i) && Served(a, reqs, j)
    ensures reqs[j].checkedAt <= reqs[i].now + a.ttl < reqs[j].now
  {
    GuardedByItsCredential(a, reqs[i].r, reqs[i].checkedAt, reqs[i].now);
    GuardedByItsCredential(a, reqs[j].r, reqs[j].checkedAt, reqs[j].now);
    ServedApart(a, reqs, i, j);
    NonceWindow(a.mac, issued, reqs[j].checkedAt, a.ttl);
  }

  // With one clock reading a request, no run accepts the same credential
  // twice, although the cache forgets.
  lemma AtMostOnce(a: Auth, reqs: seq<Request>, i: nat, j: nat, issued: int)
    requires i < j < |reqs| && ClockRuns(reqs)
    requires reqs[i].Http? && reqs[j].Http? && CredentialIn(reqs[i].r) == CredentialIn(reqs[j].r)
    requires AttemptOf(a, reqs[i]).Guarded? && AttemptOf(a, reqs[j]).Guarded?
    requires InInt64(Unix(issued)) && CredentialIn(reqs[i].r).nonce == NewNonce(a.mac, issued)
    requires issued <= reqs[i].checkedAt && reqs[j].checkedAt == reqs[j].now
    ensures !(Served(a, reqs, i) && Served(a, reqs, j))
  {
    if Served(a, reqs, i) && Served(a, reqs, j) {
      SecondAcceptanceStraddles(a, reqs, i, j, issued);
    }
  }

  // ---------------------------------------------------------------------
  // Exactly when a repeat is accepted, whatever the order of the readings
  // ---------------------------------------------------------------------

  // A request after number i and up to number j, past every other check, read
  // the cache's clock past the deadline.
  ghost predicate LaterReading(a: Auth, reqs: seq<Request>, deadline: int, i: nat, j: nat)
    requires j < |reqs|
  {
    exists m :: i < m <= j && AttemptOf(a, reqs[m]).Guarded? && deadline < reqs[m].now
  }

  lemma LaterReadingIsPast(a: Auth, reqs: seq<Request>, deadline: int, i: nat, j: nat)
    requires i <= j < |reqs|
    ensures LaterReading(a, reqs, deadline, i, j) <==> ReadPast(Attempts(a, reqs), deadline, i, j + 1)
  {
    forall m | i < m <= j
      ensures Attempts(a, reqs)[m].Guarded? ==> Attempts(a, reqs)[m].now == reqs[m].now
    {
      AttemptTime(a, reqs[m]);
    }
    if m :| i < m <= j && AttemptOf(a, reqs[m]).Guarded? && deadline < reqs[m].now {
      assert Attempts(a, reqs)[m].Guarded?;
    }
  }

  // Request i was accepted under a replay key, and none between i and j was
  // accepted under the same one.
  ghost predicate LatestServed(a: Auth, reqs: seq<Request>, i: nat, j: nat)
    requires j < |reqs|
  {
    && i < j && AttemptOf(a, reqs[i]).Guarded? && Served(a, reqs, i)
    && forall k ::
         i < k < j && AttemptOf(a, reqs[k]).Guarded? && AttemptOf(a, reqs[k]).key == AttemptOf(a, reqs[i]).key ==>
         !Served(a, reqs, k)
  }

  // A request with the key of the latest acceptance is accepted exactly when
  // some reading since then is past that acceptance's window.
  lemma ServedAgainExactly(a: Auth, reqs: seq<Request>, i: nat, j: nat)
    requires j < |reqs| && LatestServed(a, reqs, i, j)
    requires AttemptOf(a, reqs[j]).Guarded? && AttemptOf(a, reqs[j]).key == AttemptOf(a, reqs[i]).key
    ensures Served(a, reqs, j) <==> LaterReading(a, reqs, reqs[i].now + a.ttl, i, j)
  {
    AttemptTime(a, reqs[i]);
    assert LatestBefore(Attempts(a, reqs), a.ttl, i, j);
    RepeatExactly(Attempts(a, reqs), a.ttl, i, j);
    LaterReadingIsPast(a, reqs, reqs[i].now + a.ttl, i, j);
  }

  // A request that passed its checks fails them at another instant only by its
  // nonce.
  lemma CheckAgain(a: Auth, r: HttpRequest, before: int, now: int)
    requires CheckHttp(a, r, before).Good?
    ensures CheckHttp(a, r, now) ==
              if ValidNonce(a.mac, CredentialIn(r).nonce, now, a.ttl) then CheckHttp(a, r, before) else Stale
  {
  }

  // In any run, in any order of clock readings: the repeat of an accepted
  // qop=auth request gets through exactly when its first reading is in the
  // nonce's window and some reading of the cache's clock since the latest
  // acceptance, its own second one among them, is past that one's window.
  lemma RepeatAcceptedExactly(a: Auth, reqs: seq<Request>, i: nat, j: nat, issued: int)
    requires j < |reqs| && LatestServed(a, reqs, i, j)
    requires reqs[i].Http? && reqs[j].Http? && reqs[j].r == reqs[i].r
    requires InInt64(Unix(issued)) && CredentialIn(reqs[i].r).nonce == NewNonce(a.mac, issued)
    ensures Served(a, reqs, j) <==>
              Unix(issued) * SECOND - a.ttl <= reqs[j].checkedAt <= Unix(issued) * SECOND + a.ttl
              && LaterReading(a, reqs, reqs[i].now + a.ttl, i, j)
  {
    NonceWindow(a.mac, issued, reqs[j].checkedAt, a.ttl);
    CheckAgain(a, reqs[i].r, reqs[i].checkedAt, reqs[j].checkedAt);
    if ValidNonce(a.mac, NewNonce(a.mac, issued), reqs[j].checkedAt, a.ttl) {
      ServedAgainExactly(a, reqs, i, j);
    }
  }

  // With one reading a request, only an overtaken one lets it through: a
  // request in between read past the window.
  lemma OneReadingRepeatExactly(a: Auth, reqs: seq<Request>, i: nat, j: nat, issued: int)
    requires j < |reqs| && LatestServed(a, reqs, i, j)
    requires reqs[i].Http? && reqs[j].Http? && reqs[j].r == reqs[i].r
    requires InInt64(Unix(issued)) && CredentialIn(reqs[i].r).nonce == NewNonce(a.mac, issued)
    requires issued <= reqs[i].now && reqs[j].checkedAt == reqs[j].now
    ensures Served(a, reqs, j) <==>
              Unix(issued) * SECOND - a.ttl <= reqs[j].now <= Unix(issued) * SECOND + a.ttl
              && LaterReading(a, reqs, reqs[i].now + a.ttl, i, j - 1)
  {
    RepeatAcceptedExactly(a, reqs, i, j, issued);
    if reqs[j].now <= reqs[i].now + a.ttl {
      OwnReadingInside(a, reqs, reqs[i].now + a.ttl, i, j);
    }
  }

  lemma OwnReadingInside(a: Auth, reqs: seq<Request>, deadline: int, i: nat, j: nat)
    requires i < j < |reqs| && reqs[j].now <= deadline
    ensures LaterReading(a, reqs, deadline, i, j) <==> LaterReading(a, reqs, deadline, i, j - 1)
  {
    LaterReadingIsPast(a, reqs, deadline, i, j);
    LaterReadingIsPast(a, reqs, deadline, i, j - 1);
    AttemptTime(a, reqs[j]);
    ReadPastMore(Attempts(a, reqs), deadline, i, j);
  }

  // ---------------------------------------------------------------------
  // WS-Security
  // ---------------------------------------------------------------------

  lemma WsseWindow(a: Auth, token: UsernameToken, now: int)
    requires AttemptOf(a, Wsse(token, now)).Guarded?
    ensures a.instant(token.created).Some?
    ensures a.instant(token.created).value - a.ttl <= now <= a.instant(token.created).value + a.ttl
  {
  }

  predicate SameToken(s: UsernameToken, t: UsernameToken) {
    s.username == t.username && s.nonce == t.nonce && s.created == t.created
  }

  // One (username, nonce, created) is accepted at most twice over any run.
  lemma WsseAtMostTwice(a: Auth, reqs: seq<Request>, i: nat, j: nat, k: nat)
    requires i < j < k < |reqs| && ClockRuns(reqs)
    requires reqs[i].Wsse? && reqs[j].Wsse? && reqs[k].Wsse?
    requires SameToken(reqs[i].token, reqs[j].token) && SameToken(reqs[j].token, reqs[k].token)
    ensures !(Served(a, reqs, i) && Served(a, reqs, j) && Served(a, reqs, k))
  {
    if Served(a, reqs, i) && Served(a, reqs, j) && Served(a, reqs, k) {
      WsseWindow(a, reqs[i].token, reqs[i].now);
      WsseWindow(a, reqs[k].token, reqs[k].now);
      ServedApart(a, reqs, i, j);
      ServedApart(a, reqs, j, k);
    }
  }

  // ... and at most once when its first acceptance is not before Created.
  lemma WsseAtMostOnce(a: Auth, reqs: seq<Request>, i: nat, j: nat)
    requires i < j < |reqs| && ClockRuns(reqs) && reqs[i].Wsse? && reqs[j].Wsse?
    requires SameToken(reqs[i].token, reqs[j].token)
    requires a.instant(reqs[i].token.created).Some? && a.instant(reqs[i].token.created).value <= reqs[i].now
    ensures !(Served(a, reqs, i) && Served(a, reqs, j))
  {
    if Served(a, reqs, i) && Served(a, reqs, j) {
      WsseWindow(a, reqs[j].token, reqs[j].now);
      ServedApart(a, reqs, i, j);
    }
  }

  lemma CheckTokenAgain(a: Auth, token: UsernameToken, created: int, before: int, now: int)
    requires CheckWsse(a, token, before) && a.instant(token.created) == Some(created)
    ensures CheckWsse(a, token, now) <==> created - a.ttl <= now <= created + a.ttl
  {
  }

  // In any run, in any order of clock readings: a token is accepted again
  // exactly when it is presented in its window and some reading since its
  // latest acceptance is past TTL from that one.
  lemma WsseRepeatExactly(a: Auth, reqs: seq<Request>, i: nat, j: nat, created: int)
    requires j < |reqs| && LatestServed(a, reqs, i, j)
    requires reqs[i].Wsse? && reqs[j].Wsse? && reqs[j].token == reqs[i].token
    requires a.instant(reqs[i].token.created) == Some(created)
    ensures Served(a, reqs, j) <==>
              created - a.ttl <= reqs[j].now <= created + a.ttl && LaterReading(a, reqs, reqs[i].now + a.ttl, i, j)
  {
    CheckTokenAgain(a, reqs[i].token, created, reqs[i].now, reqs[j].now);
    if CheckWsse(a, reqs[j].token, reqs[j].now) {
      ServedAgainExactly(a, reqs, i, j);
    }
  }

  // Presented a second time and by nobody else in between.
  lemma WsseSecondExactly(a: Auth, token: UsernameToken, created: int, first: int, now: int)
    requires CheckWsse(a, token, first) && a.instant(token.created) == Some(created) && first <= now
    ensures var reqs := [Wsse(token, first), Wsse(token, now)];
      Served(a, reqs, 0) && (Served(a, reqs, 1) <==> first + a.ttl < now <= created + a.ttl)
  {
    var reqs := [Wsse(token, first), Wsse(token, now)];
    FirstServed(a, reqs);
    WsseRepeatExactly(a, reqs, 0, 1, created);
    if first + a.ttl < now && CheckWsse(a, token, now) {
      assert AttemptOf(a, reqs[1]).Guarded?;
    }
    CheckTokenAgain(a, token, created, first, now);
  }

  // A run with an advancing clock that accepts the token first presented at
  // `first`, and accepts it again.
  ghost predicate AcceptedTwice(a: Auth, reqs: seq<Request>, token: UsernameToken, first: int, i: nat, j: nat) {
    && i < j < |reqs| && ClockRuns(reqs)
    && reqs[i] == Wsse(token, first) && reqs[j].Wsse? && reqs[j].token == token
    && Served(a, reqs, i) && Served(a, reqs, j)
  }

  // Some run accepts a token twice if and only if the first acceptance is
  // before Created.
  lemma WsseTwiceExactly(a: Auth, token: UsernameToken, created: int, first: int)
    requires CheckWsse(a, token, first) && a.instant(token.created) == Some(created)
    ensures (exists reqs, i, j :: AcceptedTwice(a, reqs, token, first, i, j)) <==> first < created
  {
    if first < created {
      var reqs := [Wsse(token, first), Wsse(token, created + a.ttl)];
      WsseSecondExactly(a, token, created, first, created + a.ttl);
      assert AcceptedTwice(a, reqs, token, first, 0, 1);
    } else {
      forall reqs, i, j | AcceptedTwice(a, reqs, token, first, i, j)
        ensures false
      {
        WsseAtMostOnce(a, reqs, i, j);
      }
    }
  }

  // ---------------------------------------------------------------------
  // The honest client
  // ---------------------------------------------------------------------

  // The answer to a challenge.
  function AnswerParams(a: Auth, verb: string, c: Credential): seq<Param> {
    IdentityParams(a, c) + ProofParams(a, verb, c)
  }

  function IdentityParams(a: Auth, c: Credential): seq<Param> {
    [Param("username", c.username, Quoted), Param("realm", a.realm, Quoted), Param("nonce", c.nonce, Quoted),
     Param("uri", c.uri, Quoted)]
  }

  function ProofParams(a: Auth, verb: string, c: Credential): seq<Param> {
    [Param("response", Owed(a, verb, c.uri, c.nonce, [c.nc, c.cnonce, "auth"]), Quoted),
     Param("qop", "auth", Bare), Param("nc", c.nc, Bare), Param("cnonce", c.cnonce, Quoted)]
  }

  function Answer(a: Auth, verb: string, c: Credential): string {
    "Digest " + Print(AnswerParams(a, verb, c))
  }

  predicate Usable(a: Auth, c: Credential) {
    && c.username == a.username && c.uri != "" && c.nc != "" && c.cnonce != ""
    && WellFormed(Param("nc", c.nc, Bare))
  }

  lemma IdentityWellFormed(a: Auth, c: Credential)
    ensures AllWellFormed(IdentityParams(a, c))
  {
  }

  lemma ProofWellFormed(a: Auth, verb: string, c: Credential)
    requires Usable(a, c)
    ensures AllWellFormed(ProofParams(a, verb, c))
  {
  }

  lemma AnswerWellFormed(a: Auth, verb: string, c: Credential)
    requires Usable(a, c)
    ensures AllWellFormed(AnswerParams(a, verb, c))
  {
    IdentityWellFormed(a, c);
    ProofWellFormed(a, verb, c);
  }

  lemma AnswerDistinct(a: Auth, verb: string, c: Credential)
    ensures DistinctKeys(AnswerParams(a, verb, c))
  {
  }

  lemma IdentityReadBack(a: Auth, verb: string, c: Credential)
    requires Usable(a, c)
    ensures var p := Parse(Print(AnswerParams(a, verb, c)));
      && Bound(p, "username", c.username) && Bound(p, "realm", a.realm)
      && Bound(p, "nonce", c.nonce) && Bound(p, "uri", c.uri)
  {
    var ps := AnswerParams(a, verb, c);
    AnswerWellFormed(a, verb, c);
    AnswerDistinct(a, verb, c);
    ReadBack(ps, 0);
    ReadBack(ps, 1);
    ReadBack(ps, 2);
    ReadBack(ps, 3);
  }

  lemma ProofReadBack(a: Auth, verb: string, c: Credential)
    requires Usable(a, c)
    ensures var p := Parse(Print(AnswerParams(a, verb, c)));
      && Bound(p, "response", Owed(a, verb, c.uri, c.nonce, [c.nc, c.cnonce, "auth"]))
      && Bound(p, "qop", "auth") && Bound(p, "nc", c.nc) && Bound(p, "cnonce", c.cnonce)
  {
    var ps, qs := AnswerParams(a, verb, c), ProofParams(a, verb, c);
    AnswerWellFormed(a, verb, c);
    AnswerDistinct(a, verb, c);
    ReadBack(ps, 4);
    ReadBack(ps, 5);
    ReadBack(ps, 6);
    ReadBack(ps, 7);
    assert ps[4] == qs[0] && ps[5] == qs[1] && ps[6] == qs[2] && ps[7] == qs[3];
  }

  // The header as the server sees it: scheme, then the parameters.
  lemma AnswerHeader(a: Auth, verb: string, c: Credential)
    requires Usable(a, c)
    ensures var h := Answer(a, verb, c);
      TrimSpace(h) == h && DigestScheme(h) && h[7..] == Print(AnswerParams(a, verb, c))
  {
    var ps, h := AnswerParams(a, verb, c), Answer(a, verb, c);
    AnswerWellFormed(a, verb, c);
    PrintedTight(ps[0], ps[1..]);
    var v := PrintValue(ps[0]) + Tail(ps[1..]);
    assert v[0] == '"';
    assert h[|h| - 1] == v[|v| - 1];
    assert h[0] == 'D';
    TrimTight(h);
  }

  lemma NonceIsNotEmpty(mac: Mac, issued: int)
    requires InInt64(Unix(issued))
    ensures NewNonce(mac, issued) != ""
  {
    NonceCarriesItsTime(mac, issued);
    assert Sextets("") == Some([]) && FromSextets([]) == Some([]);
    assert ToText([]) == "";
    assert Split("", ':') == [""];
  }

  lemma AnswerParamsCheck(a: Auth, r: HttpRequest, p: map<string, string>, c: Credential, now: int)
    requires Usable(a, c) && c.uri == r.requestUri
    requires Bound(p, "username", c.username) && Bound(p, "realm", a.realm) && Bound(p, "nonce", c.nonce)
    requires Bound(p, "uri", c.uri) && Bound(p, "qop", "auth") && Bound(p, "nc", c.nc) && Bound(p, "cnonce", c.cnonce)
    requires Bound(p, "response", Owed(a, r.verb, c.uri, c.nonce, [c.nc, c.cnonce, "auth"]))
    ensures CheckParams(a, r, p, now) ==
              if c.nonce == "" then Bad
              else if ValidNonce(a.mac, c.nonce, now, a.ttl) then Good(Some(KeyOf(c))) else Stale
  {
    ExpectedIsOwed(a, r.verb, c.nonce, c.uri, c.nc, c.cnonce);
  }

  // A client that answers the challenge issued at an instant passes every
  // check exactly while the nonce is in its window; after it, it is told the
  // nonce is stale.
  lemma HonestAnswerChecks(a: Auth, r: HttpRequest, c: Credential, issued: int, now: int)
    requires Usable(a, c) && r.authorization == Answer(a, r.verb, c) && c.uri == r.requestUri
    requires InInt64(Unix(issued)) && c.nonce == NewNonce(a.mac, issued)
    ensures CredentialIn(r) == c
    ensures CheckHttp(a, r, now) ==
              if Unix(issued) * SECOND - a.ttl <= now <= Unix(issued) * SECOND + a.ttl then Good(Some(KeyOf(c)))
              else Stale
  {
    AnswerHeader(a, r.verb, c);
    IdentityReadBack(a, r.verb, c);
    ProofReadBack(a, r.verb, c);
    AnswerParamsCheck(a, r, Parse(Print(AnswerParams(a, r.verb, c))), c, now);
    NonceWindow(a.mac, issued, now, a.ttl);
    NonceIsNotEmpty(a.mac, issued);
  }

  // No false rejection: in any run, an honest answer inside the window is
  // served unless its very credential was presented before.
  lemma HonestAnswerServed(a: Auth, reqs: seq<Request>, n: nat, c: Credential, issued: int)
    requires n < |reqs| && reqs[n].Http? && ClockRuns(reqs)
    requires Usable(a, c) && reqs[n].r.authorization == Answer(a, reqs[n].r.verb, c) && c.uri == reqs[n].r.requestUri
    requires InInt64(Unix(issued)) && c.nonce == NewNonce(a.mac, issued)
    requires issued <= reqs[n].checkedAt <= Unix(issued) * SECOND + a.ttl
    requires NulFree(c) && a.ttl >= 0
    requires forall i :: 0 <= i < n ==> Unrelated(reqs[i], c)
    ensures Served(a, reqs, n)
  {
    HonestAnswerChecks(a, reqs[n].r, c, issued, reqs[n].checkedAt);
    var attempts := Attempts(a, reqs);
    AttemptsAdvance(a, reqs);
    assert attempts[n] == Guarded(KeyOf(c), reqs[n].now);
    AcceptedExactly(attempts, a.ttl, n);
    forall i: nat | AcceptedBefore(attempts, a.ttl, i, n)
      ensures false
    {
      UnrelatedKey(a, reqs[i], c);
    }
  }

  // Another credential, or a WS-Security token; no NUL in either.
  predicate Unrelated(req: Request, c: Credential) {
    match req
    case Http(r, _, _) => NulFree(CredentialIn(r)) && CredentialIn(r) != c
    case Wsse(token, _) => NUL !in token.username && NUL !in token.nonce && NUL !in token.created
  }

  lemma UnrelatedKey(a: Auth, req: Request, c: Credential)
    requires NulFree(c) && Unrelated(req, c) && AttemptOf(a, req).Guarded?
    ensures AttemptOf(a, req).key != KeyOf(c)
  {
    match req
    case Http(r, checkedAt, now) =>
      GuardedByItsCredential(a, r, checkedAt, now);
      if KeyOf(CredentialIn(r)) == KeyOf(c) {
        HttpKeyInjective(CredentialIn(r), c);
      }
    case Wsse(token, _) =>
      KeysDisjoint(c, token);
  }

  lemma FirstServed(a: Auth, reqs: seq<Request>)
    requires reqs != [] && AttemptOf(a, reqs[0]).Guarded?
    ensures Served(a, reqs, 0)
  {
    assert CacheAfter(Attempts(a, reqs), a.ttl, 0) == map[];
  }

  // The one-reading condition of AtMostOnce is needed: a request and its
  // repeat, whose first clock reading is still valid for the nonce and whose
  // second is past the window of the first acceptance.
  lemma HonestRequestAcceptedTwice(
      a: Auth, r: HttpRequest, c: Credential, issued: int, first: int, checkedAt: int, now: int)
    requires Usable(a, c) && r.authorization == Answer(a, r.verb, c) && c.uri == r.requestUri
    requires InInt64(Unix(issued)) && c.nonce == NewNonce(a.mac, issued)
    requires issued <= first <= checkedAt <= Unix(issued) * SECOND + a.ttl && first + a.ttl < now
    ensures var reqs := [Http(r, first, first), Http(r, checkedAt, now)];
      Served(a, reqs, 0) && Served(a, reqs, 1)
  {
    var reqs := [Http(r, first, first), Http(r, checkedAt, now)];
    HonestAnswerChecks(a, r, c, issued, first);
    HonestAnswerChecks(a, r, c, issued, checkedAt);
    FirstServed(a, reqs);
    assert AttemptOf(a, reqs[1]).Guarded?;
    RepeatAcceptedExactly(a, reqs, 0, 1, issued);
  }

  // So is its advancing clock: with one reading a request, a repeat overtaken
  // on its way to the lock by any other request past the window.
  lemma OvertakenRequestAcceptedTwice(
      a: Auth, r: HttpRequest, c: Credential, other: Request, issued: int, first: int, late: int)
    requires Usable(a, c) && r.authorization == Answer(a, r.verb, c) && c.uri == r.requestUri
    requires InInt64(Unix(issued)) && c.nonce == NewNonce(a.mac, issued)
    requires issued <= first <= late <= Unix(issued) * SECOND + a.ttl
    requires NulFree(c) && Unrelated(other, c) && AttemptOf(a, other).Guarded? && first + a.ttl < other.now
    ensures var reqs := [Http(r, first, first), other, Http(r, late, late)];
      Served(a, reqs, 0) && Served(a, reqs, 2)
  {
    HonestAnswerChecks(a, r, c, issued, first);
    UnrelatedKey(a, other, c);
    OvertakenRepeat(a, r, other, issued, first, late);
  }

  lemma OvertakenRepeat(a: Auth, r: HttpRequest, other: Request, issued: int, first: int, late: int)
    requires AttemptOf(a, Http(r, first, first)).Guarded? && AttemptOf(a, other).Guarded?
    requires AttemptOf(a, other).key != AttemptOf(a, Http(r, first, first)).key
    requires InInt64(Unix(issued)) && CredentialIn(r).nonce == NewNonce(a.mac, issued)
    requires issued <= first <= late <= Unix(issued) * SECOND + a.ttl && first + a.ttl < other.now
    ensures var reqs := [Http(r, first, first), other, Http(r, late, late)];
      Served(a, reqs, 0) && Served(a, reqs, 2)
  {
    var reqs := [Http(r, first, first), other, Http(r, late, late)];
    FirstServed(a, reqs);
    assert reqs[1] == other;
    assert LatestServed(a, reqs, 0, 2);
    OneReadingRepeatExactly(a, reqs, 0, 2, issued);
  }
}
