// HTTP Digest and WS-Security UsernameToken verification
// (internal/auth/digest.go): the checks, the replay cache they share, and how
// often one credential is accepted over a whole run.

module Authenticator {
  import opened Common
  import opened Text
  import opened Nonce
  import opened ReplayCache
  import DigestHeader

  type Md5Sum = bs: seq<Byte> | |bs| == 16 witness [0, 0, 0, 0, 0, 0, 0, 0, 0, 0, 0, 0, 0, 0, 0, 0]

  // The configured identity, and the library functions as arbitrary
  // functions: MD5, HMAC-SHA256 under the secret, padded base64 decoding, the
  // base64 of SHA-1 over nonce, created and password, and the RFC 3339 parser.
  datatype Auth = Auth(
    username: string, password: string, realm: string, ttl: int,
    md5: string -> Md5Sum,
    mac: Mac,
    base64: string -> Option<seq<Byte>>,
    passwordDigest: (seq<Byte>, string, string) -> string,
    instant: string -> Option<int>)

  const NUL := '\U{0}'

  // ---------------------------------------------------------------------
  // HTTP Digest
  // ---------------------------------------------------------------------

  datatype HttpRequest = HttpRequest(authorization: string, verb: string, requestUri: string, path: string)

  // The checks before the replay cache.
  datatype Check = Bad | Stale | Good(key: Option<string>)

  function Lower(c: char): char {
    if 'A' <= c <= 'Z' then (c as int + 32) as char else c
  }

  predicate DigestScheme(h: string) {
    |h| >= 7 && forall i :: 0 <= i < 7 ==> Lower(h[i]) == "digest "[i]
  }

  function Get(p: map<string, string>, key: string): string {
    if key in p then p[key] else ""
  }

  function Md5Hex(a: Auth, s: string): string {
    Hex(a.md5(s))
  }

  function ExpectedResponse(
      a: Auth, verb: string, nonce: string, uri: string, qop: string, nc: string, cnonce: string): string
  {
    var ha1 := Md5Hex(a, a.username + ":" + a.realm + ":" + a.password);
    var ha2 := Md5Hex(a, verb + ":" + uri);
    if qop != "" then Md5Hex(a, ha1 + ":" + nonce + ":" + nc + ":" + cnonce + ":" + qop + ":" + ha2)
    else Md5Hex(a, ha1 + ":" + nonce + ":" + ha2)
  }

  function HttpKey(username: string, nonce: string, nc: string, cnonce: string, uri: string): string {
    Join(["http", username, nonce, nc, cnonce, uri], NUL)
  }

  function CheckParams(a: Auth, r: HttpRequest, p: map<string, string>, now: int): Check {
    var nonce, uri, qop := Get(p, "nonce"), Get(p, "uri"), Get(p, "qop");
    if Get(p, "username") != a.username || Get(p, "realm") != a.realm
       || nonce == "" || uri == "" || Get(p, "response") == "" then Bad
    else if !ValidNonce(a.mac, nonce, now, a.ttl) then Stale
    else if uri != r.requestUri && uri != r.path then Bad
    else if qop != "" && (qop != "auth" || Get(p, "nc") == "" || Get(p, "cnonce") == "") then Bad
    else if ExpectedResponse(a, r.verb, nonce, uri, qop, Get(p, "nc"), Get(p, "cnonce")) != Get(p, "response") then Bad
    else if qop != "" then Good(Some(HttpKey(Get(p, "username"), nonce, Get(p, "nc"), Get(p, "cnonce"), uri)))
    else Good(None)
  }

  function CheckHttp(a: Auth, r: HttpRequest, now: int): Check {
    var h := TrimSpace(r.authorization);
    if !DigestScheme(h) then Bad else CheckParams(a, r, DigestHeader.Parse(h[7..]), now)
  }

  // The response a client owes for a password (section 3.4.1 of RFC 7616): the
  // hash of its colon-separated parts, two of which are hashes themselves. The
  // last three of `proof` are there with qop=auth only.
  function Hashed(a: Auth, parts: seq<string>): string
    requires parts != []
  {
    Hex(a.md5(Join(parts, ':')))
  }

  function Owed(a: Auth, verb: string, uri: string, nonce: string, proof: seq<string>): string {
    Hashed(a, [Hashed(a, [a.username, a.realm, a.password]), nonce] + proof + [Hashed(a, [verb, uri])])
  }

  lemma JoinTwo(x: string, y: string)
    ensures Join([x, y], ':') == x + ":" + y
  {
    assert [x, y][1..] == [y];
  }

  lemma JoinThree(x: string, y: string, z: string)
    ensures Join([x, y, z], ':') == x + ":" + y + ":" + z
  {
    assert [x, y, z][1..] == [y, z];
    JoinTwo(y, z);
    assert x + ":" + (y + ":" + z) == x + ":" + y + ":" + z;
  }

  lemma JoinSix(u: string, v: string, w: string, x: string, y: string, z: string)
    ensures Join([u, v, w, x, y, z], ':') == u + ":" + v + ":" + w + ":" + x + ":" + y + ":" + z
  {
    assert [u, v, w, x, y, z][1..] == [v, w, x, y, z];
    assert [v, w, x, y, z][1..] == [w, x, y, z];
    assert [w, x, y, z][1..] == [x, y, z];
    JoinThree(x, y, z);
    var ux, vx, wx := u + ":", v + ":", w + ":";
    var t := x + ":" + y + ":" + z;
    assert Join([w, x, y, z], ':') == wx + t;
    assert Join([v, w, x, y, z], ':') == vx + (wx + t);
    assert Join([u, v, w, x, y, z], ':') == ux + (vx + (wx + t));
    Flatten(ux, vx, wx, t);
    Flatten(u + ":" + v + ":" + w + ":", x + ":", y + ":", z);
    assert ux + vx + wx == u + ":" + v + ":" + w + ":";
  }

  lemma Flatten(a: string, b: string, c: string, d: string)
    ensures a + (b + (c + d)) == a + b + c + d
  {
  }

  // The server expects what the client owes.
  lemma ExpectedIsOwed(a: Auth, verb: string, nonce: string, uri: string, nc: string, cnonce: string)
    ensures ExpectedResponse(a, verb, nonce, uri, "auth", nc, cnonce) == Owed(a, verb, uri, nonce, [nc, cnonce, "auth"])
    ensures ExpectedResponse(a, verb, nonce, uri, "", nc, cnonce) == Owed(a, verb, uri, nonce, [])
  {
    JoinThree(a.username, a.realm, a.password);
    JoinTwo(verb, uri);
    var ha1, ha2 := Hashed(a, [a.username, a.realm, a.password]), Hashed(a, [verb, uri]);
    JoinSix(ha1, nonce, nc, cnonce, "auth", ha2);
    assert [ha1, nonce] + [nc, cnonce, "auth"] + [ha2] == [ha1, nonce, nc, cnonce, "auth", ha2];
    JoinThree(ha1, nonce, ha2);
    assert [ha1, nonce] + [] + [ha2] == [ha1, nonce, ha2];
  }

  // An absent parameter reads as an empty one.
  function Given(p: map<string, string>, key: string): string {
    if key in p then p[key] else ""
  }

  predicate Identified(a: Auth, p: map<string, string>) {
    && Given(p, "username") == a.username && Given(p, "realm") == a.realm
    && Given(p, "nonce") != "" && Given(p, "uri") != "" && Given(p, "response") != ""
  }

  // The proof of the password, and the replay key that goes with it.
  predicate Proven(a: Auth, verb: string, p: map<string, string>, key: Option<string>) {
    var nonce, uri, nc, cnonce := Given(p, "nonce"), Given(p, "uri"), Given(p, "nc"), Given(p, "cnonce");
    || (Given(p, "qop") == "" && key == None && Given(p, "response") == Owed(a, verb, uri, nonce, []))
    || (Given(p, "qop") == "auth" && nc != "" && cnonce != ""
        && Given(p, "response") == Owed(a, verb, uri, nonce, [nc, cnonce, "auth"])
        && key == Some(Join(["http", Given(p, "username"), nonce, nc, cnonce, uri], NUL)))
  }

  predicate SchemeIsDigest(h: string) {
    |h| >= 7 && h[6] == ' ' && forall i :: 0 <= i < 6 ==> h[i] == "digest"[i] || h[i] == "DIGEST"[i]
  }

  lemma ParamsCheckedExactly(a: Auth, r: HttpRequest, p: map<string, string>, now: int, key: Option<string>)
    ensures CheckParams(a, r, p, now) == Stale <==>
              Identified(a, p) && !ValidNonce(a.mac, Given(p, "nonce"), now, a.ttl)
    ensures CheckParams(a, r, p, now) == Good(key) <==>
              && Identified(a, p) && ValidNonce(a.mac, Given(p, "nonce"), now, a.ttl)
              && (Given(p, "uri") == r.requestUri || Given(p, "uri") == r.path)
              && Proven(a, r.verb, p, key)
  {
    ExpectedIsOwed(a, r.verb, Given(p, "nonce"), Given(p, "uri"), Given(p, "nc"), Given(p, "cnonce"));
  }

  lemma SchemeExactly(h: string)
    ensures DigestScheme(h) <==> SchemeIsDigest(h)
  {
    if DigestScheme(h) {
      assert Lower(h[6]) == ' ';
      forall i | 0 <= i < 6
        ensures h[i] == "digest"[i] || h[i] == "DIGEST"[i]
      {
        assert Lower(h[i]) == "digest "[i];
      }
    }
  }

  // Exactly which requests pass the checks, and under which key: a Digest
  // header for the configured identity, with a valid nonce, the URI of the
  // request and the response owed for the configured password. Stale is a
  // header of that identity whose nonce is not valid, whatever else it says.
  lemma CheckedExactly(a: Auth, r: HttpRequest, now: int, key: Option<string>)
    ensures var h := TrimSpace(r.authorization);
      && (CheckHttp(a, r, now) == Stale <==>
            && SchemeIsDigest(h)
            && Identified(a, DigestHeader.Parse(h[7..]))
            && !ValidNonce(a.mac, Given(DigestHeader.Parse(h[7..]), "nonce"), now, a.ttl))
      && (CheckHttp(a, r, now) == Good(key) <==>
            && SchemeIsDigest(h)
            && Identified(a, DigestHeader.Parse(h[7..]))
            && ValidNonce(a.mac, Given(DigestHeader.Parse(h[7..]), "nonce"), now, a.ttl)
            && (Given(DigestHeader.Parse(h[7..]), "uri") == r.requestUri
                || Given(DigestHeader.Parse(h[7..]), "uri") == r.path)
            && Proven(a, r.verb, DigestHeader.Parse(h[7..]), key))
  {
    var h := TrimSpace(r.authorization);
    SchemeExactly(h);
    if SchemeIsDigest(h) {
      ParamsCheckedExactly(a, r, DigestHeader.Parse(h[7..]), now, key);
    }
  }

  // ---------------------------------------------------------------------
  // WS-Security
  // ---------------------------------------------------------------------

  datatype UsernameToken = UsernameToken(
    username: string, password: string, passwordType: string, nonce: string, created: string)

  predicate Contains(s: string, part: string) {
    part <= s || (s != "" && Contains(s[1..], part))
  }

  function WsseKey(token: UsernameToken): string {
    Join([token.username, token.nonce, token.created], NUL)
  }

  predicate CheckWsse(a: Auth, token: UsernameToken, now: int) {
    && token.username == a.username && token.password != "" && token.nonce != "" && token.created != ""
    && (token.passwordType == "" || Contains(token.passwordType, "PasswordDigest"))
    && (match a.instant(token.created)
        case None => false
        case Some(created) => !(now - created > a.ttl || now - created < -a.ttl))
    && (match a.base64(token.nonce)
        case None => false
        case Some(nonce) => a.passwordDigest(nonce, token.created, a.password) == token.password)
  }

  lemma {:induction false} ContainsExactly(s: string, part: string)
    ensures Contains(s, part) <==> exists i :: 0 <= i <= |s| && part <= s[i..]
  {
    assert s[0..] == s;
    if s != "" {
      ContainsExactly(s[1..], part);
      if i :| 0 <= i <= |s[1..]| && part <= s[1..][i..] {
        assert s[i + 1..] == s[1..][i..];
      }
      if i :| 0 < i <= |s| && part <= s[i..] {
        assert s[1..][i - 1..] == s[i..];
      }
    }
  }

  // Exactly which tokens pass: for the configured user, with the digest of the
  // configured password, dated within TTL of now either way.
  lemma WsseCheckedExactly(a: Auth, token: UsernameToken, now: int)
    ensures CheckWsse(a, token, now) <==>
              && token.username == a.username && token.nonce != "" && token.created != "" && token.password != ""
              && (token.passwordType == ""
                  || exists i :: 0 <= i <= |token.passwordType| && "PasswordDigest" <= token.passwordType[i..])
              && a.base64(token.nonce).Some? && a.instant(token.created).Some?
              && token.password == a.passwordDigest(a.base64(token.nonce).value, token.created, a.password)
              && -a.ttl <= now - a.instant(token.created).value <= a.ttl
  {
    ContainsExactly(token.passwordType, "PasswordDigest");
  }

  // ---------------------------------------------------------------------
  // The authenticator object
  // ---------------------------------------------------------------------

  // VerifyHTTP reads the clock twice: for the nonce, and for the cache.
  datatype Request =
    | Http(r: HttpRequest, checkedAt: int, now: int)
    | Wsse(token: UsernameToken, now: int)

  // What a request asks of the replay cache.
  function AttemptOf(a: Auth, req: Request): Attempt {
    match req
    case Http(r, checkedAt, now) =>
      (match CheckHttp(a, r, checkedAt)
       case Good(Some(key)) => Guarded(key, now)
       case Good(None) => Unguarded
       case _ => Rejected)
    case Wsse(token, now) => if CheckWsse(a, token, now) then Guarded(WsseKey(token), now) else Rejected
  }

  class Authenticator {
    const auth: Auth
    var replay: map<string, int>

    constructor (auth: Auth)
      ensures this.auth == auth && replay == map[]
    {
      this.auth := auth;
      replay := map[];
    }

    method AcceptReplayKey(key: string, now: int) returns (ok: bool)
      modifies this
      ensures ok <==> Accepts(old(replay), key, now)
      ensures replay == Accepted(old(replay), key, now, auth.ttl)
    {
      ghost var before := replay;
      var pending := replay.Keys;
      while pending != {}
        invariant pending <= before.Keys
        invariant replay == map k | k in before && (k in pending || now <= before[k]) :: before[k]
        decreases pending
      {
        var k :| k in pending;
        if now > replay[k] {
          replay := replay - {k};
        }
        pending := pending - {k};
      }
      assert replay == Evict(before, now);
      if key in replay {
        return false;
      }
      replay := replay[key := now + auth.ttl];
      return true;
    }

    method VerifyHTTP(r: HttpRequest, checkedAt: int, now: int) returns (ok: bool, stale: bool)
      modifies this
      ensures ok <==> Admits(old(replay), AttemptOf(auth, Http(r, checkedAt, now)))
      ensures stale <==> CheckHttp(auth, r, checkedAt).Stale?
      ensures replay == Updated(old(replay), AttemptOf(auth, Http(r, checkedAt, now)), auth.ttl)
    {
      ghost var check := CheckHttp(auth, r, checkedAt);
      var h := TrimSpace(r.authorization);
      if !DigestScheme(h) {
        assert check == Bad;
        return false, false;
      }
      var p := DigestHeader.ParseDigest(h[7..]);
      assert check == CheckParams(auth, r, p, checkedAt);
      var username, nonce, uri, response := Get(p, "username"), Get(p, "nonce"), Get(p, "uri"), Get(p, "response");
      if username != auth.username || Get(p, "realm") != auth.realm || nonce == "" || uri == "" || response == "" {
        assert check == Bad;
        return false, false;
      }
      if !ValidNonce(auth.mac, nonce, checkedAt, auth.ttl) {
        assert check == Stale;
        return false, true;
      }
      if uri != r.requestUri && uri != r.path {
        assert check == Bad;
        return false, false;
      }
      var qop, nc, cnonce := Get(p, "qop"), Get(p, "nc"), Get(p, "cnonce");
      if qop != "" {
        if qop != "auth" || nc == "" || cnonce == "" {
          assert check == Bad;
          return false, false;
        }
      }
      var expected := ExpectedResponse(auth, r.verb, nonce, uri, qop, nc, cnonce);
      if expected != response {
        assert check == Bad;
        return false, false;
      }
      if qop != "" {
        assert check == Good(Some(HttpKey(username, nonce, nc, cnonce, uri)));
        ok := AcceptReplayKey(HttpKey(username, nonce, nc, cnonce, uri), now);
        return ok, false;
      }
      assert check == Good(None);
      return true, false;
    }

    method VerifyWSSE(token: UsernameToken, now: int) returns (ok: bool)
      modifies this
      ensures ok <==> Admits(old(replay), AttemptOf(auth, Wsse(token, now)))
      ensures replay == Updated(old(replay), AttemptOf(auth, Wsse(token, now)), auth.ttl)
    {
      if !CheckWsse(auth, token, now) {
        return false;
      }
      ok := AcceptReplayKey(WsseKey(token), now);
    }

    // The value of the WWW-Authenticate header: what a client reads out of it.
    method Challenge(now: int, stale: bool) returns (value: string)
      ensures value == "Digest " +
                DigestHeader.Print(DigestHeader.ChallengeParams(auth.realm, NewNonce(auth.mac, now), stale))
      ensures var p := DigestHeader.Parse(value[7..]);
        && DigestHeader.Bound(p, "realm", auth.realm) && DigestHeader.Bound(p, "nonce", NewNonce(auth.mac, now))
        && DigestHeader.Bound(p, "algorithm", "MD5") && DigestHeader.Bound(p, "qop", "auth")
        && (if stale then DigestHeader.Bound(p, "stale", "true") else "stale" !in p)
    {
      var nonce := NewNonce(auth.mac, now);
      var text := DigestHeader.Print(DigestHeader.ChallengeParams(auth.realm, nonce, stale));
      value := "Digest " + text;
      assert value[7..] == text;
      DigestHeader.ChallengeRoundTrip(auth.realm, nonce, stale);
      if !stale {
        DigestHeader.FreshChallengeNotStale(auth.realm, nonce);
      }
    }
  }
}
