/** Login tokens: header, payload and keyed hash, separated by dots. */
module AuthToken {
  import opened Wrappers
  import opened Base64Url
  import opened Strings

  type Secret = seq<Byte>

  datatype Payload = Payload(login: string, expiration: int)
  datatype Credentials = Credentials(login: string, password: string)

  /** The libraries the tokens rely on; each may fail. `readPayload` stands for parsing the JSON
      text and finding a login and an expiration in it. */
  datatype Library = Library(
    hash: (Secret, string) -> Option<seq<Byte>>,
    hashPassword: string -> Option<string>,
    verifyPassword: (string, string) -> bool,
    readCredentials: string -> Option<Credentials>,
    header: seq<Byte>,
    writePayload: Payload -> Option<seq<Byte>>,
    readPayload: seq<Byte> -> Option<Payload>)

  const HASH_BYTES := 32
  const LIFETIME := 3600

  /** Hashes have 32 bytes, a hashed password verifies, and a payload that can be written is
      read back. */
  ghost predicate LibraryOk(lib: Library) {
    && (forall secret, text :: lib.hash(secret, text).Some? ==> |lib.hash(secret, text).value| == HASH_BYTES)
    && (forall pw :: lib.hashPassword(pw).Some? ==> lib.verifyPassword(lib.hashPassword(pw).value, pw))
    && (forall p :: lib.writePayload(p).Some? ==> lib.readPayload(lib.writePayload(p).value) == Some(p))
  }

  // ------------------------------------------------------------ hash in hexadecimal

  function HexDigit(n: int): char
    requires 0 <= n < 16
  {
    if n < 10 then '0' + n as char else 'A' + (n - 10) as char
  }

  function Hex(h: seq<Byte>): (s: string)
    ensures |s| == 2 * |h|
  {
    if h == [] then []
    else
      var init, last := h[..|h| - 1], h[|h| - 1];
      Hex(init) + [HexDigit(last / 16), HexDigit(last % 16)]
  }

  lemma {:induction false} HexIsInjective(a: seq<Byte>, b: seq<Byte>)
    requires Hex(a) == Hex(b)
    ensures a == b
  {
    assert |a| == |b|;
    if a != [] {
      var i, j := a[..|a| - 1], b[..|b| - 1];
      assert Hex(i) == Hex(a)[..2 * |i|] == Hex(b)[..2 * |j|] == Hex(j);
      assert Hex(a)[2 * |i|] == Hex(b)[2 * |j|] && Hex(a)[2 * |i| + 1] == Hex(b)[2 * |j| + 1];
      HexIsInjective(i, j);
    }
  }

  const HEX_DIGITS := "0123456789ABCDEF"

  lemma HexDigitIs(n: int)
    requires 0 <= n < 16
    ensures HexDigit(n) == HEX_DIGITS[n]
  {
  }

  /** Two capital digits for each byte, the higher one first. */
  ghost predicate InHex(s: string, h: seq<Byte>) {
    && |s| == 2 * |h|
    && forall k :: 0 <= k < |h| ==> s[2 * k] == HEX_DIGITS[h[k] / 16] && s[2 * k + 1] == HEX_DIGITS[h[k] % 16]
  }

  lemma {:induction false} HexIs(h: seq<Byte>)
    ensures InHex(Hex(h), h)
  {
    if h != [] {
      var init, last := h[..|h| - 1], h[|h| - 1];
      HexIs(init);
      HexDigitIs(last / 16);
      HexDigitIs(last % 16);
      hide HexDigit;
      var s, t := Hex(h), Hex(init);
      assert s == t + [HEX_DIGITS[last / 16], HEX_DIGITS[last % 16]];
      forall k | 0 <= k < |h|
        ensures s[2 * k] == HEX_DIGITS[h[k] / 16] && s[2 * k + 1] == HEX_DIGITS[h[k] % 16]
      {
        if k < |init| { assert init[k] == h[k] && s[2 * k] == t[2 * k] && s[2 * k + 1] == t[2 * k + 1]; }
      }
    }
  }

  lemma PairsAgree(s: string, t: string, n: nat)
    requires |s| == 2 * n && |t| == 2 * n
    requires forall k :: 0 <= k < n ==> s[2 * k] == t[2 * k] && s[2 * k + 1] == t[2 * k + 1]
    ensures s == t
  {
    forall i | 0 <= i < |s| ensures s[i] == t[i] {
      var k := i / 2;
      assert i == 2 * k || i == 2 * k + 1;
    }
  }

  lemma {:induction false} InHexIsHex(s: string, h: seq<Byte>)
    ensures InHex(s, h) <==> s == Hex(h)
  {
    HexIs(h);
    if InHex(s, h) {
      PairsAgree(s, Hex(h), |h|);
    }
    hide Hex, HexDigit;
  }

  lemma {:induction false} HexHasNoDot(h: seq<Byte>)
    ensures '.' !in Hex(h)
  {
    if h != [] {
      HexHasNoDot(h[..|h| - 1]);
    }
  }

  // ------------------------------------------------------------ tokens

  function FrontPart(header: seq<Byte>, payload: seq<Byte>): string {
    UrlEncode(header) + ['.'] + UrlEncode(payload)
  }

  /** The token for a login, when the payload can be written and the hash computed. */
  function Created(lib: Library, secret: Secret, login: string, now: int): Option<string> {
    match lib.writePayload(Payload(login, now + LIFETIME))
    case None => None
    case Some(payload) =>
      var front := FrontPart(lib.header, payload);
      match lib.hash(secret, front)
      case None => None
      case Some(h) => Some(front + ['.'] + Hex(h))
  }

  /** The login of an acceptable token: three parts, the third starting with the hash of the
      other two, and a payload that is readable and not expired. */
  function Checked(lib: Library, secret: Secret, token: string, now: int): Option<string> {
    var parts := Split(token, '.');
    if |parts| != 3 then None
    else
      match lib.hash(secret, parts[0] + ['.'] + parts[1])
      case None => None
      case Some(h) =>
        if !(Hex(h) <= parts[2]) then None
        else
          match lib.readPayload(UrlDecode(parts[1]))
          case None => None
          case Some(p) => if p.expiration < now then None else Some(p.login)
  }

  lemma TokenSplits(header: seq<Byte>, payload: seq<Byte>, h: seq<Byte>)
    ensures Split(FrontPart(header, payload) + ['.'] + Hex(h), '.') == [UrlEncode(header), UrlEncode(payload), Hex(h)]
  {
    var a, b, c := UrlEncode(header), UrlEncode(payload), Hex(h);
    EncodingHasNoDot(header);
    EncodingHasNoDot(payload);
    HexHasNoDot(h);
    SplitFirst(a, b + ['.'] + c, '.');
    SplitFirst(b, c, '.');
    SplitNone(c, '.');
    assert FrontPart(header, payload) + ['.'] + c == a + ['.'] + (b + ['.'] + c);
    hide UrlEncode, Hex, Split;
  }

  /** What is hashed determines header and payload: the dot between them is the only one. */
  lemma FrontPartIsInjective(header: seq<Byte>, payload: seq<Byte>, header': seq<Byte>, payload': seq<Byte>)
    requires FrontPart(header, payload) == FrontPart(header', payload')
    ensures header == header' && payload == payload'
  {
    TokenSplits(header, payload, []);
    TokenSplits(header', payload', []);
    EncodingIsInjective(header, header');
    EncodingIsInjective(payload, payload');
  }

  /** A token is accepted under a secret exactly while it has not expired and that secret gives
      the same hash as the one it was made with; it then stands for the login it was made for. */
  lemma TokenAcceptedIff(lib: Library, made: Secret, used: Secret, login: string, now: int, later: int)
    requires LibraryOk(lib) && Created(lib, made, login, now).Some?
    ensures var token := Created(lib, made, login, now).value;
            var front := FrontPart(lib.header, lib.writePayload(Payload(login, now + LIFETIME)).value);
            var accepted := lib.hash(used, front) == lib.hash(made, front) && later <= now + LIFETIME;
            Checked(lib, used, token, later) == if accepted then Some(login) else None
  {
    var payload := lib.writePayload(Payload(login, now + LIFETIME)).value;
    var front := FrontPart(lib.header, payload);
    var h := lib.hash(made, front).value;
    TokenSplits(lib.header, payload, h);
    RoundTrip(payload);
    if lib.hash(used, front).Some? {
      var other := lib.hash(used, front).value;
      assert Hex(other) <= Hex(h) <==> Hex(other) == Hex(h);
      if Hex(other) == Hex(h) { HexIsInjective(other, h); }
    }
    hide Split, Hex, UrlEncode, UrlDecode;
  }

  /** On the port it was made for, a token works for an hour. */
  lemma TokenRoundTrip(lib: Library, secret: Secret, login: string, now: int, later: int)
    requires LibraryOk(lib) && Created(lib, secret, login, now).Some?
    ensures Checked(lib, secret, Created(lib, secret, login, now).value, later)
            == if later <= now + 3600 then Some(login) else None
  {
    TokenAcceptedIff(lib, secret, secret, login, now, later);
    hide LibraryOk, Checked, Created;
  }

  // ------------------------------------------------------------ which texts are tokens

  /** Header, payload and mark without dots inside; the mark begins with the hash of the other
      two under the secret, and the payload can be read, names the login and has not expired. */
  ghost predicate CarriesWith(lib: Library, secret: Secret, token: string, login: string, now: int,
                              head: string, body: string, mark: string)
  {
    var front := head + ['.'] + body;
    && token == head + ['.'] + (body + ['.'] + mark)
    && '.' !in head && '.' !in body && '.' !in mark
    && lib.hash(secret, front).Some?
    && MarkedWith(mark, lib.hash(secret, front).value)
    && lib.readPayload(UrlDecode(body)).Some?
    && lib.readPayload(UrlDecode(body)).value.login == login
    && now <= lib.readPayload(UrlDecode(body)).value.expiration
  }

  ghost predicate MarkedWith(mark: string, h: seq<Byte>) {
    2 * |h| <= |mark| && InHex(mark[..2 * |h|], h)
  }

  ghost predicate Carries(lib: Library, secret: Secret, token: string, login: string, now: int) {
    exists head, body, mark :: CarriesWith(lib, secret, token, login, now, head, body, mark)
  }

  lemma MarkedIff(mark: string, h: seq<Byte>)
    ensures MarkedWith(mark, h) <==> Hex(h) <= mark
  {
    if 2 * |h| <= |mark| { InHexIsHex(mark[..2 * |h|], h); }
  }

  lemma ThreeParts(token: string, head: string, body: string, mark: string)
    requires '.' !in head && '.' !in body && '.' !in mark
    ensures token == head + ['.'] + (body + ['.'] + mark) <==> Split(token, '.') == [head, body, mark]
  {
    SplitFirst(head, body + ['.'] + mark, '.');
    SplitFirst(body, mark, '.');
    SplitNone(mark, '.');
    assert Join([mark], '.') == mark && [body, mark][1..] == [mark] && [head, body, mark][1..] == [body, mark];
    assert Join([body, mark], '.') == body + ['.'] + mark;
    assert Join([head, body, mark], '.') == head + ['.'] + (body + ['.'] + mark);
    JoinSplit(token, '.');
    hide Split;
  }

  /** Among all texts, exactly those that carry the hash under the secret and an unexpired payload
      are accepted, for the login in it. */
  lemma AcceptedIff(lib: Library, secret: Secret, token: string, now: int, login: string)
    ensures Checked(lib, secret, token, now) == Some(login) <==> Carries(lib, secret, token, login, now)
  {
    var parts := Split(token, '.');
    if |parts| == 3 {
      PartsLackDelimiter(token, '.');
      var head, body, mark := parts[0], parts[1], parts[2];
      assert head in parts && body in parts && mark in parts;
      ThreeParts(token, head, body, mark);
      if lib.hash(secret, head + ['.'] + body).Some? {
        MarkedIff(mark, lib.hash(secret, head + ['.'] + body).value);
      }
      assert parts == [head, body, mark];
      assert Checked(lib, secret, token, now) == Some(login)
             <==> CarriesWith(lib, secret, token, login, now, head, body, mark);
    }
    forall head, body, mark | CarriesWith(lib, secret, token, login, now, head, body, mark)
      ensures parts == [head, body, mark]
    {
      ThreeParts(token, head, body, mark);
    }
    hide Split, UrlDecode, MarkedWith, Hex;
  }

  lemma EveryAccepted(lib: Library, secret: Secret, token: string, now: int)
    ensures forall login :: Checked(lib, secret, token, now) == Some(login) <==> Carries(lib, secret, token, login, now)
  {
    hide Checked, Carries;
    forall login
      ensures Checked(lib, secret, token, now) == Some(login) <==> Carries(lib, secret, token, login, now)
    {
      AcceptedIff(lib, secret, token, now, login);
    }
  }

  /** The token made for a login at a time: an hour of validity, and the hash at the end. */
  ghost predicate MadeWith(lib: Library, secret: Secret, login: string, now: int, token: string,
                           payload: seq<Byte>, h: seq<Byte>, mark: string)
  {
    var front := UrlEncode(lib.header) + ['.'] + UrlEncode(payload);
    && lib.writePayload(Payload(login, now + 3600)) == Some(payload)
    && lib.hash(secret, front) == Some(h)
    && token == front + ['.'] + mark && InHex(mark, h)
  }

  ghost predicate Made(lib: Library, secret: Secret, login: string, now: int, token: string) {
    exists payload, h, mark :: MadeWith(lib, secret, login, now, token, payload, h, mark)
  }

  lemma MadeIff(lib: Library, secret: Secret, login: string, now: int, token: string)
    ensures Created(lib, secret, login, now) == Some(token) <==> Made(lib, secret, login, now, token)
  {
    hide UrlEncode, InHex, Hex;
    if Created(lib, secret, login, now) == Some(token) {
      var payload := lib.writePayload(Payload(login, now + 3600)).value;
      var h := lib.hash(secret, FrontPart(lib.header, payload)).value;
      InHexIsHex(Hex(h), h);
      assert MadeWith(lib, secret, login, now, token, payload, h, Hex(h));
    }
    forall payload, h, mark | MadeWith(lib, secret, login, now, token, payload, h, mark)
      ensures Created(lib, secret, login, now) == Some(token)
    {
      InHexIsHex(mark, h);
    }
  }

  /** Making fails exactly when the payload cannot be written or the hash not be computed. */
  lemma MakingFailsIff(lib: Library, secret: Secret, login: string, now: int)
    ensures Created(lib, secret, login, now).None? <==>
            match lib.writePayload(Payload(login, now + 3600))
            case None => true
            case Some(payload) => lib.hash(secret, UrlEncode(lib.header) + ['.'] + UrlEncode(payload)).None?
  {
  }

  // ------------------------------------------------------------ the component

  lemma CreatedFacts(lib: Library, secret: Secret, login: string, now: int)
    ensures var token := Created(lib, secret, login, now);
            && (forall t :: token == Some(t) <==> Made(lib, secret, login, now, t))
            && (token.None? <==>
                  match lib.writePayload(Payload(login, now + 3600))
                  case None => true
                  case Some(payload) => lib.hash(secret, UrlEncode(lib.header) + ['.'] + UrlEncode(payload)).None?)
            && (LibraryOk(lib) && token.Some? ==>
                  forall later :: Checked(lib, secret, token.value, later)
                                  == if later > now + 3600 then None else Some(login))
  {
    MakingFailsIff(lib, secret, login, now);
    forall t ensures Created(lib, secret, login, now) == Some(t) <==> Made(lib, secret, login, now, t) {
      MadeIff(lib, secret, login, now, t);
    }
    if LibraryOk(lib) && Created(lib, secret, login, now).Some? {
      forall later
        ensures Checked(lib, secret, Created(lib, secret, login, now).value, later)
                == if later > now + 3600 then None else Some(login)
      {
        TokenRoundTrip(lib, secret, login, now, later);
      }
    }
    hide Created, Checked, Made, LibraryOk;
  }

  datatype TokenPasswords = TokenPasswords(secret: Secret, saltedPasswords: map<string, string>)

  method HexString(h: seq<Byte>) returns (s: string)
    ensures s == Hex(h)
  {
    s := "";
    for ii := 0 to |h|
      invariant s == Hex(h[..ii])
    {
      assert h[..ii + 1][..ii] == h[..ii];
      s := s + [HexDigit(h[ii] / 16), HexDigit(h[ii] % 16)];
    }
    assert h[..|h|] == h;
  }

  /** The comparison that does not stop early: no difference exactly for a prefix. */
  method CountDiffs(hashStr: string, part: string) returns (diffs: nat)
    ensures diffs == 0 <==> hashStr <= part
  {
    diffs := 0;
    for ii := 0 to |hashStr|
      invariant diffs == 0 <==> ii <= |part| && hashStr[..ii] <= part
    {
      if |part| <= ii {
        diffs := diffs + 1;
      } else {
        diffs := diffs + if part[ii] == hashStr[ii] then 0 else 1;
      }
    }
  }

  class TokenAuthority {
    var tokenPasswords: map<int, TokenPasswords>

    constructor ()
      ensures tokenPasswords == map[]
    {
      tokenPasswords := map[];
    }

    /** The port is there, with its old secret if it had one, and nothing else changed. */
    twostate predicate PortReady(port: int, randomBytes: Secret)
      reads this
    {
      && tokenPasswords.Keys == old(tokenPasswords.Keys) + {port}
      && (forall p <- old(tokenPasswords) :: tokenPasswords[p].secret == old(tokenPasswords)[p].secret)
      && (forall p <- old(tokenPasswords) :: p != port ==> tokenPasswords[p] == old(tokenPasswords)[p])
      && (port !in old(tokenPasswords) ==> tokenPasswords[port].secret == randomBytes)
    }

    ghost function Logins(port: int): map<string, string>
      reads this
    {
      if port in tokenPasswords then tokenPasswords[port].saltedPasswords else map[]
    }

    method MakePort(port: int, randomBytes: Secret)
      modifies this
      ensures PortReady(port, randomBytes) && Logins(port) == old(Logins(port))
    {
      if port !in tokenPasswords {
        tokenPasswords := tokenPasswords[port := TokenPasswords(randomBytes, map[])];
      }
    }

    method SetPassword(port: int, login: string, salted: string)
      requires port in tokenPasswords
      modifies this
      ensures tokenPasswords.Keys == old(tokenPasswords.Keys)
      ensures forall p <- tokenPasswords :: tokenPasswords[p].secret == old(tokenPasswords)[p].secret
      ensures forall p <- tokenPasswords :: p != port ==> tokenPasswords[p] == old(tokenPasswords)[p]
      ensures Logins(port) == old(Logins(port))[login := salted]
    {
      var info := tokenPasswords[port];
      tokenPasswords := tokenPasswords[port := info.(saltedPasswords := info.saltedPasswords[login := salted])];
    }

    /** The first login of a port fixes its secret; later ones keep it. When the password cannot
        be hashed the call fails and no login changes, but the port now requires tokens. On
        success the user is known with that password. */
    method AddTokenAuthentication(lib: Library, port: int, login: string, password: string, randomBytes: Secret)
      returns (ok: bool)
      requires LibraryOk(lib)
      modifies this
      ensures PortReady(port, randomBytes) && ok == lib.hashPassword(password).Some?
      ensures !ok ==> Logins(port) == old(Logins(port))
      ensures ok ==> Logins(port) == old(Logins(port))[login := lib.hashPassword(password).value]
      ensures ok ==> KnownUser(lib, port, Credentials(login, password))
    {
      MakePort(port, randomBytes);
      var hashed := lib.hashPassword(password);
      ok := hashed.Some?;
      if ok {
        SetPassword(port, login, hashed.value);
      }
    }

    /** The same with a password that was hashed before. */
    method AddTokenAuthenticationSalted(port: int, login: string, salted: string, randomBytes: Secret)
      modifies this
      ensures PortReady(port, randomBytes)
      ensures Logins(port) == old(Logins(port))[login := salted]
    {
      MakePort(port, randomBytes);
      SetPassword(port, login, salted);
    }

    /** Who may have a token on a port. */
    ghost predicate KnownUser(lib: Library, port: int, c: Credentials)
      reads this
    {
      && port in tokenPasswords
      && c.login in tokenPasswords[port].saltedPasswords
      && lib.verifyPassword(tokenPasswords[port].saltedPasswords[c.login], c.password)
    }

    /** A known user with the right password gets a token, unless a library fails; nobody else
        does. The token is accepted on this port for an hour, for that login. */
    method CreateAuthToken(lib: Library, port: int, authReqBody: string, now: int) returns (token: Option<string>)
      ensures token.Some? ==>
                && lib.readCredentials(authReqBody).Some?
                && KnownUser(lib, port, lib.readCredentials(authReqBody).value)
      ensures var c := lib.readCredentials(authReqBody);
              c.Some? && KnownUser(lib, port, c.value) ==>
                && token == Created(lib, tokenPasswords[port].secret, c.value.login, now)
                && (forall t :: token == Some(t) <==> Made(lib, tokenPasswords[port].secret, c.value.login, now, t))
                && (token.None? <==>
                      match lib.writePayload(Payload(c.value.login, now + 3600))
                      case None => true
                      case Some(payload) =>
                        var front := UrlEncode(lib.header) + ['.'] + UrlEncode(payload);
                        lib.hash(tokenPasswords[port].secret, front).None?)
      ensures LibraryOk(lib) && token.Some? ==>
                forall later :: Checked(lib, tokenPasswords[port].secret, token.value, later)
                                == if later > now + 3600 then None
                                   else Some(lib.readCredentials(authReqBody).value.login)
    {
      var c := lib.readCredentials(authReqBody);
      if c.None? {
        return None;
      }
      if port !in tokenPasswords || c.value.login !in tokenPasswords[port].saltedPasswords {
        return None;
      }
      var secret := tokenPasswords[port].secret;
      CreatedFacts(lib, secret, c.value.login, now);
      if !lib.verifyPassword(tokenPasswords[port].saltedPasswords[c.value.login], c.value.password) {
        return None;
      }
      var payload := lib.writePayload(Payload(c.value.login, now + LIFETIME));
      if payload.None? {
        return None;
      }
      var respHeadStr := Base64URLEnc(lib.header);
      var respPayloadStr := Base64URLEnc(payload.value);
      var respFrontPart := respHeadStr + ['.'] + respPayloadStr;
      var hash := lib.hash(secret, respFrontPart);
      if hash.None? {
        return None;
      }
      var hashStr := HexString(hash.value);
      token := Some(respFrontPart + ['.'] + hashStr);
      assert token == Created(lib, secret, c.value.login, now);
      hide Created, Checked, Made;
    }

    method CheckTokenAuthentication(lib: Library, port: int, authToken: string, now: int)
      returns (login: Option<string>)
      ensures port in tokenPasswords ==> login == Checked(lib, tokenPasswords[port].secret, authToken, now)
      ensures port !in tokenPasswords ==> login == None
      ensures port in tokenPasswords ==>
                forall x :: login == Some(x) <==> Carries(lib, tokenPasswords[port].secret, authToken, x, now)
    {
      if port in tokenPasswords { EveryAccepted(lib, tokenPasswords[port].secret, authToken, now); }
      hide Carries, Hex;
      if port !in tokenPasswords {
        return None;
      }
      var secret := tokenPasswords[port].secret;
      var parts := Split(authToken, '.');
      if |parts| != 3 {
        return None;
      }
      var toHash := parts[0] + ['.'] + parts[1];
      var hash := lib.hash(secret, toHash);
      if hash.None? {
        return None;
      }
      var hashStr := HexString(hash.value);
      var diffs := CountDiffs(hashStr, parts[2]);
      if diffs != 0 {
        return None;
      }
      var payload := Base64URLDec(parts[1]);
      var parsed := lib.readPayload(payload);
      if parsed.None? {
        return None;
      }
      if parsed.value.expiration < now {
        return None;
      }
      login := Some(parsed.value.login);
    }
  }
}
