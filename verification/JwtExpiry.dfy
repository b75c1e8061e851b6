/**
 Token expiry, decided in four places.  `exp` is in seconds, clocks are in
 milliseconds; None is a payload without a numeric `exp`.
 */
module JwtExpiry {
  import opened Wrappers
  import opened Base64Url

  const EXPIRY_BUFFER_MS := 30_000.0

  /** packages/api-client/src/jwt.ts */
  predicate IsJwtExpired(exp: Option<real>, now: int) {
    exp.None? || now as real >= exp.value * 1000.0 - EXPIRY_BUFFER_MS
  }

  /** apps/web/lib/auth-server.ts: a missing or zero `exp` is expired. */
  predicate IsExpiredOnAuthServer(exp: Option<real>, now: int) {
    exp.None? || exp.value == 0.0 || exp.value * 1000.0 < now as real
  }

  /** apps/web/lib/server-auth.ts: a missing or zero `exp` never expires. */
  predicate IsExpiredOnServerAuth(exp: Option<real>, now: int) {
    exp.Some? && exp.value != 0.0 && exp.value * 1000.0 <= now as real
  }

  /** apps/web/middleware.ts: likewise, and valid for one instant more. */
  predicate IsExpiredInMiddleware(exp: Option<real>, now: int) {
    exp.Some? && exp.value != 0.0 && exp.value * 1000.0 < now as real
  }

  /** The client gives a token up exactly 30 seconds before `server-auth.ts` does. */
  lemma {:induction false} ClientIsThirtySecondsAhead(exp: real, now: int)
    requires exp != 0.0
    ensures IsJwtExpired(Some(exp), now) <==> IsExpiredOnServerAuth(Some(exp), now + 30_000)
  {
  }

  /** The other three tests agree on every token that has an `exp` other than 0, but for
      the very instant it names; without one only `auth-server.ts` refuses. */
  lemma {:induction false} TestsAgreeIff(exp: Option<real>, now: int)
    ensures IsExpiredOnAuthServer(exp, now) == IsExpiredInMiddleware(exp, now) <==> exp.Some? && exp.value != 0.0
    ensures IsExpiredOnServerAuth(exp, now) == IsExpiredInMiddleware(exp, now)
            <==> exp.None? || exp.value == 0.0 || exp.value * 1000.0 != now as real
    ensures exp.None? || exp.value == 0.0 ==> IsExpiredOnAuthServer(exp, now) && !IsExpiredInMiddleware(exp, now)
    ensures exp.None? ==> IsJwtExpired(exp, now)
  {
  }

  /** A token the client sends without refreshing passes every other expiry test until
      30 seconds later. */
  lemma {:induction false} FreshTokensPassEverywhere(exp: Option<real>, t: int, u: int)
    requires t >= 0 && !IsJwtExpired(exp, t) && t <= u <= t + 30_000
    ensures !IsExpiredOnAuthServer(exp, u) && !IsExpiredOnServerAuth(exp, u) && !IsExpiredInMiddleware(exp, u)
  {
  }

  /** The buffer is exact: of two clocks more than 30 seconds apart, some token is fresh
      by the first and refused by every other test at the second. */
  lemma {:induction false} BufferIsExact(t: int, u: int) returns (exp: real)
    requires 0 <= t && t + 30_000 < u
    ensures !IsJwtExpired(Some(exp), t)
    ensures IsExpiredOnAuthServer(Some(exp), u) && IsExpiredOnServerAuth(Some(exp), u) && IsExpiredInMiddleware(Some(exp), u)
  {
    exp := (t as real + u as real + 30_000.0) / 2000.0;
  }

  /** A payload and how its JSON is read; None is a parse error. */
  type Parser = seq<byte> -> Option<Option<real>>

  /** `isJwtExpired` of a token with the given segments. */
  predicate ClientSaysFresh(parts: seq<string>, parse: Parser, now: int) {
    |parts| == 3 && parts[1] != ""
    && var bytes := Atob(PaddedByClient(parts[1]));
       bytes.Some? && parse(bytes.value).Some? && !IsJwtExpired(parse(bytes.value).value, now)
  }

  /** `isTokenValid` of the middleware. */
  predicate MiddlewareSaysValid(parts: seq<string>, parse: Parser, now: int) {
    |parts| == 3
    && var bytes := Atob(parts[1]);
       bytes.Some? && parse(bytes.value).Some? && !IsExpiredInMiddleware(parse(bytes.value).value, now)
  }

  /** A token the client finds fresh is valid for the middleware during the next 30
      seconds exactly when its payload segment has no `-` and no `_`. */
  lemma {:induction false} FreshIsValidIff(parts: seq<string>, payload: seq<byte>, parse: Parser, t: int, u: int)
    requires |parts| == 3 && parts[1] == Encode(payload)
    requires 0 <= t <= u <= t + 30_000 && ClientSaysFresh(parts, parse, t)
    ensures MiddlewareSaysValid(parts, parse, u) <==> '-' !in parts[1] && '_' !in parts[1]
  {
    DecodersInvertEncoding(payload);
    MiddlewareDecodesIff(payload);
    FreshTokensPassEverywhere(parse(payload).value, t, u);
  }

  /** A `?` as third byte of a payload is written as `_` in its segment. */
  lemma {:induction false} QuestionMark(payload: seq<byte>)
    requires |payload| >= 3 && payload[2] == 63
    ensures '_' in Encode(payload)
  {
    assert Sextets(payload)[3] == 63;
    assert Encode(payload)[3] == '_';
  }

  lemma {:induction false} FreshAtStart(parts: seq<string>, payload: seq<byte>, parse: Parser)
    requires |parts| == 3 && parts[1] == Encode(payload) && parts[1] != ""
    requires parse(payload) == Some(Some(60.0))
    ensures ClientSaysFresh(parts, parse, 0)
  {
    DecodersInvertEncoding(payload);
  }

  /** A token that the client sends and the middleware refuses at the same instant: its
      payload is the text `{"?":0,"exp":60}`. */
  lemma {:induction false} FreshButInvalid(header: string, signature: string, parse: Parser) returns (payload: seq<byte>)
    ensures payload == [123, 34, 63, 34, 58, 48, 44, 34, 101, 120, 112, 34, 58, 54, 48, 125]
    ensures parse(payload) == Some(Some(60.0)) ==>
              && ClientSaysFresh([header, Encode(payload), signature], parse, 0)
              && !MiddlewareSaysValid([header, Encode(payload), signature], parse, 0)
  {
    payload := [123, 34, 63, 34, 58, 48, 44, 34, 101, 120, 112, 34, 58, 54, 48, 125];
    QuestionMark(payload);
    if parse(payload) == Some(Some(60.0)) {
      var parts := [header, Encode(payload), signature];
      FreshAtStart(parts, payload, parse);
      FreshIsValidIff(parts, payload, parse, 0, 0);
    }
  }

  /** A token that is not three segments, or whose payload cannot be decoded or parsed, is
      neither fresh nor valid. */
  lemma {:induction false} MalformedIsRefused(parts: seq<string>, parse: Parser, now: int)
    ensures |parts| != 3 ==> !ClientSaysFresh(parts, parse, now) && !MiddlewareSaysValid(parts, parse, now)
    ensures |parts| == 3 && (Atob(parts[1]) == None || parse(Atob(parts[1]).value) == None) ==> !MiddlewareSaysValid(parts, parse, now)
    ensures |parts| == 3 && (Atob(PaddedByClient(parts[1])) == None || parse(Atob(PaddedByClient(parts[1])).value) == None)
            ==> !ClientSaysFresh(parts, parse, now)
  {
  }
}
