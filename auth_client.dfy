/**
  The cart service's client for the auth service's client-credentials endpoint: it keeps the
  last access token and its expiry, and asks for a new one only when the cached one is within
  thirty seconds of expiring.  Times are nanoseconds since the Unix epoch.
 */
module AuthClient {
  import opened Wrappers

  const Second: int := 1_000_000_000

  /** How close to expiry a cached token may get before it is replaced. */
  const RefreshMargin: int := 30 * Second

  /** Go's zero `time.Time` (January 1 of year 1, UTC), the expiry of a client that never fetched. */
  const ZeroTime: int := -62_135_596_800 * Second

  const TokenPath := "/api/v1/auth/token"

  /** `strings.TrimRight(s, "/")`: the longest prefix that does not end in a slash. */
  function TrimRight(s: string): (r: string)
    ensures r <= s
    ensures r == [] || r[|r| - 1] != '/'
    ensures forall i :: |r| <= i < |s| ==> s[i] == '/'
  {
    if |s| > 0 && s[|s| - 1] == '/' then TrimRight(s[..|s| - 1]) else s
  }

  /** Those three facts determine the result: any prefix with them is the trimmed string. */
  lemma {:induction false} TrimRightUnique(s: string, t: string)
    requires t <= s && (t == [] || t[|t| - 1] != '/')
    requires forall i :: |t| <= i < |s| ==> s[i] == '/'
    ensures t == TrimRight(s)
  {
    if |s| > |t| {
      assert s[|s| - 1] == '/';
      assert t <= s[..|s| - 1];
      TrimRightUnique(s[..|s| - 1], t);
    } else {
      assert t == s;
    }
  }

  lemma TrimRightIdempotent(s: string)
    ensures TrimRight(TrimRight(s)) == TrimRight(s)
  {
    var t := TrimRight(s);
    TrimRightUnique(t, t);
  }

  /** A decoded token response. */
  datatype Grant = Grant(accessToken: string, accessExpiresAt: int)

  /** What the HTTP round trip produced: no response, or a status and a body that either decodes as
      the token response or does not. */
  datatype HttpOutcome = TransportFailed | Response(status: int, body: Option<Grant>)

  datatype AuthError = Transport | BadStatus(status: int) | Undecodable

  /** The POST the client sends: the token URL and the JSON credentials. */
  datatype TokenRequest = TokenRequest(url: string, clientId: string, clientSecret: string)

  /** `fetch`: a transport failure, a status other than 200 or a body that does not decode is an
      error; otherwise the token, with its expiry read as whole seconds since the epoch. */
  function FetchResult(reply: HttpOutcome): (r: Result<(string, int), AuthError>)
    ensures r.Success? <==> reply.Response? && reply.status == 200 && reply.body.Some?
    ensures r.Success? ==>
              r.value.0 == reply.body.value.accessToken && r.value.1 == reply.body.value.accessExpiresAt * Second
    ensures reply.Response? && reply.status != 200 ==> r == Failure(BadStatus(reply.status))
  {
    match reply
    case TransportFailed => Failure(Transport)
    case Response(status, body) =>
      if status != 200 then Failure(BadStatus(status))
      else if body.None? then Failure(Undecodable)
      else Success((body.value.accessToken, body.value.accessExpiresAt * Second))
  }

  class Client {
    const baseURL: string
    const id: string
    const secret: string
    var token: string
    var expire: int
    /** Every token request sent so far. */
    ghost var requests: seq<TokenRequest>

    /** `NewClient`. */
    constructor (rawBaseURL: string, clientId: string, clientSecret: string)
      ensures baseURL == TrimRight(rawBaseURL) && id == clientId && secret == clientSecret
      ensures token == "" && expire == ZeroTime && requests == []
    {
      baseURL := TrimRight(rawBaseURL);
      id := clientId;
      secret := clientSecret;
      token := "";
      expire := ZeroTime;
      requests := [];
    }

    function TokenURL(): string {
      baseURL + TokenPath
    }

    /** The URL joins the base and the path with exactly one slash, whatever the configured base
        ended with. */
    lemma TokenURLSingleSlash(raw: string)
      requires baseURL == TrimRight(raw)
      ensures TokenURL()[|baseURL|] == '/' && (baseURL == [] || baseURL[|baseURL| - 1] != '/')
      ensures TokenURL()[..|baseURL|] <= raw
    {
    }

    predicate Fresh(now: int)
      reads this
    {
      expire - now > RefreshMargin
    }

    /** `Token` at time `now`, where `reply` is what the token endpoint would answer. */
    method Token(now: int, reply: HttpOutcome) returns (r: Result<string, AuthError>)
      modifies this
      ensures old(Fresh(now)) ==> r == Success(old(token)) && unchanged(this)
      ensures !old(Fresh(now)) ==> requests == old(requests) + [TokenRequest(TokenURL(), id, secret)]
      ensures !old(Fresh(now)) && FetchResult(reply).Success? ==>
                && token == FetchResult(reply).value.0 && expire == FetchResult(reply).value.1
                && r == Success(token)
      ensures !old(Fresh(now)) && FetchResult(reply).Failure? ==>
                r == Failure(FetchResult(reply).error) && token == old(token) && expire == old(expire)
    {
      if expire - now > RefreshMargin {
        return Success(token);
      }
      requests := requests + [TokenRequest(TokenURL(), id, secret)];
      var fetched := FetchResult(reply);
      if fetched.Failure? {
        return Failure(fetched.error);
      }
      token, expire := fetched.value.0, fetched.value.1;
      return Success(token);
    }
  }

  /** A client that never fetched always fetches, at any time since the Unix epoch. */
  lemma NewClientFetches(now: int)
    requires now >= 0
    ensures !(ZeroTime - now > RefreshMargin)
  {
  }
}
