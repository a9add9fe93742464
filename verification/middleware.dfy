/** The request-authorization gate of the order service
    (order-service/middleware.go).

    `hasAccess` runs before every basket handler.  It is modelled as a pure
    function from what it reads (the Authorization header, the HTTP method
    and path) and from what it calls out to (the authentication service's
    `HasAccess` RPC and `json.Unmarshal`, both given as function parameters)
    to an `Outcome`: the response it wrote, whether it aborted the gin chain,
    the `userID` it stored in the context, whether it called `c.Next`, and
    the resource it sent to the authentication service. */
module Middleware {
  import opened Wrappers
  import opened Errors
  import opened Strings
  import opened Http
  import Base64Url
  import Service

  /** `authentication.Resource_Method`. */
  datatype Method = Invalid | Get | Post | Put | Delete | Head | Connect | Options | Trace | Patch

  /** `authentication.Resource`: what the remote access check is asked about. */
  datatype Resource = Resource(verb: Method, path: string, jwt: string)

  /** The remote `HasAccess` call: a transport/service error, or a verdict. */
  datatype AccessReply = Failed(err: Error) | Answered(hasAccess: bool)

  /** `JwtClaims`, the payload of the token. */
  datatype JwtClaims = JwtClaims(
    userID: string, userAccessLevel: Service.GoInt, tokenUseCase: string, exp: Service.GoInt, issued: Service.GoInt)

  /** What `extractClaims` leaves behind: a run-time panic (no second segment),
      a base64 error, or the claims pointer, which stays nil (`None`) when
      `json.Unmarshal` did not fill it. */
  datatype ClaimsResult = IndexOutOfRange | DecodeError | Decoded(claims: Option<JwtClaims>)

  /** Where `hasAccess` panics. */
  datatype PanicSite =
    | SplitIndex   // parts[1] on a token without '.'
    | NilClaims    // claims.UserID on a nil claims pointer

  datatype Outcome =
    | Outcome(response: Option<Response>, aborted: bool, userID: Option<string>, next: bool,
              asked: Option<Resource>)
    | Panic(site: PanicSite, asked: Option<Resource>)

  const BearerPrefix := "Bearer "

  /** `extractToken`: the header must start with "Bearer " (so the empty
      header fails); on success only "Bearer" is trimmed, so the token keeps
      the space that followed it. */
  function ExtractToken(header: string): (r: Result<string, Error>)
    ensures r.Err? <==> !HasPrefix(header, BearerPrefix)
    ensures r.Err? ==> r.error == JWTIsMissing
    ensures r.Ok? ==> "Bearer" + r.value == header && r.value == header[6..]
    ensures r.Ok? ==> |r.value| >= 1 && r.value[0] == ' '
  {
    if header == "" || !HasPrefix(header, BearerPrefix) then Err(JWTIsMissing)
    else Ok(TrimPrefix(header, "Bearer"))
  }

  /** The HTTP method names and their enum values, as `initMethodMap` lists them. */
  function MethodName(m: Method): string
    requires m != Invalid
  {
    match m
    case Get => "GET"
    case Post => "POST"
    case Put => "PUT"
    case Delete => "DELETE"
    case Head => "HEAD"
    case Connect => "CONNECT"
    case Options => "OPTIONS"
    case Trace => "TRACE"
    case Patch => "PATCH"
  }

  /** `initMethodMap`: nine entries, one per method other than `Invalid`,
      each keyed by that method's name. */
  function InitMethodMap(): (mm: map<string, Method>)
    ensures forall name :: name in mm ==> mm[name] != Invalid && MethodName(mm[name]) == name
    ensures forall m :: m != Invalid ==> MethodName(m) in mm && mm[MethodName(m)] == m
  {
    map["GET" := Get, "POST" := Post, "PUT" := Put, "DELETE" := Delete, "HEAD" := Head,
        "CONNECT" := Connect, "OPTIONS" := Options, "TRACE" := Trace, "PATCH" := Patch]
  }

  /** The lookup of the request method, with `Invalid` for a name the map
      lacks: never an existing method in its place. */
  function MethodFor(name: string): (m: Method)
    ensures m != Invalid <==> exists k :: k != Invalid && MethodName(k) == name
    ensures m != Invalid ==> MethodName(m) == name
  {
    var mm := InitMethodMap();
    if name in mm then mm[name]
    else
      assert forall k :: k != Invalid ==> MethodName(k) != name;
      Invalid
  }

  /** Every named method is found under its own name. */
  lemma MethodForName(m: Method)
    requires m != Invalid
    ensures MethodFor(MethodName(m)) == m
  {
  }

  /** The lookup is case-sensitive: lowercase "get" is not GET. */
  lemma LowercaseMethodIsInvalid()
    ensures MethodFor("get") == Invalid
  {
    assert forall k :: k != Invalid ==> MethodName(k) != "get";
  }

  /** The segment `extractClaims` decodes: the text between the first and the
      second '.', or up to the end when there is only one '.'. */
  function PayloadSegment(jwt: string): (seg: string)
    requires '.' in jwt
    ensures '.' !in seg
    ensures IsSecondSegment(jwt, seg)
  {
    SplitHasSecondPiece(jwt, '.');
    var parts := Split(jwt, '.');
    JoinSplit(jwt, '.');
    JoinFirstTwo(parts);
    SecondSegmentWitness(jwt, parts[0], parts[1], After(parts));
    parts[1]
  }

  /** `seg` is the text between the first '.' of `jwt` (at `i`) and the
      next '.' (or the end). */
  ghost predicate IsSecondSegment(jwt: string, seg: string) {
    exists i :: 0 <= i < |jwt| && jwt[i] == '.' && '.' !in jwt[..i] && SegmentAt(jwt, i + 1, seg)
  }

  /** `seg` starts at `j` in `jwt`, holds no '.', and ends at a '.' or at the
      end of `jwt`. */
  predicate SegmentAt(jwt: string, j: nat, seg: string) {
    j + |seg| <= |jwt| && jwt[j..j + |seg|] == seg && '.' !in seg
    && (j + |seg| == |jwt| || jwt[j + |seg|] == '.')
  }

  lemma SecondSegmentWitness(jwt: string, head: string, seg: string, tail: string)
    requires '.' !in head && '.' !in seg && (tail == "" || tail[0] == '.')
    requires jwt == head + "." + seg + tail
    ensures IsSecondSegment(jwt, seg)
  {
    var i := |head|;
    assert jwt[..i] == head;
    assert jwt[i + 1..i + 1 + |seg|] == seg;
    assert SegmentAt(jwt, i + 1, seg);
  }

  /** The second segment is unique: two candidates for the same token agree,
      so `PayloadSegment` is pinned down by its contract. */
  lemma SecondSegmentUnique(jwt: string, seg1: string, seg2: string)
    requires IsSecondSegment(jwt, seg1) && IsSecondSegment(jwt, seg2)
    ensures seg1 == seg2
  {
    var i1 :| 0 <= i1 < |jwt| && jwt[i1] == '.' && '.' !in jwt[..i1] && SegmentAt(jwt, i1 + 1, seg1);
    var i2 :| 0 <= i2 < |jwt| && jwt[i2] == '.' && '.' !in jwt[..i2] && SegmentAt(jwt, i2 + 1, seg2);
    DotFreeBefore(jwt, i1);
    DotFreeBefore(jwt, i2);
    assert i1 == i2;
    var j := i1 + 1;
    DotFreeRun(jwt, j, seg1);
    DotFreeRun(jwt, j, seg2);
    assert |seg1| == |seg2|;
    assert seg1 == jwt[j..j + |seg1|] == seg2;
  }

  lemma DotFreeBefore(jwt: string, i: nat)
    requires i <= |jwt| && '.' !in jwt[..i]
    ensures forall k :: 0 <= k < i ==> jwt[k] != '.'
  {
    forall k | 0 <= k < i ensures jwt[k] != '.' {
      assert jwt[k] == jwt[..i][k];
    }
  }

  lemma DotFreeRun(jwt: string, j: nat, seg: string)
    requires SegmentAt(jwt, j, seg)
    ensures forall k :: j <= k < j + |seg| ==> jwt[k] != '.'
  {
    forall k | j <= k < j + |seg| ensures jwt[k] != '.' {
      assert jwt[k] == jwt[j..j + |seg|][k - j] == seg[k - j];
    }
  }

  /** What follows the second piece in the join of `parts`. */
  function After(parts: seq<string>): string
    requires |parts| >= 2
  {
    if |parts| > 2 then "." + Join(parts[2..], '.') else ""
  }

  lemma JoinFirstTwo(parts: seq<string>)
    requires |parts| >= 2
    ensures Join(parts, '.') == parts[0] + "." + parts[1] + After(parts)
    ensures After(parts) == "" || After(parts)[0] == '.'
  {
    var rest := parts[1..];
    assert Join(parts, '.') == parts[0] + ['.'] + Join(rest, '.');
    if |parts| > 2 {
      assert rest[1..] == parts[2..];
      assert Join(rest, '.') == parts[1] + ['.'] + Join(parts[2..], '.');
    } else {
      assert Join(rest, '.') == parts[1];
    }
  }

  /** `extractClaims`: splits on '.', base64url-decodes the second piece and
      unmarshals it.  The unmarshal error is discarded, so the only error is
      a decoding error; a token without '.' has no second piece and panics. */
  function ExtractClaims(jwt: string, unmarshal: seq<Base64Url.byte> -> Option<JwtClaims>): (r: ClaimsResult)
    ensures r == IndexOutOfRange <==> '.' !in jwt
    ensures r == DecodeError <==> '.' in jwt && !Base64Url.Decodable(PayloadSegment(jwt))
    ensures r.Decoded? ==>
      (Base64Url.Decode(PayloadSegment(jwt)).Some?
       && r.claims == unmarshal(Base64Url.Decode(PayloadSegment(jwt)).value))
  {
    var parts := Split(jwt, '.');
    SplitHasSecondPiece(jwt, '.');
    if |parts| < 2 then IndexOutOfRange
    else
      Base64Url.DecodeSucceedsIff(parts[1]);
      match Base64Url.Decode(parts[1])
      case None => DecodeError
      case Some(payload) => Decoded(unmarshal(payload))
  }

  /** `hasAccess`: a ladder of early exits.
      - no "Bearer " header: 401 written, chain not aborted;
      - access call failed: abort with 401, whatever the error;
      - access denied: abort with 405;
      - claims not decodable: 500 written, chain not aborted;
      - otherwise `userID` is set to the claims' user id and `Next` runs. */
  function HasAccess(
    header: string, httpMethod: string, path: string,
    auth: Resource -> AccessReply, unmarshal: seq<Base64Url.byte> -> Option<JwtClaims>
  ): (o: Outcome)
    ensures o.asked.Some? <==> HasPrefix(header, BearerPrefix)
    ensures o.asked.Some? ==> o.asked == Some(Resource(MethodFor(httpMethod), path, header[6..]))
    ensures o.Outcome? ==> (o.next <==> o.userID.Some?) && (o.next ==> !o.aborted && o.response.None?)
    ensures o.Outcome? && o.next <==> Authorized(header, httpMethod, path, auth, unmarshal)
    ensures o.Outcome? && o.next ==>
      o.userID == Some(ExtractClaims(header[6..], unmarshal).claims.value.userID)
    ensures o.Outcome? && o.response.Some? && o.response.value.status == StatusInternalServerError ==>
      !o.aborted && o.asked.Some? && auth(o.asked.value) == Answered(true)
    ensures o.Outcome? && o.aborted ==>
      (o.asked.Some? && o.response.Some?
       && (o.response.value.status == StatusUnauthorized <==> auth(o.asked.value).Failed?)
       && (o.response.value.status == StatusMethodNotAllowed <==> auth(o.asked.value) == Answered(false)))
  {
    match ExtractToken(header)
    case Err(err) =>
      if err == JWTIsMissing then Write(StatusUnauthorized, "jwt is missing", None)
      else Write(StatusInternalServerError, "internal error", None)
    case Ok(tk) =>
      var resource := Resource(MethodFor(httpMethod), path, tk);
      match auth(resource)
      case Failed(err) =>
        if err == JWTIsMissing then Abort(StatusUnauthorized, "API token required", resource)
        else Abort(StatusUnauthorized, "Invalid token", resource)
      case Answered(false) => Abort(StatusMethodNotAllowed, "method not allowed", resource)
      case Answered(true) =>
        match ExtractClaims(tk, unmarshal)
        case IndexOutOfRange => Panic(SplitIndex, Some(resource))
        case DecodeError => Write(StatusInternalServerError, "internal error", Some(resource))
        case Decoded(None) => Panic(NilClaims, Some(resource))
        case Decoded(Some(claims)) => Outcome(None, false, Some(claims.userID), true, Some(resource))
  }

  /** `c.JSON(status, {"error": msg})` followed by `return`: the response is
      written, the chain is not aborted, no user id is stored and `Next` is
      not called. */
  function Write(status: int, msg: string, asked: Option<Resource>): (o: Outcome)
    ensures o.Outcome? && !o.aborted && !o.next && o.userID.None?
    ensures o.response == Some(Response(status, ErrorJson(msg))) && o.asked == asked
  {
    Outcome(Some(Response(status, ErrorJson(msg))), false, None, false, asked)
  }

  /** `c.AbortWithStatusJSON(status, {"error": msg})` followed by `return`:
      the response is written and the chain aborted, with no user id stored
      and no `Next`. */
  function Abort(status: int, msg: string, asked: Resource): (o: Outcome)
    ensures o.Outcome? && o.aborted && !o.next && o.userID.None?
    ensures o.response == Some(Response(status, ErrorJson(msg))) && o.asked == Some(asked)
  {
    Outcome(Some(Response(status, ErrorJson(msg))), true, None, false, Some(asked))
  }

  /** The independent statement of when the gate lets a request through:
      a "Bearer " token, an allow verdict for it, a decodable payload segment
      and claims that `json.Unmarshal` filled in. */
  predicate Authorized(
    header: string, httpMethod: string, path: string,
    auth: Resource -> AccessReply, unmarshal: seq<Base64Url.byte> -> Option<JwtClaims>)
  {
    HasPrefix(header, BearerPrefix)
    && var tk := header[6..];
    auth(Resource(MethodFor(httpMethod), path, tk)) == Answered(true)
    && '.' in tk
    && Base64Url.Decodable(PayloadSegment(tk))
    && (Base64Url.DecodeSucceedsIff(PayloadSegment(tk));
        unmarshal(Base64Url.Decode(PayloadSegment(tk)).value).Some?)
  }

  /** A request without a "Bearer " header gets 401 "jwt is missing" without
      an abort, and the authentication service is never asked. */
  lemma MissingTokenWritesUnauthorized(
    header: string, httpMethod: string, path: string,
    auth: Resource -> AccessReply, unmarshal: seq<Base64Url.byte> -> Option<JwtClaims>)
    requires !HasPrefix(header, BearerPrefix)
    ensures HasAccess(header, httpMethod, path, auth, unmarshal)
      == Outcome(Some(Response(StatusUnauthorized, ErrorJson("jwt is missing"))), false, None, false, None)
  {
  }

  /** Any error of the access call aborts with 401; only the message tells
      the two arms of the switch apart: "API token required" for
      `ErrJWTIsMissing`, "Invalid token" for every other error. */
  lemma AccessErrorAbortsUnauthorized(
    header: string, httpMethod: string, path: string,
    auth: Resource -> AccessReply, unmarshal: seq<Base64Url.byte> -> Option<JwtClaims>)
    requires HasPrefix(header, BearerPrefix)
    requires auth(Resource(MethodFor(httpMethod), path, header[6..])).Failed?
    ensures var o := HasAccess(header, httpMethod, path, auth, unmarshal);
      o.Outcome? && o.aborted && !o.next && o.userID.None?
      && o.response.Some? && o.response.value.status == StatusUnauthorized
    ensures var resource := Resource(MethodFor(httpMethod), path, header[6..]);
      HasAccess(header, httpMethod, path, auth, unmarshal)
        == Abort(StatusUnauthorized,
                 if auth(resource).err == JWTIsMissing then "API token required" else "Invalid token",
                 resource)
  {
  }

  /** A denial aborts with 405; no user id is stored and `Next` is not called. */
  lemma DenialAbortsMethodNotAllowed(
    header: string, httpMethod: string, path: string,
    auth: Resource -> AccessReply, unmarshal: seq<Base64Url.byte> -> Option<JwtClaims>)
    requires HasPrefix(header, BearerPrefix)
    requires auth(Resource(MethodFor(httpMethod), path, header[6..])) == Answered(false)
    ensures HasAccess(header, httpMethod, path, auth, unmarshal)
      == Outcome(Some(Response(StatusMethodNotAllowed, ErrorJson("method not allowed"))), true, None, false,
                 Some(Resource(MethodFor(httpMethod), path, header[6..])))
  {
  }

  /** The rejections that only write a response, without aborting, are the
      missing token (401, before any remote call) and the undecodable claims
      (500, after an allow verdict); the 500 branch after `extractToken` is
      never taken. */
  lemma NonAbortingRejections(
    header: string, httpMethod: string, path: string,
    auth: Resource -> AccessReply, unmarshal: seq<Base64Url.byte> -> Option<JwtClaims>)
    ensures var o := HasAccess(header, httpMethod, path, auth, unmarshal);
      o.Outcome? && o.response.Some? && !o.aborted ==>
        (o.response.value.status == StatusUnauthorized && o.asked.None?)
        || (o.response.value.status == StatusInternalServerError && o.asked.Some?
            && auth(o.asked.value) == Answered(true)
            && ExtractClaims(header[6..], unmarshal) == DecodeError)
  {
  }

  /** After an allow verdict, a payload segment that does not decode gets 500
      "internal error" written without an abort: no user id, no `Next`. */
  lemma ClaimsErrorWritesInternalError(
    header: string, httpMethod: string, path: string,
    auth: Resource -> AccessReply, unmarshal: seq<Base64Url.byte> -> Option<JwtClaims>)
    requires HasPrefix(header, BearerPrefix)
    requires auth(Resource(MethodFor(httpMethod), path, header[6..])) == Answered(true)
    requires ExtractClaims(header[6..], unmarshal) == DecodeError
    ensures HasAccess(header, httpMethod, path, auth, unmarshal)
      == Outcome(Some(Response(StatusInternalServerError, ErrorJson("internal error"))), false, None, false,
                 Some(Resource(MethodFor(httpMethod), path, header[6..])))
  {
  }

  /** After an allow verdict the gate panics on a token without '.', and on
      a payload that decodes but that `json.Unmarshal` leaves as a nil claims
      pointer (invalid JSON, or the JSON literal null). */
  lemma AllowedButPanics(
    header: string, httpMethod: string, path: string,
    auth: Resource -> AccessReply, unmarshal: seq<Base64Url.byte> -> Option<JwtClaims>)
    requires HasPrefix(header, BearerPrefix)
    requires auth(Resource(MethodFor(httpMethod), path, header[6..])) == Answered(true)
    ensures var o := HasAccess(header, httpMethod, path, auth, unmarshal);
      ('.' !in header ==> o.Panic? && o.site == SplitIndex)
      && (ExtractClaims(header[6..], unmarshal) == Decoded(None) ==> o.Panic? && o.site == NilClaims)
  {
  }

  /** The unmarshal outcome never turns into an error of `extractClaims`:
      whether it fails depends on the token alone. */
  lemma UnmarshalErrorsDiscarded(
    jwt: string, u1: seq<Base64Url.byte> -> Option<JwtClaims>, u2: seq<Base64Url.byte> -> Option<JwtClaims>)
    ensures ExtractClaims(jwt, u1).Decoded? <==> ExtractClaims(jwt, u2).Decoded?
  {
  }
}
