/** The basket handlers (order-service/handlers.go).

    `GetUserID` reads the value the middleware stored under "userID"; the
    handlers turn that, the parsed path and query parameters and the store's
    answer into a response.  The reply functions take the store call as a
    parameter, so that they state the status mapping for every answer a
    store could give; the `Handler` methods run them against the actual
    `InmemService`. */
module Handlers {
  import opened Wrappers
  import opened Errors
  import opened Http
  import opened Service
  import Middleware
  import Base64Url

  /** The value `c.Value("userID")` yields: nothing, a string, or a value of
      some other Go type. */
  datatype CtxValue = Unset | StringValue(s: string) | NonString

  /** `GetUserID`: no value is not an error and gives the empty user id. */
  function GetUserID(v: CtxValue): (r: Result<string, Error>)
    ensures v == Unset ==> r == Ok("")
    ensures v.StringValue? ==> r == Ok(v.s)
    ensures r.Err? <==> v == NonString
    ensures r.Err? ==> r.error == Other("could not parse user ID")
  {
    match v
    case Unset => Ok("")
    case StringValue(s) => Ok(s)
    case NonString => Err(Other("could not parse user ID"))
  }

  /** What the middleware leaves in the context for the handler. */
  function ContextAfter(o: Middleware.Outcome): (v: CtxValue)
    ensures v != NonString
    ensures v.StringValue? <==> o.Outcome? && o.userID.Some?
    ensures v.StringValue? ==> v.s == o.userID.value
  {
    if o.Outcome? && o.userID.Some? then StringValue(o.userID.value) else Unset
  }

  const InternalError := Response(StatusInternalServerError, ErrorJson("internal error"))

  const UserNotFoundResponse := Response(StatusNotFound, ErrorJson("user not found"))

  /** `getBasket`: 500 when the user id cannot be read, otherwise the store's
      answer: `ErrUserNotFound` is 404, any other error 500, a basket 200. */
  function GetBasketReply(uid: Result<string, Error>, fetch: UserID -> Result<seq<CartProduct>, Error>): (r: Response)
    ensures uid.Err? ==> r == Response(StatusInternalServerError, ErrorJson(Text(uid.error)))
    ensures uid.Ok? && fetch(uid.value) == Err(UserNotFound) ==> r == UserNotFoundResponse
    ensures uid.Ok? && fetch(uid.value).Err? && fetch(uid.value).error != UserNotFound ==> r == InternalError
    ensures uid.Ok? && fetch(uid.value).Ok? ==> r == Response(StatusOK, BasketJson(fetch(uid.value).value))
    ensures r.status in {StatusOK, StatusNotFound, StatusInternalServerError}
  {
    match uid
    case Err(e) => Response(StatusInternalServerError, ErrorJson(Text(e)))
    case Ok(u) =>
      match fetch(u)
      case Err(e) => if e == UserNotFound then UserNotFoundResponse else InternalError
      case Ok(basket) => Response(StatusOK, BasketJson(basket))
  }

  /** The arguments `addProductToBasket` hands to the store. */
  datatype AddRequest = AddRequest(userID: UserID, pid: GoInt, units: GoInt)

  /** The response and the store call made, if any. */
  datatype AddReply = AddReply(response: Response, call: Option<AddRequest>)

  /** `addProductToBasket`: a user id that cannot be read, or a `pid` or
      `units` that `strconv.Atoi` rejects, is a 500 carrying the error's text,
      and the store is not called; otherwise the store is called with exactly
      the parsed numbers (no sign or range check) and its error is 404 for
      `ErrUserNotFound` and 500 otherwise, while success is 201 with no body. */
  function AddProductReply(
    uid: Result<string, Error>, pid: Result<GoInt, Error>, units: Result<GoInt, Error>,
    add: AddRequest -> Option<Error>
  ): (r: AddReply)
    ensures r.call.Some? <==> uid.Ok? && pid.Ok? && units.Ok?
    ensures r.call.Some? ==> r.call.value == AddRequest(uid.value, pid.value, units.value)
    ensures r.call.None? ==> r.response.status == StatusInternalServerError
    ensures uid.Err? ==> r.response == Response(StatusInternalServerError, ErrorJson(Text(uid.error)))
    ensures uid.Ok? && pid.Err? ==> r.response == Response(StatusInternalServerError, ErrorJson(Text(pid.error)))
    ensures uid.Ok? && pid.Ok? && units.Err? ==>
      r.response == Response(StatusInternalServerError, ErrorJson(Text(units.error)))
    ensures r.call.Some? ==>
      r.response == match add(r.call.value)
        case None => Response(StatusCreated, NoBody)
        case Some(e) => if e == UserNotFound then UserNotFoundResponse else InternalError
    ensures r.response.status == StatusCreated <==> r.call.Some? && add(r.call.value).None?
  {
    if uid.Err? then AddReply(Response(StatusInternalServerError, ErrorJson(Text(uid.error))), None)
    else if pid.Err? then AddReply(Response(StatusInternalServerError, ErrorJson(Text(pid.error))), None)
    else if units.Err? then AddReply(Response(StatusInternalServerError, ErrorJson(Text(units.error))), None)
    else
      var req := AddRequest(uid.value, pid.value, units.value);
      match add(req)
      case Some(e) =>
        if e == UserNotFound then AddReply(UserNotFoundResponse, Some(req))
        else AddReply(InternalError, Some(req))
      case None => AddReply(Response(StatusCreated, NoBody), Some(req))
  }

  /** The answer `AddItemToCart` gives, whatever the state and the request. */
  function StubAdd(req: AddRequest): (r: Option<Error>)
    ensures r.Some? && r.value != UserNotFound
  {
    Some(NotImplemented)
  }

  /** With the store as written, every POST whose `pid` and `units` parse
      ends in 500: the stub's error is not `ErrUserNotFound`. */
  lemma ParsedPostEndsInInternalError(uid: Result<string, Error>, pid: GoInt, units: GoInt)
    ensures AddProductReply(uid, Ok(pid), Ok(units), StubAdd).response.status == StatusInternalServerError
  {
  }

  /** The handler object: it holds the store it calls. */
  class Handler {
    const service: InmemService

    constructor (service: InmemService)
      ensures this.service == service
    {
      this.service := service;
    }

    /** `getBasket` against the store: the reply the store's current map
        determines, which is 404 for every user of a store that holds no basket. */
    method GetBasket(userID: CtxValue) returns (resp: Response)
      ensures var cart := service.cart;
        resp == GetBasketReply(GetUserID(userID), u => Lookup(cart, u))
      ensures userID != NonString && service.Empty() ==> resp == UserNotFoundResponse
    {
      var uid := GetUserID(userID);
      if uid.Err? {
        resp := Response(StatusInternalServerError, ErrorJson(Text(uid.error)));
        return;
      }
      var basket := service.GetCartProducts(uid.value);
      if basket.Err? {
        if basket.error == UserNotFound {
          resp := UserNotFoundResponse;
        } else {
          resp := InternalError;
        }
        return;
      }
      resp := Response(StatusOK, BasketJson(basket.value));
    }

    /** `addProductToBasket` against the store: the parse failures give 500
        with their text, and every request that parses ends in 500 too,
        because `AddItemToCart` always fails with an error other than
        `ErrUserNotFound`. */
    method AddProductToBasket(userID: CtxValue, pid: Result<GoInt, Error>, units: Result<GoInt, Error>)
      returns (resp: Response)
      ensures resp == AddProductReply(GetUserID(userID), pid, units, StubAdd).response
      ensures resp.status == StatusInternalServerError
    {
      var uid := GetUserID(userID);
      if uid.Err? {
        resp := Response(StatusInternalServerError, ErrorJson(Text(uid.error)));
        return;
      }
      if pid.Err? {
        resp := Response(StatusInternalServerError, ErrorJson(Text(pid.error)));
        return;
      }
      if units.Err? {
        resp := Response(StatusInternalServerError, ErrorJson(Text(units.error)));
        return;
      }
      var err := service.AddItemToCart(uid.value, pid.value, units.value);
      if err.Some? {
        if err.value == UserNotFound {
          resp := UserNotFoundResponse;
        } else {
          resp := InternalError;
        }
        return;
      }
      resp := Response(StatusCreated, NoBody);
    }
  }

  /** A request the gate lets through reaches the handlers with the claims'
      user id as a string; with the store as built (no basket at all) a GET
      then ends in 404 and a POST whose numbers parse in 500. */
  lemma AuthorizedRequestOnFreshStore(
    header: string, httpMethod: string, path: string,
    auth: Middleware.Resource -> Middleware.AccessReply,
    unmarshal: seq<Base64Url.byte> -> Option<Middleware.JwtClaims>,
    cart: map<UserID, seq<CartProduct>>, pid: GoInt, units: GoInt)
    requires Middleware.Authorized(header, httpMethod, path, auth, unmarshal)
    requires cart == map[]
    ensures var o := Middleware.HasAccess(header, httpMethod, path, auth, unmarshal);
      o.Outcome? && o.next && ContextAfter(o) == StringValue(o.userID.value)
      && GetBasketReply(GetUserID(ContextAfter(o)), u => Lookup(cart, u)) == UserNotFoundResponse
      && AddProductReply(GetUserID(ContextAfter(o)), Ok(pid), Ok(units), StubAdd).response == InternalError
  {
  }
}
