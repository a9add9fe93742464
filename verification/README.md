# Order service: authorization gate, cart store and basket handlers

A Dafny model of the core of the order service, a small Go (gin) HTTP service
that keeps user baskets in memory and delegates authentication to a remote
service over gRPC.

- `Middleware` (middleware.dfy) models the `hasAccess` gate: `extractToken`,
  the method map and its lookup, `extractClaims`, and the early-exit ladder
  of `hasAccess` as a pure function to an `Outcome` record (the response
  written, whether the gin chain was aborted, the `userID` stored in the
  context, whether `c.Next` ran, and the resource the authentication service
  was asked about) or a `Panic` (index out of range, nil claims).
- `Strings` (strings.dfy) and `Base64Url` (base64url.dfy) model the two
  library calls `extractClaims` depends on: `strings.Split` and
  `base64.RawURLEncoding.DecodeString` (section 5 of RFC 4648, no padding,
  Go's non-strict decoder that skips CR/LF).  Each has its inverse (`Join`,
  `Encode`) and round-trip lemmas.
- `Service` (service.dfy) models `inmemService` as a class whose `cart` map
  is the store; `GetCartProducts` reads it, `AddItemToCart` and `ModifyCart`
  are the source's stubs that always fail and change nothing.
- `Handlers` (handlers.dfy) models `GetUserID` and the status mapping of
  `getBasket` and `addProductToBasket`, both as pure reply functions over any
  store answer and as `Handler` methods run against the actual store.
- `Errors`, `Http`, `Wrappers` hold the Go error values, the response shape
  and Option/Result.

Behaviour pinned down exactly as the code has it:

- The token keeps a leading space: `TrimPrefix(header, "Bearer")` strips six
  characters after the check for the seven of `"Bearer "`.
- A token without `.` makes `parts[1]` index out of range: a `Panic` outcome.
- The `json.Unmarshal` error is discarded; invalid JSON (or `null`) leaves
  the claims pointer nil, and `claims.UserID` at line 102 then panics.
- Rejections at middleware.go:61-69 and 97-100 write a response without
  aborting; those at 84, 86 and 91 abort.
- The 500 branch after `extractToken` is unreachable.
- `AddItemToCart` and `ModifyCart` are stubs that return "not implemented":
  the store never gains a basket, and no unit merging, line removal or
  product-catalog lookup takes place.
- `extractClaims` accepts malformed JSON: it never reports an unmarshal
  error.
- A nil claims pointer panics at line 102 instead of writing the `internal error` JSON; what gin's recovery makes of the panic is left out.

## Model

| member | source | states |
|---|---|---|
| Middleware.ExtractToken | order-service/middleware.go:121-128 | fails with ErrJWTIsMissing exactly when the header does not start with "Bearer " (empty header included); on success the token is header[6..], "Bearer" + token is the header, and the token starts with a space |
| Middleware.InitMethodMap | order-service/middleware.go:33-46 | the map holds the nine method names, each mapped to the method of that name, and never to INVALID |
| Middleware.MethodFor | order-service/middleware.go:71-74 | the lookup gives a real method exactly for the nine listed names, and then the method of that name; every other string gives INVALID |
| Middleware.MethodForName | order-service/middleware.go:33-46 | each of the nine methods is found under its own name |
| Middleware.LowercaseMethodIsInvalid | order-service/middleware.go:71-74 | the lookup is case-sensitive: "get" gives INVALID |
| Middleware.PayloadSegment | order-service/middleware.go:111-112 | parts[1] of strings.Split is the text between the first '.' and the next '.' (or the end of the token) |
| Middleware.SecondSegmentUnique | order-service/middleware.go:111-112 | only one text sits between the first '.' and the next '.' (or the end), so the segment decoded is fully determined by the token |
| Middleware.ExtractClaims | order-service/middleware.go:110-119 | panics exactly when the token has no '.'; fails exactly when the second segment is not decodable base64url; otherwise returns whatever json.Unmarshal made of the decoded bytes, with no error |
| Middleware.UnmarshalErrorsDiscarded | order-service/middleware.go:116-118 | whether extractClaims succeeds does not depend on the JSON unmarshal at all |
| Middleware.HasAccess | order-service/middleware.go:56-104 | the authentication service is asked exactly when the header has the Bearer prefix, about (looked-up method, path, header[6..]); userID is set exactly when Next runs, and that happens exactly when the request is Authorized (token, allow verdict, decodable payload, filled claims), with claims.UserID as the value; every abort follows a remote call, with 401 exactly for a failed call and 405 exactly for a denial; a 500 is never an abort and only follows an allow verdict |
| Middleware.ClaimsErrorWritesInternalError | order-service/middleware.go:94-101 | after an allow verdict, a payload segment that does not decode gives 500 "internal error" written without an abort, with no userID and no Next |
| Middleware.Write | order-service/middleware.go:61-69 | `c.JSON` followed by `return` (also at 97-100): the error response is written, the chain is not aborted, no userID is stored and Next is not called |
| Middleware.Abort | order-service/middleware.go:84-91 | `AbortWithStatusJSON` followed by `return` (at 84, 86 and 91): the error response is written and the chain aborted, with no userID and no Next |
| Middleware.MissingTokenWritesUnauthorized | order-service/middleware.go:57-65 | without a Bearer header the outcome is 401 "jwt is missing", not aborted, no userID, no Next, and no remote call |
| Middleware.AccessErrorAbortsUnauthorized | order-service/middleware.go:81-88 | any error of the access call aborts with 401, with no userID and no Next; the message is "API token required" exactly for ErrJWTIsMissing and "Invalid token" for every other error |
| Middleware.DenialAbortsMethodNotAllowed | order-service/middleware.go:90-93 | a denial aborts with 405 "method not allowed", with no userID and no Next |
| Middleware.NonAbortingRejections | order-service/middleware.go:57-70 | a response written without abort is either the 401 of a missing token (no remote call) or the 500 of undecodable claims after an allow verdict; the 500 after extractToken never happens |
| Middleware.AllowedButPanics | order-service/middleware.go:94-103 | after an allow verdict, a token without '.' panics at the split index and a nil claims pointer panics at claims.UserID |
| Strings.Split | order-service/middleware.go:111 | strings.Split gives at least one piece and no piece contains the separator |
| Strings.JoinSplit | order-service/middleware.go:111 | joining the pieces with the separator gives the input back |
| Strings.SplitJoin | order-service/middleware.go:111 | splitting the join of separator-free pieces gives the pieces back |
| Strings.SplitHasSecondPiece | order-service/middleware.go:111-112 | there is a second piece exactly when the separator occurs |
| Strings.HasPrefix | order-service/middleware.go:123 | `strings.HasPrefix`: true exactly when the string is the prefix followed by something |
| Strings.TrimPrefix | order-service/middleware.go:126 | with the prefix present the result is what follows it; otherwise the input unchanged |
| Base64Url.Decode | order-service/middleware.go:112 | `base64.RawURLEncoding.DecodeString`: succeeds exactly when the newline-free input is all alphabet characters and its length is not 1 modulo 4, and then gives length*3/4 bytes |
| Base64Url.StripNewlines | order-service/middleware.go:112 | the decoder's skipping of CR and LF: the result holds exactly the input's characters other than CR and LF, and is never longer |
| Base64Url.StripNewlinesAppend | order-service/middleware.go:112 | removing CR and LF works piecewise over a concatenation, so the other characters keep their order |
| Base64Url.StripNewlinesAlphabet | order-service/middleware.go:112 | a string of alphabet characters passes through the newline removal unchanged |
| Base64Url.NewlineIgnored | order-service/middleware.go:112 | inserting a CR or LF anywhere in the input leaves the decoding result (bytes or failure) unchanged |
| Base64Url.TrailingBitsIgnored | order-service/middleware.go:112 | decoding is not strict: a final two-character group decodes, and alike for second characters that differ only in their low four bits |
| Base64Url.DecodeGroups | order-service/middleware.go:112 | a successful decoding of n alphabet characters has n*3/4 bytes |
| Base64Url.DecodeGroup | order-service/middleware.go:112 | a group decodes exactly when it has at least two characters, all in the alphabet, and gives one byte fewer than its characters |
| Base64Url.DecodeEncode | order-service/middleware.go:112 | decoding the encoding of any bytes gives those bytes |
| Base64Url.DecodeSucceedsIff | order-service/middleware.go:112 | decoding succeeds exactly when every non-newline character is in the RFC 4648 section 5 alphabet and the newline-free length is not 1 modulo 4 |
| Base64Url.AlphabetBijection | order-service/middleware.go:112 | alphabet characters and 6-bit values correspond one to one |
| Errors.Text | order-service/handlers.go:20-21 | `err.Error()`: a sentinel's text is non-empty, and an error made on the spot carries its own message; the handlers' 500 bodies at handlers.go:28, 55, 62 and 69 are this text (stated by GetBasketReply and AddProductReply) |
| Service.Lookup | order-service/service.go:54-58 | ErrUserNotFound exactly when the user is not a key of the map; otherwise the stored list itself |
| Service.InmemService.constructor | order-service/service.go:25-35 | a new service has an empty cart map |
| Service.InmemService.GetCartProducts | order-service/service.go:50-59 | returns ErrUserNotFound exactly for a user without a key, otherwise the stored list unchanged (same lines, same order); it changes nothing; on the empty store it always answers ErrUserNotFound |
| Service.InmemService.AddItemToCart | order-service/service.go:61-64 | always returns an error, which is not ErrUserNotFound, for every user, pid and unit count, and changes nothing |
| Service.InmemService.ModifyCart | order-service/service.go:66-69 | always returns an error, which is not ErrUserNotFound, and changes nothing |
| Service.FreshServiceKnowsNoUser | order-service/service.go:34 | after construction and any add and modify attempts, every lookup answers ErrUserNotFound: the cart stays empty |
| Handlers.GetUserID | order-service/handlers.go:96-107 | no value gives ("", nil); a string is returned unchanged with no error; an error comes exactly from a non-string value |
| Handlers.ContextAfter | order-service/handlers.go:97 | what `c.Value("userID")` sees after the gate: the string stored by `c.Set` at middleware.go:102 when the gate set one, otherwise no value, never a non-string |
| Handlers.StubAdd | order-service/service.go:61-64 | the answer of `AddItemToCart` to every request: an error, and never ErrUserNotFound |
| Handlers.GetBasketReply | order-service/handlers.go:24-49 | 500 with the error text when the user id cannot be read; ErrUserNotFound is 404, any other store error 500, a basket 200 with that basket |
| Handlers.AddProductReply | order-service/handlers.go:51-89 | the store is called exactly when user id, pid and units all parse, with exactly those values; otherwise 500 with the `err.Error()` text of the first step that fails, in the order user id, pid, units; the store's ErrUserNotFound is 404, another error 500, success 201, and 201 happens exactly when the store call succeeds |
| Handlers.ParsedPostEndsInInternalError | order-service/handlers.go:74-86 | with the stub store every POST whose pid and units parse ends in 500 |
| Handlers.Handler.constructor | order-service/handlers.go:15-17 | `NewHandler`: the handler holds exactly the store it was given |
| Handlers.Handler.GetBasket | order-service/handlers.go:24-49 | the handler's response is the reply for the store's current map, and 404 for every readable user id when the store is empty |
| Handlers.Handler.AddProductToBasket | order-service/handlers.go:51-89 | the handler's response is the reply with the stub store, and always 500 |
| Handlers.AuthorizedRequestOnFreshStore | order-service/handlers.go:96-106 | a request the gate lets through reaches the handlers with the claims' user id; on the store as built a GET ends in 404 and a POST with parsed numbers in 500 |

## Left out

- gRPC dialing and client construction (`NewAuthMiddleware`, the dial in `NewInmemservice`): network I/O; the constructor keeps only what it sets in the store.
- The remote `HasAccess` call is a function parameter from the requested resource to a reply (error, allowed, denied); the authentication service is not part of this model.
- `json.Unmarshal` is a function parameter from the decoded bytes to the claims pointer (nil or filled); JSON parsing is not modelled.
- `strconv.Atoi` is not modelled: the handlers take its results (a 64-bit int or an error) as inputs.
- The `sync.RWMutex` locking: concurrency; each store operation is one atomic method.
- gin itself: context storage, JSON writing and `Abort`/`Next` chaining are fields of the outcome record, not modelled behaviour. A panic ends the model at the `Panic` outcome; the recovery middleware installed by `gin.Default` and the response it writes are not modelled.
- `Header.Get("Authorization")` is the header string given to the gate (empty when absent).
- `modifyBasket` (handlers.go:91-94): it panics with "not implemented"; no behaviour to model.
- The product-catalog client held by the store: no operation uses it.
- Request-context cancellation and deadlines: only passed through to the remote calls.
- Logging (`log.Println`, `log.Printf`).
- order-service/main.go: flag parsing and route wiring only.
- Go strings are bytes; the model works on characters.  Splitting on '.' and decoding agree either way, because '.' never occurs inside a multi-byte character and such characters are outside the base64 alphabet.
