/** What a gin handler writes back: a status code and a body.  Every JSON
    error body in the order service is `{"error": <msg>}`. */
module Http {
  import opened Service

  const StatusOK := 200
  const StatusCreated := 201
  const StatusNotFound := 404
  const StatusUnauthorized := 401
  const StatusMethodNotAllowed := 405
  const StatusInternalServerError := 500

  datatype Body =
    | ErrorJson(error: string)             // gin.H{"error": ...}
    | BasketJson(lines: seq<CartProduct>)  // the basket as a JSON array
    | NoBody                               // c.Writer.WriteHeader only

  datatype Response = Response(status: int, body: Body)
}
