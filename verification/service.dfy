/** The in-memory cart store (`inmemService`, order-service/service.go).

    The store is one object whose `cart` map is the service's database.  The
    source reads it under a read lock and would write it under the write lock;
    each operation here is one atomic method.  The two mutating operations
    are stubs in the source that return an error without touching the map, so
    they carry no `modifies` clause: the map is unchanged by construction. */
module Service {
  import opened Wrappers
  import opened Errors

  /** Go's `int` on a 64-bit platform. */
  type GoInt = x: int | -0x8000_0000_0000_0000 <= x < 0x8000_0000_0000_0000

  type UserID = string

  /** One line of a basket as the source stores and serialises it. */
  datatype CartProduct = CartProduct(id: GoInt, title: string, units: GoInt)

  /** What `GetCartProducts` answers for a given state of the map. */
  function Lookup(cart: map<UserID, seq<CartProduct>>, userID: UserID): (r: Result<seq<CartProduct>, Error>)
    ensures r.Err? <==> userID !in cart
    ensures r.Err? ==> r.error == UserNotFound
    ensures r.Ok? ==> r.value == cart[userID]
  {
    if userID in cart then Ok(cart[userID]) else Err(UserNotFound)
  }

  /** The error both stubs return: a fresh `errors.New`, so it is never
      `ErrUserNotFound` (nor any other sentinel). */
  const NotImplemented: Error := Other("not implemented")

  class InmemService {
    /** The database: each user's basket lines, in the stored order. */
    var cart: map<UserID, seq<CartProduct>>

    /** The store holds no basket at all: the state `NewInmemservice` builds,
        and the only state the operations below ever leave behind. */
    ghost predicate Empty()
      reads this
    {
      cart == map[]
    }

    /** `NewInmemservice`: only the product client is set, so `cart` is Go's
        nil map, which reads like an empty one. */
    constructor ()
      ensures Empty()
    {
      cart := map[];
    }

    /** Returns the stored list of `userID` unchanged, or `ErrUserNotFound`
        when the map has no key `userID`. */
    method GetCartProducts(userID: UserID) returns (r: Result<seq<CartProduct>, Error>)
      ensures r == Lookup(cart, userID)
      ensures r.Err? <==> userID !in cart
      ensures r.Err? ==> r.error == UserNotFound
      ensures r.Ok? ==> r.value == cart[userID]
      ensures Empty() ==> r == Err(UserNotFound)
    {
      if userID in cart {
        r := Ok(cart[userID]);
      } else {
        r := Err(UserNotFound);
      }
    }

    /** A stub: fails for every user, product and unit count and adds nothing. */
    method AddItemToCart(userID: UserID, pid: GoInt, numberOfUnits: GoInt) returns (err: Option<Error>)
      ensures err == Some(NotImplemented)
      ensures err.Some? && err.value != UserNotFound
    {
      err := Some(NotImplemented);
    }

    /** A stub: fails for every user, product and offset and changes nothing. */
    method ModifyCart(userID: UserID, pid: GoInt, offset: GoInt) returns (err: Option<Error>)
      ensures err == Some(NotImplemented)
      ensures err.Some? && err.value != UserNotFound
    {
      err := Some(NotImplemented);
    }
  }

  /** A freshly built service answers `ErrUserNotFound` for every user, whatever
      additions and modifications were attempted before: no operation adds a key. */
  method FreshServiceKnowsNoUser(userID: UserID, pid: GoInt, units: GoInt, offset: GoInt)
    returns (added: Option<Error>, modified: Option<Error>, r: Result<seq<CartProduct>, Error>)
    ensures added.Some? && modified.Some?
    ensures r == Err(UserNotFound)
  {
    var s := new InmemService();
    added := s.AddItemToCart(userID, pid, units);
    modified := s.ModifyCart(userID, pid, offset);
    r := s.GetCartProducts(userID);
  }
}
