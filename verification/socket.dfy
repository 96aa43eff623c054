/**
 * The room-join policy of the socket server. A connection that sends `msg:join` with a correct
 * token joins the privileges room at once, and the moderator room later, once the token's user
 * has been looked up and turns out to be a moderator; any other connection joins the guest room.
 * Token checking and user lookup belong to the authentication service and are parameters here.
 */
module Socket {
  import opened Js

  const Guests := "room:guests"
  const Privileges := "room:privileges"
  const Moderator := "room:moderator"

  /** A connected socket: the rooms it has joined and the user lookups it still waits on. */
  class Connection {
    var rooms: set<string>
    /** Tokens whose user lookup has started and not yet settled, in the order they started. */
    var pending: seq<JsValue>

    /**
     * Only a connection in the privileges room waits on user lookups, and only one in the
     * privileges room is in the moderator room.
     */
    ghost predicate Valid()
      reads this
    {
      (Moderator in rooms ==> Privileges in rooms) && (pending != [] ==> Privileges in rooms)
    }

    /** A fresh connection, in no room of the application's. */
    constructor ()
      ensures rooms == {} && pending == [] && Valid()
    {
      rooms := {};
      pending := [];
    }

    /** `socket.join(room)`. */
    method Join(room: string)
      modifies this
      ensures rooms == old(rooms) + {room} && pending == old(pending)
    {
      rooms := rooms + {room};
    }
  }

  /**
   * `data.token` of a message: reading a property of `undefined` or `null` throws (`None`), an
   * object gives its `token` member or `undefined`, and any other value gives `undefined`.
   */
  function TokenOf(data: JsValue): (r: Option<JsValue>)
    ensures r == None <==> IsNullish(data)
    ensures data.Value? && data.v.JObj? && HasKey(data.v.members, "token") ==>
              r == Some(Value(Lookup(data.v.members, "token").value))
  {
    match data
    case Undefined => None
    case Value(v) =>
      match v
      case JNull => None
      case JObj(members) =>
        (match Lookup(members, "token")
         case None => Some(Undefined)
         case Some(t) => Some(Value(t)))
      case _ => Some(Undefined)
  }

  /** The token admits the connection: it is truthy and the authentication service accepts it. */
  predicate Admitted(token: JsValue, isJsonWebTokenCorrect: JsValue -> bool)
  {
    Truthy(token) && isJsonWebTokenCorrect(token)
  }

  /**
   * `joinFn(data, socket)`, its synchronous part: an admitted token starts the lookup of its user
   * and joins the privileges room; any other token joins the guest room. A message without
   * properties makes the handler throw before it joins anything.
   */
  method JoinFn(data: JsValue, socket: Connection, isJsonWebTokenCorrect: JsValue -> bool)
    requires socket.Valid()
    modifies socket
    ensures socket.Valid()
    ensures TokenOf(data) == None ==> socket.rooms == old(socket.rooms) && socket.pending == old(socket.pending)
    ensures TokenOf(data).Some? && Admitted(TokenOf(data).value, isJsonWebTokenCorrect) ==>
              socket.rooms == old(socket.rooms) + {Privileges} &&
              socket.pending == old(socket.pending) + [TokenOf(data).value]
    ensures TokenOf(data).Some? && !Admitted(TokenOf(data).value, isJsonWebTokenCorrect) ==>
              socket.rooms == old(socket.rooms) + {Guests} && socket.pending == old(socket.pending)
  {
    var token := TokenOf(data);
    if token == None {
      return;
    }
    if Truthy(token.value) && isJsonWebTokenCorrect(token.value) {
      socket.pending := socket.pending + [token.value];
      socket.Join(Privileges);
    } else {
      socket.Join(Guests);
    }
  }

  /**
   * The `.then` callback of a user lookup started by `JoinFn`: the lookup settles, and a user whose
   * privileges include "moderator" joins the moderator room.
   */
  method OnUserResolved(socket: Connection, i: nat, user: User)
    requires socket.Valid() && i < |socket.pending|
    modifies socket
    ensures socket.Valid()
    ensures socket.pending == old(socket.pending[..i] + socket.pending[i + 1..])
    ensures "moderator" in user.privileges ==> socket.rooms == old(socket.rooms) + {Moderator}
    ensures "moderator" !in user.privileges ==> socket.rooms == old(socket.rooms)
  {
    socket.pending := socket.pending[..i] + socket.pending[i + 1..];
    if "moderator" in user.privileges {
      socket.Join(Moderator);
    }
  }

  /** `appStatusFn(data)`: only logs the message; no room and no lookup changes. */
  method AppStatusFn(data: JsValue, socket: Connection)
    ensures socket.rooms == old(socket.rooms) && socket.pending == old(socket.pending)
  {
  }

  /**
   * The rooms a fresh connection ends up in after one `msg:join` with a token, once the lookup of
   * its user (if one was started) has resolved with the given privileges.
   */
  function JoinRooms(token: JsValue, isJsonWebTokenCorrect: JsValue -> bool, privileges: seq<string>): (r: set<string>)
    ensures Guests in r <==> !Admitted(token, isJsonWebTokenCorrect)
    ensures Privileges in r <==> Admitted(token, isJsonWebTokenCorrect)
    ensures Moderator in r <==> Admitted(token, isJsonWebTokenCorrect) && "moderator" in privileges
    ensures Moderator in r ==> Privileges in r
    ensures r <= {Guests, Privileges, Moderator}
    ensures !Truthy(token) ==> r == {Guests}
  {
    if !Admitted(token, isJsonWebTokenCorrect) then {Guests}
    else if "moderator" in privileges then {Privileges, Moderator}
    else {Privileges}
  }

  /**
   * A fresh connection that sends `msg:join` with a message carrying properties, followed by the
   * resolution of the user lookup the join started, if any: it ends up in exactly the rooms of
   * `JoinRooms` for the message's token.
   */
  method JoinThenResolve(data: JsValue, isJsonWebTokenCorrect: JsValue -> bool, user: User)
    returns (socket: Connection)
    requires !IsNullish(data)
    ensures socket.Valid() && socket.pending == []
    ensures socket.rooms == JoinRooms(TokenOf(data).value, isJsonWebTokenCorrect, user.privileges)
  {
    socket := new Connection();
    JoinFn(data, socket, isJsonWebTokenCorrect);
    if socket.pending != [] {
      OnUserResolved(socket, 0, user);
    }
  }
}
