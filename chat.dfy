/**
 * The realtime coordinator of server/sockets/chat.js: the handshake middleware, the two
 * registries `connectedUsers` (socket id -> session) and `userToSocket` (user id -> socket id),
 * and the per-socket handlers. The transport is a sequence of inbound events; every emit
 * appends a (recipients, event) pair to an outbox.
 */
module Chat {
  import opened Wrappers
  import opened Text
  import opened Js
  import Store
  import AuthRoutes

  type SocketId = nat

  /** What the handshake attaches to a socket: `socket.userId` and `socket.username`. */
  datatype Identity = Identity(userId: Store.UserId, username: string)

  /** A `connectedUsers` record; `joinedAt` is the connection time. */
  datatype Session = Session(username: string, userId: Store.UserId, socketId: SocketId, joinedAt: int)

  /** The events the server emits. Join and leave notices carry `type: 'notification'`. */
  datatype ServerEvent =
    | UserJoined(username: string, message: string, timestamp: int)
    | UserLeft(username: string, message: string, timestamp: int)
    | UsersList(names: set<string>)
    | MessageHistory(messages: seq<Store.ChatMessage>)
    | NewMessage(data: Store.ChatMessage)
    | ErrorEvent(message: string)
    | UserTyping(username: string, isTyping: bool)
    | MessageDeleted(id: Store.MsgId)
    | ConnectError(message: string)

  /** One emit: the sockets it reaches and what they receive. */
  datatype Delivery = Delivery(recipients: set<SocketId>, event: ServerEvent)

  const MissingAuthToken := "Token d'authentification manquant"
  const TooLongMessage := "Message trop long (max 500 caractères)"
  const SendFailed := "Erreur lors de l'envoi du message"
  const MaxMessageLength := 500
  const HistorySize := 50

  // ---------------------------------------------------------------------------------------
  // Handshake

  /**
   * The `io.use` middleware: a falsy token is missing; a token `verifyToken` rejects (a
   * non-string one included, since `jwt.verify` throws on it) is invalid; a token naming no
   * stored user is refused; otherwise the socket takes the stored user's id and username.
   */
  function Handshake(token: Value, jwtVerify: string -> AuthRoutes.JwtOutcome, users: seq<Store.User>)
    : (r: Result<Identity, string>)
    ensures !Truthy(token) ==> r == Err(MissingAuthToken)
    ensures Truthy(token) && (!token.Str? || AuthRoutes.VerifyToken(jwtVerify, token.s).None?) ==>
      r == Err(AuthRoutes.InvalidToken)
    ensures (token.Str? && token.s != "" && AuthRoutes.VerifyToken(jwtVerify, token.s).Some? &&
             Store.FindUser(users, AuthRoutes.VerifyToken(jwtVerify, token.s).value.username).None?) ==>
      r == Err(AuthRoutes.UnknownUser)
    ensures r.Ok? <==>
      token.Str? && token.s != "" && AuthRoutes.VerifyToken(jwtVerify, token.s).Some? &&
      Store.FindUser(users, AuthRoutes.VerifyToken(jwtVerify, token.s).value.username).Some?
    ensures r.Ok? ==>
      var user := Store.FindUser(users, AuthRoutes.VerifyToken(jwtVerify, token.s).value.username).value;
      r.value == Identity(user.id, user.username) && (user.id, user.username) in Store.UserKeys(users)
  {
    if !Truthy(token) then Err(MissingAuthToken)
    else if !token.Str? then Err(AuthRoutes.InvalidToken)
    else match AuthRoutes.VerifyToken(jwtVerify, token.s)
      case None => Err(AuthRoutes.InvalidToken)
      case Some(claims) =>
        match Store.FindUser(users, claims.username)
        case None => Err(AuthRoutes.UnknownUser)
        case Some(user) =>
          var i :| 0 <= i < |users| && users[i] == user;
          assert (user.id, user.username) == (users[i].id, users[i].username);
          Ok(Identity(user.id, user.username))
  }

  // ---------------------------------------------------------------------------------------
  // The registry as a value

  datatype Registry = Registry(connectedUsers: map<SocketId, Session>, userToSocket: map<Store.UserId, SocketId>)

  /**
   * The two maps are in step: each session is keyed by its own socket and is the one its user
   * maps to, and each user maps to a session of that user.
   */
  predicate RegistryOk(r: Registry) {
    && (forall s :: s in r.connectedUsers ==>
          r.connectedUsers[s].socketId == s &&
          r.connectedUsers[s].userId in r.userToSocket &&
          r.userToSocket[r.connectedUsers[s].userId] == s)
    && (forall u :: u in r.userToSocket ==>
          r.userToSocket[u] in r.connectedUsers && r.connectedUsers[r.userToSocket[u]].userId == u)
  }

  /** The socket a new connection of user `u` on socket `s` replaces, if any. */
  function Evicted(userToSocket: map<Store.UserId, SocketId>, u: Store.UserId, s: SocketId): Option<SocketId> {
    if u in userToSocket && userToSocket[u] != s then Some(userToSocket[u]) else None
  }

  /**
   * The sockets an eviction closes: the replaced socket, when the transport still holds it and
   * closing it does not throw.
   */
  function ClosedByEviction(evicted: Option<SocketId>, open: set<SocketId>, closeThrows: bool): set<SocketId> {
    if evicted.Some? && evicted.value in open && !closeThrows then {evicted.value} else {}
  }

  /** The registry after the `connection` handler: drop the replaced session, then record the new one. */
  function Connected(r: Registry, sess: Session): Registry {
    var cu := match Evicted(r.userToSocket, sess.userId, sess.socketId)
      case Some(previous) => r.connectedUsers - {previous}
      case None => r.connectedUsers;
    Registry(cu[sess.socketId := sess], r.userToSocket[sess.userId := sess.socketId])
  }

  /** The registry after the `disconnect` handler of socket `s`, opened for user `u`. */
  function Disconnected(r: Registry, s: SocketId, u: Store.UserId): Registry {
    Registry(r.connectedUsers - {s},
             if u in r.userToSocket && r.userToSocket[u] == s then r.userToSocket - {u} else r.userToSocket)
  }

  /** Under the invariant no user holds two sessions. */
  lemma OneSocketPerUser(r: Registry, s1: SocketId, s2: SocketId)
    requires RegistryOk(r)
    requires s1 in r.connectedUsers && s2 in r.connectedUsers
    ensures r.connectedUsers[s1].userId == r.connectedUsers[s2].userId <==> s1 == s2
  {
  }

  lemma ConnectPreservesRegistry(r: Registry, sess: Session)
    requires RegistryOk(r)
    requires sess.socketId !in r.connectedUsers
    ensures RegistryOk(Connected(r, sess))
  {
    var r' := Connected(r, sess);
    forall u | u in r'.userToSocket
      ensures r'.userToSocket[u] in r'.connectedUsers && r'.connectedUsers[r'.userToSocket[u]].userId == u
    {
      if u != sess.userId {
        assert r.userToSocket[u] != sess.socketId;
      }
    }
  }

  /**
   * A connection of user `u` on a new socket whose user already holds another socket drops the
   * old session and leaves `u` mapped to the new socket; other users keep their mapping.
   */
  lemma ConnectEvicts(r: Registry, sess: Session)
    requires RegistryOk(r)
    requires sess.socketId !in r.connectedUsers
    requires sess.userId in r.userToSocket
    ensures var previous := r.userToSocket[sess.userId];
      previous !in Connected(r, sess).connectedUsers &&
      Connected(r, sess).userToSocket[sess.userId] == sess.socketId &&
      Connected(r, sess).connectedUsers[sess.socketId] == sess
    ensures forall u :: u in r.userToSocket && u != sess.userId ==>
      u in Connected(r, sess).userToSocket && Connected(r, sess).userToSocket[u] == r.userToSocket[u]
  {
  }

  lemma DisconnectPreservesRegistry(r: Registry, s: SocketId, u: Store.UserId)
    requires RegistryOk(r)
    requires s in r.connectedUsers ==> r.connectedUsers[s].userId == u
    ensures RegistryOk(Disconnected(r, s, u))
  {
    var r' := Disconnected(r, s, u);
    forall x | x in r'.userToSocket
      ensures r'.userToSocket[x] in r'.connectedUsers && r'.connectedUsers[r'.userToSocket[x]].userId == x
    {
      assert r.userToSocket[x] in r.connectedUsers;
    }
  }

  /**
   * Disconnecting always removes the socket's session, and a socket that was superseded never
   * removes the mapping of the socket that replaced it.
   */
  lemma StaleDisconnectKeepsReplacement(r: Registry, s: SocketId, u: Store.UserId)
    requires RegistryOk(r)
    requires u in r.userToSocket && r.userToSocket[u] != s
    ensures s !in Disconnected(r, s, u).connectedUsers
    ensures Disconnected(r, s, u).userToSocket == r.userToSocket
    ensures var live := r.userToSocket[u];
      live in Disconnected(r, s, u).connectedUsers &&
      Disconnected(r, s, u).connectedUsers[live] == r.connectedUsers[live]
  {
  }

  /** Disconnecting a socket that appears in neither map changes neither. */
  lemma DisconnectAbsentUnchanged(r: Registry, s: SocketId, u: Store.UserId)
    requires s !in r.connectedUsers && s !in r.userToSocket.Values
    ensures Disconnected(r, s, u) == r
  {
    if u in r.userToSocket {
      assert r.userToSocket[u] in r.userToSocket.Values;
    }
    assert r.connectedUsers - {s} == r.connectedUsers;
  }

  /** `getUniqueUsernames`: the distinct usernames of the sessions. */
  function Usernames(cu: map<SocketId, Session>): set<string> {
    set s | s in cu :: cu[s].username
  }

  /** The distinct user ids of the sessions, which `getStats` counts. */
  function UserIds(cu: map<SocketId, Session>): set<Store.UserId> {
    set s | s in cu :: cu[s].userId
  }

  lemma {:induction false} DistinctUsernamesCount(cu: map<SocketId, Session>)
    requires forall s1, s2 :: s1 in cu && s2 in cu && s1 != s2 ==> cu[s1].username != cu[s2].username
    ensures |Usernames(cu)| == |cu|
    decreases |cu|
  {
    if cu != map[] {
      var s :| s in cu;
      var rest := cu - {s};
      assert |rest| == |cu| - 1 by {
        assert cu.Keys == rest.Keys + {s};
      }
      DistinctUsernamesCount(rest);
      UsernamesWithout(cu, s);
    }
  }

  lemma {:induction false} DistinctUserIdsCount(cu: map<SocketId, Session>)
    requires forall s1, s2 :: s1 in cu && s2 in cu && s1 != s2 ==> cu[s1].userId != cu[s2].userId
    ensures |UserIds(cu)| == |cu|
    decreases |cu|
  {
    if cu != map[] {
      var s :| s in cu;
      var rest := cu - {s};
      assert |rest| == |cu| - 1 by {
        assert cu.Keys == rest.Keys + {s};
      }
      DistinctUserIdsCount(rest);
      UserIdsWithout(cu, s);
    }
  }

  lemma UsernamesWithout(cu: map<SocketId, Session>, s: SocketId)
    requires s in cu
    requires forall t :: t in cu && t != s ==> cu[t].username != cu[s].username
    ensures Usernames(cu) == Usernames(cu - {s}) + {cu[s].username}
    ensures cu[s].username !in Usernames(cu - {s})
  {
    var rest := cu - {s};
    forall x | x in Usernames(cu) ensures x in Usernames(rest) + {cu[s].username} {
      var t :| t in cu && cu[t].username == x;
      if t != s {
        assert t in rest && rest[t].username == x;
      }
    }
    forall x | x in Usernames(rest) ensures x in Usernames(cu) && x != cu[s].username {
      var t :| t in rest && rest[t].username == x;
      assert t in cu && t != s;
    }
  }

  lemma UserIdsWithout(cu: map<SocketId, Session>, s: SocketId)
    requires s in cu
    requires forall t :: t in cu && t != s ==> cu[t].userId != cu[s].userId
    ensures UserIds(cu) == UserIds(cu - {s}) + {cu[s].userId}
    ensures cu[s].userId !in UserIds(cu - {s})
  {
    var rest := cu - {s};
    forall x | x in UserIds(cu) ensures x in UserIds(rest) + {cu[s].userId} {
      var t :| t in cu && cu[t].userId == x;
      if t != s {
        assert t in rest && rest[t].userId == x;
      }
    }
    forall x | x in UserIds(rest) ensures x in UserIds(cu) && x != cu[s].userId {
      var t :| t in rest && rest[t].userId == x;
      assert t in cu && t != s;
    }
  }

  /**
   * With the registry in step and every session naming a stored user, the list `getUsersList`
   * answers has exactly as many names as `getStats` counts connected users.
   */
  lemma UsersListMatchesStats(r: Registry, users: seq<Store.User>)
    requires RegistryOk(r)
    requires Store.UniqueUsers(users)
    requires forall s :: s in r.connectedUsers ==>
      (r.connectedUsers[s].userId, r.connectedUsers[s].username) in Store.UserKeys(users)
    ensures |Usernames(r.connectedUsers)| == |UserIds(r.connectedUsers)| == |r.connectedUsers|
  {
    var cu := r.connectedUsers;
    forall s1, s2 | s1 in cu && s2 in cu && s1 != s2 ensures cu[s1].username != cu[s2].username {
      OneSocketPerUser(r, s1, s2);
      Store.KeysConsistent(users, (cu[s1].userId, cu[s1].username), (cu[s2].userId, cu[s2].username));
    }
    DistinctUsernamesCount(cu);
    DistinctUserIdsCount(cu);
  }

  // ---------------------------------------------------------------------------------------
  // The `message` handler's check

  datatype Ingest = Drop | Reject(error: string) | Accept(text: string)

  /**
   * `(data?.message || '').trim()`: a falsy or blank message is dropped silently, a truthy
   * non-string one makes `.trim` throw and is answered with the generic error, a trimmed text
   * over 500 characters is refused, and anything else is accepted trimmed.
   */
  function IngestMessage(message: Value): (r: Ingest)
    ensures r == Drop <==> !Truthy(message) || (message.Str? && Blank(message.s))
    ensures r == Reject(SendFailed) <==> Truthy(message) && !message.Str?
    ensures r == Reject(TooLongMessage) <==>
      message.Str? && !Blank(message.s) && |Trim(message.s)| > MaxMessageLength
    ensures r.Accept? <==> message.Str? && !Blank(message.s) && |Trim(message.s)| <= MaxMessageLength
    ensures r.Accept? ==> r.text == Trim(message.s) && r.text != [] && |r.text| <= MaxMessageLength
  {
    if !Truthy(message) then Drop
    else if !message.Str? then Reject(SendFailed)
    else
      var text := Trim(message.s);
      if text == [] then Drop
      else if |text| > MaxMessageLength then Reject(TooLongMessage)
      else Accept(text)
  }

  // ---------------------------------------------------------------------------------------
  // The server

  /** `getStats`; the per-socket list is keyed by socket id, its array order is not modelled. */
  datatype ServerStats = ServerStats(connectedUsers: nat, totalMessages: nat, totalUsers: nat,
                         connectedUsersList: map<SocketId, (string, int)>)

  /**
   * The server's state hangs together: the registry is in step, every session belongs to an
   * open socket and carries that socket's identity, and every identity names a stored user.
   */
  ghost predicate Coherent(r: Registry, identities: map<SocketId, Identity>, open: set<SocketId>,
                           handled: set<SocketId>, users: seq<Store.User>)
  {
    && RegistryOk(r)
    && r.connectedUsers.Keys <= open <= identities.Keys
    && handled <= identities.Keys && open !! handled
    && (forall s :: s in r.connectedUsers ==>
          r.connectedUsers[s].username == identities[s].username &&
          r.connectedUsers[s].userId == identities[s].userId)
    && (forall s :: s in identities ==> (identities[s].userId, identities[s].username) in Store.UserKeys(users))
  }

  lemma ConnectCoherent(r: Registry, identities: map<SocketId, Identity>, open: set<SocketId>,
                        handled: set<SocketId>, users: seq<Store.User>,
                        s: SocketId, id: Identity, now: int, closeThrows: bool)
    requires Coherent(r, identities, open, handled, users)
    requires s !in identities && (id.userId, id.username) in Store.UserKeys(users)
    ensures var evicted := Evicted(r.userToSocket, id.userId, s);
      var closed := ClosedByEviction(evicted, open, closeThrows);
      Coherent(Connected(r, Session(id.username, id.userId, s, now)), identities[s := id],
               open - closed + {s}, handled, users)
  {
    ConnectPreservesRegistry(r, Session(id.username, id.userId, s, now));
  }

  lemma DisconnectCoherent(r: Registry, identities: map<SocketId, Identity>, open: set<SocketId>,
                           handled: set<SocketId>, users: seq<Store.User>, s: SocketId)
    requires Coherent(r, identities, open, handled, users)
    requires s in identities && s !in handled
    ensures Coherent(Disconnected(r, s, identities[s].userId), identities, open - {s}, handled + {s}, users)
  {
    DisconnectPreservesRegistry(r, s, identities[s].userId);
  }

  /** An inbound transport event, with the time it is handled. */
  datatype Inbound =
    | Connect(socket: SocketId, token: Value, closeThrows: bool, now: int)
    | Message(socket: SocketId, message: Value, now: int)
    | Typing(socket: SocketId, isTyping: Value)
    | GetUsersList(socket: SocketId)
    | Disconnect(socket: SocketId, now: int)

  class ChatServer {
    var connectedUsers: map<SocketId, Session>
    var userToSocket: map<Store.UserId, SocketId>
    /** Every socket that passed the handshake, with the identity it was given. */
    var identities: map<SocketId, Identity>
    /** The sockets the transport still holds (`io.sockets.sockets`). */
    var open: set<SocketId>
    /** The sockets whose `disconnect` handler has run. */
    var handled: set<SocketId>
    var outbox: seq<Delivery>
    const db: Store.Database

    ghost predicate Valid()
      reads this, db
    {
      db.Valid() && Coherent(Registry(connectedUsers, userToSocket), identities, open, handled, db.users)
    }

    constructor (db: Store.Database)
      requires db.Valid()
      ensures Valid() && this.db == db
      ensures connectedUsers == map[] && userToSocket == map[] && open == {} && outbox == []
    {
      this.db := db;
      connectedUsers, userToSocket, identities := map[], map[], map[];
      open, handled, outbox := {}, {}, [];
    }

    /**
     * A socket `s` asks to connect. A failed handshake answers `connect_error` and changes no
     * map; a successful one hands the socket to the `connection` handler.
     */
    method Connect(s: SocketId, token: Value, jwtVerify: string -> AuthRoutes.JwtOutcome,
                   closeThrows: bool, now: int) returns (r: Result<Identity, string>)
      requires Valid() && s !in identities
      modifies this
      ensures Valid()
      ensures r == Handshake(token, jwtVerify, db.users)
      ensures r.Err? ==>
        connectedUsers == old(connectedUsers) && userToSocket == old(userToSocket) &&
        identities == old(identities) && open == old(open) && handled == old(handled) &&
        outbox == old(outbox) + [Delivery({s}, ConnectError(r.error))]
      ensures r.Ok? ==>
        var id := r.value;
        var evicted := Evicted(old(userToSocket), id.userId, s);
        var closed := ClosedByEviction(evicted, old(open), closeThrows);
        && Registry(connectedUsers, userToSocket) ==
             Connected(Registry(old(connectedUsers), old(userToSocket)), Session(id.username, id.userId, s, now))
        && identities == old(identities)[s := id]
        && open == old(open) - closed + {s}
        && handled == old(handled)
        && outbox == old(outbox) + [
             Delivery(open - {s}, UserJoined(id.username, id.username + " a rejoint le chat", now)),
             Delivery(open, UsersList(Usernames(connectedUsers))),
             Delivery({s}, MessageHistory(Store.Recent(db.messages, HistorySize)))]
    {
      r := Handshake(token, jwtVerify, db.users);
      if r.Err? {
        outbox := outbox + [Delivery({s}, ConnectError(r.error))];
      } else {
        Admit(s, r.value, closeThrows, now);
      }
    }

    /**
     * The `connection` handler: the new socket is registered, then announced.
     */
    method Admit(s: SocketId, id: Identity, closeThrows: bool, now: int)
      requires Valid() && s !in identities
      requires (id.userId, id.username) in Store.UserKeys(db.users)
      modifies this
      ensures Valid()
      ensures Registry(connectedUsers, userToSocket) ==
        Connected(Registry(old(connectedUsers), old(userToSocket)), Session(id.username, id.userId, s, now))
      ensures identities == old(identities)[s := id] && handled == old(handled)
      ensures open == old(open) - ClosedByEviction(Evicted(old(userToSocket), id.userId, s), old(open), closeThrows) + {s}
      ensures outbox == old(outbox) + [
        Delivery(open - {s}, UserJoined(id.username, id.username + " a rejoint le chat", now)),
        Delivery(open, UsersList(Usernames(connectedUsers))),
        Delivery({s}, MessageHistory(Store.Recent(db.messages, HistorySize)))]
    {
      RegisterSocket(s, id, closeThrows, now);
      AnnounceArrival(s, id, now);
    }

    /**
     * The registration half of the `connection` handler. The user's previous socket, if any,
     * is closed when the transport still holds it (a close that throws is swallowed and leaves
     * it open) and its session is dropped either way; the new socket then enters both maps.
     */
    method RegisterSocket(s: SocketId, id: Identity, closeThrows: bool, now: int)
      requires Valid() && s !in identities
      requires (id.userId, id.username) in Store.UserKeys(db.users)
      modifies this
      ensures Valid()
      ensures Registry(connectedUsers, userToSocket) ==
        Connected(Registry(old(connectedUsers), old(userToSocket)), Session(id.username, id.userId, s, now))
      ensures identities == old(identities)[s := id] && handled == old(handled) && outbox == old(outbox)
      ensures open == old(open) - ClosedByEviction(Evicted(old(userToSocket), id.userId, s), old(open), closeThrows) + {s}
    {
      var sess := Session(id.username, id.userId, s, now);
      ghost var r0 := Registry(connectedUsers, userToSocket);
      ConnectCoherent(r0, identities, open, handled, db.users, s, id, now, closeThrows);
      var sessions, live := connectedUsers, open;
      var evicted := Evicted(userToSocket, id.userId, s);
      if evicted.Some? {
        var previous := evicted.value;
        if previous in live && !closeThrows {
          live := live - {previous};
        }
        sessions := sessions - {previous};
      }
      assert live == open - ClosedByEviction(evicted, open, closeThrows);
      assert Registry(sessions[s := sess], userToSocket[id.userId := s]) == Connected(r0, sess);
      connectedUsers, userToSocket, identities, open :=
        sessions[s := sess], userToSocket[id.userId := s], identities[s := id], live + {s};
    }

    /**
     * The fan-out half of the `connection` handler: `userJoined` to every other socket,
     * `usersList` to all, and the 50 newest messages to the new socket only.
     */
    method AnnounceArrival(s: SocketId, id: Identity, now: int)
      requires Valid()
      modifies this`outbox
      ensures Valid()
      ensures outbox == old(outbox) + [
        Delivery(open - {s}, UserJoined(id.username, id.username + " a rejoint le chat", now)),
        Delivery(open, UsersList(Usernames(connectedUsers))),
        Delivery({s}, MessageHistory(Store.Recent(db.messages, HistorySize)))]
    {
      outbox := outbox + [Delivery(open - {s}, UserJoined(id.username, id.username + " a rejoint le chat", now))];
      outbox := outbox + [Delivery(open, UsersList(Usernames(connectedUsers)))];
      outbox := outbox + [Delivery({s}, MessageHistory(Store.Recent(db.messages, HistorySize)))];
    }

    /**
     * A chat message from socket `s`: dropped, refused to the sender alone, or stored under the
     * socket's username and broadcast to every socket, the sender included.
     */
    method ReceiveMessage(s: SocketId, message: Value, now: int)
      requires Valid() && s in open
      modifies this, db
      ensures Valid()
      ensures connectedUsers == old(connectedUsers) && userToSocket == old(userToSocket)
      ensures identities == old(identities) && open == old(open) && handled == old(handled)
      ensures db.users == old(db.users)
      ensures match IngestMessage(message)
        case Drop => outbox == old(outbox) && db.messages == old(db.messages)
        case Reject(e) => outbox == old(outbox) + [Delivery({s}, ErrorEvent(e))] && db.messages == old(db.messages)
        case Accept(text) =>
          var m := Store.ChatMessage(old(db.nextMessageId), identities[s].username, text, now, Store.MessageKind);
          db.messages == Store.Pruned(Store.Insert(old(db.messages), m)) &&
          outbox == old(outbox) + [Delivery(open, NewMessage(m))]
    {
      match IngestMessage(message)
      case Drop =>
      case Reject(e) =>
        outbox := outbox + [Delivery({s}, ErrorEvent(e))];
      case Accept(text) =>
        var m := db.AddMessage(identities[s].username, text, now);
        outbox := outbox + [Delivery(open, NewMessage(m))];
    }

    /** The `typing` relay: every other socket learns the sender's flag, coerced to a boolean. */
    method Typing(s: SocketId, isTyping: Value)
      requires Valid() && s in open
      modifies this
      ensures Valid()
      ensures connectedUsers == old(connectedUsers) && userToSocket == old(userToSocket)
      ensures identities == old(identities) && open == old(open) && handled == old(handled)
      ensures outbox == old(outbox) + [Delivery(open - {s}, UserTyping(identities[s].username, Truthy(isTyping)))]
    {
      outbox := outbox + [Delivery(open - {s}, UserTyping(identities[s].username, Truthy(isTyping)))];
    }

    /** `getUsersList`: the requester alone receives the distinct usernames, as many as `getStats` counts. */
    method GetUsersList(s: SocketId) returns (names: set<string>)
      requires Valid() && s in open
      modifies this
      ensures Valid()
      ensures connectedUsers == old(connectedUsers) && userToSocket == old(userToSocket)
      ensures identities == old(identities) && open == old(open) && handled == old(handled)
      ensures names == Usernames(connectedUsers) && |names| == Stats().connectedUsers
      ensures outbox == old(outbox) + [Delivery({s}, UsersList(names))]
    {
      names := Usernames(connectedUsers);
      outbox := outbox + [Delivery({s}, UsersList(names))];
    }

    /**
     * The `disconnect` handler of socket `s`: its session always goes, the user's mapping only
     * if it still points at `s`; `userLeft`, `usersList` and a typing stop are broadcast on every
     * disconnect, a superseded socket's included.
     */
    method Disconnect(s: SocketId, now: int)
      requires Valid() && s in identities && s !in handled
      modifies this
      ensures Valid()
      ensures identities == old(identities) && open == old(open) - {s} && handled == old(handled) + {s}
      ensures Registry(connectedUsers, userToSocket) ==
        Disconnected(Registry(old(connectedUsers), old(userToSocket)), s, identities[s].userId)
      ensures var name := identities[s].username;
        outbox == old(outbox) + [
          Delivery(open - {s}, UserLeft(name, name + " a quitté le chat", now)),
          Delivery(open, UsersList(Usernames(connectedUsers))),
          Delivery(open - {s}, UserTyping(name, false))]
    {
      RemoveSession(s);
      AnnounceDeparture(s, identities[s].username, now);
    }

    /** The registry half of the `disconnect` handler. */
    method RemoveSession(s: SocketId)
      requires Valid() && s in identities && s !in handled
      modifies this
      ensures Valid()
      ensures identities == old(identities) && open == old(open) - {s} && handled == old(handled) + {s}
      ensures Registry(connectedUsers, userToSocket) ==
        Disconnected(Registry(old(connectedUsers), old(userToSocket)), s, identities[s].userId)
      ensures outbox == old(outbox)
    {
      var id := identities[s];
      ghost var r0 := Registry(connectedUsers, userToSocket);
      DisconnectCoherent(r0, identities, open, handled, db.users, s);
      var mapping := userToSocket;
      if id.userId in mapping && mapping[id.userId] == s {
        mapping := mapping - {id.userId};
      }
      assert Registry(connectedUsers - {s}, mapping) == Disconnected(r0, s, id.userId);
      connectedUsers, userToSocket, open, handled := connectedUsers - {s}, mapping, open - {s}, handled + {s};
    }

    /** The fan-out half of the `disconnect` handler: sent whether or not the socket was superseded. */
    method AnnounceDeparture(s: SocketId, name: string, now: int)
      requires Valid()
      modifies this`outbox
      ensures Valid()
      ensures outbox == old(outbox) + [
        Delivery(open - {s}, UserLeft(name, name + " a quitté le chat", now)),
        Delivery(open, UsersList(Usernames(connectedUsers))),
        Delivery(open - {s}, UserTyping(name, false))]
    {
      outbox := outbox + [Delivery(open - {s}, UserLeft(name, name + " a quitté le chat", now))];
      outbox := outbox + [Delivery(open, UsersList(Usernames(connectedUsers)))];
      outbox := outbox + [Delivery(open - {s}, UserTyping(name, false))];
    }

    /** `getStats`: under the invariant the connected-user count is the number of sessions. */
    function Stats(): (st: ServerStats)
      requires Valid()
      reads this, db
      ensures st.connectedUsers == |connectedUsers| == |Usernames(connectedUsers)|
      ensures st.totalMessages == |db.messages| && st.totalUsers == |db.users|
      ensures st.connectedUsersList.Keys == connectedUsers.Keys
    {
      UsersListMatchesStats(Registry(connectedUsers, userToSocket), db.users);
      var list := map s | s in connectedUsers :: (connectedUsers[s].username, connectedUsers[s].joinedAt);
      ServerStats(|UserIds(connectedUsers)|, |db.messages|, |db.users|, list)
    }

    /**
     * Dispatch one inbound event. Events the transport cannot produce are ignored: a connection
     * reusing a socket id, traffic from a socket it no longer holds, a second disconnect.
     */
    method Step(e: Inbound, jwtVerify: string -> AuthRoutes.JwtOutcome)
      requires Valid()
      modifies this, db
      ensures Valid()
      ensures old(outbox) <= outbox
    {
      match e
      case Connect(s, token, closeThrows, now) =>
        if s !in identities {
          var _ := Connect(s, token, jwtVerify, closeThrows, now);
        }
      case Message(s, message, now) =>
        if s in open {
          ReceiveMessage(s, message, now);
        }
      case Typing(s, isTyping) =>
        if s in open {
          Typing(s, isTyping);
        }
      case GetUsersList(s) =>
        if s in open {
          var _ := GetUsersList(s);
        }
      case Disconnect(s, now) =>
        if s in identities && s !in handled {
          Disconnect(s, now);
        }
    }

    /** Handle a whole run of inbound events; the registry invariant holds after each one. */
    method Run(events: seq<Inbound>, jwtVerify: string -> AuthRoutes.JwtOutcome)
      requires Valid()
      modifies this, db
      ensures Valid()
      ensures old(outbox) <= outbox
    {
      var i := 0;
      while i < |events|
        invariant 0 <= i <= |events|
        invariant Valid()
        invariant old(outbox) <= outbox
      {
        Step(events[i], jwtVerify);
        i := i + 1;
      }
    }
  }
}
