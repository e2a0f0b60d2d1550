/**
 * The REST routes of server/routes/messages.js: the Bearer guard, the shared fixed-window rate
 * limiter, the body validator, the filtered and paged listing, and the POST and DELETE ladders,
 * which store through the database and broadcast through the socket server.
 */
module MessageRoutes {
  import opened Wrappers
  import opened Text
  import opened Js
  import opened Seqs
  import Store
  import AuthRoutes
  import Chat

  /** An error answer: a status and its `{ error }` text. */
  datatype HttpError = HttpError(status: int, error: string)

  const NotAuthorized := 401
  const TooManyRequests := HttpError(429, "Trop de requêtes")
  const InvalidFormat := "Format invalide"
  const EmptyMessage := "Message vide"
  const TooLongMessage := "Message trop long (max 500 caractères)"
  const MessageNotFound := HttpError(404, "Message introuvable")
  const Forbidden := HttpError(403, "Interdit")
  const NotImplemented := HttpError(501, "Suppression non implémentée")

  /** The router is mounted here, so it is every key's `req.baseUrl`. */
  const MessagesBase := "/api/messages"

  // ---------------------------------------------------------------------------------------
  // requireAuth

  /** `auth.startsWith('Bearer ') ? auth.slice(7) : null` on the header, absent meaning ''. */
  function BearerToken(authorization: Option<string>): Option<string> {
    var auth := if authorization.Some? then authorization.value else "";
    if StartsWith(auth, "Bearer ") then Some(auth[7..]) else None
  }

  /**
   * `requireAuth`: 401 "Token manquant" unless the header is "Bearer " followed by something,
   * 401 "Token invalide" unless the token verifies to a payload with a non-empty username;
   * otherwise the request runs as that username.
   */
  function RequireAuth(authorization: Option<string>, jwtVerify: string -> AuthRoutes.JwtOutcome)
    : (r: Result<string, HttpError>)
    ensures r.Err? ==> r.error.status == NotAuthorized
    ensures BearerToken(authorization).None? || BearerToken(authorization).value == "" ==>
      r == Err(HttpError(NotAuthorized, AuthRoutes.MissingToken))
    ensures var t := BearerToken(authorization);
      t.Some? && t.value != "" &&
      (AuthRoutes.VerifyToken(jwtVerify, t.value).None? || AuthRoutes.VerifyToken(jwtVerify, t.value).value.username == "") ==>
      r == Err(HttpError(NotAuthorized, AuthRoutes.InvalidToken))
    ensures r.Ok? <==>
      var t := BearerToken(authorization);
      t.Some? && t.value != "" && AuthRoutes.VerifyToken(jwtVerify, t.value).Some? &&
      AuthRoutes.VerifyToken(jwtVerify, t.value).value.username != ""
    ensures r.Ok? ==>
      r.value != "" && r.value == AuthRoutes.VerifyToken(jwtVerify, BearerToken(authorization).value).value.username
  {
    var token := BearerToken(authorization);
    if token.None? || token.value == "" then Err(HttpError(NotAuthorized, AuthRoutes.MissingToken))
    else match AuthRoutes.VerifyToken(jwtVerify, token.value)
      case None => Err(HttpError(NotAuthorized, AuthRoutes.InvalidToken))
      case Some(claims) =>
        if claims.username == "" then Err(HttpError(NotAuthorized, AuthRoutes.InvalidToken))
        else Ok(claims.username)
  }

  /** A header without the exact "Bearer " prefix is refused before any token check. */
  lemma NoBearerPrefixRefused(header: string, jwtVerify: string -> AuthRoutes.JwtOutcome)
    requires |header| < 7 || header[..7] != "Bearer "
    ensures RequireAuth(Some(header), jwtVerify) == Err(HttpError(NotAuthorized, AuthRoutes.MissingToken))
  {
  }

  // ---------------------------------------------------------------------------------------
  // rateLimit

  /** A bucket entry: the requests counted in the current window and the time it ends. */
  datatype Window = Window(count: nat, resetAt: int)

  /** `req.path` of `DELETE /:id`: a slash and the id's text. */
  function DeletePath(id: Store.MsgId): string {
    "/" + Js.NumberText(id)
  }

  /** `${req.ip}:${req.baseUrl}${req.path}`. */
  function BucketKey(ip: string, baseUrl: string, path: string): string {
    ip + ":" + baseUrl + path
  }

  const ListWindowMs: nat := 3000
  const ListMax: nat := 30
  const PostWindowMs: nat := 4000
  const PostMax: nat := 6
  const DeleteWindowMs: nat := 5000
  const DeleteMax: nat := 5

  /** The entry of `key` after one request at `now`: a missing or expired window restarts. */
  function Tick(bucket: map<string, Window>, key: string, now: int, windowMs: nat): (w: Window)
    ensures w.count >= 1
    ensures w.count == 1 <==> key !in bucket || now > bucket[key].resetAt || bucket[key].count == 0
    ensures key in bucket && now <= bucket[key].resetAt ==> w == Window(bucket[key].count + 1, bucket[key].resetAt)
    ensures key !in bucket || now > bucket[key].resetAt ==> w == Window(1, now + windowMs)
  {
    var cur := if key in bucket then bucket[key] else Window(0, now + windowMs);
    var cur := if now > cur.resetAt then Window(0, now + windowMs) else cur;
    Window(cur.count + 1, cur.resetAt)
  }

  /** The bucket after a run of requests on one key. */
  function Replay(bucket: map<string, Window>, key: string, times: seq<int>, windowMs: nat): map<string, Window>
    decreases |times|
  {
    if times == [] then bucket
    else Replay(bucket[key := Tick(bucket, key, times[0], windowMs)], key, times[1..], windowMs)
  }

  /** Requests that all fall inside the current window each add one to its count. */
  lemma {:induction false} HitsInOneWindow(bucket: map<string, Window>, key: string, times: seq<int>, windowMs: nat)
    requires key in bucket
    requires forall i :: 0 <= i < |times| ==> times[i] <= bucket[key].resetAt
    ensures key in Replay(bucket, key, times, windowMs)
    ensures Replay(bucket, key, times, windowMs)[key] == Window(bucket[key].count + |times|, bucket[key].resetAt)
    decreases |times|
  {
    if times != [] {
      var next := bucket[key := Tick(bucket, key, times[0], windowMs)];
      HitsInOneWindow(next, key, times[1..], windowMs);
    }
  }

  /**
   * From a key with no entry, a request at `t0` opens a window ending at `t0 + windowMs`; of the
   * requests inside it, the n-th is let through exactly when n is at most `max`.
   */
  lemma WindowAdmitsMax(bucket: map<string, Window>, key: string, t0: int, times: seq<int>, windowMs: nat, max: nat)
    requires key !in bucket
    requires forall i :: 0 <= i < |times| ==> times[i] <= t0 + windowMs
    ensures var after := Replay(bucket, key, [t0] + times, windowMs);
      key in after && after[key].count == 1 + |times| &&
      (after[key].count <= max <==> 1 + |times| <= max)
  {
    var first := bucket[key := Tick(bucket, key, t0, windowMs)];
    assert ([t0] + times)[1..] == times;
    HitsInOneWindow(first, key, times, windowMs);
  }

  /** A request after the window ended restarts the count at one with a fresh window. */
  lemma ExpiredWindowRestarts(bucket: map<string, Window>, key: string, now: int, windowMs: nat, max: nat)
    requires key in bucket && now > bucket[key].resetAt
    ensures Tick(bucket, key, now, windowMs) == Window(1, now + windowMs)
    ensures max >= 1 ==> Tick(bucket, key, now, windowMs).count <= max
  {
  }

  /**
   * The bucket map is shared by every limiter, and a listing and a post from the same address
   * have the same key, so a post counts the listings made in the same window.
   */
  lemma ListingsCountAgainstPosts(bucket: map<string, Window>, ip: string, t: int, u: int)
    requires t <= u <= t + ListWindowMs
    requires BucketKey(ip, MessagesBase, "/") !in bucket
    ensures var key := BucketKey(ip, MessagesBase, "/");
      var afterList := bucket[key := Tick(bucket, key, t, ListWindowMs)];
      Tick(afterList, key, u, PostWindowMs).count == 2
  {
  }

  /** The `bucket` map of all `rateLimit` middlewares. */
  class RateLimiter {
    var bucket: map<string, Window>

    constructor ()
      ensures bucket == map[]
    {
      bucket := map[];
    }

    /** One request on `key`: count it, and let it through only while the count is at most `max`. */
    method Hit(key: string, now: int, windowMs: nat, max: nat) returns (allowed: bool)
      modifies this
      ensures bucket == old(bucket)[key := Tick(old(bucket), key, now, windowMs)]
      ensures allowed <==> bucket[key].count <= max
    {
      var cur := if key in bucket then bucket[key] else Window(0, now + windowMs);
      if now > cur.resetAt {
        cur := Window(0, now + windowMs);
      }
      cur := cur.(count := cur.count + 1);
      bucket := bucket[key := cur];
      allowed := cur.count <= max;
    }
  }

  // ---------------------------------------------------------------------------------------
  // validateMessage

  /** `validateMessage`: the first failing check, or None for an acceptable body. */
  function ValidateMessage(text: Value): (r: Option<string>)
    ensures !text.Str? <==> r == Some(InvalidFormat)
    ensures r == Some(EmptyMessage) <==> text.Str? && Blank(text.s)
    ensures r == Some(TooLongMessage) <==> text.Str? && !Blank(text.s) && |Trim(text.s)| > Chat.MaxMessageLength
    ensures r.None? <==> text.Str? && Trim(text.s) != [] && |Trim(text.s)| <= Chat.MaxMessageLength
  {
    if !text.Str? then Some(InvalidFormat)
    else
      var t := Trim(text.s);
      if t == [] then Some(EmptyMessage)
      else if |t| > Chat.MaxMessageLength then Some(TooLongMessage)
      else None
  }

  /** The route and the socket handler accept exactly the same texts, stored the same way. */
  lemma ValidateAgreesWithSocket(s: string)
    ensures ValidateMessage(Str(s)).None? <==> Chat.IngestMessage(Str(s)).Accept?
    ensures ValidateMessage(Str(s)).None? ==> Chat.IngestMessage(Str(s)).text == Trim(s)
  {
  }

  // ---------------------------------------------------------------------------------------
  // GET /

  /**
   * The query string: `limit` as `parseInt` reads it (None for NaN or absent), the raw `q` and
   * `user` texts, and `before` as a time (None when blank).
   */
  datatype Query = Query(limit: Option<int>, q: string, user: string, before: Option<int>)

  /** The reply of the listing. */
  datatype Page = Page(messages: seq<Store.ChatMessage>, total: nat, hasMore: bool, nextCursor: Option<int>)

  /** `Math.min(parseInt(limit || '50', 10) || 50, 100)`. */
  function Limit(param: Option<int>): (n: int)
    ensures n <= 100 && n != 0
    ensures param.None? || param == Some(0) ==> n == 50
    ensures param.Some? && param.value != 0 ==> n == Min(param.value, 100)
  {
    Min(if param.None? || param.value == 0 then 50 else param.value, 100)
  }

  /** The `user` filter: the author's name equals the trimmed `user` ignoring case. */
  predicate ByUser(user: string, m: Store.ChatMessage) {
    Lower(m.username) == Lower(user)
  }

  /** The `before` filter. */
  predicate ByTime(before: int, m: Store.ChatMessage) {
    m.timestamp < before
  }

  /** The `q` filter: the text contains the trimmed `q` ignoring case. */
  predicate ByText(q: string, m: Store.ChatMessage) {
    Contains(Lower(m.text), Lower(q))
  }

  /** Whether a message passes the filters the query asks for; a blank filter passes everything. */
  predicate Selected(query: Query, m: Store.ChatMessage) {
    && (Trim(query.user) == [] || ByUser(Trim(query.user), m))
    && (query.before.None? || ByTime(query.before.value, m))
    && (Trim(query.q) == [] || ByText(Trim(query.q), m))
  }

  function FilterByUser(s: seq<Store.ChatMessage>, user: string): (r: seq<Store.ChatMessage>)
    ensures forall m :: m in r <==> m in s && (!(user != []) || ByUser(user, m))
  {
    if user != [] then
      var p := (m: Store.ChatMessage) => ByUser(user, m);
      FilterMembers(s, p);
      Filter(s, p)
    else s
  }

  function FilterByTime(s: seq<Store.ChatMessage>, before: Option<int>): (r: seq<Store.ChatMessage>)
    ensures forall m :: m in r <==> m in s && (!(before.Some?) || ByTime(before.value, m))
  {
    if before.Some? then
      var p := (m: Store.ChatMessage) => ByTime(before.value, m);
      FilterMembers(s, p);
      Filter(s, p)
    else s
  }

  function FilterByText(s: seq<Store.ChatMessage>, q: string): (r: seq<Store.ChatMessage>)
    ensures forall m :: m in r <==> m in s && (!(q != []) || ByText(q, m))
  {
    if q != [] then
      var p := (m: Store.ChatMessage) => ByText(q, m);
      FilterMembers(s, p);
      Filter(s, p)
    else s
  }

  /** The filters applied one after another, as the route does. */
  function Selection(all: seq<Store.ChatMessage>, query: Query): seq<Store.ChatMessage> {
    FilterByText(FilterByTime(FilterByUser(all, Trim(query.user)), query.before), Trim(query.q))
  }

  /** A message is selected exactly when it is in the table and passes every requested filter. */
  lemma SelectionMembers(all: seq<Store.ChatMessage>, query: Query)
    ensures forall m :: m in Selection(all, query) <==> m in all && Selected(query, m)
  {
  }

  /**
   * `items.slice(-limit).reverse()` with the count, the more-flag and the cursor: the last
   * `limit` items, newest first, and the time of the oldest one returned.
   */
  function Paginate(items: seq<Store.ChatMessage>, limit: int): (page: Page)
    ensures page.total == |items|
    ensures page.hasMore <==> |items| > limit
    ensures limit > 0 ==> |page.messages| == Min(limit, |items|)
    ensures limit < 0 ==> |page.messages| == Max(|items| + limit, 0)
    ensures limit == 0 ==> page.messages == Reverse(items)
    ensures |page.messages| <= |items|
    ensures forall i :: 0 <= i < |page.messages| ==> page.messages[i] == items[|items| - 1 - i]
    ensures page.nextCursor == if page.messages == [] then None
                               else Some(page.messages[|page.messages| - 1].timestamp)
  {
    var slice := Reverse(SliceFrom(items, -limit));
    Page(slice, |items|, |items| > limit,
         if |slice| > 0 then Some(slice[|slice| - 1].timestamp) else None)
  }

  /** The listing: the selected messages, paged by the clamped limit. */
  function ListMessages(all: seq<Store.ChatMessage>, query: Query): Page {
    Paginate(Selection(all, query), Limit(query.limit))
  }

  lemma {:induction false} FilterKeepsSorted(s: seq<Store.ChatMessage>, p: Store.ChatMessage -> bool)
    requires Store.Sorted(s)
    ensures Store.Sorted(Filter(s, p))
  {
    if s != [] {
      var t := Filter(s[1..], p);
      FilterKeepsSorted(s[1..], p);
      FilterMembers(s[1..], p);
      if p(s[0]) {
        var r := Filter(s, p);
        assert r == [s[0]] + t;
        forall i, j | 0 <= i < j < |r| ensures r[i].timestamp <= r[j].timestamp {
          if i == 0 {
            assert r[j] == t[j - 1] && t[j - 1] in s[1..];
            var k :| 0 <= k < |s| - 1 && s[1..][k] == t[j - 1];
            assert s[k + 1] == r[j];
          }
        }
      }
    }
  }

  lemma SelectionKeepsSorted(all: seq<Store.ChatMessage>, query: Query)
    requires Store.Sorted(all)
    ensures Store.Sorted(Selection(all, query))
  {
    var user, q := Trim(query.user), Trim(query.q);
    var a := FilterByUser(all, user);
    if user != [] { FilterKeepsSorted(all, (m: Store.ChatMessage) => ByUser(user, m)); }
    var b := FilterByTime(a, query.before);
    if query.before.Some? { FilterKeepsSorted(a, (m: Store.ChatMessage) => ByTime(query.before.value, m)); }
    if q != [] { FilterKeepsSorted(b, (m: Store.ChatMessage) => ByText(q, m)); }
  }

  /**
   * Items read backwards from the end of an ascending sequence run newest first, and the last
   * one read is no newer than any item read or any item not yet reached.
   */
  lemma BackwardsFromEnd(items: seq<Store.ChatMessage>, p: seq<Store.ChatMessage>)
    requires Store.Sorted(items)
    requires |p| <= |items|
    requires forall i :: 0 <= i < |p| ==> p[i] == items[|items| - 1 - i]
    ensures forall i, j :: 0 <= i < j < |p| ==> p[i].timestamp >= p[j].timestamp
    ensures p != [] ==> forall k :: 0 <= k < |items| - |p| ==> items[k].timestamp <= p[|p| - 1].timestamp
  {
    forall i, j | 0 <= i < j < |p| ensures p[i].timestamp >= p[j].timestamp {
      assert p[i] == items[|items| - 1 - i] && p[j] == items[|items| - 1 - j];
    }
    if p != [] {
      assert p[|p| - 1] == items[|items| - |p|];
    }
  }

  /** Over ascending items the page runs newest first. */
  lemma PaginateDescending(items: seq<Store.ChatMessage>, limit: int)
    requires Store.Sorted(items)
    ensures var page := Paginate(items, limit);
      forall i, j :: 0 <= i < j < |page.messages| ==> page.messages[i].timestamp >= page.messages[j].timestamp
  {
    BackwardsFromEnd(items, Paginate(items, limit).messages);
  }

  /**
   * Over ascending items the cursor is the oldest time on the page, and every item left off
   * the page is no newer than it.
   */
  lemma PaginateCursorIsOldest(items: seq<Store.ChatMessage>, limit: int)
    requires Store.Sorted(items)
    ensures var page := Paginate(items, limit);
      page.nextCursor.Some? ==>
        (forall m :: m in page.messages ==> page.nextCursor.value <= m.timestamp) &&
        (forall k :: 0 <= k < |items| - |page.messages| ==> items[k].timestamp <= page.nextCursor.value)
  {
    var msgs := Paginate(items, limit).messages;
    BackwardsFromEnd(items, msgs);
    if msgs != [] {
      forall m | m in msgs ensures msgs[|msgs| - 1].timestamp <= m.timestamp {
        var i :| 0 <= i < |msgs| && msgs[i] == m;
      }
    }
  }

  /** The listing over the table's ascending order: newest first, and nothing newer left off. */
  lemma PageIsNewestFirst(all: seq<Store.ChatMessage>, query: Query)
    requires Store.Sorted(all)
    ensures var page := ListMessages(all, query);
      forall i, j :: 0 <= i < j < |page.messages| ==> page.messages[i].timestamp >= page.messages[j].timestamp
    ensures var page := ListMessages(all, query);
      page.nextCursor.Some? ==>
        forall k :: 0 <= k < page.total - |page.messages| ==>
          Selection(all, query)[k].timestamp <= page.nextCursor.value
  {
    SelectionKeepsSorted(all, query);
    PaginateDescending(Selection(all, query), Limit(query.limit));
    PaginateCursorIsOldest(Selection(all, query), Limit(query.limit));
  }

  /** The listing route: rate limited per address, then the pure listing over the table. */
  method List(limiter: RateLimiter, db: Store.Database, ip: string, query: Query, now: int)
    returns (r: Result<Page, HttpError>)
    requires db.Valid()
    modifies limiter
    ensures var key := BucketKey(ip, MessagesBase, "/");
      limiter.bucket == old(limiter.bucket)[key := Tick(old(limiter.bucket), key, now, ListWindowMs)] &&
      (r.Err? <==> limiter.bucket[key].count > ListMax) &&
      (r.Err? ==> r.error == TooManyRequests) &&
      (r.Ok? ==> r.value == ListMessages(db.messages, query))
  {
    var allowed := limiter.Hit(BucketKey(ip, MessagesBase, "/"), now, ListWindowMs, ListMax);
    if !allowed {
      return Err(TooManyRequests);
    }
    r := Ok(ListMessages(db.AllMessages(), query));
  }

  // ---------------------------------------------------------------------------------------
  // POST / and DELETE /:id

  /**
   * POST: 401 before anything is counted, then 429, then 400 with the validator's text;
   * otherwise the trimmed text is stored under the token's username, broadcast to every
   * socket, and returned with 201.
   */
  method Post(server: Chat.ChatServer, limiter: RateLimiter, authorization: Option<string>, message: Value,
              jwtVerify: string -> AuthRoutes.JwtOutcome, ip: string, now: int)
    returns (r: Result<Store.ChatMessage, HttpError>)
    requires server.Valid()
    modifies server`outbox, server.db, limiter
    ensures server.Valid()
    ensures server.db.users == old(server.db.users)
    ensures var key := BucketKey(ip, MessagesBase, "/");
      var auth := RequireAuth(authorization, jwtVerify);
      && (auth.Err? ==> r == Err(auth.error) && limiter.bucket == old(limiter.bucket))
      && (auth.Ok? ==> limiter.bucket == old(limiter.bucket)[key := Tick(old(limiter.bucket), key, now, PostWindowMs)])
      && (auth.Ok? && limiter.bucket[key].count > PostMax ==> r == Err(TooManyRequests))
      && (auth.Ok? && limiter.bucket[key].count <= PostMax && ValidateMessage(message).Some? ==>
            r == Err(HttpError(400, ValidateMessage(message).value)))
      && (r.Ok? <==> auth.Ok? && limiter.bucket[key].count <= PostMax && ValidateMessage(message).None?)
    ensures r.Err? ==> server.db.messages == old(server.db.messages) && server.outbox == old(server.outbox)
    ensures r.Ok? ==>
      r.value == Store.ChatMessage(old(server.db.nextMessageId), RequireAuth(authorization, jwtVerify).value,
                                   Trim(message.s), now, Store.MessageKind) &&
      server.db.messages == Store.Pruned(Store.Insert(old(server.db.messages), r.value)) &&
      server.outbox == old(server.outbox) + [Chat.Delivery(server.open, Chat.NewMessage(r.value))]
  {
    var auth := RequireAuth(authorization, jwtVerify);
    if auth.Err? {
      return Err(auth.error);
    }
    var allowed := limiter.Hit(BucketKey(ip, MessagesBase, "/"), now, PostWindowMs, PostMax);
    if !allowed {
      return Err(TooManyRequests);
    }
    var invalid := ValidateMessage(message);
    if invalid.Some? {
      return Err(HttpError(400, invalid.value));
    }
    var saved := server.db.AddMessage(auth.value, Trim(message.s), now);
    server.outbox := server.outbox + [Chat.Delivery(server.open, Chat.NewMessage(saved))];
    r := Ok(saved);
  }

  /**
   * DELETE: 401, then 429 on the key of this message's path, then 404 for an unknown id,
   * then 403 unless the requester wrote the message (case-insensitively); otherwise the row is
   * deleted and `messageDeleted` is broadcast. The store always reports the deletion of a row
   * it was just shown to hold, so the 501 answer never occurs. The route's path is `/` and the
   * id's text.
   */
  method Delete(server: Chat.ChatServer, limiter: RateLimiter, authorization: Option<string>, id: Store.MsgId,
                jwtVerify: string -> AuthRoutes.JwtOutcome, ip: string, now: int)
    returns (r: Result<Store.MsgId, HttpError>)
    requires server.Valid()
    modifies server`outbox, server.db, limiter
    ensures server.Valid()
    ensures server.db.users == old(server.db.users)
    ensures r.Err? ==> r.error.status != NotImplemented.status
    ensures var key := BucketKey(ip, MessagesBase, DeletePath(id));
      var auth := RequireAuth(authorization, jwtVerify);
      var found := Store.FindMessage(old(server.db.messages), id);
      && (auth.Err? ==> r == Err(auth.error) && limiter.bucket == old(limiter.bucket))
      && (auth.Ok? ==> limiter.bucket == old(limiter.bucket)[key := Tick(old(limiter.bucket), key, now, DeleteWindowMs)])
      && (auth.Ok? && limiter.bucket[key].count > DeleteMax ==> r == Err(TooManyRequests))
      && (auth.Ok? && limiter.bucket[key].count <= DeleteMax && found.None? ==> r == Err(MessageNotFound))
      && ((auth.Ok? && limiter.bucket[key].count <= DeleteMax && found.Some? &&
           !EqualsIgnoreCase(found.value.username, auth.value)) ==> r == Err(Forbidden))
      && (r.Ok? <==>
            auth.Ok? && limiter.bucket[key].count <= DeleteMax && found.Some? &&
            EqualsIgnoreCase(found.value.username, auth.value))
    ensures r.Err? ==> server.db.messages == old(server.db.messages) && server.outbox == old(server.outbox)
    ensures r.Ok? ==>
      r.value == id &&
      server.db.messages == Store.WithoutId(old(server.db.messages), id) &&
      |server.db.messages| == |old(server.db.messages)| - 1 &&
      server.outbox == old(server.outbox) + [Chat.Delivery(server.open, Chat.MessageDeleted(id))]
  {
    var auth := RequireAuth(authorization, jwtVerify);
    if auth.Err? {
      return Err(auth.error);
    }
    var allowed := limiter.Hit(BucketKey(ip, MessagesBase, DeletePath(id)), now, DeleteWindowMs, DeleteMax);
    if !allowed {
      return Err(TooManyRequests);
    }
    var msg := Store.FindMessage(server.db.AllMessages(), id);
    if msg.None? {
      return Err(MessageNotFound);
    }
    if !EqualsIgnoreCase(msg.value.username, auth.value) {
      return Err(Forbidden);
    }
    Store.WithoutIdRemovesOne(server.db.messages, id);
    var ok := server.db.DeleteMessageById(id);
    if !ok {
      return Err(NotImplemented);
    }
    server.outbox := server.outbox + [Chat.Delivery(server.open, Chat.MessageDeleted(id))];
    r := Ok(id);
  }
}
