# A verified model of a realtime chat application

This project models the core of a small French-language chat application. The model is written in Dafny and its properties are proved.

The application has a Node.js server and a React client:

- **Server, socket side.** A Socket.io coordinator authenticates each socket with a JWT. It keeps one socket per user in two maps that must stay in step:
  - `connectedUsers`: socket id → session;
  - `userToSocket`: user id → socket id.

  It relays chat messages, typing signals and the presence list.
- **Server, REST side.** A messages API has a Bearer guard, a fixed-window rate limiter, a body validator, a filtered and paged listing, and creation and deletion routes.
- **Server, accounts.** An account API handles register, login and token verification.
- **Storage.** A SQLite store holds the messages, pruned to their 1000 newest, and the users.
- **Client.** The client side is modelled by five pieces:
  - the chat room's socket handlers, which are functional state setters;
  - the message input, with its "is typing" timer;
  - the login form's validation;
  - the typing-indicator bubble, whose avatar colour comes from a 32-bit string hash;
  - the `localStorage` session helpers.

The model follows the form of each source file:

| Form of the source | Files | How it is modelled |
|---|---|---|
| Updates state in place | chat.js, db.js, MessageInput.jsx, the `localStorage` helpers, the rate limiter's bucket | classes whose methods state their whole new state (`Chat.ChatServer`, `Store.Database`, `MessageInput.MessageInput`, `StoredAuth.LocalStorage`, `MessageRoutes.RateLimiter`) |
| Pure | ChatRoom.jsx handlers, LoginForm.jsx, formatter and counts in TypingIndicator.jsx, validation ladders | functions over datatypes |
| A loop | the hash loop of `getAvatarGradient` | a method with an invariant |

The socket transport is a sequence of inbound events (`Chat.Inbound`). Every emit appends a (recipients, event) pair to an outbox.

Cryptography is passed in as oracle functions:

- `jwt.verify` and `jwt.sign`;
- `bcrypt.hash` and `bcrypt.compare`.

Clocks are integer parameters. Ids are natural numbers drawn from counters, so they are fresh and unique.

The modules are:

| Module | Contents |
|---|---|
| `Wrappers` | `Option`, `Result` |
| `Seqs` | min/max, reverse, filter and its lemmas |
| `Text` | white space, trim, ASCII case folding, substring search, `join`, the username character class |
| `Js` | truthiness, ECMAScript ToInt32 and `<<`, `Array.prototype.slice` |
| `Store` | server/database/db.js |
| `AuthRoutes` | server/routes/auth.js |
| `Chat` | server/sockets/chat.js |
| `MessageRoutes` | server/routes/messages.js |
| `ChatRoom` | client/src/components/ChatRoom.jsx |
| `MessageInput` | client/src/components/MessageInput.jsx |
| `LoginForm` | client/src/components/LoginForm.jsx |
| `TypingIndicator` | client/src/components/TypingIndicator.jsx |
| `StoredAuth` | the storage helpers of client/src/api/client.js |

### Behaviour of the code worth knowing

- **Disconnect broadcasts.** Every disconnect broadcasts `userLeft`, a fresh `usersList` and a typing stop, a superseded socket's disconnect included (server/sockets/chat.js:117-126). `Chat.ChatServer.Disconnect` states exactly these three deliveries.
- **Shared rate-limit bucket.** Every rate limiter shares one bucket map. The key is `ip:baseUrl + path`, so a listing and a post from the same address share a window. `MessageRoutes.ListingsCountAgainstPosts` states this.
- **Negative `limit`.** A negative `limit` query value passes the `Math.min(…, 100)` clamp. `items.slice(-limit)` then drops the oldest `|limit|` items rather than keeping the newest. `MessageRoutes.Paginate` models `slice` exactly (`Js.SliceFrom`) and states the page size for every limit: `min(limit, total)` for a positive one, all items for zero, and `max(total + limit, 0)` for a negative one.

## Model

| member | source | states |
|---|---|---|
| Text.Trim | server/sockets/chat.js:80 | `String.prototype.trim`: the result is the input with only a blank prefix and a blank suffix removed; it is empty exactly when the input is blank, and otherwise starts and ends with a non-space |
| Text.TrimOccursInInput | server/routes/messages.js:45 | the trimmed text is a contiguous piece of the input |
| Text.TrimIdempotent | server/routes/messages.js:99 | trimming an already trimmed text changes nothing, so POST's second `trim` stores what the validator checked |
| Js.ToInt32 | client/src/components/TypingIndicator.jsx:21 | the result is in the signed 32-bit range and congruent to the input modulo 2^32 |
| Js.ShiftLeft5 | client/src/components/TypingIndicator.jsx:21 | `x << 5` is the signed 32-bit value congruent to `x * 32` modulo 2^32, which determines it |
| Js.SliceFrom | server/routes/messages.js:73 | `slice(start)` is a suffix; a negative start keeps the last `-start` elements (all of them when fewer), a non-negative one drops `start` elements |
| Js.Slice | client/src/components/LoginForm.jsx:182 | `slice(lo, hi)` has the clamped length and holds the elements from `lo` on |
| Store.InsertPos | server/database/db.js:96-106 | a new row lands after every row that is not newer and before the first newer row |
| Store.InsertSorted | server/database/db.js:216-219 | inserting keeps the table in timestamp order |
| Store.InsertAddsOne | server/database/db.js:216-219 | inserting adds exactly that one row and loses none (multiset) |
| Store.InsertFresh | server/database/db.js:208-215 | a row with a fresh id keeps the ids of the table distinct |
| Store.PrunedKeepsNewest | server/database/db.js:110-118 | after a prune, `min(count, 1000)` rows remain, exactly `max(count - 1000, 0)` were deleted, they are a prefix of the table, and none is newer than a kept row |
| Store.RecentIsNewestSuffix | server/database/db.js:234-238 | `getRecentMessages(n)` is the `min(max(0, n), size)` newest rows, oldest first |
| Store.FindMessage | server/routes/messages.js:119 | `find` returns a row with that id, and nothing exactly when no row has it |
| Store.WithoutIdRemovesOne | server/database/db.js:120 | with distinct ids, deleting by id removes exactly that row and keeps every other row in place; an unknown id changes nothing |
| Store.FindUser | server/database/db.js:185-187 | the lookup returns a stored user whose name equals the argument ignoring case, and null exactly when none does |
| Store.Touch | server/database/db.js:82-84 | the update keeps the number of user rows |
| Store.TouchRefreshes | server/database/db.js:189-196 | after the update, a lookup finds a user exactly when one was found before, now with this login time |
| Store.KeysKeptSubset | server/database/db.js:164-183 | rows keep their id and name, so every identity resolvable before stays resolvable |
| Store.KeysConsistent | server/database/db.js:172-180 | with unique ids and usernames, a resolved identity's id determines its name and back |
| Store.Database.constructor | server/database/db.js:125-130 | a fresh store is empty and satisfies the table invariant |
| Store.Database.PruneMessagesIfNeeded | server/database/db.js:229-232 | the prune restores the 1000-row bound and touches nothing else |
| Store.Database.AddMessage | server/database/db.js:208-222 | returns a fresh row of type 'message' with the given username and text; the table becomes the pruned table with it inserted; users untouched; the invariant (ordered, distinct ids, at most 1000) is kept |
| Store.Database.AllMessages | server/database/db.js:240-242 | all rows, in ascending timestamp order |
| Store.Database.DeleteMessageById | server/database/db.js:224-227 | true exactly when a row with that id existed; only that row is removed |
| Store.Database.CreateUser | server/database/db.js:164-183 | a name already stored (case-sensitive UNIQUE) inserts nothing and returns the case-insensitive lookup; otherwise a fresh user with no last login is appended |
| Store.Database.UpdateUserLastLogin | server/database/db.js:189-196 | every case-insensitive match gets the login time; the refreshed user is returned when a row matched, null otherwise |
| AuthRoutes.VerifyToken | server/routes/auth.js:19-25 | the payload exactly when `jwt.verify` succeeds, null instead of any exception |
| AuthRoutes.RegisterValidationAsWritten | server/routes/auth.js:33-55 | the route's ladder on JSON values: no error exactly when both fields are truthy, a string username is 2..20 long, the username's `String(...)` text matches the character class, and a string password is 6 or more long; each refusal carries its own text, in the order missing field, string length, character class, string password |
| AuthRoutes.NumericFieldsSkipLengthRules | server/routes/auth.js:39-55 | the username `7` and the password `1` pass every check although their text is one character long |
| AuthRoutes.NumericUsernamesAccepted | server/routes/auth.js:39-49 | a numeric username passes exactly when it is non-zero and below 10^21 in magnitude, where `String(n)` switches to `e+` notation |
| AuthRoutes.RegisterValidation | server/routes/auth.js:33-55 | the intended ladder: no error exactly when both fields are strings, the username is 2..20 characters of the class and the password 6 or more; each rung's refusal text is pinned: missing field, then length, then character class, then password, in that order |
| AuthRoutes.CorrectionKeepsStringFields | server/routes/auth.js:33-55 | on string fields the intended ladder and the route's own give the same answer |
| AuthRoutes.Register | server/routes/auth.js:28-92 | 400 with the intended validator's text, else 409 with no user created when the case-insensitive lookup finds the name, else 201 with the appended user (hashed password), a reply holding only its id, username and creation time, and a token signed for the username |
| AuthRoutes.LoginDecision | server/routes/auth.js:99-120 | accepted exactly when both fields are present, the user exists and the password matches; unknown user and wrong password get the same 401 text |
| AuthRoutes.Login | server/routes/auth.js:95-147 | a rejection changes no row; a success stamps the last login and returns the refreshed user with a token |
| AuthRoutes.VerifyRequest | server/routes/auth.js:150-182 | every failure is 401, and each of missing token, invalid token and unknown user carries its own text, checked in that order; success exactly when all three checks hold, returning that user |
| Chat.Handshake | server/sockets/chat.js:11-29 | missing token, then invalid token, then unknown user, each refusal with its own text; on success the identity is the stored user's id and username |
| Chat.OneSocketPerUser | server/sockets/chat.js:5-8 | under the registry invariant two sessions of the same user are the same socket |
| Chat.ConnectPreservesRegistry | server/sockets/chat.js:36-59 | the connection handler keeps the two maps in step |
| Chat.ConnectEvicts | server/sockets/chat.js:36-54 | a new socket for a user drops the old session, maps the user to the new socket, and leaves other users' mappings alone |
| Chat.DisconnectPreservesRegistry | server/sockets/chat.js:110-115 | the disconnect handler keeps the two maps in step |
| Chat.StaleDisconnectKeepsReplacement | server/sockets/chat.js:112-115 | a superseded socket's disconnect removes its own session but never its replacement's mapping or session |
| Chat.DisconnectAbsentUnchanged | server/sockets/chat.js:112-115 | disconnecting a socket absent from both maps changes neither |
| Chat.DistinctUsernamesCount | server/sockets/chat.js:137-141 | with distinct names per session, the distinct-name list is as long as the session map |
| Chat.DistinctUserIdsCount | server/sockets/chat.js:147-149 | with distinct ids per session, the distinct-id count is the number of sessions |
| Chat.UsersListMatchesStats | server/sockets/chat.js:137-157 | under the invariant the users list has as many names as `getStats` counts connected users |
| Chat.IngestMessage | server/sockets/chat.js:78-93 | a falsy or blank message is dropped; a non-string makes `trim` throw and gets the generic error; over 500 characters is refused; otherwise the trimmed text is accepted (500 included) |
| Chat.ConnectCoherent | server/sockets/chat.js:31-59 | a connection keeps the whole server invariant, the forced close included, whether it succeeds or throws |
| Chat.DisconnectCoherent | server/sockets/chat.js:110-115 | a disconnect keeps the whole server invariant |
| Chat.ChatServer.constructor | server/sockets/chat.js:5-8 | both maps start empty |
| Chat.ChatServer.Connect | server/sockets/chat.js:11-75 | a failed handshake changes no map and answers `connect_error` to that socket alone; a successful one runs the connection handler |
| Chat.ChatServer.Admit | server/sockets/chat.js:31-75 | the registry becomes the connected registry; `userJoined` reaches all other sockets, `usersList` all, and the 50 newest messages only the new socket |
| Chat.ChatServer.RegisterSocket | server/sockets/chat.js:35-59 | the replaced socket is closed only if the transport holds it and the close does not throw; its session goes either way; the new socket enters both maps |
| Chat.ChatServer.AnnounceArrival | server/sockets/chat.js:61-75 | exactly the three fan-out deliveries, in order, to the stated recipients |
| Chat.ChatServer.ReceiveMessage | server/sockets/chat.js:78-93 | a dropped message emits and stores nothing; a refused one errors to the sender only; an accepted one is stored and broadcast to every socket, the sender included |
| Chat.ChatServer.Typing | server/sockets/chat.js:95-102 | every socket but the sender receives the flag coerced to a boolean |
| Chat.ChatServer.GetUsersList | server/sockets/chat.js:105-108 | only the requester gets the distinct usernames, and there are as many as `getStats` counts |
| Chat.ChatServer.Disconnect | server/sockets/chat.js:110-127 | the session always goes, the user's mapping only if it still points here; `userLeft`, `usersList` and a typing stop are broadcast on every disconnect |
| Chat.ChatServer.RemoveSession | server/sockets/chat.js:110-115 | the socket's session is removed and the user's mapping only when it still names this socket; the invariant is kept |
| Chat.ChatServer.AnnounceDeparture | server/sockets/chat.js:117-126 | exactly the three departure deliveries, in order, the new user list going to every open socket |
| Chat.ChatServer.Stats | server/sockets/chat.js:147-157 | the connected-user count equals the number of sessions and of distinct usernames; totals are the table sizes |
| Chat.ChatServer.Step | server/sockets/chat.js:10-132 | any inbound event keeps the server invariant and only appends to the outbox |
| Chat.ChatServer.Run | server/sockets/chat.js:10-132 | a whole run of events keeps the invariant after each one |
| MessageRoutes.RequireAuth | server/routes/messages.js:8-22 | every refusal is 401: "Token manquant" without a "Bearer " token, "Token invalide" for a token that does not verify to a non-empty username; the request runs exactly when the header is "Bearer " and a token that verifies to a non-empty username, which becomes the requester |
| MessageRoutes.NoBearerPrefixRefused | server/routes/messages.js:10-12 | a header without the exact prefix is refused as a missing token |
| MessageRoutes.Tick | server/routes/messages.js:28-36 | a missing or expired window restarts at count 1 with a fresh end; otherwise the count goes up by one in the same window |
| MessageRoutes.HitsInOneWindow | server/routes/messages.js:30-36 | requests inside the current window each add exactly one to the count |
| MessageRoutes.WindowAdmitsMax | server/routes/messages.js:26-39 | from a fresh key, the n-th request within one window passes exactly when n is at most `max` |
| MessageRoutes.ExpiredWindowRestarts | server/routes/messages.js:31-34 | after the window ends the count restarts at 1, so the request passes |
| MessageRoutes.ListingsCountAgainstPosts | server/routes/messages.js:28 | a listing and a post from one address in one window land in the same bucket |
| MessageRoutes.RateLimiter.constructor | server/routes/messages.js:25 | the bucket starts empty |
| MessageRoutes.RateLimiter.Hit | server/routes/messages.js:27-39 | the key's window is ticked, no other key changes, and the request passes exactly when the new count is at most `max` |
| MessageRoutes.ValidateMessage | server/routes/messages.js:43-49 | non-string, then blank, then over 500 after trim; null exactly for a string whose trimmed text is 1..500 characters |
| MessageRoutes.ValidateAgreesWithSocket | server/routes/messages.js:43-49 | the route and the socket handler accept the same strings and store the same trimmed text |
| MessageRoutes.Limit | server/routes/messages.js:61 | at most 100 and never 0; 50 for an absent, unparsable or zero value |
| MessageRoutes.FilterByUser | server/routes/messages.js:68 | keeps exactly the messages whose author equals the `user` filter ignoring case |
| MessageRoutes.FilterByTime | server/routes/messages.js:69 | keeps exactly the messages strictly before `before` |
| MessageRoutes.FilterByText | server/routes/messages.js:70 | keeps exactly the messages containing `q` ignoring case |
| MessageRoutes.SelectionMembers | server/routes/messages.js:66-70 | a message is listed exactly when it is stored and passes every requested filter; blank filters pass everything |
| MessageRoutes.Paginate | server/routes/messages.js:72-79 | `total` is the filtered count; `hasMore` holds exactly when it exceeds the limit; the page has `min(limit, total)` items for a positive limit, all of them for zero, and `max(total + limit, 0)` for a negative limit, which drops the oldest `|limit|`; items are the last ones, newest first; the cursor is the last item's time, null for an empty page |
| MessageRoutes.FilterKeepsSorted | server/routes/messages.js:68-70 | filtering keeps ascending order |
| MessageRoutes.SelectionKeepsSorted | server/routes/messages.js:66-70 | the three filters keep the table's ascending order |
| MessageRoutes.PaginateDescending | server/routes/messages.js:73 | over ascending items the page runs newest first |
| MessageRoutes.BackwardsFromEnd | server/routes/messages.js:73-78 | a page read backwards from the end of ascending items is in descending order, and its last entry is no older than any item left behind |
| MessageRoutes.PaginateCursorIsOldest | server/routes/messages.js:73-79 | the cursor is the oldest time on the page, and every item left off is no newer |
| MessageRoutes.PageIsNewestFirst | server/routes/messages.js:59-85 | the listing is newest first and leaves off nothing newer than its cursor |
| MessageRoutes.List | server/routes/messages.js:59-85 | one hit on the address's key; 429 exactly when over 30 in the window; otherwise the listing of the table |
| MessageRoutes.Post | server/routes/messages.js:93-109 | 401 before counting, then 429, then 400 with the validator's text, none storing or broadcasting; otherwise the trimmed text is stored under the token's username, broadcast and returned |
| MessageRoutes.Delete | server/routes/messages.js:115-137 | 401, 429 on the bucket keyed by this id's path, 404 for an unknown id, 403 for a non-author ignoring case, none changing anything; otherwise exactly that row is deleted and `messageDeleted` broadcast, and 501 never occurs |
| ChatRoom.HandleHistory | client/src/components/ChatRoom.jsx:28-37 | the history (empty when not an array) followed by exactly one welcome notification for the local user |
| ChatRoom.AppendAs | client/src/components/ChatRoom.jsx:39-49 | exactly one element is appended at the end, with its `type` forced and the other fields copied |
| ChatRoom.HandleUsersList | client/src/components/ChatRoom.jsx:51 | a non-array becomes the empty list |
| ChatRoom.HandleUserTyping | client/src/components/ChatRoom.jsx:53-64 | no name changes nothing; otherwise the name is present exactly when the event says typing and other names are unaffected; an add appends; no duplicates are created |
| ChatRoom.StopTypingRemovesOne | client/src/components/ChatRoom.jsx:61 | a stop for a present name removes exactly one entry |
| ChatRoom.HandleMessageDeleted | client/src/components/ChatRoom.jsx:66-68 | keeps exactly the messages whose id differs from the deleted one |
| ChatRoom.DeletionKeepsOrder | client/src/components/ChatRoom.jsx:67 | deletion works piecewise, so survivors keep their order |
| ChatRoom.DeletionOfAbsentId | client/src/components/ChatRoom.jsx:67 | deleting an id no message carries changes nothing |
| ChatRoom.Receive | client/src/components/ChatRoom.jsx:20-68 | connect and disconnect set the connection flag and no other event touches it; disconnect clears the typing list; the message list changes only on the five message events, each storing its handler's result; users change only on `usersList`; the typing list stays duplicate-free |
| ChatRoom.TypingUsersStayDistinct | client/src/components/ChatRoom.jsx:53-64 | over any sequence of events, the typing list never holds a name twice |
| ChatRoom.SendMessage | client/src/components/ChatRoom.jsx:101-105 | emits exactly when there is a socket and the text is not blank, and then the trimmed, non-empty text |
| ChatRoom.SentTextReachesServerUnchanged | client/src/components/ChatRoom.jsx:101-105 | what the client emits is never dropped by the server, is accepted unchanged exactly when at most 500 characters, and refused as too long otherwise |
| ChatRoom.HandleTyping | client/src/components/ChatRoom.jsx:107-110 | with a socket, always emits a boolean equal to the argument's truthiness |
| MessageInput.CounterOf | client/src/components/MessageInput.jsx:177-179 | hidden up to 200 characters, grey from 201 to 300, red above 300 |
| MessageInput.SendButtonDisabled | client/src/components/MessageInput.jsx:192 | disabled exactly when the input is disabled or blank; when enabled the text to send is trimmed and non-empty |
| MessageInput.AlternatingExtend | client/src/components/MessageInput.jsx:30-53 | signalling the opposite of the last flag keeps the `onTyping` calls alternating |
| MessageInput.MessageInput.constructor | client/src/components/MessageInput.jsx:5-9 | empty text, not typing, picker closed, no timer, nothing signalled or sent |
| MessageInput.MessageInput.HandleInputChange | client/src/components/MessageInput.jsx:25-54 | typing exactly when the new text is not blank; `true` is signalled only on a start, `false` only when blanking while typing; the timer is armed exactly while typing |
| MessageInput.MessageInput.TypingTimeout | client/src/components/MessageInput.jsx:42-45 | the armed timer's expiry stops typing and signals `false` |
| MessageInput.MessageInput.SendMessage | client/src/components/MessageInput.jsx:61-81 | when the button is enabled, sends the trimmed text, empties the field and stops typing; otherwise changes nothing |
| MessageInput.MessageInput.HandleKeyPress | client/src/components/MessageInput.jsx:83-88 | Enter without Shift sends as the button would: the trimmed text is sent, the field emptied and typing stopped (with a `false` signal if it was on), or nothing changes when the button is disabled; any other key, Shift+Enter included, changes nothing |
| MessageInput.MessageInput.InsertEmoji | client/src/components/MessageInput.jsx:90-97 | the emoji is appended at the end and the picker closes |
| MessageInput.MessageInput.ToggleEmojiPicker | client/src/components/MessageInput.jsx:99-101 | the picker flips |
| LoginForm.UsernameError | client/src/components/LoginForm.jsx:19-29 | nothing while untouched; empty exactly when the trimmed name is acceptable; otherwise the first failing check among empty, short, long, pattern |
| LoginForm.PasswordError | client/src/components/LoginForm.jsx:31-37 | nothing while untouched; empty exactly when acceptable; too short only in register mode |
| LoginForm.IsValid | client/src/components/LoginForm.jsx:39-42 | holds exactly when the trimmed name and the password are acceptable for the mode, whatever was touched |
| LoginForm.Progress | client/src/components/LoginForm.jsx:44 | equals `5 * min(len, 20)`, at most 100, and 100 exactly from 20 characters on |
| LoginForm.Letters | client/src/components/LoginForm.jsx:48 | exactly the ASCII letters of the name |
| LoginForm.Initials | client/src/components/LoginForm.jsx:46-50 | the placeholder exactly when the trimmed name has no ASCII letter; otherwise the first one or two letters in upper case |
| LoginForm.TypeUsername | client/src/components/LoginForm.jsx:181-185 | keeps exactly the first 20 characters of a longer value and all of a short one, and marks the field touched, nothing else |
| LoginForm.TypePassword | client/src/components/LoginForm.jsx:242-245 | stores the value and marks the field touched, nothing else |
| LoginForm.ToggleMode | client/src/components/LoginForm.jsx:74-78 | flips the mode, untouches both fields and clears the error, so no field error shows |
| LoginForm.Submit | client/src/components/LoginForm.jsx:52-59 | marks both fields touched and clears the error; proceeds exactly when the form is valid; a refusal always shows a field error |
| TypingIndicator.GradientIndex | client/src/components/TypingIndicator.jsx:24 | the gradient slot is always one of the eight |
| TypingIndicator.AvatarGradient | client/src/components/TypingIndicator.jsx:7-25 | the loop computes the hash whose shift is taken on 32 bits, so the gradient depends only on the name; the empty name gets the first gradient |
| TypingIndicator.TypingText | client/src/components/TypingIndicator.jsx:27-35 | the singular form for one name, "X et Y" for two, comma-joined then " et " and the last for more |
| TypingIndicator.TwoNamesFollowGeneralRule | client/src/components/TypingIndicator.jsx:30-33 | the two-name sentence equals the general rule |
| TypingIndicator.JoinPlacesEach | client/src/components/TypingIndicator.jsx:33 | `join` contains every part |
| TypingIndicator.OccursBetween | client/src/components/TypingIndicator.jsx:33 | a piece placed between two texts occurs there |
| TypingIndicator.EveryTypistNamed | client/src/components/TypingIndicator.jsx:27-35 | every typing user's name appears in the sentence |
| TypingIndicator.NamedInHead | client/src/components/TypingIndicator.jsx:33 | with three or more names, each but the last appears in the joined head |
| TypingIndicator.ExtraAvatars | client/src/components/TypingIndicator.jsx:63-65 | at most three extra avatars, the users after the first, only when two or more type |
| TypingIndicator.Badge | client/src/components/TypingIndicator.jsx:76-79 | a badge exactly when more than four type, counting the rest |
| TypingIndicator.Render | client/src/components/TypingIndicator.jsx:5-79 | nothing for an empty list; otherwise the first avatar, the sentence with "...", and avatars plus badge account for every typing user |
| StoredAuth.StoredAuthOf | client/src/api/client.js:37-41 | a session exactly when both keys hold non-empty strings |
| StoredAuth.WithSession | client/src/api/client.js:43-46 | a later read returns the saved pair when both parts are non-empty, nothing otherwise; other keys untouched |
| StoredAuth.WithoutSession | client/src/api/client.js:48-51 | a later read finds nothing; other keys untouched |
| StoredAuth.LocalStorage.constructor | client/src/api/client.js:36 | the store starts with the given items |
| StoredAuth.LocalStorage.GetStoredAuth | client/src/api/client.js:37-41 | reads the session from the current items |
| StoredAuth.LocalStorage.SetStoredAuth | client/src/api/client.js:43-46 | writes exactly the two keys, so a read returns the pair |
| StoredAuth.LocalStorage.ClearStoredAuth | client/src/api/client.js:48-51 | removes exactly the two keys, so a read finds nothing |

## Findings

| source | as written | input that shows it | evidently intended | confidence | as-written member | corrected member |
|---|---|---|---|---|---|---|
| server/routes/auth.js:39-55 | `username.length` and `password.length` are undefined on a non-string body field, so both length rules pass; the character check reads `String(username)` | `{"username": 7, "password": "secret1"}` passes validation with a one-character name; `{"username": "alice", "password": 1}` with a one-character password | a username of 2 to 20 characters and a password of at least 6, so a non-string field is refused with 400 | high for the validation outcome; not executed | AuthRoutes.RegisterValidationAsWritten (with AuthRoutes.NumericFieldsSkipLengthRules, AuthRoutes.NumericUsernamesAccepted) | AuthRoutes.RegisterValidation |

## Left out

**Runtime, I/O and frameworks**

- Socket.io transport mechanics, CORS, the server bootstrap and its `count` clamp (server/server.js), and the manual client script server/test-socket.js. These are wiring and I/O.
- The forced close `disconnect(true)` is an abstract action. Its failure is a `closeThrows` parameter.
- The evicted socket's own disconnect is a separate inbound event, which may interleave with later events.
- Concurrency and asynchronous ordering beyond that interleaving are not modelled.
- JWT signing and verification, and bcrypt hashing and comparison, are oracle functions. Their internals, token expiry and the secret are not modelled.
- SQLite engine details are not modelled: WAL pragmas, migrations, the five-minute maintenance prune, signal handlers and `saveAll`.
- `Store.Database.constructor` starts from empty tables. It does not model a database file that already holds rows.
- Errors thrown by SQLite, and the `catch` paths that turn them into the 500 answers ("Erreur interne du serveur", "Erreur serveur"), are not modelled. The same holds for the socket handshake's "Erreur d'authentification" and the 401 "Non autorisé" of `requireAuth`'s catch.
- The only thrown error modelled is the one from `trim` on a non-string socket payload. `Chat.IngestMessage` models it.
- POST and DELETE broadcast unconditionally. The `if (io)` guard for a server without a socket layer is not modelled.
- The `typeof db.deleteMessageById === 'function'` check always holds in the model.
- Fetch-based `login`, `register` and `verify` (client/src/api/client.js:4-34) are HTTP I/O and are not modelled.
- The asynchronous half of LoginForm's `handleSubmit` (lines 58-71) is not modelled: the request, the `localStorage` writes, `onJoin` and the error text from the catch.
- client/src/App.jsx, which handles socket creation and storage-event sync, is not part of this model.
- React rendering, focus handling, effect registration and cleanup, and state batching are not modelled. Each handler is applied to the latest state.
- The 3-second timer of MessageInput.jsx is an explicit `TypingTimeout` event. Real time is not modelled.
- Pure rendering components that only format dates are not part of this model: UsersList.jsx, Message.jsx, MessagesList.jsx and ChatHeader.jsx.
- The first-avatar initial (TypingIndicator.jsx:41) is not modelled. It is `charAt(0).toUpperCase()`, used for display only.
- The chat.js `getRecentMessages` wrapper (lines 159-161) only forwards to the store. `Store.Recent` models it.

**Values and encodings**

- Ids are modelled as natural numbers drawn from counters. The source uses random strings (`generateId`).
- Timestamps are integers. In the source they are ISO-8601 strings.
- GET's `before` filter compares those strings lexicographically. In the model it is an integer comparison, with a blank `before` as None.
- Timestamp ties are not modelled: a new row goes after the rows with an equal timestamp, while SQLite's order among equal timestamps is unspecified.
- The listing's query values are assumed to be strings. Array-valued query parameters and their `toString` are not modelled.
- `limit` arrives already parsed: None stands for NaN or absent.
- Strings are sequences of Unicode scalar values, while JavaScript's `length` and `charCodeAt` count UTF-16 code units. The two agree on text within the Basic Multilingual Plane. Characters above it (emoji) are not modelled as two units.
- Case folding is ASCII only. This matches SQLite's `LOWER`. For JavaScript's `toLowerCase` it is an approximation outside ASCII.
- The white-space set of `trim` is the ECMAScript list of white space and line terminators.
- `TypingIndicator.Hash` computes the sum in unbounded integers where JavaScript uses doubles. The two agree while the running value stays below 2^53, that is, for any name shorter than about two million characters.
- The users-list payload is a set of names. The array order that follows `Map` insertion is not modelled.
- `getStats().connectedUsersList` is keyed by socket, with the same caveat about array order.
- `ChatRoom.HandleUserTyping` receives the name as a string or nothing. A truthy non-string username (a number, say) is not modelled.
- JSON payloads are the `Js.Value` datatype. Numbers are integers, and objects carry no fields. An object is a plain one: arrays, with their own `length` and `String(...)` text, are not modelled.
- `Js.NumberText` writes every digit of an integer. JavaScript prints the shortest digits that round-trip, which differ from the exact ones above 2^53; both are digits only, so the username checks decide alike.
- `AuthRoutes.Login` takes the body fields as strings. A non-string username or password at `/login` is not modelled.
- `AuthRoutes.Register` validates with the intended `AuthRoutes.RegisterValidation`, so a non-string field is refused with 400. With the route's own ladder a numeric username reaches the store. What the store and bcrypt then do with a non-string is library behaviour and is not modelled (see Findings).
- `MessageRoutes.DeletePath` writes a message id as its decimal text, since ids are natural numbers here.
