/**
 * The message/user store of server/database/db.js. The SQLite `messages` table is a
 * sequence kept in ascending timestamp order (the order every query reads it in), the
 * `users` table a sequence in insertion order. Ids are drawn from counters, so they are
 * fresh and unique; timestamps are integers supplied by the caller's clock.
 */
module Store {
  import opened Wrappers
  import opened Text
  import opened Seqs

  type MsgId = nat
  type UserId = nat

  /** The `type` column: 'message' or 'notification'. */
  datatype Kind = MessageKind | NotificationKind

  /** A row of `messages`: id, username, message, timestamp, type. */
  datatype ChatMessage = ChatMessage(id: MsgId, username: string, text: string, timestamp: int, kind: Kind)

  /** A row of `users`: id, username, password (a bcrypt hash), createdAt, lastLogin. */
  datatype User = User(id: UserId, username: string, password: string, createdAt: int, lastLogin: Option<int>)

  /** The number of messages the table is pruned back to. */
  const MaxMessages: nat := 1000

  ghost predicate Sorted(s: seq<ChatMessage>) {
    forall i, j :: 0 <= i < j < |s| ==> s[i].timestamp <= s[j].timestamp
  }

  ghost predicate DistinctIds(s: seq<ChatMessage>) {
    forall i, j :: 0 <= i < j < |s| ==> s[i].id != s[j].id
  }

  /** Where a new row lands in timestamp order: after every row that is not newer than it. */
  function InsertPos(s: seq<ChatMessage>, m: ChatMessage): (p: nat)
    ensures p <= |s|
    ensures forall i :: 0 <= i < p ==> s[i].timestamp <= m.timestamp
    ensures p < |s| ==> m.timestamp < s[p].timestamp
  {
    if s == [] || m.timestamp < s[0].timestamp then 0 else 1 + InsertPos(s[1..], m)
  }

  /** `INSERT INTO messages`: the table seen in timestamp order, with the new row in place. */
  function Insert(s: seq<ChatMessage>, m: ChatMessage): seq<ChatMessage> {
    var p := InsertPos(s, m);
    s[..p] + [m] + s[p..]
  }

  /** The row at index `k` of the table after the insertion. */
  lemma InsertAt(s: seq<ChatMessage>, m: ChatMessage, k: nat)
    requires k <= |s|
    ensures var p := InsertPos(s, m);
      Insert(s, m)[k] == if k < p then s[k] else if k == p then m else s[k - 1]
  {
  }

  /** The insertion keeps the table ordered by timestamp. */
  lemma InsertSorted(s: seq<ChatMessage>, m: ChatMessage)
    requires Sorted(s)
    ensures Sorted(Insert(s, m))
  {
    var p := InsertPos(s, m);
    var r := Insert(s, m);
    forall i, j | 0 <= i < j < |r| ensures r[i].timestamp <= r[j].timestamp {
      InsertAt(s, m, i);
      InsertAt(s, m, j);
      if j < p {
        assert r[i] == s[i] && r[j] == s[j];
      } else if j == p {
        assert r[i] == s[i];
      } else if i < p {
        assert r[i] == s[i] && r[j] == s[j - 1];
      } else if i == p {
        assert r[j] == s[j - 1] && m.timestamp < s[p].timestamp;
      } else {
        assert r[i] == s[i - 1] && r[j] == s[j - 1];
      }
    }
  }

  /** The insertion adds exactly the one row and keeps every other. */
  lemma InsertAddsOne(s: seq<ChatMessage>, m: ChatMessage)
    ensures |Insert(s, m)| == |s| + 1
    ensures multiset(Insert(s, m)) == multiset(s) + multiset{m}
  {
    var p := InsertPos(s, m);
    assert s == s[..p] + s[p..];
  }

  /**
   * The prune statement: delete the `MAX(count - 1000, 0)` rows that come first in
   * ascending timestamp order.
   */
  function Pruned(s: seq<ChatMessage>): seq<ChatMessage> {
    s[Max(|s| - MaxMessages, 0)..]
  }

  /**
   * After a prune at most 1000 rows remain, exactly `max(count - 1000, 0)` were deleted,
   * and no deleted row is newer than a kept one.
   */
  lemma PrunedKeepsNewest(s: seq<ChatMessage>)
    requires Sorted(s)
    ensures |Pruned(s)| == Min(|s|, MaxMessages)
    ensures |s| - |Pruned(s)| == Max(|s| - MaxMessages, 0)
    ensures forall x, y :: x in s[..|s| - |Pruned(s)|] && y in Pruned(s) ==> x.timestamp <= y.timestamp
    ensures s == s[..|s| - |Pruned(s)|] + Pruned(s)
  {
    var k := |s| - |Pruned(s)|;
    forall x, y | x in s[..k] && y in Pruned(s) ensures x.timestamp <= y.timestamp {
      var i :| 0 <= i < k && s[..k][i] == x;
      var j :| 0 <= j < |s| - k && Pruned(s)[j] == y;
      assert s[i] == x && s[k + j] == y;
    }
  }

  /** `SELECT ... ORDER BY timestamp DESC LIMIT ?` followed by `.reverse()`. */
  function Recent(s: seq<ChatMessage>, count: int): seq<ChatMessage> {
    var rowsDesc := Reverse(s)[..Min(Max(0, count), |s|)];
    Reverse(rowsDesc)
  }

  /** The recent rows are the `min(max(0, count), size)` newest, oldest first. */
  lemma RecentIsNewestSuffix(s: seq<ChatMessage>, count: int)
    ensures var k := Min(Max(0, count), |s|);
      Recent(s, count) == s[|s| - k..]
  {
    var k := Min(Max(0, count), |s|);
    var d := Reverse(s)[..k];
    var r := Reverse(d);
    assert |r| == k;
    forall j | 0 <= j < k ensures r[j] == s[|s| - k + j] {
      assert r[j] == d[k - 1 - j];
      assert d[k - 1 - j] == Reverse(s)[k - 1 - j];
    }
  }

  /** `all.find(m => m.id === id)`: the first row with that id. */
  function FindMessage(s: seq<ChatMessage>, id: MsgId): (r: Option<ChatMessage>)
    ensures r.Some? ==> r.value in s && r.value.id == id
    ensures r.None? <==> !HasId(s, id)
  {
    if s == [] then None
    else if s[0].id == id then Some(s[0])
    else
      var r := FindMessage(s[1..], id);
      assert HasId(s[1..], id) ==> HasId(s, id) by {
        if HasId(s[1..], id) {
          var i :| 0 <= i < |s[1..]| && s[1..][i].id == id;
          assert s[i + 1].id == id;
        }
      }
      assert HasId(s, id) ==> HasId(s[1..], id) by {
        if HasId(s, id) {
          var i :| 0 <= i < |s| && s[i].id == id;
          assert i != 0 && s[1..][i - 1].id == id;
        }
      }
      r
  }

  /** The `WHERE id = ?` of the delete statement. */
  function WithoutId(s: seq<ChatMessage>, id: MsgId): seq<ChatMessage> {
    Filter(s, (m: ChatMessage) => m.id != id)
  }

  predicate HasId(s: seq<ChatMessage>, id: MsgId) {
    exists i :: 0 <= i < |s| && s[i].id == id
  }

  /**
   * Deleting by id removes exactly the row with that id, leaving every other row in its
   * place; an unknown id leaves the table as it was.
   */
  lemma WithoutIdRemovesOne(s: seq<ChatMessage>, id: MsgId)
    requires DistinctIds(s)
    ensures HasId(s, id) ==> exists i :: 0 <= i < |s| && s[i].id == id && WithoutId(s, id) == s[..i] + s[i + 1..]
    ensures !HasId(s, id) ==> WithoutId(s, id) == s
  {
    var p := (m: ChatMessage) => m.id != id;
    if HasId(s, id) {
      var i :| 0 <= i < |s| && s[i].id == id;
      FilterDropsOne(s, i, p);
    } else {
      FilterAll(s, p);
    }
  }

  /** `getUserByUsername`: the first row whose username equals `name` ignoring ASCII case. */
  function FindUser(users: seq<User>, name: string): (r: Option<User>)
    ensures r.Some? ==> r.value in users && EqualsIgnoreCase(r.value.username, name)
    ensures r.None? <==> forall u :: u in users ==> !EqualsIgnoreCase(u.username, name)
  {
    if users == [] then None
    else if EqualsIgnoreCase(users[0].username, name) then Some(users[0])
    else FindUser(users[1..], name)
  }

  /** The `UPDATE users SET lastLogin = ? WHERE LOWER(username) = LOWER(?)` statement. */
  function Touch(users: seq<User>, name: string, now: int): (r: seq<User>)
    ensures |r| == |users|
  {
    seq(|users|, i requires 0 <= i < |users| =>
      if EqualsIgnoreCase(users[i].username, name) then users[i].(lastLogin := Some(now)) else users[i])
  }

  /**
   * After the update, looking the name up again finds a user refreshed with this login
   * time exactly when some row matched, with the id and username of the row found before.
   */
  lemma {:induction false} TouchRefreshes(users: seq<User>, name: string, now: int)
    ensures FindUser(Touch(users, name, now), name).Some? <==> FindUser(users, name).Some?
    ensures FindUser(users, name).Some? ==>
      FindUser(Touch(users, name, now), name) == Some(FindUser(users, name).value.(lastLogin := Some(now)))
  {
    if users != [] {
      assert Touch(users, name, now)[1..] == Touch(users[1..], name, now);
      TouchRefreshes(users[1..], name, now);
    }
  }

  /** The (id, username) pairs of the user rows: what a handshake can resolve a token to. */
  function UserKeys(users: seq<User>): set<(UserId, string)> {
    set i | 0 <= i < |users| :: (users[i].id, users[i].username)
  }

  /** Existing rows keep their id and username (rows are never deleted or renamed). */
  ghost predicate KeysKept(before: seq<User>, after: seq<User>) {
    |before| <= |after| &&
    forall i :: 0 <= i < |before| ==> after[i].id == before[i].id && after[i].username == before[i].username
  }

  lemma KeysKeptSubset(before: seq<User>, after: seq<User>)
    requires KeysKept(before, after)
    ensures UserKeys(before) <= UserKeys(after)
  {
    forall k | k in UserKeys(before) ensures k in UserKeys(after) {
      var i :| 0 <= i < |before| && k == (before[i].id, before[i].username);
      assert k == (after[i].id, after[i].username);
    }
  }

  /** Ids and usernames are both unique, as the PRIMARY KEY and UNIQUE constraints demand. */
  ghost predicate UniqueUsers(users: seq<User>) {
    forall i, j :: 0 <= i < j < |users| ==> users[i].id != users[j].id && users[i].username != users[j].username
  }

  /** In a table with unique ids and usernames, a resolved identity's id determines its name and back. */
  lemma KeysConsistent(users: seq<User>, a: (UserId, string), b: (UserId, string))
    requires UniqueUsers(users)
    requires a in UserKeys(users) && b in UserKeys(users)
    ensures a.0 == b.0 <==> a.1 == b.1
  {
    var i :| 0 <= i < |users| && a == (users[i].id, users[i].username);
    var j :| 0 <= j < |users| && b == (users[j].id, users[j].username);
    if i < j {
      assert users[i].id != users[j].id && users[i].username != users[j].username;
    } else if j < i {
      assert users[j].id != users[i].id && users[j].username != users[i].username;
    }
  }

  class Database {
    var messages: seq<ChatMessage>
    var users: seq<User>
    var nextMessageId: MsgId
    var nextUserId: UserId

    /** Everything but the size bound, which holds again once a prune has run. */
    ghost predicate ValidExceptSize()
      reads this
    {
      && Sorted(messages)
      && DistinctIds(messages)
      && (forall i :: 0 <= i < |messages| ==> messages[i].id < nextMessageId)
      && UniqueUsers(users)
      && (forall i :: 0 <= i < |users| ==> users[i].id < nextUserId)
    }

    ghost predicate Valid()
      reads this
    {
      ValidExceptSize() && |messages| <= MaxMessages
    }

    constructor ()
      ensures Valid() && messages == [] && users == []
    {
      messages, users := [], [];
      nextMessageId, nextUserId := 0, 0;
    }

    /** `pruneMessagesIfNeeded`: trims the table back to its 1000 newest rows. */
    method PruneMessagesIfNeeded()
      requires ValidExceptSize()
      modifies this
      ensures Valid()
      ensures messages == Pruned(old(messages))
      ensures users == old(users) && nextMessageId == old(nextMessageId) && nextUserId == old(nextUserId)
    {
      messages := Pruned(messages);
    }

    /**
     * `addMessage`: a fresh row of type 'message' carrying the given username and text is
     * inserted and the table pruned, in one transaction; the row is returned.
     */
    method AddMessage(username: string, text: string, now: int) returns (msg: ChatMessage)
      requires Valid()
      modifies this
      ensures Valid()
      ensures msg == ChatMessage(old(nextMessageId), username, text, now, MessageKind)
      ensures messages == Pruned(Insert(old(messages), msg))
      ensures users == old(users) && nextUserId == old(nextUserId)
    {
      msg := ChatMessage(nextMessageId, username, text, now, MessageKind);
      InsertSorted(messages, msg);
      InsertAddsOne(messages, msg);
      InsertFresh(messages, msg);
      messages := Insert(messages, msg);
      nextMessageId := nextMessageId + 1;
      PruneMessagesIfNeeded();
    }

    /** `getAllMessages`: every row, in ascending timestamp order. */
    function AllMessages(): (r: seq<ChatMessage>)
      requires Valid()
      reads this
      ensures Sorted(r) && multiset(r) == multiset(messages)
    {
      messages
    }

    /** `deleteMessageById`: true exactly when a row with that id existed; it alone is removed. */
    method DeleteMessageById(id: MsgId) returns (deleted: bool)
      requires Valid()
      modifies this
      ensures Valid()
      ensures deleted == HasId(old(messages), id)
      ensures messages == WithoutId(old(messages), id)
      ensures users == old(users) && nextMessageId == old(nextMessageId) && nextUserId == old(nextUserId)
    {
      deleted := HasId(messages, id);
      WithoutIdRemovesOne(messages, id);
      messages := WithoutId(messages, id);
    }

    /**
     * `createUser`: inserts a fresh user; when the (case-sensitive) UNIQUE constraint on
     * username fails, nothing is inserted and the case-insensitive lookup result is returned.
     */
    method CreateUser(username: string, hashedPassword: string, now: int) returns (user: User)
      requires Valid()
      modifies this
      ensures Valid() && KeysKept(old(users), users)
      ensures messages == old(messages) && nextMessageId == old(nextMessageId)
      ensures (exists i :: 0 <= i < |old(users)| && old(users)[i].username == username) ==>
        users == old(users) && Some(user) == FindUser(old(users), username)
      ensures (forall i :: 0 <= i < |old(users)| ==> old(users)[i].username != username) ==>
        user == User(old(nextUserId), username, hashedPassword, now, None) && users == old(users) + [user]
    {
      if i :| 0 <= i < |users| && users[i].username == username {
        assert users[i] in users && EqualsIgnoreCase(users[i].username, username);
        user := FindUser(users, username).value;
      } else {
        user := User(nextUserId, username, hashedPassword, now, None);
        users := users + [user];
        nextUserId := nextUserId + 1;
      }
    }

    /**
     * `updateUserLastLogin`: stamps every case-insensitive match with `now`; returns the
     * refreshed user when a row matched and None otherwise.
     */
    method UpdateUserLastLogin(username: string, now: int) returns (r: Option<User>)
      requires Valid()
      modifies this
      ensures Valid() && KeysKept(old(users), users)
      ensures users == Touch(old(users), username, now)
      ensures messages == old(messages) && nextMessageId == old(nextMessageId) && nextUserId == old(nextUserId)
      ensures r == if FindUser(old(users), username).Some? then FindUser(users, username) else None
    {
      var matched := FindUser(users, username).Some?;
      users := Touch(users, username, now);
      r := if matched then FindUser(users, username) else None;
    }
  }

  /** A row whose id is newer than every stored id keeps the ids distinct once inserted. */
  lemma InsertFresh(s: seq<ChatMessage>, m: ChatMessage)
    requires DistinctIds(s)
    requires forall i :: 0 <= i < |s| ==> s[i].id < m.id
    ensures DistinctIds(Insert(s, m))
    ensures forall i :: 0 <= i < |Insert(s, m)| ==> Insert(s, m)[i].id <= m.id
  {
    var p := InsertPos(s, m);
    var r := Insert(s, m);
    forall i, j | 0 <= i < j < |r| ensures r[i].id != r[j].id {
      var si := if i < p then i else i - 1;
      var sj := if j <= p then j else j - 1;
      if i == p {
        assert r[j] == s[sj];
      } else if j == p {
        assert r[i] == s[si];
      } else {
        assert r[i] == s[si] && r[j] == s[sj] && si < sj;
      }
    }
  }
}
