/**
 * The chat room's client-side state (`messages`, `users`, `typingUsers`, `isConnected`)
 * and the socket handlers that compute each new value from the previous one, plus the two
 * outgoing actions `sendMessage` and `handleTyping`.
 */
module ChatRoom {
  import opened Wrappers
  import opened Text
  import opened Js
  import opened Seqs
  import Store
  import Chat

  /** A displayed message's id: a stored row id, or the synthetic `welcome_<ms>` id. */
  datatype EntryId = Stored(n: Store.MsgId) | Welcome(at: int)

  /** One element of the `messages` array; join/leave notices carry no id. */
  datatype Entry = Entry(id: Option<EntryId>, kind: Store.Kind, username: Option<string>, text: string, timestamp: int)

  datatype RoomState = RoomState(messages: seq<Entry>, users: seq<string>, typingUsers: seq<string>, isConnected: bool)

  /** A payload as the handlers receive it; `None` stands for a value that is not an array. */
  datatype ClientEvent =
    | Connected
    | Disconnected
    | History(history: Option<seq<Entry>>)
    | Message(data: Entry)
    | UserJoined(notice: Entry)
    | UserLeft(notice: Entry)
    | UsersList(list: Option<seq<string>>)
    | UserTyping(name: Option<string>, isTyping: Value)
    | MessageDeleted(id: Store.MsgId)

  function WelcomeText(username: string): string {
    "Bienvenue dans le chat, " + username + " ! \U{1F44B}"
  }

  /**
   * `handleHistory`: the history (empty when it is not an array) followed by exactly one
   * welcome notification addressed to the local user.
   */
  function HandleHistory(history: Option<seq<Entry>>, username: string, now: int): (r: seq<Entry>)
    ensures history.None? ==> |r| == 1
    ensures history.Some? ==> |r| == |history.value| + 1 && r[..|history.value|] == history.value
    ensures r[|r| - 1].id == Some(Welcome(now)) && r[|r| - 1].kind == Store.NotificationKind
    ensures r[|r| - 1].text == WelcomeText(username)
  {
    var base := if history.Some? then history.value else [];
    base + [Entry(Some(Welcome(now)), Store.NotificationKind, None, WelcomeText(username), now)]
  }

  /** `{ ...data, type }` appended at the end: one new element, every earlier one kept. */
  function AppendAs(prev: seq<Entry>, data: Entry, kind: Store.Kind): (r: seq<Entry>)
    ensures |r| == |prev| + 1 && r[..|prev|] == prev
    ensures r[|prev|].kind == kind
    ensures r[|prev|].id == data.id && r[|prev|].username == data.username
    ensures r[|prev|].text == data.text && r[|prev|].timestamp == data.timestamp
  {
    prev + [data.(kind := kind)]
  }

  /** `handleUsersList`: a non-array becomes the empty list. */
  function HandleUsersList(list: Option<seq<string>>): (r: seq<string>)
    ensures list.None? ==> r == []
    ensures list.Some? ==> r == list.value
  {
    if list.Some? then list.value else []
  }

  /**
   * `handleUserTyping`: with no name nothing changes; otherwise the name is present afterwards
   * exactly when the event says it is typing, and every other name keeps its membership.
   */
  function HandleUserTyping(prev: seq<string>, name: Option<string>, isTyping: Value): (r: seq<string>)
    ensures name.None? || name.value == "" ==> r == prev
    ensures name.Some? && name.value != "" ==>
      forall x :: x in r <==> (if x == name.value then Truthy(isTyping) else x in prev)
    ensures name.Some? && name.value != "" && Truthy(isTyping) && name.value !in prev ==>
      |r| == |prev| + 1 && r[..|prev|] == prev
    ensures name.Some? && name.value != "" && Truthy(isTyping) == (name.value in prev) ==> r == prev
    ensures NoDuplicates(prev) ==> NoDuplicates(r)
  {
    if name.None? || name.value == "" then prev
    else
      var n := name.value;
      var typing := Truthy(isTyping);
      if typing && n !in prev then
        var r := prev + [n];
        assert NoDuplicates(prev) ==> NoDuplicates(r) by {
          if NoDuplicates(prev) {
            forall i, j | 0 <= i < j < |r| ensures r[i] != r[j] {
              if j == |prev| {
                assert r[i] == prev[i];
              } else {
                assert r[i] == prev[i] && r[j] == prev[j];
              }
            }
          }
        }
        r
      else if !typing && n in prev then
        var p := (u: string) => u != n;
        FilterMembers(prev, p);
        var r := Filter(prev, p);
        assert NoDuplicates(prev) ==> NoDuplicates(r) by {
          if NoDuplicates(prev) {
            FilterNoDuplicates(prev, p);
          }
        }
        r
      else prev
  }

  /** With a duplicate-free list, a "stopped typing" event for a present name removes exactly one element. */
  lemma StopTypingRemovesOne(prev: seq<string>, name: string, isTyping: Value)
    requires NoDuplicates(prev) && name != "" && name in prev && !Truthy(isTyping)
    ensures var r := HandleUserTyping(prev, Some(name), isTyping);
      |r| == |prev| - 1 && name !in r
  {
    var p := (u: string) => u != name;
    var i :| 0 <= i < |prev| && prev[i] == name;
    FilterDropsOne(prev, i, p);
  }

  /** `handleMessageDeleted`: keeps every message whose id differs from the deleted one. */
  function HandleMessageDeleted(prev: seq<Entry>, id: Store.MsgId): (r: seq<Entry>)
    ensures |r| <= |prev|
    ensures forall e :: e in r <==> e in prev && e.id != Some(Stored(id))
  {
    var p := (e: Entry) => e.id != Some(Stored(id));
    FilterMembers(prev, p);
    Filter(prev, p)
  }

  /** Deletion works piecewise, so the surviving messages keep their relative order. */
  lemma DeletionKeepsOrder(a: seq<Entry>, b: seq<Entry>, id: Store.MsgId)
    ensures HandleMessageDeleted(a + b, id) == HandleMessageDeleted(a, id) + HandleMessageDeleted(b, id)
  {
    FilterAppend(a, b, (e: Entry) => e.id != Some(Stored(id)));
  }

  /** A deletion event for an id no displayed message carries changes nothing. */
  lemma DeletionOfAbsentId(prev: seq<Entry>, id: Store.MsgId)
    requires forall e :: e in prev ==> e.id != Some(Stored(id))
    ensures HandleMessageDeleted(prev, id) == prev
  {
    FilterAll(prev, (e: Entry) => e.id != Some(Stored(id)));
  }

  /** The functional setter each socket handler installs. */
  function Receive(st: RoomState, ev: ClientEvent, username: string, now: int): (r: RoomState)
    ensures ev.Disconnected? ==> !r.isConnected && r.typingUsers == []
    ensures ev.Connected? ==> r.isConnected
    ensures !ev.UserTyping? && !ev.Disconnected? ==> r.typingUsers == st.typingUsers
    ensures !ev.UsersList? ==> r.users == st.users
    ensures NoDuplicates(st.typingUsers) ==> NoDuplicates(r.typingUsers)
    ensures !ev.Connected? && !ev.Disconnected? ==> r.isConnected == st.isConnected
    ensures ev.Connected? || ev.Disconnected? || ev.UsersList? || ev.UserTyping? ==> r.messages == st.messages
    ensures ev.History? ==> r.messages == HandleHistory(ev.history, username, now)
    ensures ev.Message? ==> r.messages == AppendAs(st.messages, ev.data, Store.MessageKind)
    ensures ev.UserJoined? ==> r.messages == AppendAs(st.messages, ev.notice, Store.NotificationKind)
    ensures ev.UserLeft? ==> r.messages == AppendAs(st.messages, ev.notice, Store.NotificationKind)
    ensures ev.MessageDeleted? ==> r.messages == HandleMessageDeleted(st.messages, ev.id)
  {
    match ev
    case Connected => st.(isConnected := true)
    case Disconnected => st.(isConnected := false, typingUsers := [])
    case History(h) => st.(messages := HandleHistory(h, username, now))
    case Message(m) => st.(messages := AppendAs(st.messages, m, Store.MessageKind))
    case UserJoined(n) => st.(messages := AppendAs(st.messages, n, Store.NotificationKind))
    case UserLeft(n) => st.(messages := AppendAs(st.messages, n, Store.NotificationKind))
    case UsersList(l) => st.(users := HandleUsersList(l))
    case UserTyping(name, t) => st.(typingUsers := HandleUserTyping(st.typingUsers, name, t))
    case MessageDeleted(id) => st.(messages := HandleMessageDeleted(st.messages, id))
  }

  /** The state after a sequence of events, in arrival order. */
  function ReceiveAll(st: RoomState, evs: seq<ClientEvent>, username: string, now: int): RoomState
    decreases |evs|
  {
    if evs == [] then st else ReceiveAll(Receive(st, evs[0], username, now), evs[1..], username, now)
  }

  /** Starting from an empty list, `typingUsers` never holds the same name twice. */
  lemma {:induction false} TypingUsersStayDistinct(st: RoomState, evs: seq<ClientEvent>, username: string, now: int)
    requires NoDuplicates(st.typingUsers)
    ensures NoDuplicates(ReceiveAll(st, evs, username, now).typingUsers)
    decreases |evs|
  {
    if evs != [] {
      TypingUsersStayDistinct(Receive(st, evs[0], username, now), evs[1..], username, now);
    }
  }

  /**
   * `sendMessage`: the text emitted as `{ message }`, if any. A missing text counts as empty;
   * nothing is emitted without a socket or when the trimmed text is empty.
   */
  function SendMessage(messageText: Option<string>, hasSocket: bool): (r: Option<string>)
    ensures r.Some? <==> hasSocket && messageText.Some? && !Blank(messageText.value)
    ensures r.Some? ==> r.value == Trim(messageText.value) && r.value != []
  {
    var text := Trim(if messageText.Some? then messageText.value else "");
    if !hasSocket || text == [] then None else Some(text)
  }

  /**
   * What the server does with a text the client sent: it is never dropped, and it is accepted
   * unchanged exactly when it fits in 500 characters.
   */
  lemma SentTextReachesServerUnchanged(messageText: Option<string>, hasSocket: bool)
    requires SendMessage(messageText, hasSocket).Some?
    ensures var t := SendMessage(messageText, hasSocket).value;
      var ingest := Chat.IngestMessage(Str(t));
      && ingest != Chat.Drop
      && (|t| <= Chat.MaxMessageLength <==> ingest == Chat.Accept(t))
      && (|t| > Chat.MaxMessageLength <==> ingest == Chat.Reject(Chat.TooLongMessage))
  {
    var t := SendMessage(messageText, hasSocket).value;
    TrimIdempotent(messageText.value);
  }

  /** `handleTyping`: the `isTyping` flag emitted, always a boolean, or nothing without a socket. */
  function HandleTyping(isTyping: Value, hasSocket: bool): (r: Option<bool>)
    ensures r.Some? <==> hasSocket
    ensures r.Some? ==> (r.value <==> Truthy(isTyping))
  {
    if hasSocket then Some(Truthy(isTyping)) else None
  }
}
