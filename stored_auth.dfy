/**
 * The browser-side session: the token and user name kept under two keys of `localStorage`,
 * read back only when both are present and non-empty.
 */
module StoredAuth {
  import opened Wrappers

  const TokenKey := "auth_token"
  const UsernameKey := "auth_username"

  /** A saved session. */
  datatype Session = Session(token: string, username: string)

  /** `getStoredAuth` on a given store content: both items must be non-empty strings. */
  function StoredAuthOf(items: map<string, string>): (r: Option<Session>)
    ensures r.Some? <==>
      TokenKey in items && UsernameKey in items && items[TokenKey] != "" && items[UsernameKey] != ""
    ensures r.Some? ==> r.value == Session(items[TokenKey], items[UsernameKey])
  {
    if TokenKey in items && UsernameKey in items && items[TokenKey] != "" && items[UsernameKey] != ""
    then Some(Session(items[TokenKey], items[UsernameKey]))
    else None
  }

  /** The store after `setStoredAuth`: a later read returns that session when both parts are non-empty. */
  function WithSession(items: map<string, string>, token: string, username: string): (r: map<string, string>)
    ensures token != "" && username != "" ==> StoredAuthOf(r) == Some(Session(token, username))
    ensures token == "" || username == "" ==> StoredAuthOf(r) == None
    ensures forall k :: k != TokenKey && k != UsernameKey ==>
      (k in r <==> k in items) && (k in r ==> r[k] == items[k])
  {
    items[TokenKey := token][UsernameKey := username]
  }

  /** The store after `clearStoredAuth`: a later read finds nothing, and other keys stay. */
  function WithoutSession(items: map<string, string>): (r: map<string, string>)
    ensures StoredAuthOf(r) == None
    ensures TokenKey !in r && UsernameKey !in r
    ensures forall k :: k != TokenKey && k != UsernameKey ==>
      (k in r <==> k in items) && (k in r ==> r[k] == items[k])
  {
    items - {TokenKey, UsernameKey}
  }

  class LocalStorage {
    var items: map<string, string>

    constructor(initial: map<string, string>)
      ensures items == initial
    {
      items := initial;
    }

    function GetStoredAuth(): (r: Option<Session>)
      reads this
      ensures r == StoredAuthOf(items)
    {
      StoredAuthOf(items)
    }

    method SetStoredAuth(token: string, username: string)
      modifies this
      ensures items == WithSession(old(items), token, username)
    {
      items := items[TokenKey := token];
      items := items[UsernameKey := username];
    }

    method ClearStoredAuth()
      modifies this
      ensures items == WithoutSession(old(items))
    {
      items := items - {TokenKey};
      items := items - {UsernameKey};
    }
  }
}
