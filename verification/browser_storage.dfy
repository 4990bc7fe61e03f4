/**
 `localStorage` as an abstract key/value map. The session store keeps two
 entries: the serialized user under `user` and the raw bearer token under `token`.
 Serialization is abstracted: a `user` entry holds the user record itself.
 */
module BrowserStorage {
  import opened JsCore
  import opened Entities

  datatype Stored = UserJson(user: User) | Text(text: string)

  type Storage = map<string, Stored>

  const UserKey: string := "user"
  const TokenKey: string := "token"

  /** `localStorage.getItem('user')`, when it is truthy and holds a serialized user. */
  function StoredUser(s: Storage): (r: Option<User>)
    ensures r.Some? <==> UserKey in s && s[UserKey].UserJson?
    ensures r.Some? ==> s[UserKey] == UserJson(r.value)
  {
    if UserKey in s && s[UserKey].UserJson? then Some(s[UserKey].user) else None
  }

  /** `localStorage.getItem('token')`, when it is truthy (a non-empty string). */
  function StoredToken(s: Storage): (r: Option<string>)
    ensures r.Some? <==> TokenKey in s && s[TokenKey].Text? && Truthy(s[TokenKey].text)
    ensures r.Some? ==> s[TokenKey] == Text(r.value) && r.value != []
  {
    if TokenKey in s && s[TokenKey].Text? && Truthy(s[TokenKey].text) then Some(s[TokenKey].text) else None
  }

  /** Every entry of the client's two keys has the kind the client writes there. */
  predicate WellTyped(s: Storage) {
    && (UserKey in s ==> s[UserKey].UserJson?)
    && (TokenKey in s ==> s[TokenKey].Text?)
  }

  /** The session entry and the credential entry are present together or absent together. */
  predicate Paired(s: Storage) {
    UserKey in s <==> TokenKey in s
  }

  /** `a` and `b` hold the same entries under every key outside `keys`. */
  ghost predicate AgreeOutside(a: Storage, b: Storage, keys: set<string>) {
    forall k :: k !in keys ==> (k in a <==> k in b) && (k in a ==> a[k] == b[k])
  }

  /** `localStorage.removeItem('user'); localStorage.removeItem('token')`, in either order. */
  function ClearSession(s: Storage): (r: Storage)
    ensures UserKey !in r && TokenKey !in r
    ensures AgreeOutside(s, r, {UserKey, TokenKey})
    ensures StoredUser(r).None? && StoredToken(r).None?
  {
    s - {UserKey, TokenKey}
  }
}
