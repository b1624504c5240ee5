/**
 * app/services/session.server.ts: the login session as a key-value store. Signing and
 * serialising the cookie is library code and is not part of this model; the session is the
 * map the library hands out.
 */
module Session {
  import opened Wrappers
  import opened Types

  const UserIdKey := "userId"
  const UserUsernameKey := "userUsername"
  const UserNameKey := "userName"
  const UserEmailKey := "userEmail"

  /** Cookie lifetimes in seconds. */
  const RememberMaxAge := 60 * 60 * 24 * 7
  const SessionMaxAge := 60 * 60 * 1

  /** What the cookie header of a response does to the session. */
  datatype CookieUpdate = Commit(maxAge: nat) | Destroy

  datatype SessionResponse = SessionResponse(location: string, cookie: CookieUpdate)

  /** A session object: a map that `set` updates in place. */
  class SessionStore {
    var data: map<string, string>

    constructor (initial: map<string, string>)
      ensures data == initial
    {
      data := initial;
    }

    /** Stores a value under a key. */
    method Set(key: string, value: string)
      modifies this
      ensures data == old(data)[key := value]
    {
      data := data[key := value];
    }
  }

  /** The session map after the four writes of a login: id, username, name and email. */
  function WithUser(data: map<string, string>, user: User): (r: map<string, string>)
    ensures r.Keys == data.Keys + {UserIdKey, UserUsernameKey, UserNameKey, UserEmailKey}
    ensures r[UserIdKey] == user.id && r[UserUsernameKey] == user.username
    ensures r[UserNameKey] == user.name && r[UserEmailKey] == user.email
    ensures forall k :: k in data && k !in {UserIdKey, UserUsernameKey, UserNameKey, UserEmailKey} ==> r[k] == data[k]
  {
    data[UserIdKey := user.id][UserUsernameKey := user.username][UserNameKey := user.name][UserEmailKey := user.email]
  }

  /** The cookie lifetime the remember-me choice selects. */
  function CookieMaxAge(remember: bool): (seconds: nat)
    ensures remember ==> seconds == 604800
    ensures !remember ==> seconds == 3600
  {
    if remember then RememberMaxAge else SessionMaxAge
  }

  /** `createUserSession`: store the user in the session and redirect with a fresh cookie. */
  method CreateUserSession(session: SessionStore, remember: bool, redirectUrl: Option<string>, user: User)
    returns (response: SessionResponse)
    modifies session
    ensures session.data == WithUser(old(session.data), user)
    ensures response.location == OrElse(redirectUrl, "/")
    ensures response.cookie == Commit(CookieMaxAge(remember))
  {
    session.Set(UserIdKey, user.id);
    session.Set(UserUsernameKey, user.username);
    session.Set(UserNameKey, user.name);
    session.Set(UserEmailKey, user.email);
    response := SessionResponse(OrElse(redirectUrl, "/"), Commit(CookieMaxAge(remember)));
  }

  /** The value stored under a key; absent when the key was never set. */
  function Lookup(data: map<string, string>, key: string): (v: Option<string>)
    ensures v.Some? <==> key in data
    ensures v.Some? ==> v.value == data[key]
  {
    if key in data then Some(data[key]) else None
  }

  /** `getUserId` */
  function GetUserId(data: map<string, string>): (id: Option<string>)
    ensures id.Some? <==> UserIdKey in data
    ensures id.Some? ==> id.value == data[UserIdKey]
  {
    Lookup(data, UserIdKey)
  }

  /** `getUserFromSession`: no user unless a non-empty id is stored. */
  function GetUserFromSession(data: map<string, string>): (u: Option<SessionUser>)
    ensures u.Some? <==> UserIdKey in data && data[UserIdKey] != []
    ensures u.Some? ==> (u.value.id == data[UserIdKey]
                         && u.value.username == Lookup(data, UserUsernameKey)
                         && u.value.name == Lookup(data, UserNameKey)
                         && u.value.email == Lookup(data, UserEmailKey))
  {
    match GetUserId(data)
    case None => None
    case Some(id) =>
      if id == [] then None
      else Some(SessionUser(id, Lookup(data, UserUsernameKey), Lookup(data, UserNameKey), Lookup(data, UserEmailKey)))
  }

  /** `logout`: destroy the session and send the browser to the login page. */
  function Logout(data: map<string, string>): (r: SessionResponse)
    ensures r.location == "/login" && r.cookie.Destroy?
  {
    SessionResponse("/login", Destroy)
  }

  /**
   * Round trip: the user read back after a login has the stored id, username, name and
   * email, whatever the session held before; roles and permissions are not stored.
   */
  lemma LoginRoundTrip(data: map<string, string>, user: User)
    requires user.id != []
    ensures GetUserFromSession(WithUser(data, user))
         == Some(SessionUser(user.id, Some(user.username), Some(user.name), Some(user.email)))
    ensures GetUserId(WithUser(data, user)) == Some(user.id)
  {
  }

  /** A login with an empty id is forgotten at once: the next request sees no user. */
  lemma EmptyIdIsNoUser(data: map<string, string>, user: User)
    requires user.id == []
    ensures GetUserFromSession(WithUser(data, user)) == None
  {
  }
}
