/** The local account table (`users` in `users.db`): username is the primary
    key, the role defaults to `'user'`. The password hash (`sha256` hex
    digest in the source) is a function supplied by the caller, about which
    nothing is assumed. */
module Credentials {

  /** One row of `users`, keyed by its username. */
  datatype Credential = Credential(passwordHash: string, role: string, createdAt: string)

  type Store = map<string, Credential>

  const DefaultRole := "user"
  const AdminName := "admin"
  const AdminPassword := "admin"
  const AdminRole := "admin"

  /** The login query finds a row: the username is stored with the hash of
      the given password. */
  predicate Authenticate(store: Store, username: string, password: string, hash: string -> string): (r: bool)
    ensures r ==> username in store
  {
    username in store && store[username].passwordHash == hash(password)
  }

  /** `CreateUserDialog.create_user`: the INSERT fails on the primary key
      when the username is taken (`False`), else it adds one row with the
      default role (`True`). */
  function CreateUser(store: Store, username: string, password: string, hash: string -> string, now: string)
    : (r: (Store, bool))
    ensures r.1 <==> username !in store
    ensures !r.1 ==> r.0 == store
    ensures r.1 ==> r.0.Keys == store.Keys + {username}
    ensures r.1 ==> r.0[username] == Credential(hash(password), DefaultRole, now)
    ensures forall u | u in store :: u in r.0 && r.0[u] == store[u]
    ensures |r.0| == |store| + (if r.1 then 1 else 0)
  {
    if username in store then (store, false)
    else (store[username := Credential(hash(password), DefaultRole, now)], true)
  }

  /** `create_default_admin`: inserts `admin` with the hash of `admin` and the
      role `admin`. It is only called on an empty table. */
  function CreateDefaultAdmin(store: Store, hash: string -> string, now: string): (r: Store)
    requires |store| == 0
    ensures |r| == 1
    ensures AdminName in r && r[AdminName] == Credential(hash(AdminPassword), AdminRole, now)
    ensures Authenticate(r, AdminName, AdminPassword, hash)
  {
    map[AdminName := Credential(hash(AdminPassword), AdminRole, now)]
  }

  /** After a successful account creation the new user logs in with any
      password whose hash equals the chosen one's, and with no other; every
      other user's logins are unchanged. */
  lemma CreateThenAuthenticate(store: Store, username: string, password: string, hash: string -> string,
                               now: string, user: string, attempt: string)
    requires username !in store
    ensures var after := CreateUser(store, username, password, hash, now).0;
            && Authenticate(after, username, password, hash)
            && (Authenticate(after, username, attempt, hash) <==> hash(attempt) == hash(password))
            && (user != username ==>
                  (Authenticate(after, user, attempt, hash) <==> Authenticate(store, user, attempt, hash)))
  {
  }

  /** `create_user("alice", x)` then `create_user("alice", y)`: the second
      call fails and changes nothing, so `alice` still logs in with `x` and
      with `y` only if the two hash alike. */
  lemma DuplicateUsernameKeepsFirstPassword(store: Store, username: string, first: string, second: string,
                                            hash: string -> string, t1: string, t2: string)
    requires username !in store
    ensures var (s1, ok1) := CreateUser(store, username, first, hash, t1);
            var (s2, ok2) := CreateUser(s1, username, second, hash, t2);
            && ok1 && !ok2 && s2 == s1
            && Authenticate(s2, username, first, hash)
            && (Authenticate(s2, username, second, hash) <==> hash(second) == hash(first))
  {
  }
}
