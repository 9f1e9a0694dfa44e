/** The browser's `localStorage` as a finite map from keys to values. JSON
    encoding is abstracted away: a value is kept in the structured form the
    components write and read back. */
module Storage {

  /** A registered account, as sign-up stores it. */
  datatype User = User(name: string, email: string, password: string)

  datatype Value =
    | Text(text: string)
    | UserList(users: seq<User>)
    | UserRecord(user: User)

  type Store = map<string, Value>

  /** The keys the components use. */
  const UsersKey := "users"
  const LoggedInKey := "isLoggedIn"
  const CurrentUserKey := "currentUser"
  const CartKey := "cartItems"

  /** `JSON.parse(localStorage.getItem("users")) || []`: the stored user list,
      or the empty list when none has been stored. */
  function StoredUsers(store: Store): (users: seq<User>)
    ensures UsersKey in store && store[UsersKey].UserList? ==> users == store[UsersKey].users
    ensures UsersKey !in store ==> users == []
  {
    if UsersKey in store && store[UsersKey].UserList? then store[UsersKey].users else []
  }

  /** `store` and `store'` agree on every key outside `keys`. */
  ghost predicate AgreeOutside(store: Store, store': Store, keys: set<string>)
  {
    forall k :: k !in keys ==> (k in store <==> k in store') && (k in store ==> store[k] == store'[k])
  }
}
