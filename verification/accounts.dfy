/** Registration and login over the account store. The store is the
    directory of per-user JSON files, seen here as a map from username to
    account record. */
module Accounts {

  import opened Results
  import opened Text
  import opened Ledger

  /** The texts an empty entry field shows; submitting them unchanged counts
      as not filling the field in. */
  const UsernamePlaceholder: string := "Username"
  const PasswordPlaceholder: string := "Password"

  datatype AuthError = MissingFields | UsernameTaken | BadCredentials

  /** An account as registration creates it: nothing in it but the password. */
  function NewAccount(password: string): Account {
    Account(password, 0.0, map[], [])
  }

  /** The credentials are missing: blank after stripping, or still the
      placeholder text. */
  predicate MissingCredentials(user: string, password: string) {
    user == "" || password == "" || user == UsernamePlaceholder || password == PasswordPlaceholder
  }

  /** `register`: both fields are stripped; missing credentials and a taken
      username are rejected with the store unchanged; otherwise exactly one
      record, for that username, is added, and every other record stays. */
  function Register(store: map<string, Account>, rawUser: string, rawPassword: string)
    : (r: Result<map<string, Account>, AuthError>)
    ensures r.Ok? <==> !MissingCredentials(Strip(rawUser), Strip(rawPassword)) && Strip(rawUser) !in store
    ensures r == Err(MissingFields) <==> MissingCredentials(Strip(rawUser), Strip(rawPassword))
    ensures r == Err(UsernameTaken) <==>
              !MissingCredentials(Strip(rawUser), Strip(rawPassword)) && Strip(rawUser) in store
    ensures r.Ok? ==>
      && Strip(rawUser) !in store
      && r.value.Keys == store.Keys + {Strip(rawUser)}
      && r.value[Strip(rawUser)] == Account(Strip(rawPassword), 0.0, map[], [])
      && forall v :: v in store ==> r.value[v] == store[v]
  {
    var user := Strip(rawUser);
    var password := Strip(rawPassword);
    if MissingCredentials(user, password) then Err(MissingFields)
    else if user in store then Err(UsernameTaken)
    else Ok(store[user := NewAccount(password)])
  }

  /** The store key `user_data_path` uses: `username or current_username`,
      where a missing current user is formatted as the text "None". */
  function DataKey(user: string, current: Option<string>): (r: string)
    ensures user != "" ==> r == user
    ensures user == "" && current.Some? ==> r == current.value
    ensures user == "" && current.None? ==> r == "None"
  {
    if user != "" then user
    else match current
      case Some(c) => c
      case None => "None"
  }

  /** A logged-in session: the name typed at login and the loaded record. */
  datatype Session = Session(username: string, account: Account)

  /** `login`: both fields are stripped, and the record under the store key
      must exist and carry exactly the stripped password; the session then
      holds that record. A blank username looks up the current user's record,
      as the program's path helper does. */
  function Login(store: map<string, Account>, current: Option<string>, rawUser: string, rawPassword: string)
    : (r: Result<Session, AuthError>)
    ensures var key := DataKey(Strip(rawUser), current);
            r.Ok? <==> key in store && store[key].password == Strip(rawPassword)
    ensures r.Err? ==> r.error == BadCredentials
    ensures r.Ok? ==> r.value.username == Strip(rawUser)
    ensures r.Ok? ==> r.value.account == store[DataKey(Strip(rawUser), current)]
  {
    var user := Strip(rawUser);
    var key := DataKey(user, current);
    if key !in store || store[key].password != Strip(rawPassword) then Err(BadCredentials)
    else Ok(Session(user, store[key]))
  }

  /** Registering and then logging in with the same entries (as the program
      does, the new user being current) opens the new, empty account. */
  lemma RegisterThenLogin(store: map<string, Account>, rawUser: string, rawPassword: string)
    requires !MissingCredentials(Strip(rawUser), Strip(rawPassword)) && Strip(rawUser) !in store
    ensures Register(store, rawUser, rawPassword).Ok?
    ensures var store' := Register(store, rawUser, rawPassword).value;
            Login(store', Some(Strip(rawUser)), rawUser, rawPassword)
              == Ok(Session(Strip(rawUser), NewAccount(Strip(rawPassword))))
  {
  }
}
