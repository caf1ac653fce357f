/** The passport configuration of `config/passport.js`: what goes into the
    session, what comes back out of it, and the local (email and password)
    strategy. Each callback ends in one call of `done(err, user)`; the store
    lookup it awaits and the password comparison are given as the values
    and function they produce. */
module Passport {
  import opened Outcomes
  import opened Store
  import Guards

  /** The second argument of `done`: a user, `false` (refused), or `null`. */
  datatype Passed<+T> = User(value: T) | False | Null

  /** `done(err, user)`, `err` being `null` (`None`) or an error. */
  datatype Done<+T> = Done(err: Option<Error>, user: Passed<T>)

  const IncorrectCredentials := Exception("Incorrect email or password")
  const InactiveOrUnverified := Exception("User is not active or email not verified")
  const UserNotFound := Exception("User not found")

  /** `serializeUser`: the session keeps the user's id. */
  function SerializeUser(user: UserObj): Done<int> {
    Done(None, User(user.id))
  }

  /** `deserializeUser`, given what `getUserById(id)` produced. */
  function DeserializeUser(found: Call<Option<IdColumns>>): (r: Done<UserObj>)
    ensures r.user.User? <==> found.Returns? && found.value.Some?
    ensures r.user.User? ==> r.err.None? && r.user.value == UserObj(found.value.value.id, Some(found.value.value.email), Some(found.value.value.role))
    ensures !r.user.User? ==> r.user == Null && r.err == Some(if found.Throws? then found.error else UserNotFound)
  {
    match found
    case Throws(e) => Done(Some(e), Null)
    case Returns(None) => Done(Some(UserNotFound), Null)
    case Returns(Some(row)) => Done(None, User(UserObj(row.id, Some(row.email), Some(row.role))))
  }

  /** A session round trip: serialising any user object whose id is that of
      a stored user, and deserialising against the store, yields exactly that
      user's `{ id, email, role }`. */
  lemma SessionRoundTrip(users: seq<UserRow>, i: nat, user: UserObj)
    requires i < |users| && user.id == users[i].id
    requires forall j, k :: 0 <= j < k < |users| ==> users[j].id < users[k].id
    ensures var id := SerializeUser(user).user.value;
      DeserializeUser(Returns(SelectIdEmailRole(FirstRow(users, ById(id)))))
      == Done(None, User(UserObj(users[i].id, Some(users[i].email), Some(users[i].role))))
  {
    IncreasingIdsFoundById(users, i);
  }

  /** JavaScript truthiness of a flag column: an absent column is `undefined`, hence falsy. */
  predicate Truthy(flag: Option<bool>) {
    flag == Some(true)
  }

  /** The local strategy's verify callback, given what `getUserByEmail(email)`
      produced and the password comparison. The checks run in order: unknown
      email, inactive or unverified account, wrong password; only a user that
      passes all three is accepted, as `{ id }` and nothing more. */
  function LocalVerify(password: string, found: Call<Option<EmailColumns>>, compare: (string, string) -> Call<bool>)
    : (r: Done<UserObj>)
    ensures r.user.User? <==>
      && found.Returns? && found.value.Some?
      && Truthy(found.value.value.isActive) && Truthy(found.value.value.emailVerified)
      && compare(password, found.value.value.passwordHash) == Returns(true)
    ensures r.user.User? ==> r == Done(None, User(UserObj(found.value.value.id, None, None)))
    ensures r.err.None? <==> r.user.User?
  {
    match found
    case Throws(e) => Done(Some(e), Null)
    case Returns(None) => Done(Some(IncorrectCredentials), False)
    case Returns(Some(user)) =>
      if !Truthy(user.isActive) || !Truthy(user.emailVerified) then Done(Some(InactiveOrUnverified), False)
      else
        match compare(password, user.passwordHash)
        case Throws(e) => Done(Some(e), Null)
        case Returns(isValidPassword) =>
          if !isValidPassword then Done(Some(IncorrectCredentials), False)
          else Done(None, User(UserObj(user.id, None, None)))
  }

  /** An unknown email is refused before any password comparison. */
  lemma UnknownEmailSkipsCompare(password: string, compare: (string, string) -> Call<bool>, otherCompare: (string, string) -> Call<bool>)
    ensures LocalVerify(password, Returns(None), compare) == Done(Some(IncorrectCredentials), False)
    ensures LocalVerify(password, Returns(None), compare) == LocalVerify(password, Returns(None), otherCompare)
  {
  }

  /** An inactive or unverified user is refused and the password is never compared. */
  lemma InactiveSkipsCompare(
    password: string, user: EmailColumns,
    compare: (string, string) -> Call<bool>, otherCompare: (string, string) -> Call<bool>)
    requires !Truthy(user.isActive) || !Truthy(user.emailVerified)
    ensures LocalVerify(password, Returns(Some(user)), compare) == Done(Some(InactiveOrUnverified), False)
    ensures LocalVerify(password, Returns(Some(user)), compare) == LocalVerify(password, Returns(Some(user)), otherCompare)
  {
  }

  /** A wrong password is answered exactly as an unknown email is: a caller
      cannot tell which of the two was wrong. */
  lemma WrongPasswordLooksLikeUnknownEmail(
    password: string, user: EmailColumns, compare: (string, string) -> Call<bool>,
    otherPassword: string, otherCompare: (string, string) -> Call<bool>)
    requires Truthy(user.isActive) && Truthy(user.emailVerified)
    requires compare(password, user.passwordHash) == Returns(false)
    ensures LocalVerify(password, Returns(Some(user)), compare) == LocalVerify(otherPassword, Returns(None), otherCompare)
  {
  }

  /** A failed lookup or comparison reaches `done` unchanged, with `null`. */
  lemma ThrownErrorsReachDone(password: string, found: Call<Option<EmailColumns>>, compare: (string, string) -> Call<bool>)
    ensures found.Throws? ==> LocalVerify(password, found, compare) == Done(Some(found.error), Null)
    ensures (&& found.Returns? && found.value.Some?
             && Truthy(found.value.value.isActive) && Truthy(found.value.value.emailVerified)
             && compare(password, found.value.value.passwordHash).Throws?) ==>
      LocalVerify(password, found, compare) == Done(Some(compare(password, found.value.value.passwordHash).error), Null)
  {
  }

  /** With `getUserByEmail` as written, the strategy sees neither `is_active`
      nor `email_verified`, so no login ever succeeds: an unknown email gets
      the credentials error and every known one the activity error. */
  lemma LoginAsWrittenAlwaysRefused(users: seq<UserRow>, email: string, password: string, compare: (string, string) -> Call<bool>)
    ensures var r := LocalVerify(password, Returns(SelectIdPasswordHash(FirstRow(users, ByEmail(email)))), compare);
      r == Done(Some(if FirstRow(users, ByEmail(email)).None? then IncorrectCredentials else InactiveOrUnverified), False)
  {
  }

  /** With the flags selected, login succeeds exactly for the first user
      with that email who is active, verified and whose password matches,
      and yields that user's id alone. */
  lemma LoginWithFlagsSucceedsIff(users: seq<UserRow>, email: string, password: string, compare: (string, string) -> Call<bool>)
    ensures var r := LocalVerify(password, Returns(SelectLoginColumns(FirstRow(users, ByEmail(email)))), compare);
      && (r.user.User? <==>
            && FirstRow(users, ByEmail(email)).Some?
            && FirstRow(users, ByEmail(email)).value.isActive
            && FirstRow(users, ByEmail(email)).value.emailVerified
            && compare(password, FirstRow(users, ByEmail(email)).value.passwordHash) == Returns(true))
      && (r.user.User? ==> r.user.value == UserObj(FirstRow(users, ByEmail(email)).value.id, None, None))
  {
  }

  /** The session callback with its lookup: `deserializeUser` on the row
      `getUserById(id)` finds, or on the database error. */
  method DeserializeFromStore(store: UserStore, id: int, fault: Option<Error>) returns (r: Done<UserObj>)
    ensures fault.Some? ==> r == Done(Some(fault.value), Null)
    ensures fault.None? ==> (r.user.User? <==> FirstRow(store.users, ById(id)).Some?)
    ensures fault.None? && r.user.User? ==>
      var row := FirstRow(store.users, ById(id)).value;
      r == Done(None, User(UserObj(row.id, Some(row.email), Some(row.role))))
  {
    var found := store.GetUserById(id, fault);
    r := DeserializeUser(found);
  }

  /** The local strategy with its lookup. It reads the account through the
      lookup that selects the two flags it tests, so an active, verified
      user with the right password gets in. */
  method LocalStrategy(store: UserStore, email: string, password: string, compare: (string, string) -> Call<bool>, fault: Option<Error>)
    returns (r: Done<UserObj>)
    ensures fault.Some? ==> r == Done(Some(fault.value), Null)
    ensures fault.None? ==>
      (r.user.User? <==>
        && FirstRow(store.users, ByEmail(email)).Some?
        && FirstRow(store.users, ByEmail(email)).value.isActive
        && FirstRow(store.users, ByEmail(email)).value.emailVerified
        && compare(password, FirstRow(store.users, ByEmail(email)).value.passwordHash) == Returns(true))
    ensures r.user.User? ==> r == Done(None, User(UserObj(FirstRow(store.users, ByEmail(email)).value.id, None, None)))
  {
    var found := store.GetLoginUserByEmail(email, fault);
    r := LocalVerify(password, found, compare);
    LoginWithFlagsSucceedsIff(store.users, email, password, compare);
  }

  /** After a session round trip the role gate lets a stored user through
      exactly when the stored role is `user` or `admin`, and otherwise
      passes `Error("Forbidden")` on. */
  lemma RoleGateAfterSession(users: seq<UserRow>, i: nat)
    requires i < |users|
    requires forall j, k :: 0 <= j < k < |users| ==> users[j].id < users[k].id
    ensures var d := DeserializeUser(Returns(SelectIdEmailRole(FirstRow(users, ById(users[i].id)))));
      && d.user.User?
      && (Guards.CheckUserRole(Some(d.user.value)) == CallNext <==> users[i].role in {"user", "admin"})
      && (users[i].role !in {"user", "admin"} ==> Guards.CheckUserRole(Some(d.user.value)) == CallNextWith(Exception(Guards.Forbidden)))
  {
    IncreasingIdsFoundById(users, i);
  }
}
