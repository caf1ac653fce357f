/** The `users` and `refresh_tokens` tables behind `user.services.js`, held
    in memory. Every operation takes the database's answer to its query as
    far as the model cannot compute it: `fault` is the driver error the query
    fails with, if it does, and `now` is the database clock (`NOW()`) in
    seconds. */
module Store {
  import opened Outcomes

  /** A row of `users`, with the columns the core reads or writes. */
  datatype UserRow = UserRow(
    id: int, email: string, passwordHash: string, role: string,
    isActive: bool, emailVerified: bool)

  /** A row of `refresh_tokens`, its expiry in seconds of the database clock. */
  datatype TokenRow = TokenRow(id: int, userId: int, tokenHash: string, expiresAt: int)

  /** A count of seconds as JavaScript hands it to the driver: an integer or `NaN`. */
  datatype Seconds = Finite(n: int) | NaN

  /** The driver writes the number `NaN` into the statement as the bare word
      `NaN`, which MySQL reads as a column name; the insert fails with this. */
  const UnknownColumnNaN := Exception("Unknown column 'NaN' in 'field list'")

  /** Column defaults of a freshly inserted user. The table definition is
      not part of this model; these are the values the rest of the system
      expects of a new account. */
  const DefaultRole := "user"
  const DefaultActive := true
  const DefaultVerified := false

  /** `{ id: insertId, email }` */
  datatype SavedUser = SavedUser(id: int, email: string)
  /** `{ id: insertId, user_id, expires_at }` */
  datatype SavedToken = SavedToken(id: int, userId: int, expiresAt: Seconds)
  /** A user row as the login strategy receives it; a column the query did
      not select is absent (`None`). */
  datatype EmailColumns = EmailColumns(
    id: int, passwordHash: string, isActive: Option<bool>, emailVerified: Option<bool>)
  /** `SELECT id, email, role` */
  datatype IdColumns = IdColumns(id: int, email: string, role: string)
  /** `SELECT id, token_hash` */
  datatype TokenColumns = TokenColumns(id: int, tokenHash: string)

  /** The `WHERE` clause of a user lookup. */
  datatype UserKey = ByEmail(email: string) | ById(id: int)

  predicate Matches(u: UserRow, key: UserKey) {
    match key
    case ByEmail(e) => u.email == e
    case ById(i) => u.id == i
  }

  /** Position of the first row that matches `key`, if any. */
  function IndexOf(users: seq<UserRow>, key: UserKey): (r: Option<nat>)
    ensures r.Some? ==> r.value < |users| && Matches(users[r.value], key)
    ensures forall j :: 0 <= j < |users| && (r.None? || j < r.value) ==> !Matches(users[j], key)
  {
    if users == [] then None
    else if Matches(users[0], key) then Some(0)
    else
      match IndexOf(users[1..], key)
      case None => None
      case Some(k) => Some(k + 1)
  }

  /** The row `result[0]` stands for in the source: the first match. */
  function FirstRow(users: seq<UserRow>, key: UserKey): Option<UserRow> {
    match IndexOf(users, key)
    case None => None
    case Some(i) => Some(users[i])
  }

  /** `SELECT id, password_hash FROM users`: the two columns the source selects. */
  function SelectIdPasswordHash(u: Option<UserRow>): Option<EmailColumns> {
    match u
    case None => None
    case Some(row) => Some(EmailColumns(row.id, row.passwordHash, None, None))
  }

  /** `SELECT id, password_hash, is_active, email_verified FROM users`. */
  function SelectLoginColumns(u: Option<UserRow>): Option<EmailColumns> {
    match u
    case None => None
    case Some(row) => Some(EmailColumns(row.id, row.passwordHash, Some(row.isActive), Some(row.emailVerified)))
  }

  function SelectIdEmailRole(u: Option<UserRow>): Option<IdColumns> {
    match u
    case None => None
    case Some(row) => Some(IdColumns(row.id, row.email, row.role))
  }

  /** `user_id = ? AND expires_at > NOW()` */
  predicate Live(t: TokenRow, userId: int, now: int) {
    t.userId == userId && t.expiresAt > now
  }

  /** A row whose id is above every id already in the table is the one a
      lookup by that id finds. */
  lemma FreshIdFoundById(users: seq<UserRow>, row: UserRow)
    requires forall i :: 0 <= i < |users| ==> users[i].id < row.id
    ensures FirstRow(users + [row], ById(row.id)) == Some(row)
  {
    var all := users + [row];
    assert Matches(all[|users|], ById(row.id));
    assert forall i :: 0 <= i < |users| ==> all[i] == users[i];
  }

  /** When ids increase along the table, a lookup by a row's id finds that row. */
  lemma IncreasingIdsFoundById(users: seq<UserRow>, i: nat)
    requires i < |users|
    requires forall j, k :: 0 <= j < k < |users| ==> users[j].id < users[k].id
    ensures FirstRow(users, ById(users[i].id)) == Some(users[i])
  {
    var k := IndexOf(users, ById(users[i].id));
    assert k == Some(i) by {
      assert k.Some?;
      assert !(k.value < i) && !(i < k.value);
    }
  }

  class UserStore {
    var users: seq<UserRow>
    var refreshTokens: seq<TokenRow>
    var nextUserId: int   // AUTO_INCREMENT of users
    var nextTokenId: int  // AUTO_INCREMENT of refresh_tokens

    /** Auto-increment ids: positive, below the counter, increasing in insertion order. */
    ghost predicate Valid()
      reads this
    {
      && 1 <= nextUserId && 1 <= nextTokenId
      && (forall i :: 0 <= i < |users| ==> 1 <= users[i].id < nextUserId)
      && (forall i, j :: 0 <= i < j < |users| ==> users[i].id < users[j].id)
      && (forall i :: 0 <= i < |refreshTokens| ==> 1 <= refreshTokens[i].id < nextTokenId)
      && (forall i, j :: 0 <= i < j < |refreshTokens| ==> refreshTokens[i].id < refreshTokens[j].id)
    }

    constructor ()
      ensures Valid()
      ensures users == [] && refreshTokens == []
    {
      users, refreshTokens := [], [];
      nextUserId, nextTokenId := 1, 1;
    }

    /** `saveUser`: `INSERT INTO users (email, password_hash)`; returns the new id and the email as given. */
    method SaveUser(email: string, passwordHash: string, fault: Option<Error>) returns (r: Call<SavedUser>)
      requires Valid()
      modifies this
      ensures Valid()
      ensures refreshTokens == old(refreshTokens) && nextTokenId == old(nextTokenId)
      ensures fault.Some? ==> r == Throws(fault.value) && users == old(users) && nextUserId == old(nextUserId)
      ensures fault.None? ==>
        && r == Returns(SavedUser(old(nextUserId), email))
        && users == old(users) + [UserRow(old(nextUserId), email, passwordHash, DefaultRole, DefaultActive, DefaultVerified)]
        && FirstRow(users, ById(r.value.id)) == Some(users[|users| - 1])
    {
      if fault.Some? {
        return Throws(fault.value);
      }
      var row := UserRow(nextUserId, email, passwordHash, DefaultRole, DefaultActive, DefaultVerified);
      FreshIdFoundById(users, row);
      users := users + [row];
      r := Returns(SavedUser(nextUserId, email));
      nextUserId := nextUserId + 1;
    }

    /** `saveToken`: inserts one row expiring `ttl` seconds from `now`
        (`DATE_ADD(NOW(), INTERVAL ? SECOND)`); the returned `expires_at` is
        the `ttl` argument itself. A `NaN` interval makes the statement
        invalid, so the insert fails. Existing rows are kept as they are. */
    method SaveToken(userId: int, tokenHash: string, ttl: Seconds, now: int, fault: Option<Error>)
      returns (r: Call<SavedToken>)
      requires Valid()
      modifies this
      ensures Valid()
      ensures users == old(users) && nextUserId == old(nextUserId)
      ensures fault.Some? ==> r == Throws(fault.value)
      ensures fault.None? && ttl.NaN? ==> r == Throws(UnknownColumnNaN)
      ensures r.Throws? ==> refreshTokens == old(refreshTokens) && nextTokenId == old(nextTokenId)
      ensures fault.None? && ttl.Finite? ==>
        && r == Returns(SavedToken(old(nextTokenId), userId, ttl))
        && refreshTokens == old(refreshTokens) + [TokenRow(old(nextTokenId), userId, tokenHash, now + ttl.n)]
    {
      if fault.Some? {
        return Throws(fault.value);
      }
      if ttl.NaN? {
        return Throws(UnknownColumnNaN);
      }
      refreshTokens := refreshTokens + [TokenRow(nextTokenId, userId, tokenHash, now + ttl.n)];
      r := Returns(SavedToken(nextTokenId, userId, ttl));
      nextTokenId := nextTokenId + 1;
    }

    /** Scans `users` in table order for the first row matching `key`. */
    method Find(key: UserKey) returns (idx: Option<nat>)
      ensures idx == IndexOf(users, key)
    {
      var i := 0;
      while i < |users|
        invariant 0 <= i <= |users|
        invariant forall j :: 0 <= j < i ==> !Matches(users[j], key)
      {
        if Matches(users[i], key) {
          return Some(i);
        }
        i := i + 1;
      }
      return None;
    }

    /** `getUserByEmail` as written: the first row with that email, with only
        the columns `id` and `password_hash`. */
    method GetUserByEmail(email: string, fault: Option<Error>) returns (r: Call<Option<EmailColumns>>)
      ensures fault.Some? ==> r == Throws(fault.value)
      ensures fault.None? ==> r == Returns(SelectIdPasswordHash(FirstRow(users, ByEmail(email))))
      ensures r.Returns? && r.value.Some? ==> r.value.value.isActive.None? && r.value.value.emailVerified.None?
    {
      if fault.Some? {
        return Throws(fault.value);
      }
      var idx := Find(ByEmail(email));
      if idx.None? {
        return Returns(None);
      }
      var u := users[idx.value];
      return Returns(Some(EmailColumns(u.id, u.passwordHash, None, None)));
    }

    /** The lookup the login strategy needs: the first row with that email,
        with the two flags it tests selected as well. */
    method GetLoginUserByEmail(email: string, fault: Option<Error>) returns (r: Call<Option<EmailColumns>>)
      ensures fault.Some? ==> r == Throws(fault.value)
      ensures fault.None? ==> r == Returns(SelectLoginColumns(FirstRow(users, ByEmail(email))))
    {
      if fault.Some? {
        return Throws(fault.value);
      }
      var idx := Find(ByEmail(email));
      if idx.None? {
        return Returns(None);
      }
      var u := users[idx.value];
      return Returns(Some(EmailColumns(u.id, u.passwordHash, Some(u.isActive), Some(u.emailVerified))));
    }

    /** `getUserById`: the first row with that id, as `{ id, email, role }`. */
    method GetUserById(id: int, fault: Option<Error>) returns (r: Call<Option<IdColumns>>)
      ensures fault.Some? ==> r == Throws(fault.value)
      ensures fault.None? ==> r == Returns(SelectIdEmailRole(FirstRow(users, ById(id))))
    {
      if fault.Some? {
        return Throws(fault.value);
      }
      var idx := Find(ById(id));
      if idx.None? {
        return Returns(None);
      }
      var u := users[idx.value];
      return Returns(Some(IdColumns(u.id, u.email, u.role)));
    }

    /** `getRefreshToken`: some unexpired row of that user, if there is one.
        The query has no `ORDER BY`, so which one is not specified. */
    method GetRefreshToken(userId: int, now: int, fault: Option<Error>) returns (r: Call<Option<TokenColumns>>)
      ensures fault.Some? ==> r == Throws(fault.value)
      ensures fault.None? ==> r.Returns?
      ensures r.Returns? && r.value.None? ==>
        forall i :: 0 <= i < |refreshTokens| ==> !Live(refreshTokens[i], userId, now)
      ensures r.Returns? && r.value.Some? ==>
        exists i :: 0 <= i < |refreshTokens| && Live(refreshTokens[i], userId, now)
                 && r.value.value == TokenColumns(refreshTokens[i].id, refreshTokens[i].tokenHash)
    {
      if fault.Some? {
        return Throws(fault.value);
      }
      var i := 0;
      while i < |refreshTokens|
        invariant 0 <= i <= |refreshTokens|
        invariant forall j :: 0 <= j < i ==> !Live(refreshTokens[j], userId, now)
      {
        var t := refreshTokens[i];
        if Live(t, userId, now) {
          return Returns(Some(TokenColumns(t.id, t.tokenHash)));
        }
        i := i + 1;
      }
      return Returns(None);
    }
  }
}
