/**
 * Account registration and e-mail verification
 * (app/services/registration_service.py).
 *
 * Accounts are created by the roster synchronisation with
 * `requires_password` set; registering gives such an account a password
 * hash and a verification token, and verifying the token within a day
 * activates it. The users table is an `Accounts` object whose rows the
 * methods update in place; lookups are the `.first()` of a filtered query.
 * The password hash, the token generator, the clock and the mail sender
 * are parameters.
 */
module Registration {
  import opened Wrappers
  import opened Users
  import opened Http

  const AlreadyRegistered: HttpError := HttpError(BadRequest, "Пользователь с таким email уже существует")
  const NotInSchool: HttpError := HttpError(BadRequest, "Пользователь с таким email не найден в базе данных школы")
  const BadToken: HttpError := HttpError(BadRequest, "Неверный или устаревший токен подтверждения")
  const TokenExpired: HttpError := HttpError(BadRequest, "Срок действия токена подтверждения истек")
  const NotFoundOrVerified: string := "Пользователь не найден или email уже подтвержден"
  /** An exception that is not a ValueError reaches FastAPI as a bare 500. */
  const Crash: HttpError := HttpError(ServerError, "Internal Server Error")

  /** A verification token is good for 24 hours after it was sent. */
  const TokenLifetime: int := 24 * SecondsPerHour

  // ---------------------------------------------------------------------
  // Lookups

  /** The filters the routes query the users table with. */
  datatype Query =
    | ByEmail(email: string)
    | UnverifiedByToken(token: string)
    | UnverifiedByEmail(email: string)
    | ByIdAndEmail(id: int, email: string)

  predicate Matches(q: Query, u: User) {
    match q
    case ByEmail(e) => u.email == e
    case UnverifiedByToken(t) => u.verificationToken == Some(t) && !u.isVerified
    case UnverifiedByEmail(e) => u.email == e && !u.isVerified
    case ByIdAndEmail(id, e) => u.id == id && u.email == e
  }

  /** `.first()`: the position of the first matching row. */
  function First(users: seq<User>, q: Query): (r: Option<nat>)
    ensures r.Some? ==>
      && r.value < |users| && Matches(q, users[r.value])
      && (forall j :: 0 <= j < r.value ==> !Matches(q, users[j]))
    ensures r.None? ==> forall j :: 0 <= j < |users| ==> !Matches(q, users[j])
  {
    if users == [] then None
    else if Matches(q, users[0]) then Some(0)
    else
      var r := First(users[1..], q);
      if r.None? then None else Some(r.value + 1)
  }

  // ---------------------------------------------------------------------
  // Row updates

  /** register_user's writes: the password hash, the new token and when it was sent. */
  function Registered(u: User, hash: string, token: string, now: Time): (v: User)
    ensures v.passwordHash == Some(hash) && v.verificationToken == Some(token) && v.verificationSentAt == Some(now)
    ensures v.(passwordHash := u.passwordHash, verificationToken := u.verificationToken,
               verificationSentAt := u.verificationSentAt) == u
    ensures v.requiresPassword == u.requiresPassword && v.isVerified == u.isVerified && v.isActive == u.isActive
  {
    u.(passwordHash := Some(hash), verificationToken := Some(token), verificationSentAt := Some(now))
  }

  /** verify_email's writes: active, verified, no password still required, verified now, token used up. */
  function Verified(u: User, now: Time): (v: User)
    ensures v.isActive && v.isVerified && !v.requiresPassword
    ensures v.emailVerifiedAt == Some(now) && v.verificationToken.None?
    ensures v.email == u.email && v.passwordHash == u.passwordHash && v.roles == u.roles
  {
    u.(isActive := true, isVerified := true, requiresPassword := false, emailVerifiedAt := Some(now),
       verificationToken := None)
  }

  /** resend_verification_email's writes: a new token and a new sending time. */
  function Resent(u: User, token: string, now: Time): (v: User)
    ensures v.verificationToken == Some(token) && v.verificationSentAt == Some(now)
    ensures v.isVerified == u.isVerified && v.passwordHash == u.passwordHash && v.email == u.email
  {
    u.(verificationToken := Some(token), verificationSentAt := Some(now))
  }

  /** A token is expired only once the current time is past the sending time plus 24 hours. */
  predicate Expired(sentAt: Time, now: Time) {
    now > sentAt + TokenLifetime
  }

  lemma ExpiryBoundary(sentAt: Time)
    ensures !Expired(sentAt, sentAt + 86400)
    ensures Expired(sentAt, sentAt + 86401)
    ensures forall now :: now <= sentAt ==> !Expired(sentAt, now)
  {
  }

  // ---------------------------------------------------------------------
  // The decisions, as functions of the table

  /** register_user's checks: an account that already has a password, or no account, is refused. */
  function RegisterCheck(users: seq<User>, email: string): (r: Result<nat, HttpError>)
    ensures r.Success? <==> First(users, ByEmail(email)).Some? && users[First(users, ByEmail(email)).value].requiresPassword
    ensures r.Success? ==> r.value < |users| && users[r.value].email == email && users[r.value].requiresPassword
    ensures First(users, ByEmail(email)).None? ==> r == Failure(NotInSchool)
    ensures First(users, ByEmail(email)).Some? && !users[First(users, ByEmail(email)).value].requiresPassword ==>
      r == Failure(AlreadyRegistered)
  {
    match First(users, ByEmail(email))
    case None => Failure(NotInSchool)
    case Some(i) => if !users[i].requiresPassword then Failure(AlreadyRegistered) else Success(i)
  }

  /**
   * verify_email's checks: the token must belong to an unverified account
   * and must not have expired; a missing sending time makes the addition
   * raise.
   */
  function VerifyCheck(users: seq<User>, token: string, now: Time): (r: Result<nat, HttpError>)
    ensures First(users, UnverifiedByToken(token)).None? ==> r == Failure(BadToken)
    ensures r.Success? <==>
      && First(users, UnverifiedByToken(token)).Some?
      && users[First(users, UnverifiedByToken(token)).value].verificationSentAt.Some?
      && !Expired(users[First(users, UnverifiedByToken(token)).value].verificationSentAt.value, now)
    ensures r.Success? ==> r.value < |users| && users[r.value].verificationToken == Some(token) && !users[r.value].isVerified
    ensures First(users, UnverifiedByToken(token)).Some? ==>
      var u := users[First(users, UnverifiedByToken(token)).value];
      && (u.verificationSentAt.None? ==> r == Failure(Crash))
      && (u.verificationSentAt.Some? && Expired(u.verificationSentAt.value, now) ==> r == Failure(TokenExpired))
  {
    match First(users, UnverifiedByToken(token))
    case None => Failure(BadToken)
    case Some(i) =>
      match users[i].verificationSentAt
      case None => Failure(Crash)
      case Some(sent) => if Expired(sent, now) then Failure(TokenExpired) else Success(i)
  }

  // ---------------------------------------------------------------------
  // The users table

  class Accounts {
    var users: seq<User>

    constructor(users: seq<User>)
      ensures this.users == users
    {
      this.users := users;
    }

    /** register_user: after the checks, the account gets its hash, token and sending time; nothing else changes. */
    method Register(email: string, hash: string, token: string, now: Time) returns (r: Result<nat, HttpError>)
      modifies this
      ensures r == RegisterCheck(old(users), email)
      ensures r.Failure? ==> users == old(users)
      ensures r.Success? ==> users == old(users)[r.value := Registered(old(users)[r.value], hash, token, now)]
    {
      r := RegisterCheck(users, email);
      if r.Success? {
        var i := r.value;
        var u := users[i];
        u := u.(passwordHash := Some(hash));
        u := u.(verificationToken := Some(token));
        u := u.(verificationSentAt := Some(now));
        users := users[i := u];
      }
    }

    /** verify_email: a good token activates its account and is cleared. */
    method VerifyEmail(token: string, now: Time) returns (r: Result<nat, HttpError>)
      modifies this
      ensures r == VerifyCheck(old(users), token, now)
      ensures r.Failure? ==> users == old(users)
      ensures r.Success? ==> users == old(users)[r.value := Verified(old(users)[r.value], now)]
    {
      r := VerifyCheck(users, token, now);
      if r.Success? {
        var i := r.value;
        var u := users[i];
        u := u.(isActive := true);
        u := u.(isVerified := true);
        u := u.(requiresPassword := false);
        u := u.(emailVerifiedAt := Some(now));
        u := u.(verificationToken := None);
        users := users[i := u];
      }
    }

    /**
     * resend_verification_email: only an unverified account gets a new
     * token; the answer is whether the mail went out.
     */
    method ResendVerification(email: string, token: string, now: Time, sent: bool) returns (r: Result<bool, string>)
      modifies this
      ensures First(old(users), UnverifiedByEmail(email)).None? ==> r == Failure(NotFoundOrVerified) && users == old(users)
      ensures First(old(users), UnverifiedByEmail(email)).Some? ==>
        var i := First(old(users), UnverifiedByEmail(email)).value;
        r == Success(sent) && users == old(users)[i := Resent(old(users)[i], token, now)]
    {
      var found := First(users, UnverifiedByEmail(email));
      if found.None? {
        return Failure(NotFoundOrVerified);
      }
      var i := found.value;
      users := users[i := users[i].(verificationToken := Some(token), verificationSentAt := Some(now))];
      r := Success(sent);
    }
  }

  // ---------------------------------------------------------------------
  // The lifecycle

  /** Registering and then verifying within a day activates the account. */
  lemma RegisterThenVerify(users: seq<User>, email: string, hash: string, token: string, t0: Time, t1: Time)
    requires RegisterCheck(users, email).Success?
    requires forall j :: 0 <= j < |users| ==> !Matches(UnverifiedByToken(token), users[j])
    requires t1 <= t0 + 86400
    ensures var i := RegisterCheck(users, email).value;
      var after := users[i := Registered(users[i], hash, token, t0)];
      VerifyCheck(after, token, t1) == Success(i) || after[i].isVerified
  {
    var i := RegisterCheck(users, email).value;
    var after := users[i := Registered(users[i], hash, token, t0)];
    if !after[i].isVerified {
      assert Matches(UnverifiedByToken(token), after[i]);
      assert forall j :: 0 <= j < |after| && j != i ==> !Matches(UnverifiedByToken(token), after[j]);
      assert First(after, UnverifiedByToken(token)) == Some(i);
    }
  }

  /** A used token cannot verify again: the account that used it no longer matches it. */
  lemma VerifyOnce(users: seq<User>, token: string, now: Time, later: Time)
    requires VerifyCheck(users, token, now).Success?
    requires forall j :: 0 <= j < |users| && j != VerifyCheck(users, token, now).value ==>
      !Matches(UnverifiedByToken(token), users[j])
    ensures var i := VerifyCheck(users, token, now).value;
      VerifyCheck(users[i := Verified(users[i], now)], token, later) == Failure(BadToken)
  {
    var i := VerifyCheck(users, token, now).value;
    var after := users[i := Verified(users[i], now)];
    assert forall j :: 0 <= j < |after| ==> !Matches(UnverifiedByToken(token), after[j]);
  }

  /** Once verified, the account is refused a second registration and a second token. */
  lemma NoSecondRegistration(users: seq<User>, token: string, now: Time)
    requires VerifyCheck(users, token, now).Success?
    requires var i := VerifyCheck(users, token, now).value;
      forall j :: 0 <= j < i ==> users[j].email != users[i].email
    ensures var i := VerifyCheck(users, token, now).value;
      var after := users[i := Verified(users[i], now)];
      && RegisterCheck(after, after[i].email) == Failure(AlreadyRegistered)
      && (First(after, UnverifiedByEmail(after[i].email)).None? || First(after, UnverifiedByEmail(after[i].email)).value != i)
  {
    var i := VerifyCheck(users, token, now).value;
    var after := users[i := Verified(users[i], now)];
    assert Matches(ByEmail(after[i].email), after[i]);
    assert First(after, ByEmail(after[i].email)).value <= i;
  }

  // ---------------------------------------------------------------------
  // As written: the three assignments end in a comma

  /**
   * A value assigned by `attr = value,`: a trailing comma makes the right
   * side a one-element tuple.
   */
  datatype Assigned<T> = Plain(value: T) | Tuple1(item: T)

  /** The three assignments of register_user as written, each with its trailing comma. */
  function RegisterAssignsAsWritten(hash: string, token: string, now: Time): (a: (Assigned<string>, Assigned<string>, Assigned<Time>))
    ensures a.0.Tuple1? && a.1.Tuple1? && a.2.Tuple1?
    ensures a.0.item == hash && a.1.item == token && a.2.item == now
  {
    (Tuple1(hash), Tuple1(token), Tuple1(now))
  }

  /**
   * Between the assignments and `db.refresh`, none of the three Python
   * attributes holds the value meant for it: each holds a tuple wrapping it.
   */
  lemma AsWrittenAssignsTuples(hash: string, token: string, now: Time)
    ensures RegisterAssignsAsWritten(hash, token, now).0 != Plain(hash)
    ensures RegisterAssignsAsWritten(hash, token, now).1 != Plain(token)
    ensures RegisterAssignsAsWritten(hash, token, now).2 != Plain(now)
  {
  }

  /**
   * The value a column receives at the commit: psycopg2 renders a
   * one-element tuple `(x,)` as the parenthesised `(x)`, which the database
   * reads as `x` itself, and `db.refresh` then reloads that value.
   */
  function Stored<T>(a: Assigned<T>): T {
    match a
    case Plain(x) => x
    case Tuple1(x) => x
  }

  /** The account row after the commit and refresh of the three assignments. */
  function Committed(u: User, a: (Assigned<string>, Assigned<string>, Assigned<Time>)): (v: User)
    ensures v.passwordHash.Some? && v.verificationToken.Some? && v.verificationSentAt.Some?
  {
    u.(passwordHash := Some(Stored(a.0)), verificationToken := Some(Stored(a.1)), verificationSentAt := Some(Stored(a.2)))
  }

  /**
   * With the driver's rendering of one-element tuples, the committed row is
   * the one `Registered` describes: the commas matter only to the Python
   * attributes between the assignments and the refresh.
   */
  lemma AsWrittenCommitsRegistered(u: User, hash: string, token: string, now: Time)
    ensures Committed(u, RegisterAssignsAsWritten(hash, token, now)) == Registered(u, hash, token, now)
  {
  }

  /** Without the commas, the attributes hold the hash, the token and the time themselves, as Registered has it. */
  function RegisterAssigns(hash: string, token: string, now: Time): (a: (Assigned<string>, Assigned<string>, Assigned<Time>))
    ensures a.0.Plain? && a.1.Plain? && a.2.Plain?
  {
    (Plain(hash), Plain(token), Plain(now))
  }

  lemma AssignsMatchRegistered(u: User, hash: string, token: string, now: Time)
    ensures var v := Registered(u, hash, token, now);
      var a := RegisterAssigns(hash, token, now);
      Some(a.0.value) == v.passwordHash && Some(a.1.value) == v.verificationToken && Some(a.2.value) == v.verificationSentAt
    ensures Committed(u, RegisterAssigns(hash, token, now)) == Registered(u, hash, token, now)
  {
  }
}
