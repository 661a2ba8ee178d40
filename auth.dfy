/**
 * Logging in, refreshing a token, and resetting a forgotten password
 * (app/routes/auth.py).
 *
 * The guard ladders are functions of the users table; `Login` and
 * `ForgotPassword` then update the matched row of an `Accounts` table.
 * Password checking and hashing, JWT decoding, the clock and the random
 * draws are parameters; issuing the tokens and sending the mail are not
 * modelled.
 */
module Auth {
  import opened Wrappers
  import opened Text
  import opened Users
  import opened Http
  import opened Registration
  import opened Dependencies

  const BadCredentials: HttpError := HttpError(Unauthorized, "Неверные логин или пароль!")
  const MustRegister: HttpError := HttpError(Unauthorized, "Необходимо пройти регистрацию")
  const EmailNotConfirmed: HttpError := HttpError(Forbidden, "Email не подтвержден. Пожалуйста проверьте эл.почту")
  const AccountDisabled: HttpError := HttpError(Forbidden, "Аккаунт отключен. Пожалуйста свяжитесь с администратором")
  const InvalidToken: HttpError := HttpError(Unauthorized, "Невалидный токен")
  const UnknownUser: HttpError := HttpError(Unauthorized, "Пользователь не найден")
  const RefreshDisabled: HttpError := HttpError(Forbidden, "Аккаунт отключен")
  const ResetFailed: HttpError := HttpError(ServerError, "Произошла ошибка при восстановлении пароля")
  const ResetAnswer: string := "Если пользователь с таким email существует, на него будет отправлен новый пароль"
  const NotToday: string := "Восстановление пароля сегодня недоступно"

  // ---------------------------------------------------------------------
  // Random passwords

  /** The characters from `lo` on, `n` of them. */
  function CharRange(lo: char, n: nat): (r: string)
    requires lo as int + n <= 0xD800
    ensures |r| == n
    ensures forall c :: c in r <==> lo <= c && c as int < lo as int + n
  {
    var r := seq(n, i requires 0 <= i < n => (lo as int + i) as char);
    assert forall c :: lo <= c && c as int < lo as int + n ==> c in r by {
      forall c | lo <= c && c as int < lo as int + n ensures c in r {
        assert r[c as int - lo as int] == c;
      }
    }
    r
  }

  /** `string.ascii_letters + string.digits + "!@#$%^&*"`. */
  const Alphabet: string := CharRange('a', 26) + CharRange('A', 26) + CharRange('0', 10) + "!@#$%^&*"
  const DefaultPasswordLength: nat := 12

  predicate PasswordChar(c: char) {
    IsAsciiLetter(c) || ('0' <= c <= '9') || c in "!@#$%^&*"
  }

  lemma AlphabetMeaning()
    ensures |Alphabet| == 70
    ensures forall c :: c in Alphabet <==> PasswordChar(c)
  {
  }

  /**
   * generate_random_password: one character per draw of `secrets.choice`,
   * the draw `d` choosing the alphabet's character at `d` modulo its size.
   */
  function GeneratePassword(draws: seq<nat>): (p: string)
    ensures |p| == |draws|
    ensures forall i :: 0 <= i < |p| ==> PasswordChar(p[i])
  {
    AlphabetMeaning();
    seq(|draws|, i requires 0 <= i < |draws| => Alphabet[draws[i] % |Alphabet|])
  }

  /** Every character of the alphabet can be drawn. */
  lemma EveryCharDrawable(c: char)
    requires PasswordChar(c)
    ensures exists d: nat :: d < 70 && GeneratePassword([d])[0] == c
  {
    AlphabetMeaning();
    var k :| 0 <= k < |Alphabet| && Alphabet[k] == c;
    var draws: seq<nat> := [k];
    assert draws[0] % |Alphabet| == k;
    assert GeneratePassword(draws)[0] == Alphabet[k];
  }

  // ---------------------------------------------------------------------
  // Login

  /**
   * authenticate_user: the first user with the e-mail, if the password
   * checks against its hash (`verify` is the hash check; a missing hash
   * never checks).
   */
  function Authenticate(users: seq<User>, email: string, password: string, verify: (string, string) -> bool): (r: Option<nat>)
    ensures r.Some? <==> First(users, ByEmail(email)).Some?
                         && users[First(users, ByEmail(email)).value].passwordHash.Some?
                         && verify(password, users[First(users, ByEmail(email)).value].passwordHash.value)
    ensures r.Some? ==> r == First(users, ByEmail(email))
  {
    match First(users, ByEmail(email))
    case None => None
    case Some(i) =>
      if users[i].passwordHash.Some? && verify(password, users[i].passwordHash.value) then Some(i) else None
  }

  /**
   * login's checks, in order: credentials (401), registration still
   * pending (401), e-mail not confirmed (403), account disabled (403).
   */
  function LoginCheck(users: seq<User>, email: string, password: string, verify: (string, string) -> bool): (r: Result<nat, HttpError>)
    ensures Authenticate(users, email, password, verify).None? ==> r == Failure(BadCredentials)
    ensures Authenticate(users, email, password, verify).Some? ==>
      var u := users[Authenticate(users, email, password, verify).value];
      && (u.requiresPassword ==> r == Failure(MustRegister))
      && (!u.requiresPassword && !u.isVerified ==> r == Failure(EmailNotConfirmed))
      && (!u.requiresPassword && u.isVerified && !u.isActive ==> r == Failure(AccountDisabled))
    ensures r.Success? <==>
      && Authenticate(users, email, password, verify).Some?
      && !users[Authenticate(users, email, password, verify).value].requiresPassword
      && users[Authenticate(users, email, password, verify).value].isVerified
      && users[Authenticate(users, email, password, verify).value].isActive
    ensures r.Success? ==> r.value < |users| && users[r.value].email == email
  {
    match Authenticate(users, email, password, verify)
    case None => Failure(BadCredentials)
    case Some(i) =>
      var u := users[i];
      if u.requiresPassword then Failure(MustRegister)
      else if !u.isVerified then Failure(EmailNotConfirmed)
      else if !u.isActive then Failure(AccountDisabled)
      else Success(i)
  }

  /** The user part of login's answer. */
  datatype LoginAnswer = LoginAnswer(id: int, externalId: string, email: string, isVerified: bool,
                                     displayName: Option<string>, roles: seq<string>)

  /** A successful login needs a password hash, a finished registration, a verified and an active account. */
  lemma LoginNeedsLifecycle(users: seq<User>, email: string, password: string, verify: (string, string) -> bool)
    requires LoginCheck(users, email, password, verify).Success?
    ensures var u := users[LoginCheck(users, email, password, verify).value];
      u.passwordHash.Some? && !u.requiresPassword && u.isVerified && u.isActive
  {
  }

  /** A freshly verified account with a matching password can log in. */
  lemma VerifiedCanLogIn(users: seq<User>, i: nat, password: string, verify: (string, string) -> bool, now: Time)
    requires i < |users| && First(users, ByEmail(users[i].email)) == Some(i)
    requires users[i].passwordHash.Some? && verify(password, users[i].passwordHash.value)
    ensures var after := users[i := Verified(users[i], now)];
      LoginCheck(after, after[i].email, password, verify) == Success(i)
  {
    var after := users[i := Verified(users[i], now)];
    assert forall j :: 0 <= j < i ==> after[j] == users[j];
    assert First(after, ByEmail(after[i].email)) == Some(i);
  }

  /** login: the checks, then the login time is recorded and the user's role names returned. */
  method Login(a: Accounts, email: string, password: string, verify: (string, string) -> bool, now: Time)
    returns (r: Result<LoginAnswer, HttpError>)
    modifies a
    ensures LoginCheck(old(a.users), email, password, verify).Failure? ==>
      r == Failure(LoginCheck(old(a.users), email, password, verify).error) && a.users == old(a.users)
    ensures LoginCheck(old(a.users), email, password, verify).Success? ==>
      var i := LoginCheck(old(a.users), email, password, verify).value;
      var u := old(a.users)[i];
      && a.users == old(a.users)[i := u.(lastLoginAt := Some(now))]
      && r == Success(LoginAnswer(u.id, u.externalId, u.email, u.isVerified, u.displayName, u.roles))
  {
    var check := LoginCheck(a.users, email, password, verify);
    if check.Failure? {
      return Failure(check.error);
    }
    var i := check.value;
    a.users := a.users[i := a.users[i].(lastLoginAt := Some(now))];
    var u := a.users[i];
    r := Success(LoginAnswer(u.id, u.externalId, u.email, u.isVerified, u.displayName, u.roles));
  }

  // ---------------------------------------------------------------------
  // Refresh

  /**
   * refresh_token's checks: an undecodable token or one without "sub" or
   * "user_id" is a 401, no user with both that id and that e-mail is a
   * 401, an inactive user a 403.
   */
  function RefreshCheck(users: seq<User>, claims: Option<Claims>): (r: Result<nat, HttpError>)
    ensures claims.None? || claims.value.sub.None? || claims.value.userId.None? ==> r == Failure(InvalidToken)
    ensures claims.Some? && claims.value.sub.Some? && claims.value.userId.Some? ==>
      var q := ByIdAndEmail(claims.value.userId.value, claims.value.sub.value);
      && (First(users, q).None? ==> r == Failure(UnknownUser))
      && (First(users, q).Some? && !users[First(users, q).value].isActive ==> r == Failure(RefreshDisabled))
      && (First(users, q).Some? && users[First(users, q).value].isActive ==> r == Success(First(users, q).value))
    ensures r.Success? ==>
      && r.value < |users| && users[r.value].isActive
      && Some(users[r.value].id) == claims.value.userId && Some(users[r.value].email) == claims.value.sub
  {
    if claims.None? || claims.value.sub.None? || claims.value.userId.None? then Failure(InvalidToken)
    else
      match First(users, ByIdAndEmail(claims.value.userId.value, claims.value.sub.value))
      case None => Failure(UnknownUser)
      case Some(i) => if !users[i].isActive then Failure(RefreshDisabled) else Success(i)
  }

  /** Unlike the request guard, refresh accepts an empty "sub" when a user has the empty e-mail and that id. */
  lemma RefreshEmptySub(users: seq<User>, id: int)
    requires First(users, ByIdAndEmail(id, "")).Some? && users[First(users, ByIdAndEmail(id, "")).value].isActive
    ensures RefreshCheck(users, Some(Claims(Some(""), Some(id)))).Success?
    ensures CurrentUser(users, Some(Claims(Some(""), Some(id)))).Failure?
  {
  }

  // ---------------------------------------------------------------------
  // Forgotten password

  datatype ForgotOutcome = Answer(message: string) | Reset(index: nat)

  /**
   * forgot_password as written: for an unknown e-mail the guard reads
   * `user.is_active` of None, and the exception becomes the 500; a known
   * user passes the guard whatever its flags.
   */
  function ForgotCheckAsWritten(users: seq<User>, email: string, now: Time): (r: Result<ForgotOutcome, HttpError>)
    ensures r.Failure? ==> r.error == ResetFailed
    ensures r.Failure? <==> First(users, ByEmail(email)).None? || users[First(users, ByEmail(email)).value].updatedAt.None?
    ensures r.Success? && r.value.Answer? ==> r.value.message == NotToday
    ensures r.Success? && r.value.Reset? ==>
      && r.value.index == First(users, ByEmail(email)).value
      && r.value.index < |users| && users[r.value.index].email == email
      && users[r.value.index].updatedAt.Some? && DateOf(users[r.value.index].updatedAt.value) != DateOf(now)
  {
    match First(users, ByEmail(email))
    case None => Failure(ResetFailed)
    case Some(i) =>
      match users[i].updatedAt
      case None => Failure(ResetFailed)
      case Some(t) => if DateOf(t) == DateOf(now) then Success(Answer(NotToday)) else Success(Reset(i))
  }

  /** As written, asking for an unknown e-mail gets the 500 instead of the neutral answer. */
  lemma ForgotUnknownEmailFails(users: seq<User>, email: string, now: Time)
    requires forall j :: 0 <= j < |users| ==> users[j].email != email
    ensures ForgotCheckAsWritten(users, email, now) == Failure(ResetFailed)
  {
  }

  /**
   * As written, the guard never stops a known account: one that is
   * inactive, unverified or still waiting for its password, last updated on
   * an earlier day, has its password reset.
   */
  lemma ForgotResetsUnusableAsWritten(users: seq<User>, email: string, now: Time, j: nat)
    requires j < |users| && users[j].email == email
    requires forall k :: 0 <= k < j ==> users[k].email != email
    requires !users[j].isActive || !users[j].isVerified || users[j].requiresPassword
    requires users[j].updatedAt.Some? && DateOf(users[j].updatedAt.value) < DateOf(now)
    ensures ForgotCheckAsWritten(users, email, now) == Success(Reset(j))
  {
    assert First(users, ByEmail(email)) == Some(j) by {
      assert Matches(ByEmail(email), users[j]);
      var f := First(users, ByEmail(email));
      assert !(f.value < j) && !(j < f.value);
    }
  }

  /**
   * An account the guard should let through to a reset: active, verified
   * and with its password chosen. The guard's comment and its four operands
   * read as `not user or not user.is_active or not user.is_verified or
   * user.requires_password`.
   */
  predicate Resettable(u: User) {
    u.isActive && u.isVerified && !u.requiresPassword
  }

  /**
   * forgot_password with the guard read as `or`: an unknown e-mail, and an
   * account that is inactive, unverified or still waiting for its password,
   * get the neutral answer; any other account is answered as written (a
   * reset on the same UTC day as the last update is refused, and a user
   * never updated makes `.date()` raise).
   */
  function ForgotCheck(users: seq<User>, email: string, now: Time): (r: Result<ForgotOutcome, HttpError>)
    ensures First(users, ByEmail(email)).None? ==> r == Success(Answer(ResetAnswer))
    ensures First(users, ByEmail(email)).Some? && !Resettable(users[First(users, ByEmail(email)).value]) ==>
      r == Success(Answer(ResetAnswer))
    ensures First(users, ByEmail(email)).Some? && Resettable(users[First(users, ByEmail(email)).value]) ==>
      r == ForgotCheckAsWritten(users, email, now)
    ensures r.Success? && r.value.Reset? ==>
      && r.value.index < |users| && users[r.value.index].email == email && Resettable(users[r.value.index])
      && users[r.value.index].updatedAt.Some? && DateOf(users[r.value.index].updatedAt.value) != DateOf(now)
  {
    match First(users, ByEmail(email))
    case None => Success(Answer(ResetAnswer))
    case Some(i) => if !Resettable(users[i]) then Success(Answer(ResetAnswer)) else ForgotCheckAsWritten(users, email, now)
  }

  /**
   * With the corrected guard, an e-mail nobody has and an e-mail whose first
   * account cannot log in yet both get the neutral answer, the same message
   * a reset answers with. An account that can log in is still told apart
   * when it was updated today ("not today") or never (the 500).
   */
  lemma ForgotNeutral(users: seq<User>, email: string, now: Time, j: nat)
    requires j <= |users|
    requires forall k :: 0 <= k < j ==> users[k].email != email
    requires j == |users| || (users[j].email == email && !Resettable(users[j]))
    ensures ForgotCheck(users, email, now) == Success(Answer(ResetAnswer))
  {
    if j < |users| {
      assert First(users, ByEmail(email)) == Some(j) by {
        assert Matches(ByEmail(email), users[j]);
        var f := First(users, ByEmail(email));
        assert f.Some?;
        assert !(f.value < j) && !(j < f.value);
      }
    }
  }

  /**
   * forgot_password as written: an unknown e-mail or a user never updated
   * gets the 500, a user updated today gets the "not today" answer, and a
   * reset stores the hash of a fresh 12-character password and the time.
   */
  method ForgotPassword(a: Accounts, email: string, draws: seq<nat>, hashOf: string -> string, now: Time)
    returns (r: Result<string, HttpError>, password: Option<string>)
    requires |draws| == DefaultPasswordLength
    modifies a
    ensures ForgotCheckAsWritten(old(a.users), email, now).Failure? ==>
      r == Failure(ResetFailed) && a.users == old(a.users) && password.None?
    ensures ForgotCheckAsWritten(old(a.users), email, now).Success? && ForgotCheckAsWritten(old(a.users), email, now).value.Answer? ==>
      r == Success(ForgotCheckAsWritten(old(a.users), email, now).value.message) && a.users == old(a.users) && password.None?
    ensures ForgotCheckAsWritten(old(a.users), email, now).Success? && ForgotCheckAsWritten(old(a.users), email, now).value.Reset? ==>
      var i := ForgotCheckAsWritten(old(a.users), email, now).value.index;
      && password == Some(GeneratePassword(draws))
      && a.users == old(a.users)[i := old(a.users)[i].(passwordHash := Some(hashOf(password.value)), updatedAt := Some(now))]
      && r == Success(ResetAnswer)
  {
    password := None;
    var check := ForgotCheckAsWritten(a.users, email, now);
    if check.Failure? {
      return Failure(ResetFailed), None;
    }
    if check.value.Answer? {
      return Success(check.value.message), None;
    }
    var i := check.value.index;
    var p := GeneratePassword(draws);
    a.users := a.users[i := a.users[i].(passwordHash := Some(hashOf(p)))];
    a.users := a.users[i := a.users[i].(updatedAt := Some(now))];
    password := Some(p);
    r := Success(ResetAnswer);
  }

  /** One reset a day: right after a reset, a second request on the same UTC day is refused. */
  lemma OneResetPerDay(users: seq<User>, email: string, hash: string, now: Time, later: Time)
    requires ForgotCheckAsWritten(users, email, now).Success? && ForgotCheckAsWritten(users, email, now).value.Reset?
    requires DateOf(later) == DateOf(now)
    ensures var i := ForgotCheckAsWritten(users, email, now).value.index;
      ForgotCheckAsWritten(users[i := users[i].(passwordHash := Some(hash), updatedAt := Some(now))], email, later)
        == Success(Answer(NotToday))
  {
    var i := ForgotCheckAsWritten(users, email, now).value.index;
    var after := users[i := users[i].(passwordHash := Some(hash), updatedAt := Some(now))];
    assert forall j :: 0 <= j < |users| ==> (after[j].email == email <==> users[j].email == email);
    FirstSameMatches(users, after, ByEmail(email));
  }

  /** Two tables whose rows match a query at the same positions answer `.first()` alike. */
  lemma {:induction false} FirstSameMatches(xs: seq<User>, ys: seq<User>, q: Query)
    requires |xs| == |ys|
    requires forall j :: 0 <= j < |xs| ==> (Matches(q, xs[j]) <==> Matches(q, ys[j]))
    ensures First(xs, q) == First(ys, q)
  {
    if xs != [] {
      FirstSameMatches(xs[1..], ys[1..], q);
    }
  }
}
