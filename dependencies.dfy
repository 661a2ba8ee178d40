/**
 * The request guards (app/auth/dependencies.py): the bearer token names a
 * user by e-mail, and the stricter guards add an activity check and a role
 * check. Decoding the JWT is a foreign call; its outcome is the `Claims`
 * parameter (None when the token does not decode).
 */
module Dependencies {
  import opened Wrappers
  import opened Users
  import opened Http

  /** The claims of a decoded token that the routes read: "sub" (an e-mail) and "user_id". */
  datatype Claims = Claims(sub: Option<string>, userId: Option<int>)

  const CredentialsError: HttpError := HttpError(Unauthorized, "Could not validate credentials")
  const InactiveUser: HttpError := HttpError(BadRequest, "Пользователь неактивен")
  const InactiveTeacher: HttpError := HttpError(Forbidden, "Пользователь неактивен")
  const TeachersOnly: HttpError := HttpError(Forbidden, "Доступно только для учителей")
  const TeacherRole: string := "teacher"

  /** get_user_by_email: the first user with this e-mail. */
  function UserByEmail(users: seq<User>, email: string): (r: Option<User>)
    ensures r.Some? ==> r.value in users && r.value.email == email
    ensures r.None? <==> forall u :: u in users ==> u.email != email
    ensures users != [] && users[0].email == email ==> r == Some(users[0])
    ensures r.Some? ==> exists i :: 0 <= i < |users| && users[i] == r.value && forall j :: 0 <= j < i ==> users[j].email != email
  {
    if users == [] then None
    else if users[0].email == email then Some(users[0])
    else
      var rest := UserByEmail(users[1..], email);
      assert rest.Some? ==> exists i :: 0 <= i < |users| && users[i] == rest.value && forall j :: 0 <= j < i ==> users[j].email != email by {
        if rest.Some? {
          var tail := users[1..];
          var i :| 0 <= i < |tail| && tail[i] == rest.value && forall j :: 0 <= j < i ==> tail[j].email != email;
          forall j | 0 <= j < i + 1 ensures users[j].email != email {
            if j > 0 { assert users[j] == tail[j - 1]; }
          }
          assert users[i + 1] == rest.value;
        }
      }
      rest
  }

  /** get_current_user: an undecodable token, a missing or empty "sub", or an unknown e-mail is a 401. */
  function CurrentUser(users: seq<User>, claims: Option<Claims>): (r: Result<User, HttpError>)
    ensures r.Failure? ==> r.error == CredentialsError
    ensures r.Success? <==> claims.Some? && claims.value.sub.Some? && claims.value.sub.value != []
                            && exists u :: u in users && u.email == claims.value.sub.value
    ensures r.Success? ==> r.value in users && r.value.email == claims.value.sub.value
  {
    if claims.None? then Failure(CredentialsError)
    else if claims.value.sub.None? || claims.value.sub.value == [] then Failure(CredentialsError)
    else
      match UserByEmail(users, claims.value.sub.value)
      case None => Failure(CredentialsError)
      case Some(u) => Success(u)
  }

  /** get_current_active_user: the current user, refused with a 400 when inactive. */
  function CurrentActiveUser(users: seq<User>, claims: Option<Claims>): (r: Result<User, HttpError>)
    ensures CurrentUser(users, claims).Failure? ==> r == CurrentUser(users, claims)
    ensures CurrentUser(users, claims).Success? && !CurrentUser(users, claims).value.isActive ==> r == Failure(InactiveUser)
    ensures r.Success? <==> CurrentUser(users, claims).Success? && CurrentUser(users, claims).value.isActive
    ensures r.Success? ==> r == CurrentUser(users, claims)
  {
    match CurrentUser(users, claims)
    case Failure(e) => Failure(e)
    case Success(u) => if !u.isActive then Failure(InactiveUser) else Success(u)
  }

  /** get_current_active_teacher: an inactive user is refused first, then a user without the teacher role, both 403. */
  function CurrentActiveTeacher(users: seq<User>, claims: Option<Claims>): (r: Result<User, HttpError>)
    ensures CurrentUser(users, claims).Failure? ==> r == CurrentUser(users, claims)
    ensures CurrentUser(users, claims).Success? && !CurrentUser(users, claims).value.isActive ==> r == Failure(InactiveTeacher)
    ensures (CurrentUser(users, claims).Success? && CurrentUser(users, claims).value.isActive
             && !HasRole(CurrentUser(users, claims).value, TeacherRole)) ==> r == Failure(TeachersOnly)
    ensures r.Success? <==> CurrentUser(users, claims).Success? && CurrentUser(users, claims).value.isActive
                            && HasRole(CurrentUser(users, claims).value, TeacherRole)
  {
    match CurrentUser(users, claims)
    case Failure(e) => Failure(e)
    case Success(u) =>
      if !u.isActive then Failure(InactiveTeacher)
      else if !HasRole(u, TeacherRole) then Failure(TeachersOnly)
      else Success(u)
  }

  /** Whoever passes the teacher guard passes the active-user guard, as the same user. */
  lemma TeacherGuardStricter(users: seq<User>, claims: Option<Claims>)
    ensures CurrentActiveTeacher(users, claims).Success? ==>
      CurrentActiveUser(users, claims) == CurrentActiveTeacher(users, claims)
  {
  }

  /** The two guards answer an inactive user differently: 400 for the active-user guard, 403 for the teacher guard. */
  lemma InactiveAnswers(users: seq<User>, claims: Option<Claims>)
    requires CurrentUser(users, claims).Success? && !CurrentUser(users, claims).value.isActive
    ensures CurrentActiveUser(users, claims).error.status == 400
    ensures CurrentActiveTeacher(users, claims).error.status == 403
  {
  }
}
