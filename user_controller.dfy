/** The user endpoints: an administrator creates, updates and deletes accounts, and a user
    edits their own profile and password. An administrator can neither change their own
    role nor delete their own account. */
module UserController {
  import opened Common
  import opened UserModel
  import opened Database

  /** What `createUserByAdmin` decides: all four fields are required, and the email must not
      be in use. An absent string is empty and an absent role is None. */
  function CheckCreate(users: map<Id, User>, fullName: string, email: string, password: string, role: Option<Id>): (r: Outcome)
    ensures r == Pass <==>
      fullName != [] && email != [] && password != [] && role.Some? && !EmailTaken(users, email)
    ensures r == Fail(MissingFields) <==> fullName == [] || email == [] || password == [] || role.None?
    ensures r.Fail? ==> r.error in {MissingFields, DuplicateEmail}
  {
    if fullName == [] || email == [] || password == [] || role.None? then Fail(MissingFields)
    else if EmailTaken(users, email) then Fail(DuplicateEmail)
    else Pass
  }

  /** `createUserByAdmin`: on success a new account with exactly the submitted fields and no
      phone number; on failure nothing is stored. */
  method CreateUserByAdmin(s: Store, fullName: string, email: string, password: string, role: Option<Id>)
    returns (r: Result<Id>)
    requires s.Valid()
    modifies s`nextId, s`users
    ensures s.Valid()
    ensures r.Ok? <==> CheckCreate(old(s.users), fullName, email, password, role) == Pass
    ensures r.Err? ==> r.error == CheckCreate(old(s.users), fullName, email, password, role).error
    ensures r.Err? ==> s.users == old(s.users)
    ensures r.Ok? ==>
      && r.value !in old(s.users)
      && s.users == old(s.users)[r.value := User(fullName, email, Hashed(password), [], role.value)]
  {
    if fullName == [] || email == [] || password == [] || role.None? {
      return Err(MissingFields);
    }
    if EmailTaken(s.users, email) {
      return Err(DuplicateEmail);
    }
    var id := s.FreshId();
    var saved := s.SaveUser(id, User(fullName, email, Hashed(password), [], role.value));
    assert saved == Pass;
    r := Ok(id);
  }

  /** The role `updateUserByAdmin` leaves an account with. Without a requested role
      the role stays. An administrator editing their own account may only resubmit the role
      they have; anyone else's role becomes the requested one. */
  function RoleAfterUpdate(isSelf: bool, current: Id, requested: Option<Id>): (r: Result<Id>)
    ensures isSelf ==> r == Ok(current) || r == Err(SelfRoleChange)
    ensures r == Err(SelfRoleChange) <==> isSelf && requested.Some? && requested.value != current
    ensures !isSelf && requested.Some? ==> r == Ok(requested.value)
    ensures requested.None? ==> r == Ok(current)
  {
    if requested.None? then Ok(current)
    else if isSelf then
      if requested.value != current then Err(SelfRoleChange) else Ok(current)
    else Ok(requested.value)
  }

  /** `updateUserByAdmin` by the administrator `actor`. A non-empty name or email replaces
      the stored one, a supplied password replaces the credential, and the role follows
      `RoleAfterUpdate`; the save then checks the email index. On failure the account is as
      it was. */
  method UpdateUserByAdmin(s: Store, actor: Id, id: Id, fullName: string, email: string, role: Option<Id>, password: string)
    returns (r: Outcome)
    requires s.Valid()
    modifies s`users
    ensures s.Valid()
    ensures id !in old(s.users) ==> r == Fail(NotFound)
    ensures r.Fail? ==> s.users == old(s.users)
    ensures id in old(s.users) ==>
      var u := old(s.users[id]);
      var newEmail := if email != [] then email else u.email;
      && (RoleAfterUpdate(id == actor, u.role, role).Err? ==> r == Fail(SelfRoleChange))
      && (RoleAfterUpdate(id == actor, u.role, role).Ok? ==>
            (r == Pass <==> !EmailTakenByOther(old(s.users), newEmail, id))
            && (r.Fail? ==> r == Fail(DuplicateKey)))
    ensures r == Pass ==> id in old(s.users)
    ensures r == Pass && id in old(s.users) ==>
      var u := old(s.users[id]);
      && RoleAfterUpdate(id == actor, u.role, role).Ok?
      && s.users == old(s.users)[id := User(
           if fullName != [] then fullName else u.full_name,
           if email != [] then email else u.email,
           if password != [] then Hashed(password) else u.password,
           u.phone_number,
           RoleAfterUpdate(id == actor, u.role, role).value)]
  {
    if id !in s.users {
      return Fail(NotFound);
    }
    var u := s.users[id];
    var isSelf := id == actor;
    u := u.(full_name := if fullName != [] then fullName else u.full_name);
    u := u.(email := if email != [] then email else u.email);
    if role.Some? {
      if isSelf {
        if u.role != role.value {
          return Fail(SelfRoleChange);
        }
      } else {
        u := u.(role := role.value);
      }
    }
    if password != [] {
      u := u.(password := Hashed(password));
    }
    r := s.SaveUser(id, u);
  }

  /** `deleteUser` by the administrator `actor`: unknown identities are NotFound and an
      administrator's own account is refused; any other account is removed. */
  method DeleteUser(s: Store, actor: Id, id: Id) returns (r: Outcome)
    requires s.Valid()
    modifies s`users
    ensures s.Valid()
    ensures id !in old(s.users) ==> r == Fail(NotFound)
    ensures id in old(s.users) && id == actor ==> r == Fail(SelfDelete)
    ensures r == Pass <==> id in old(s.users) && id != actor
    ensures r.Fail? ==> s.users == old(s.users)
    ensures r == Pass ==> s.users == old(s.users) - {id}
    ensures actor in old(s.users) ==> actor in s.users
  {
    if id !in s.users {
      return Fail(NotFound);
    }
    if id == actor {
      return Fail(SelfDelete);
    }
    s.DeleteUser(id);
    r := Pass;
  }

  /** What `changePassword` decides once the account is found: the entered current password
      must match, and the new one must not. After an accepted change the new password opens
      the account and the old one no longer does. */
  function CheckPasswordChange(u: User, current: string, next: string): (r: Outcome)
    requires current != [] && next != []
    ensures r == Pass <==> MatchPassword(u, current) && !MatchPassword(u, next)
    ensures r == Fail(WrongPassword) <==> !MatchPassword(u, current)
    ensures r.Fail? ==> r.error in {WrongPassword, SamePassword}
    ensures r == Pass ==>
      && MatchPassword(u.(password := Hashed(next)), next)
      && !MatchPassword(u.(password := Hashed(next)), current)
  {
    if !MatchPassword(u, current) then Fail(WrongPassword)
    else if MatchPassword(u, next) then Fail(SamePassword)
    else Pass
  }

  /** `changePassword` for the signed-in user `actor`: both passwords are required, then the
      account must exist, then `CheckPasswordChange` decides. Only the credential changes,
      and only on success. */
  method ChangePassword(s: Store, actor: Id, current: string, next: string) returns (r: Outcome)
    requires s.Valid()
    modifies s`users
    ensures s.Valid()
    ensures current == [] || next == [] ==> r == Fail(MissingFields)
    ensures current != [] && next != [] && actor !in old(s.users) ==> r == Fail(NotFound)
    ensures current != [] && next != [] && actor in old(s.users) ==>
      r == CheckPasswordChange(old(s.users[actor]), current, next)
    ensures r.Fail? ==> s.users == old(s.users)
    ensures r == Pass ==>
      && actor in old(s.users)
      && s.users == old(s.users)[actor := old(s.users[actor]).(password := Hashed(next))]
  {
    if current == [] || next == [] {
      return Fail(MissingFields);
    }
    if actor !in s.users {
      return Fail(NotFound);
    }
    var u := s.users[actor];
    if !MatchPassword(u, current) {
      return Fail(WrongPassword);
    }
    if MatchPassword(u, next) {
      return Fail(SamePassword);
    }
    u := u.(password := Hashed(next));
    var saved := s.SaveUser(actor, u);
    assert saved == Pass;
    r := Pass;
  }

  /** `updateUserProfile` for the signed-in user `actor`: a non-empty name or phone number
      replaces the stored one; nothing else of the account changes. */
  method UpdateUserProfile(s: Store, actor: Id, fullName: string, phone: string) returns (r: Outcome)
    requires s.Valid()
    modifies s`users
    ensures s.Valid()
    ensures r == Pass <==> actor in old(s.users)
    ensures r.Fail? ==> r == Fail(NotFound) && s.users == old(s.users)
    ensures r == Pass ==>
      var u := old(s.users[actor]);
      s.users == old(s.users)[actor := u.(
        full_name := if fullName != [] then fullName else u.full_name,
        phone_number := if phone != [] then phone else u.phone_number)]
  {
    if actor !in s.users {
      return Fail(NotFound);
    }
    var u := s.users[actor];
    u := u.(full_name := if fullName != [] then fullName else u.full_name);
    u := u.(phone_number := if phone != [] then phone else u.phone_number);
    var saved := s.SaveUser(actor, u);
    assert saved == Pass;
    r := Pass;
  }
}
