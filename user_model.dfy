/** The User record and the role it references. Password hashing is abstracted: the stored
    credential stands for the bcrypt hash of a secret, and matching a password against it
    is comparing with that secret. */
module UserModel {
  import opened Common

  /** The bcrypt hash of `secret`. */
  datatype Credential = Hashed(secret: string)

  /** `full_name`, `email`, `password` and `role` are required; an absent phone number is
      the empty string. */
  datatype User = User(full_name: string, email: string, password: Credential, phone_number: string, role: Id)

  /** `user.matchPassword(entered)`: bcrypt's compare of the entered text with the hash. */
  predicate MatchPassword(u: User, entered: string) {
    u.password.secret == entered
  }

  /** The `required` validators. */
  predicate Stored(u: User) {
    u.full_name != [] && u.email != [] && u.password.secret != []
  }

  /** True iff some user has exactly this email (`findOne({ email })`). */
  predicate EmailTaken(users: map<Id, User>, email: string) {
    exists id :: id in users && users[id].email == email
  }

  /** True iff a user other than `self` has this email: what the unique index on `email`
      refuses when writing document `self`. */
  predicate EmailTakenByOther(users: map<Id, User>, email: string, self: Id) {
    exists id :: id in users && id != self && users[id].email == email
  }

  /** The unique index on `email`. */
  predicate EmailsUnique(users: map<Id, User>) {
    forall a, b :: a in users && b in users && a != b ==> users[a].email != users[b].email
  }

  predicate CollectionValid(users: map<Id, User>) {
    EmailsUnique(users) && forall id :: id in users ==> Stored(users[id])
  }

  /** What `user.save()` decides for document `id`: validators, then the unique index. */
  function CheckSave(users: map<Id, User>, id: Id, u: User): (r: Outcome)
    ensures r == Pass <==> Stored(u) && !EmailTakenByOther(users, u.email, id)
    ensures r.Fail? ==> r.error in {ValidationFailed, DuplicateKey}
  {
    if !Stored(u) then Fail(ValidationFailed)
    else if EmailTakenByOther(users, u.email, id) then Fail(DuplicateKey)
    else Pass
  }

  /** A save that passes keeps every email unique and every user valid. */
  lemma SavePreservesValid(users: map<Id, User>, id: Id, u: User)
    requires CollectionValid(users)
    requires Stored(u) && !EmailTakenByOther(users, u.email, id)
    ensures CollectionValid(users[id := u])
  {
    var us := users[id := u];
    forall a, b | a in us && b in us && a != b
      ensures us[a].email != us[b].email
    {
      if a == id {
        assert !(b in users && b != id && users[b].email == u.email);
      } else if b == id {
        assert !(a in users && a != id && users[a].email == u.email);
      }
    }
  }
}
