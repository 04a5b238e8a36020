/** UserService: accounts kept in a store keyed by id. The password encoder
    is a pair of uninterpreted functions. */
module UserService {
  import opened Wrappers
  import opened Text
  import opened Entities

  /** Spring Security's `PasswordEncoder`: `encode(raw)` and
      `matches(raw, encoded)`. */
  datatype PasswordEncoder = PasswordEncoder(encode: string -> string, matches: (string, string) -> bool)

  const DefaultRole := "ROLE_USER"
  const WrongPasswordMessage := "현재 비밀번호가 일치하지 않습니다."

  /** The user `register` hands to `save`: the password encoded and the role
      set, everything else as submitted. */
  function Registered(encoder: PasswordEncoder, user: User): (r: User)
    ensures r.role == DefaultRole && r.password == encoder.encode(user.password)
    ensures r.id == user.id && r.username == user.username && r.name == user.name && r.email == user.email
  {
    user.(password := encoder.encode(user.password), role := DefaultRole)
  }

  /** The user `updateUser` hands to `save`, or the exception it throws
      instead. */
  function Updated(encoder: PasswordEncoder, user: User, name: Option<string>, email: Option<string>,
                   currentPassword: Option<string>, newPassword: Option<string>): (r: Result<User, string>)
    ensures r.Ok? <==>
      IsNullOrBlank(newPassword) ||
      (currentPassword.Some? && encoder.matches(currentPassword.value, user.password))
    ensures r.Thrown? ==> r.error == WrongPasswordMessage
    ensures r.Ok? ==> r.value.id == user.id && r.value.username == user.username && r.value.role == user.role
    ensures r.Ok? && IsNullOrBlank(name) ==> r.value.name == user.name
    ensures r.Ok? && !IsNullOrBlank(name) ==> r.value.name == name.value
    ensures r.Ok? && IsNullOrBlank(email) ==> r.value.email == user.email
    ensures r.Ok? && !IsNullOrBlank(email) ==> r.value.email == email.value
    ensures r.Ok? && IsNullOrBlank(newPassword) ==> r.value.password == user.password
    ensures r.Ok? && !IsNullOrBlank(newPassword) ==> r.value.password == encoder.encode(newPassword.value)
  {
    var named := if IsNullOrBlank(name) then user else user.(name := name.value);
    var mailed := if IsNullOrBlank(email) then named else named.(email := email.value);
    if IsNullOrBlank(newPassword) then Ok(mailed)
    else if currentPassword.Some? && encoder.matches(currentPassword.value, user.password) then
      Ok(mailed.(password := encoder.encode(newPassword.value)))
    else Thrown(WrongPasswordMessage)
  }

  /** What `updateUser(null, …)` throws, for an account that does not exist:
      Some(message) where it is an `IllegalArgumentException`, None where it
      is another exception. Setting a non-blank name or email dereferences
      the null user; so does checking a non-null current password against
      the stored one, while a null current password fails the check first,
      with the wrong-password exception; with nothing to change, `save(null)`
      fails inside the repository, whose exception translation turns its
      `IllegalArgumentException` into a data-access exception. */
  function MissingUserUpdateError(name: Option<string>, email: Option<string>,
                                  currentPassword: Option<string>, newPassword: Option<string>): (r: Option<string>)
    ensures r.Some? <==>
      IsNullOrBlank(name) && IsNullOrBlank(email) && !IsNullOrBlank(newPassword) && currentPassword.None?
    ensures r.Some? ==> r.value == WrongPasswordMessage
  {
    if !IsNullOrBlank(name) || !IsNullOrBlank(email) then None
    else if IsNullOrBlank(newPassword) then None
    else if currentPassword.None? then Some(WrongPasswordMessage)
    else None
  }

  /** Submitting the same name and email again, with no new password,
      changes nothing more. */
  lemma UpdateWithoutPasswordIsIdempotent(encoder: PasswordEncoder, user: User, name: Option<string>,
                                          email: Option<string>, currentPassword: Option<string>)
    ensures var once := Updated(encoder, user, name, email, currentPassword, None);
      once.Ok? && Updated(encoder, once.value, name, email, currentPassword, None) == once
  {
  }

  /** The id `save` gives a record: its own, or the next free one. */
  function SavedId(id: Option<int>, nextId: int): int
  {
    id.GetOr(nextId)
  }

  class UserService {
    /** The `users` table. */
    var users: map<int, User>
    /** The id the next inserted user receives. */
    var nextId: int
    const encoder: PasswordEncoder

    /** Every user is stored under its own id, below `nextId`. */
    ghost predicate Valid()
      reads this
    {
      forall k :: k in users ==> users[k].id == Some(k) && k < nextId
    }

    /** `existsByUsername`. */
    predicate HasUsername(username: string)
      reads this
    {
      exists k :: k in users && users[k].username == username
    }

    /** `existsByEmail`. */
    predicate HasEmail(email: string)
      reads this
    {
      exists k :: k in users && users[k].email == email
    }

    constructor(encoder: PasswordEncoder)
      ensures Valid() && users == map[] && nextId == 0 && this.encoder == encoder
    {
      users := map[];
      nextId := 0;
      this.encoder := encoder;
    }

    /** `userRepository.save`: the user is stored under its id, or under the
        next free id when it has none, and is returned with that id. */
    method Save(user: User) returns (saved: User)
      modifies this
      requires Valid()
      ensures Valid()
      ensures saved == user.(id := Some(SavedId(user.id, old(nextId))))
      ensures users == old(users)[saved.id.value := saved]
      ensures user.id.None? ==> saved.id.value !in old(users)
      ensures nextId == if saved.id.value < old(nextId) then old(nextId) else saved.id.value + 1
    {
      var k := SavedId(user.id, nextId);
      saved := user.(id := Some(k));
      users := users[k := saved];
      if k >= nextId {
        nextId := k + 1;
      }
    }

    /** `register`. */
    method Register(user: User) returns (saved: User)
      modifies this
      requires Valid()
      ensures Valid()
      ensures saved == Registered(encoder, user).(id := Some(SavedId(user.id, old(nextId))))
      ensures users == old(users)[saved.id.value := saved]
      ensures user.id.None? ==> saved.id.value !in old(users)
      ensures nextId == if saved.id.value < old(nextId) then old(nextId) else saved.id.value + 1
    {
      saved := Save(Registered(encoder, user));
    }

    /** `findByUsername`: null (None) when no user has that name. */
    method FindByUsername(username: string) returns (found: Option<User>)
      requires Valid()
      ensures found.None? <==> !HasUsername(username)
      ensures found.Some? ==>
        found.value.username == username && found.value.id.Some? &&
        found.value.id.value in users && users[found.value.id.value] == found.value
    {
      if k :| k in users && users[k].username == username {
        found := Some(users[k]);
      } else {
        found := None;
      }
    }

    /** `isUsernameExists`. */
    method IsUsernameExists(username: string) returns (taken: bool)
      ensures taken <==> HasUsername(username)
    {
      taken := exists k :: k in users && users[k].username == username;
    }

    /** `isEmailExists`. */
    method IsEmailExists(email: string) returns (taken: bool)
      ensures taken <==> HasEmail(email)
    {
      taken := exists k :: k in users && users[k].email == email;
    }

    /** `updateUser`: the user saved with its new fields, or the wrong-password
        exception, thrown before `save` so that nothing is stored. */
    method UpdateUser(user: User, name: Option<string>, email: Option<string>,
                      currentPassword: Option<string>, newPassword: Option<string>)
      returns (r: Result<User, string>)
      modifies this
      requires Valid()
      ensures Valid()
      ensures var u := Updated(encoder, user, name, email, currentPassword, newPassword);
        (u.Thrown? ==> r == u && users == old(users) && nextId == old(nextId)) &&
        (u.Ok? ==> r == Ok(u.value.(id := Some(SavedId(user.id, old(nextId))))) &&
                   users == old(users)[r.value.id.value := r.value] &&
                   nextId == if r.value.id.value < old(nextId) then old(nextId) else r.value.id.value + 1)
    {
      var u := Updated(encoder, user, name, email, currentPassword, newPassword);
      if u.Thrown? {
        return u;
      }
      var saved := Save(u.value);
      r := Ok(saved);
    }

    /** `deleteUser`: `delete` removes the row with the user's id; a user
        without an id is new to the store and nothing is removed. */
    method DeleteUser(user: User)
      modifies this
      requires Valid()
      ensures Valid()
      ensures users == if user.id.Some? then old(users) - {user.id.value} else old(users)
      ensures nextId == old(nextId)
    {
      if user.id.Some? {
        users := users - {user.id.value};
      }
    }
  }
}
