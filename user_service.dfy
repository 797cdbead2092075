/** The user service: creating, updating, deleting and reading users, with
    e-mail addresses kept unique. The user repository is the map `users`. */
module Users {
  import opened Model
  import opened UserMapper

  /** The password encoder, as an opaque function of the raw password. */
  type PasswordEncoder = Option<string> -> Option<string>

  /** Every user is stored under its own id. */
  ghost predicate KeysMatch(users: map<Uuid, User>) {
    forall id :: id in users ==> users[id].id == id
  }

  /** No two stored users share an e-mail address. */
  ghost predicate EmailsUnique(users: map<Uuid, User>) {
    forall a, b :: a in users && b in users && a != b ==> users[a].email != users[b].email
  }

  /** `existsByEmail`. */
  predicate EmailTaken(users: map<Uuid, User>, email: Option<string>) {
    exists id :: id in users && users[id].email == email
  }

  /** The responses for the users under `keys`. */
  function ResponsesOf(users: map<Uuid, User>, keys: set<Uuid>): set<UserResponse>
    requires keys <= users.Keys
  {
    set id | id in keys :: ToResponse(users[id])
  }

  /** One response per stored user: since responses carry the user's id,
      distinct users give distinct responses. */
  lemma {:induction false} ResponsesOfSize(users: map<Uuid, User>, keys: set<Uuid>)
    requires keys <= users.Keys && KeysMatch(users)
    ensures |ResponsesOf(users, keys)| == |keys|
    decreases keys
  {
    if keys != {} {
      var k :| k in keys;
      var rest := keys - {k};
      ResponsesOfSize(users, rest);
      assert ResponsesOf(users, keys) == ResponsesOf(users, rest) + {ToResponse(users[k])};
      assert ToResponse(users[k]) !in ResponsesOf(users, rest);
    }
  }

  class UserService {
    var users: map<Uuid, User>

    ghost predicate Valid()
      reads this
    {
      KeysMatch(users) && EmailsUnique(users)
    }

    constructor ()
      ensures Valid() && users == map[]
    {
      users := map[];
    }

    /** Creates a user unless the e-mail is taken; the stored password is
        the encoded one. `newId` is the identifier the store generates and
        `now` the creation time. */
    method CreateUser(request: UserRequest, encode: PasswordEncoder, newId: Uuid, now: Instant)
      returns (r: Result<UserResponse>)
      requires Valid() && newId !in users
      modifies this
      ensures Valid()
      ensures EmailTaken(old(users), request.email) ==>
        r == Err(EmailAlreadyExists(request.email)) && users == old(users)
      ensures !EmailTaken(old(users), request.email) ==>
        && users == old(users)[newId := ToUser(request, encode(request.password), newId, now)]
        && users[newId].email == request.email
        && users[newId].password == encode(request.password)
        && r == Ok(ToResponse(users[newId]))
    {
      var email := request.email;
      if EmailTaken(users, email) {
        return Err(EmailAlreadyExists(email));
      }
      var encodedPassword := encode(request.password);
      var user := ToUser(request, encodedPassword, newId, now);
      users := users[newId := user];
      r := Ok(ToResponse(user));
    }

    /** Partially updates a user. The e-mail may not move to an address
        another user has; the password is encoded only when one is given. */
    method UpdateUser(id: Uuid, request: UserRequest, encode: PasswordEncoder)
      returns (r: Result<UserResponse>)
      requires Valid()
      modifies this
      ensures Valid()
      ensures id !in old(users) ==> r == Err(UserNotFound(id)) && users == old(users)
      ensures id in old(users) && request.email.Some?
              && (exists other :: other in old(users) && other != id && old(users)[other].email == request.email) ==>
        r == Err(EmailAlreadyExists(request.email)) && users == old(users)
      ensures r.Ok? ==>
        && id in old(users)
        && users == old(users)[id := UserMapper.UpdateUser(old(users)[id], request,
                                                           if request.password.Some? then encode(request.password) else None)]
        && r.value == ToResponse(users[id])
      ensures r.Err? ==> users == old(users)
      ensures id in old(users)
              && (request.email.None?
                  || forall other :: other in old(users) && other != id ==> old(users)[other].email != request.email) ==>
        r.Ok?
    {
      if id !in users {
        return Err(UserNotFound(id));
      }
      var user := users[id];
      var newEmail := request.email;
      var userWithEmail: Option<User> := None;
      if EmailTaken(users, newEmail) {
        var holder :| holder in users && users[holder].email == newEmail;
        userWithEmail := Some(users[holder]);
      }
      if newEmail.Some? && userWithEmail.Some? && userWithEmail.value.id != id {
        return Err(EmailAlreadyExists(newEmail));
      }
      var encodedPassword := if request.password.Some? then encode(request.password) else None;
      user := UserMapper.UpdateUser(user, request, encodedPassword);
      users := users[id := user];
      r := Ok(ToResponse(user));
    }

    /** Deletes exactly the given user; a missing id is an error. */
    method DeleteUser(id: Uuid) returns (r: Outcome)
      requires Valid()
      modifies this
      ensures Valid()
      ensures id !in old(users) ==> r == Fail(UserNotFound(id)) && users == old(users)
      ensures id in old(users) ==> r == Pass && users == old(users) - {id}
    {
      if id !in users {
        return Fail(UserNotFound(id));
      }
      users := users - {id};
      r := Pass;
    }

    /** One response per stored user, in no particular order. */
    method GetAllUsers() returns (r: set<UserResponse>)
      requires Valid()
      ensures |r| == |users|
      ensures forall id :: id in users ==> ToResponse(users[id]) in r
      ensures forall resp :: resp in r ==> resp.id in users && resp == ToResponse(users[resp.id])
    {
      r := ResponsesOf(users, users.Keys);
      ResponsesOfSize(users, users.Keys);
    }

    method GetUserById(id: Uuid) returns (r: Result<UserResponse>)
      ensures id in users ==> r == Ok(ToResponse(users[id]))
      ensures id !in users ==> r == Err(UserNotFound(id))
    {
      if id !in users {
        return Err(UserNotFound(id));
      }
      r := Ok(ToResponse(users[id]));
    }
  }
}
