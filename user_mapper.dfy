/** Building, partially updating and projecting users. */
module UserMapper {
  import opened Model

  /** What an administrator supplies to create or update a user; `None` is
      a null field. */
  datatype UserRequest = UserRequest(
    firstName: Option<string>,
    lastName: Option<string>,
    email: Option<string>,
    phoneNumber: Option<string>,
    password: Option<string>,
    role: Option<UserRole>)

  /** A user as the API shows it: never with a password. */
  datatype UserResponse = UserResponse(
    id: Uuid,
    firstName: Option<string>,
    lastName: Option<string>,
    email: Option<string>,
    phoneNumber: Option<string>,
    role: Option<UserRole>)

  /** The user `toUser` builds: profile fields from the request, the
      already encoded password instead of the raw one. `id` stands for the
      identifier the store generates and `createdAt` for the current time. */
  function ToUser(request: UserRequest, encodedPassword: Option<string>, id: Uuid, createdAt: Instant): (u: User)
    ensures u.id == id && u.createdAt == createdAt
    ensures u.firstName == request.firstName && u.lastName == request.lastName
    ensures u.email == request.email && u.phoneNumber == request.phoneNumber && u.role == request.role
    ensures u.password == encodedPassword
  {
    User(id, request.firstName, request.lastName, request.email, request.phoneNumber,
         encodedPassword, request.role, createdAt)
  }

  /** A nullable setter argument: a null value keeps the old one. */
  function KeepIfNull<T>(current: Option<T>, requested: Option<T>): Option<T> {
    if requested.Some? then requested else current
  }

  /** The partial update: the setters run one after another, each only
      when its request field is non-null; the password becomes the encoded
      one only when the request carries a password. */
  function UpdateUser(user: User, request: UserRequest, encodedPassword: Option<string>): (u: User)
    ensures u.id == user.id && u.createdAt == user.createdAt
  {
    var u1 := if request.firstName.Some? then user.(firstName := request.firstName) else user;
    var u2 := if request.lastName.Some? then u1.(lastName := request.lastName) else u1;
    var u3 := if request.phoneNumber.Some? then u2.(phoneNumber := request.phoneNumber) else u2;
    var u4 := if request.email.Some? then u3.(email := request.email) else u3;
    var u5 := if request.role.Some? then u4.(role := request.role) else u4;
    if request.password.Some? then u5.(password := encodedPassword) else u5
  }

  /** Field by field: a non-null request value overwrites, a null one
      keeps the old value. */
  lemma UpdateUserFields(user: User, request: UserRequest, encodedPassword: Option<string>)
    ensures var u := UpdateUser(user, request, encodedPassword);
      && u.firstName == KeepIfNull(user.firstName, request.firstName)
      && u.lastName == KeepIfNull(user.lastName, request.lastName)
      && u.phoneNumber == KeepIfNull(user.phoneNumber, request.phoneNumber)
      && u.email == KeepIfNull(user.email, request.email)
      && u.role == KeepIfNull(user.role, request.role)
      && u.password == (if request.password.Some? then encodedPassword else user.password)
  {
  }

  /** The all-null request changes nothing. */
  lemma EmptyUpdateIsIdentity(user: User, encodedPassword: Option<string>)
    ensures UpdateUser(user, UserRequest(None, None, None, None, None, None), encodedPassword) == user
  {
  }

  /** Applying the same request twice gives the same user as applying it
      once. */
  lemma UpdateUserIdempotent(user: User, request: UserRequest, encodedPassword: Option<string>)
    ensures UpdateUser(UpdateUser(user, request, encodedPassword), request, encodedPassword)
         == UpdateUser(user, request, encodedPassword)
  {
    UpdateUserFields(user, request, encodedPassword);
    UpdateUserFields(UpdateUser(user, request, encodedPassword), request, encodedPassword);
  }

  /** The response carries the user's id and profile and nothing else. */
  function ToResponse(user: User): (r: UserResponse)
    ensures r.id == user.id && r.email == user.email && r.role == user.role
    ensures r.firstName == user.firstName && r.lastName == user.lastName
    ensures r.phoneNumber == user.phoneNumber
  {
    UserResponse(user.id, user.firstName, user.lastName, user.email, user.phoneNumber, user.role)
  }

  /** The response does not depend on the password: two users differing
      only in their password give the same response. */
  lemma ResponseOmitsPassword(user: User, password: Option<string>)
    ensures ToResponse(user.(password := password)) == ToResponse(user)
  {
  }
}
