/** The authentication controllers: sign up, sign in, sign out and refresh
    the access token. Token signing and verification and the password hash
    comparison are library calls; the model takes them as parameters, and
    a signed token is represented by the user id it is signed for. */
module AuthControllers {

  import opened Common
  import opened Validators
  import opened ErrorHandler
  import opened UserAuth
  import opened Store

  /** Cookie lifetimes in milliseconds: fifteen minutes and seven days. */
  const AccessTokenMaxAge := 15 * 60 * 1000
  const RefreshTokenMaxAge := 7 * 24 * 60 * 60 * 1000

  lemma TokenMaxAges()
    ensures AccessTokenMaxAge == 900000
    ensures RefreshTokenMaxAge == 604800000
    ensures RefreshTokenMaxAge == 672 * AccessTokenMaxAge
  {
  }

  /** A token cookie: its name, the user id the token is signed for, and
      its lifetime. */
  datatype Cookie = Cookie(name: string, subject: Id, maxAge: int)

  /** The two cookies a successful sign-up or sign-in sets. */
  function TokenCookies(id: Id): (cs: seq<Cookie>)
    ensures |cs| == 2
    ensures forall c :: c in cs ==> c.subject == id
    ensures cs[0].name == "accessToken" && cs[0].maxAge == 900000
    ensures cs[1].name == "refreshToken" && cs[1].maxAge == 604800000
  {
    [Cookie("accessToken", id, AccessTokenMaxAge), Cookie("refreshToken", id, RefreshTokenMaxAge)]
  }

  /** The user as the controllers answer with it: id, name, e-mail and
      role, never the password. */
  datatype PublicUser = PublicUser(id: Id, name: string, email: string, role: string)

  function Project(u: User): PublicUser {
    PublicUser(u.id, u.name, u.email, u.role)
  }

  /** The projection forgets the password and the contact fields, and
      keeps everything else: two users project alike exactly when they
      agree on id, name, e-mail and role. */
  lemma ProjectHidesPassword(u: User, v: User)
    ensures Project(u) == Project(v) <==>
      u.id == v.id && u.name == v.name && u.email == v.email && u.role == v.role
    ensures Project(u) == Project(u.(password := v.password))
  {
  }

  /** A signed-in session: the public user and the cookies set. */
  datatype Session = Session(user: PublicUser, cookies: seq<Cookie>)

  // ---------------------------------------------------------------------
  // Sign-up

  datatype SignupRequest = SignupRequest(name: string, email: string, password: string)

  const FieldsRequired := "Name, email, and password are required"
  const InvalidName := "Invalid name format"
  const InvalidEmail := "Invalid email format"
  const InvalidPassword := "Invalid password format"
  const UserExists := "User already exists with this email"

  /** The checks of `signup`, in order. */
  function SignupCheck(req: SignupRequest): (c: Check)
    ensures c == Fail(BAD_REQUEST, FieldsRequired) <==> req.name == "" || req.email == "" || req.password == ""
    ensures c == Fail(BAD_REQUEST, InvalidName) <==>
      req.name != "" && req.email != "" && req.password != "" && !IsName(req.name)
    ensures c == Fail(BAD_REQUEST, InvalidEmail) <==>
      req.email != "" && req.password != "" && IsName(req.name) && !IsEmail(req.email)
    ensures c == Fail(BAD_REQUEST, InvalidPassword) <==>
      req.password != "" && IsName(req.name) && IsEmail(req.email) && !IsPassword(req.password)
    ensures c == Pass <==> IsName(req.name) && IsEmail(req.email) && IsPassword(req.password)
  {
    NameAcceptsIff(req.name);
    EmailAcceptsIff(req.email);
    if req.name == "" || req.email == "" || req.password == "" then Fail(BAD_REQUEST, FieldsRequired)
    else if !NameAccepts(req.name) then Fail(BAD_REQUEST, InvalidName)
    else if !EmailAccepts(req.email) then Fail(BAD_REQUEST, InvalidEmail)
    else if !IsPassword(req.password) then Fail(BAD_REQUEST, InvalidPassword)
    else Pass
  }

  /** `signup`: check, refuse an e-mail already registered, store the new
      user with the default role and answer with its public fields and
      fresh token cookies. */
  function SignupSpec(s: State, req: SignupRequest): Outcome<Session>
  {
    var check := SignupCheck(req);
    if check.Fail? then Outcome(s, Reject(check))
    else if FindUserByEmail(s.users, req.email).Some? then Outcome(s, Refused(BAD_REQUEST, UserExists))
    else
      var user := User(s.nextId, req.name, req.email, req.password, DefaultRole, "", "");
      Outcome(s.(users := s.users + [user], nextId := s.nextId + 1),
              Done(CREATED, "User created successfully", Session(Project(user), TokenCookies(user.id))))
  }

  method Signup(db: HotelDb, req: SignupRequest) returns (reply: Reply<Session>)
    requires db.Valid()
    modifies db
    ensures db.Valid()
    ensures Outcome(db.Snapshot(), reply) == SignupSpec(old(db.Snapshot()), req)
  {
    SignupPreservesValid(db.Snapshot(), req);
    var check := SignupCheck(req);
    if check.Fail? {
      return Reject(check);
    }
    var existing := FindUserByEmail(db.users, req.email);
    if existing.Some? {
      return Refused(BAD_REQUEST, UserExists);
    }
    var id := db.NewId();
    var user := User(id, req.name, req.email, req.password, DefaultRole, "", "");
    db.users := db.users + [user];
    reply := Done(CREATED, "User created successfully", Session(Project(user), TokenCookies(id)));
  }

  /** The format checks come before the lookup: a malformed request gets the
      same answer whatever the store holds, and nothing changes. */
  lemma SignupChecksFirst(s: State, t: State, req: SignupRequest)
    requires SignupCheck(req).Fail?
    ensures SignupSpec(s, req).state == s
    ensures SignupSpec(s, req).reply == SignupSpec(t, req).reply
  {
  }

  /** An e-mail already registered is refused and nothing changes. */
  lemma SignupDuplicateEmail(s: State, req: SignupRequest, i: nat)
    requires SignupCheck(req) == Pass
    requires i < |s.users| && s.users[i].email == req.email
    ensures SignupSpec(s, req) == Outcome(s, Refused(BAD_REQUEST, UserExists))
  {
  }

  /** A sign-up succeeds exactly when the request is well formed and the
      e-mail is new; it appends one user with the default role and answers
      with that user's public fields and cookies signed for it. */
  lemma SignupCreates(s: State, req: SignupRequest)
    ensures var o := SignupSpec(s, req);
      o.reply.Done? <==>
        SignupCheck(req) == Pass && forall j :: 0 <= j < |s.users| ==> s.users[j].email != req.email
    ensures var o := SignupSpec(s, req);
      o.reply.Done? ==>
        && |o.state.users| == |s.users| + 1
        && o.state.users[..|s.users|] == s.users
        && var u := o.state.users[|s.users|];
        && u.name == req.name && u.email == req.email && u.password == req.password
        && u.role == DefaultRole
        && o.reply.status == CREATED
        && o.reply.value == Session(Project(u), TokenCookies(u.id))
        && o.state.rooms == s.rooms && o.state.bookings == s.bookings && o.state.payments == s.payments
  {
    var o := SignupSpec(s, req);
    if o.reply.Done? {
      assert o.state.users[..|s.users|] == s.users;
    }
  }

  lemma SignupPreservesValid(s: State, req: SignupRequest)
    requires ValidState(s)
    ensures ValidState(SignupSpec(s, req).state)
  {
    var o := SignupSpec(s, req);
    if o.reply.Done? {
      var us := o.state.users;
      forall i, j | 0 <= i < j < |us| ensures us[i].email != us[j].email {
        if j == |s.users| {
          assert us[i] == s.users[i];
        }
      }
    }
  }

  // ---------------------------------------------------------------------
  // Sign-in

  datatype SigninRequest = SigninRequest(email: string, password: string)

  const CredentialsRequired := "Email and password are required"
  const NotRegistered := "User not registered"
  const InvalidCredentials := "Invalid credentials"

  /** The checks of `signin`, in order. */
  function SigninCheck(req: SigninRequest): (c: Check)
    ensures c == Fail(BAD_REQUEST, CredentialsRequired) <==> req.email == "" || req.password == ""
    ensures c == Fail(BAD_REQUEST, InvalidEmail) <==> req.email != "" && req.password != "" && !IsEmail(req.email)
    ensures c == Fail(BAD_REQUEST, InvalidPassword) <==>
      req.password != "" && IsEmail(req.email) && !IsPassword(req.password)
    ensures c == Pass <==> IsEmail(req.email) && IsPassword(req.password)
  {
    EmailAcceptsIff(req.email);
    if req.email == "" || req.password == "" then Fail(BAD_REQUEST, CredentialsRequired)
    else if !EmailAccepts(req.email) then Fail(BAD_REQUEST, InvalidEmail)
    else if !IsPassword(req.password) then Fail(BAD_REQUEST, InvalidPassword)
    else Pass
  }

  /** `signin`, with `matches(candidate, stored)` standing for the hash
      comparison. It reads the store and changes nothing. */
  function Signin(s: State, req: SigninRequest, matches: (string, string) -> bool): (r: Reply<Session>)
    ensures SigninCheck(req).Fail? ==> r == Reject(SigninCheck(req))
    ensures r == Refused(UNAUTHORIZED, NotRegistered) <==>
      SigninCheck(req) == Pass && forall j :: 0 <= j < |s.users| ==> s.users[j].email != req.email
    ensures r.Done? ==>
      && SigninCheck(req) == Pass
      && r.status == OK
      && (exists j :: 0 <= j < |s.users| && s.users[j].email == req.email
            && matches(req.password, s.users[j].password)
            && r.value == Session(Project(s.users[j]), TokenCookies(s.users[j].id)))
    ensures var f := FindUserByEmail(s.users, req.email);
      SigninCheck(req) == Pass && f.Some? ==>
        r == (if matches(req.password, s.users[f.value].password)
              then Done(OK, "Login successful", Session(Project(s.users[f.value]), TokenCookies(s.users[f.value].id)))
              else Refused(UNAUTHORIZED, InvalidCredentials))
  {
    var check := SigninCheck(req);
    if check.Fail? then Reject(check)
    else match FindUserByEmail(s.users, req.email)
      case None => Refused(UNAUTHORIZED, NotRegistered)
      case Some(i) =>
        var user := s.users[i];
        if !matches(req.password, user.password) then Refused(UNAUTHORIZED, InvalidCredentials)
        else Done(OK, "Login successful", Session(Project(user), TokenCookies(user.id)))
  }

  /** The format checks come before the lookup and the hash comparison: a
      malformed request gets the same answer whatever the store holds and
      whatever the comparison would say. */
  lemma SigninChecksFirst(s: State, t: State, req: SigninRequest,
                          m1: (string, string) -> bool, m2: (string, string) -> bool)
    requires SigninCheck(req).Fail?
    ensures Signin(s, req, m1) == Signin(t, req, m2)
  {
  }

  /** A new user can sign in with the password just registered, and gets the
      same public user and cookies that sign-up gave. */
  lemma SigninAfterSignup(s: State, req: SignupRequest, matches: (string, string) -> bool)
    requires SignupSpec(s, req).reply.Done?
    requires matches(req.password, req.password)
    ensures var o := SignupSpec(s, req);
      Signin(o.state, SigninRequest(req.email, req.password), matches) == Done(OK, "Login successful", o.reply.value)
  {
    var o := SignupSpec(s, req);
    SignupCreates(s, req);
    var us := o.state.users;
    var u := us[|s.users|];
    forall j | 0 <= j < |s.users| ensures us[j].email != req.email {
      assert us[j] == s.users[j];
    }
    var found := FindUserByEmail(us, req.email);
    assert found.Some?;
    assert found.value == |s.users|;
  }

  // ---------------------------------------------------------------------
  // Sign-out and refresh

  /** `signout`: clears both token cookies; it reads nothing. */
  function Signout(): (r: Reply<seq<string>>)
    ensures r.Done? && r.status == OK
    ensures forall id :: r.value == [TokenCookies(id)[0].name, TokenCookies(id)[1].name]
  {
    Done(OK, "Logout successful", ["accessToken", "refreshToken"])
  }

  const RefreshRequired := "Refresh token is required"
  const InvalidRefresh := "Invalid refresh token"
  const UserNotFound := "User not found"

  /** `refresh`: the refresh-token cookie (`""` when absent) is verified by
      `verify`; a valid token for a stored user earns a new access cookie
      for that user. */
  function Refresh(s: State, refreshToken: string, verify: string -> Option<Claims>): (r: Reply<Cookie>)
    ensures r == Refused(BAD_REQUEST, RefreshRequired) <==> refreshToken == ""
    ensures r == Refused(UNAUTHORIZED, InvalidRefresh) <==> refreshToken != "" && verify(refreshToken).None?
    ensures r == Refused(NOT_FOUND, UserNotFound) <==>
      refreshToken != "" && verify(refreshToken).Some?
      && forall j :: 0 <= j < |s.users| ==> s.users[j].id != verify(refreshToken).value.userId
    ensures r.Done? ==>
      && r.status == OK
      && verify(refreshToken).Some?
      && r.value == Cookie("accessToken", verify(refreshToken).value.userId, 900000)
      && exists j :: 0 <= j < |s.users| && s.users[j].id == r.value.subject
    ensures (refreshToken != "" && verify(refreshToken).Some?
             && exists j :: 0 <= j < |s.users| && s.users[j].id == verify(refreshToken).value.userId) ==>
        r == Done(OK, "Access token refreshed successfully",
                  Cookie("accessToken", verify(refreshToken).value.userId, 900000))
  {
    if refreshToken == "" then Refused(BAD_REQUEST, RefreshRequired)
    else match verify(refreshToken)
      case None => Refused(UNAUTHORIZED, InvalidRefresh)
      case Some(claims) =>
        match FindUser(s.users, claims.userId)
        case None => Refused(NOT_FOUND, UserNotFound)
        case Some(i) => Done(OK, "Access token refreshed successfully",
                             Cookie("accessToken", s.users[i].id, AccessTokenMaxAge))
  }
}
