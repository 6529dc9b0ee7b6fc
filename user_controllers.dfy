/** The profile controllers: read the caller's profile, patch it, and
    change the password. The caller is the stored user with the id the
    access token was signed for; the password hash comparison is a
    parameter. */
module UserControllers {

  import opened Common
  import opened Validators
  import opened ErrorHandler
  import opened Store

  /** What reading `password` or calling a method on an absent `req.user`
      throws; the error handler answers it with 500. */
  const NoCaller := AppError("TypeError", "Cannot read properties of undefined")

  // ---------------------------------------------------------------------
  // Reading the profile

  /** A user with the password removed. */
  datatype UserInfo = UserInfo(id: Id, name: string, email: string, role: string, phoneNumber: string, address: string)

  function WithoutPassword(u: User): UserInfo {
    UserInfo(u.id, u.name, u.email, u.role, u.phoneNumber, u.address)
  }

  /** Removing the password loses that field and nothing else: two users
      look alike exactly when they differ at most in their passwords. */
  lemma WithoutPasswordForgetsOnlyPassword(u: User, v: User)
    ensures WithoutPassword(u) == WithoutPassword(v) <==> u.(password := v.password) == v
  {
  }

  /** `getUserInfo`. */
  function GetUserInfo(s: State, caller: Id): (r: Reply<UserInfo>)
    ensures r.Done? <==> exists j :: 0 <= j < |s.users| && s.users[j].id == caller
    ensures r.Done? ==> r.status == OK && exists j :: 0 <= j < |s.users| && s.users[j].id == caller && r.value == WithoutPassword(s.users[j])
    ensures r.Refused? ==> r.status == INTERNAL_SERVER_ERROR
  {
    match FindUser(s.users, caller)
    case None => Raise(NoCaller)
    case Some(i) => Done(OK, "", WithoutPassword(s.users[i]))
  }

  /** The reply never depends on the stored password. */
  lemma GetUserInfoIgnoresPassword(s: State, caller: Id, i: nat, password: string)
    requires i < |s.users|
    ensures GetUserInfo(s.(users := s.users[i := s.users[i].(password := password)]), caller) == GetUserInfo(s, caller)
  {
    FindUserIgnoresPassword(s.users, i, password, caller);
  }

  /** Changing a password does not move a user in the id lookup. */
  lemma {:induction false} FindUserIgnoresPassword(us: seq<User>, i: nat, password: string, id: Id)
    requires i < |us|
    ensures FindUser(us[i := us[i].(password := password)], id) == FindUser(us, id)
  {
    if us != [] && us[0].id != id && i > 0 {
      FindUserIgnoresPassword(us[1..], i - 1, password, id);
      assert us[i := us[i].(password := password)][1..] == us[1..][i - 1 := us[1..][i - 1].(password := password)];
    }
  }

  // ---------------------------------------------------------------------
  // Patching the profile

  datatype ProfileRequest = ProfileRequest(name: string, phoneNumber: string, address: string)

  /** The user with every non-empty field of the request assigned. */
  function PatchProfile(u: User, req: ProfileRequest): User {
    u.(name := if req.name != "" then req.name else u.name,
       phoneNumber := if req.phoneNumber != "" then req.phoneNumber else u.phoneNumber,
       address := if req.address != "" then req.address else u.address)
  }

  /** `updateUserProfile`: no format checks; the given fields overwrite. */
  function UpdateProfileSpec(s: State, caller: Id, req: ProfileRequest): Outcome<()>
  {
    match FindUser(s.users, caller)
    case None => Outcome(s, Raise(NoCaller))
    case Some(i) =>
      Outcome(s.(users := s.users[i := PatchProfile(s.users[i], req)]),
              Done(OK, "User profile updated successfully", ()))
  }

  method UpdateUserProfile(db: HotelDb, caller: Id, req: ProfileRequest) returns (reply: Reply<()>)
    requires db.Valid()
    modifies db
    ensures db.Valid()
    ensures Outcome(db.Snapshot(), reply) == UpdateProfileSpec(old(db.Snapshot()), caller, req)
  {
    UpdateProfilePreservesValid(db.Snapshot(), caller, req);
    var found := FindUser(db.users, caller);
    if found.None? {
      return Raise(NoCaller);
    }
    var i := found.value;
    db.users := db.users[i := PatchProfile(db.users[i], req)];
    reply := Done(OK, "User profile updated successfully", ());
  }

  /** A profile update changes only the caller, and of the caller only the
      fields given non-empty; e-mail, role and password stay. */
  lemma UpdateProfilePatches(s: State, caller: Id, req: ProfileRequest, i: nat)
    requires i < |s.users| && s.users[i].id == caller
    requires forall j :: 0 <= j < i ==> s.users[j].id != caller
    ensures var o := UpdateProfileSpec(s, caller, req);
      var u, v := s.users[i], o.state.users[i];
      && o.reply == Done(OK, "User profile updated successfully", ())
      && |o.state.users| == |s.users|
      && (forall j :: 0 <= j < |s.users| && j != i ==> o.state.users[j] == s.users[j])
      && v.id == u.id && v.email == u.email && v.role == u.role && v.password == u.password
      && v.name == (if req.name != "" then req.name else u.name)
      && v.phoneNumber == (if req.phoneNumber != "" then req.phoneNumber else u.phoneNumber)
      && v.address == (if req.address != "" then req.address else u.address)
      && o.state.rooms == s.rooms && o.state.bookings == s.bookings && o.state.payments == s.payments
  {
    var found := FindUser(s.users, caller);
    assert found.Some?;
    assert found.value == i;
  }

  /** Sending the same profile update twice is the same as sending it once. */
  lemma UpdateProfileIdempotent(s: State, caller: Id, req: ProfileRequest)
    ensures var o := UpdateProfileSpec(s, caller, req);
      UpdateProfileSpec(o.state, caller, req) == o
  {
    match FindUser(s.users, caller)
    case None =>
    case Some(i) =>
      var us := s.users[i := PatchProfile(s.users[i], req)];
      FindUserAfterUpdate(s.users, i, PatchProfile(s.users[i], req), caller);
      assert us[i := PatchProfile(us[i], req)] == us;
  }

  /** Replacing the found user by one with the same id does not change what
      the lookup finds. */
  lemma {:induction false} FindUserAfterUpdate(us: seq<User>, i: nat, u: User, id: Id)
    requires FindUser(us, id) == Some(i)
    requires u.id == id
    ensures FindUser(us[i := u], id) == Some(i)
  {
    if i > 0 {
      FindUserAfterUpdate(us[1..], i - 1, u, id);
      assert us[i := u][1..] == us[1..][i - 1 := u];
    }
  }

  lemma UpdateProfilePreservesValid(s: State, caller: Id, req: ProfileRequest)
    requires ValidState(s)
    ensures ValidState(UpdateProfileSpec(s, caller, req).state)
  {
  }

  // ---------------------------------------------------------------------
  // Changing the password

  datatype PasswordRequest = PasswordRequest(currentPassword: string, newPassword: string)

  const PasswordsRequired := "Current password, and new password are required"
  const InvalidCurrent := "Invalid current password format"
  const InvalidNew := "Invalid new password format"
  const SamePassword := "New password cannot be the same as current password"
  const IncorrectCurrent := "Incorrect current password"

  /** The checks of `changePassword`, in order, before the comparison. */
  function ChangePasswordCheck(req: PasswordRequest): (c: Check)
    ensures c == Fail(BAD_REQUEST, PasswordsRequired) <==> req.currentPassword == "" || req.newPassword == ""
    ensures c == Fail(BAD_REQUEST, InvalidCurrent) <==>
      req.newPassword != "" && req.currentPassword != "" && !IsPassword(req.currentPassword)
    ensures c == Fail(BAD_REQUEST, InvalidNew) <==>
      req.newPassword != "" && IsPassword(req.currentPassword) && !IsPassword(req.newPassword)
    ensures c == Fail(BAD_REQUEST, SamePassword) <==>
      IsPassword(req.currentPassword) && IsPassword(req.newPassword) && req.currentPassword == req.newPassword
    ensures c == Pass <==>
      IsPassword(req.currentPassword) && IsPassword(req.newPassword) && req.currentPassword != req.newPassword
  {
    if req.currentPassword == "" || req.newPassword == "" then Fail(BAD_REQUEST, PasswordsRequired)
    else if !IsPassword(req.currentPassword) then Fail(BAD_REQUEST, InvalidCurrent)
    else if !IsPassword(req.newPassword) then Fail(BAD_REQUEST, InvalidNew)
    else if req.currentPassword == req.newPassword then Fail(BAD_REQUEST, SamePassword)
    else Pass
  }

  /** `changePassword`, with `matches(candidate, stored)` standing for the
      hash comparison. */
  function ChangePasswordSpec(s: State, caller: Id, req: PasswordRequest, matches: (string, string) -> bool): Outcome<()>
  {
    var check := ChangePasswordCheck(req);
    if check.Fail? then Outcome(s, Reject(check))
    else match FindUser(s.users, caller)
      case None => Outcome(s, Raise(NoCaller))
      case Some(i) =>
        if !matches(req.currentPassword, s.users[i].password) then Outcome(s, Refused(UNAUTHORIZED, IncorrectCurrent))
        else Outcome(s.(users := s.users[i := s.users[i].(password := req.newPassword)]),
                     Done(OK, "Password changed successfully", ()))
  }

  method ChangePassword(db: HotelDb, caller: Id, req: PasswordRequest, matches: (string, string) -> bool)
    returns (reply: Reply<()>)
    requires db.Valid()
    modifies db
    ensures db.Valid()
    ensures Outcome(db.Snapshot(), reply) == ChangePasswordSpec(old(db.Snapshot()), caller, req, matches)
  {
    var check := ChangePasswordCheck(req);
    if check.Fail? {
      return Reject(check);
    }
    var found := FindUser(db.users, caller);
    if found.None? {
      return Raise(NoCaller);
    }
    var i := found.value;
    if !matches(req.currentPassword, db.users[i].password) {
      return Refused(UNAUTHORIZED, IncorrectCurrent);
    }
    db.users := db.users[i := db.users[i].(password := req.newPassword)];
    reply := Done(OK, "Password changed successfully", ());
  }

  /** The password is replaced only when every check passes and the current
      password matches; then it is the new one, different from the current
      one given, and nothing else changes. Every failure changes nothing. */
  lemma ChangePasswordOnlyWhenAllPass(s: State, caller: Id, req: PasswordRequest, matches: (string, string) -> bool)
    ensures var o := ChangePasswordSpec(s, caller, req, matches);
      o.reply.Done? <==>
        && ChangePasswordCheck(req) == Pass
        && exists j :: 0 <= j < |s.users| && s.users[j].id == caller
             && (forall k :: 0 <= k < j ==> s.users[k].id != caller)
             && matches(req.currentPassword, s.users[j].password)
    ensures var o := ChangePasswordSpec(s, caller, req, matches);
      o.reply.Refused? ==> o.state == s
    ensures var o := ChangePasswordSpec(s, caller, req, matches);
      o.reply.Done? ==>
        && req.newPassword != req.currentPassword && IsPassword(req.newPassword)
        && |o.state.users| == |s.users|
        && (exists j :: 0 <= j < |s.users| && s.users[j].id == caller
              && o.state.users[j] == s.users[j].(password := req.newPassword)
              && forall k :: 0 <= k < |s.users| && k != j ==> o.state.users[k] == s.users[k])
        && o.state.rooms == s.rooms && o.state.bookings == s.bookings && o.state.payments == s.payments
  {
    var o := ChangePasswordSpec(s, caller, req, matches);
    if ChangePasswordCheck(req) == Pass {
      match FindUser(s.users, caller)
      case None =>
      case Some(i) =>
        assert FindUser(s.users, caller) == Some(i);
        if o.reply.Done? {
          assert o.state.users[i] == s.users[i].(password := req.newPassword);
        }
        forall j | 0 <= j < |s.users| && s.users[j].id == caller && (forall k :: 0 <= k < j ==> s.users[k].id != caller)
          ensures j == i
        {
        }
    }
  }

  /** The checks come before the caller is read: a malformed request gets
      the same answer whatever the store holds and whatever the comparison
      would say. */
  lemma ChangePasswordChecksFirst(s: State, t: State, caller: Id, other: Id, req: PasswordRequest,
                                  m1: (string, string) -> bool, m2: (string, string) -> bool)
    requires ChangePasswordCheck(req).Fail?
    ensures ChangePasswordSpec(s, caller, req, m1).state == s
    ensures ChangePasswordSpec(s, caller, req, m1).reply == ChangePasswordSpec(t, other, req, m2).reply
  {
  }
}
