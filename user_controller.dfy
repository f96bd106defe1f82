/** The user controller: the password and email checks it runs on request
    bodies, and registration, login, password change, profile update and
    the current-user query over the user collection. */
module UserController {
  import opened Api
  import opened JsText
  import opened Identity
  import UserModel

  const MissingFields := "Missing required fields"
  const BadEmailFormat := "Invalid email format"
  const PasswordRule := "Password must be at least 8 characters long and include at least one letter, one number, and one special character (@, $, !, %, *, ?, &)."
  const AccountExists := "User with given email or username already exists"
  const NotAuthenticated := "User is not authenticated"
  const UserNotFound := "User not found"

  // ---------------------------------------------------------------------
  // The password rule

  /** `[@$!%*?&]`. */
  predicate IsPolicySpecial(c: char) {
    c == '@' || c == '$' || c == '!' || c == '%' || c == '*' || c == '?' || c == '&'
  }

  /** `[A-Za-z\d@$!%*?&]`. */
  predicate IsPolicyChar(c: char) {
    IsAsciiLetter(c) || IsDigit(c) || IsPolicySpecial(c)
  }

  /** The lookahead `(?=.*X)` at the start of the input: a character in X
      occurs with no line terminator before it (`.` does not cross one). */
  predicate Lookahead(s: string, x: char -> bool) {
    exists i :: 0 <= i < |s| && x(s[i]) && forall k :: 0 <= k < i ==> !IsLineTerminator(s[k])
  }

  /** The password pattern as the controller tests it:
      `^(?=.*[A-Za-z])(?=.*\d)(?=.*[@$!%*?&])[A-Za-z\d@$!%*?&]{8,}$`. */
  predicate PasswordPatternMatches(s: string) {
    && Lookahead(s, IsAsciiLetter) && Lookahead(s, IsDigit) && Lookahead(s, IsPolicySpecial)
    && |s| >= 8 && forall i :: 0 <= i < |s| ==> IsPolicyChar(s[i])
  }

  predicate Contains(s: string, x: char -> bool) {
    exists i :: 0 <= i < |s| && x(s[i])
  }

  /** The rule in the words of the error message. */
  predicate MeetsPasswordPolicy(s: string) {
    && |s| >= 8
    && (forall i :: 0 <= i < |s| ==> IsPolicyChar(s[i]))
    && Contains(s, IsAsciiLetter) && Contains(s, IsDigit) && Contains(s, IsPolicySpecial)
  }

  /** The pattern accepts exactly the passwords the message describes: at
      least 8 characters, all letters, digits or `@$!%*?&`, and at least one
      of each kind. The lookaheads' `.*` never meets a line terminator,
      because the character class already excludes them. */
  lemma PasswordPatternIsPolicy(s: string)
    ensures PasswordPatternMatches(s) <==> MeetsPasswordPolicy(s)
  {
    if MeetsPasswordPolicy(s) {
      assert forall k :: 0 <= k < |s| ==> !IsLineTerminator(s[k]) by {
        forall k | 0 <= k < |s| ensures !IsLineTerminator(s[k]) {
          assert IsPolicyChar(s[k]);
        }
      }
      var l :| 0 <= l < |s| && IsAsciiLetter(s[l]);
      var d :| 0 <= d < |s| && IsDigit(s[d]);
      var p :| 0 <= p < |s| && IsPolicySpecial(s[p]);
      assert Lookahead(s, IsAsciiLetter) && Lookahead(s, IsDigit) && Lookahead(s, IsPolicySpecial);
    }
  }

  // ---------------------------------------------------------------------
  // The controller's email check

  /** `\S+@\S+\.\S+` matches `s[a..e]` with its `@` at `j` and its `\.` at `k`. */
  predicate LooseMatchAt(s: string, a: int, j: int, k: int, e: int) {
    && 0 <= a < j && j + 1 < k && k + 1 < e <= |s|
    && s[j] == '@' && s[k] == '.'
    && NoSpace(s[a..j]) && NoSpace(s[j + 1..k]) && NoSpace(s[k + 1..e])
  }

  /** `/\S+@\S+\.\S+/.test(s)`: the pattern is not anchored, so it may match
      anywhere inside `s`. */
  predicate LooseEmailPatternFinds(s: string) {
    exists a, j, k, e | 0 <= a < |s| && 0 <= j < |s| && 0 <= k < |s| && 0 <= e <= |s| :: LooseMatchAt(s, a, j, k, e)
  }

  /** The smallest match: a non-space just before an `@`, a non-empty run of
      non-spaces, a `.`, and one non-space after it. */
  predicate LooseWitness(s: string, j: int, k: int) {
    && 1 <= j && j + 1 < k && k + 1 < |s|
    && s[j] == '@' && s[k] == '.'
    && !IsSpace(s[j - 1]) && NoSpace(s[j + 1..k]) && !IsSpace(s[k + 1])
  }

  lemma MatchGivesWitness(s: string, a: int, j: int, k: int, e: int)
    requires LooseMatchAt(s, a, j, k, e)
    ensures LooseWitness(s, j, k)
  {
    assert s[j - 1] == s[a..j][j - 1 - a];
    assert s[k + 1] == s[k + 1..e][0];
  }

  lemma WitnessGivesMatch(s: string, j: int, k: int)
    requires LooseWitness(s, j, k)
    ensures LooseMatchAt(s, j - 1, j, k, k + 2)
  {
    assert s[j - 1..j] == [s[j - 1]];
    assert s[k + 1..k + 2] == [s[k + 1]];
  }

  /** The check accepts `s` exactly when `s` has such a smallest match. */
  lemma LooseEmailCharacterised(s: string)
    ensures LooseEmailPatternFinds(s) <==> exists j, k :: LooseWitness(s, j, k)
  {
    if LooseEmailPatternFinds(s) {
      var a, j, k, e :| 0 <= a < |s| && 0 <= j < |s| && 0 <= k < |s| && 0 <= e <= |s| && LooseMatchAt(s, a, j, k, e);
      MatchGivesWitness(s, a, j, k, e);
    }
    if exists j, k :: LooseWitness(s, j, k) {
      var j, k :| LooseWitness(s, j, k);
      WitnessGivesMatch(s, j, k);
    }
  }

  lemma SliceOfMiddle(before: string, s: string, after: string, lo: int, hi: int)
    requires 0 <= lo <= hi <= |s|
    ensures (before + s + after)[|before| + lo..|before| + hi] == s[lo..hi]
  {
  }

  /** A smallest match survives text added on either side, shifted by the
      length of the text in front. */
  lemma WitnessShifts(before: string, s: string, after: string, j: int, k: int)
    requires LooseWitness(s, j, k)
    ensures LooseWitness(before + s + after, |before| + j, |before| + k)
  {
    var t := before + s + after;
    var n := |before|;
    SliceOfMiddle(before, s, after, j + 1, k);
    assert t[n + j - 1] == s[j - 1] && t[n + j] == s[j] && t[n + k] == s[k] && t[n + k + 1] == s[k + 1];
  }

  /** Because the check is unanchored, text around an address is accepted. */
  lemma LooseEmailIgnoresSurroundings(before: string, s: string, after: string)
    requires LooseEmailPatternFinds(s)
    ensures LooseEmailPatternFinds(before + s + after)
  {
    LooseEmailCharacterised(s);
    var j, k :| LooseWitness(s, j, k);
    WitnessShifts(before, s, after, j, k);
    LooseEmailCharacterised(before + s + after);
  }

  /** Every address the schema accepts passes the controller's check; the
      converse fails, for instance on a one-letter top-level domain. */
  lemma SchemaEmailPassesLooseCheck(s: string)
    requires UserModel.SchemaEmailMatches(s)
    ensures LooseEmailPatternFinds(s)
  {
    var at, dot :| 0 <= at < |s| && 0 <= dot < |s| && UserModel.EmailSplitsAt(s, at, dot);
    assert LooseMatchAt(s, 0, at, dot, |s|);
  }

  lemma LooseCheckIsWeakerThanSchema()
    ensures LooseEmailPatternFinds("a@b.c") && !UserModel.SchemaEmailMatches("a@b.c")
  {
    assert LooseMatchAt("a@b.c", 0, 1, 3, 5);
  }

  // ---------------------------------------------------------------------
  // The checks `registerUser` runs before it touches the store

  /** The first check `registerUser` fails, in the order it runs them:
      presence of all three fields, then the email format, then the
      password rule. */
  function RegisterInputError(username: Option<string>, email: Option<string>, password: Option<string>): (r: Option<ApiError>)
    ensures !(Truthy(username) && Truthy(email) && Truthy(password)) ==> r == Some(ApiError(400, MissingFields))
    ensures Truthy(username) && Truthy(email) && Truthy(password) && !LooseEmailPatternFinds(email.value)
            ==> r == Some(ApiError(400, BadEmailFormat))
    ensures (Truthy(username) && Truthy(email) && Truthy(password) && LooseEmailPatternFinds(email.value)
             && !PasswordPatternMatches(password.value)) ==> r == Some(ApiError(400, PasswordRule))
    ensures r.None? <==> (Truthy(username) && Truthy(email) && Truthy(password)
                          && LooseEmailPatternFinds(email.value) && PasswordPatternMatches(password.value))
  {
    if !Truthy(username) || !Truthy(email) || !Truthy(password) then Some(ApiError(400, MissingFields))
    else if !LooseEmailPatternFinds(email.value) then Some(ApiError(400, BadEmailFormat))
    else if !PasswordPatternMatches(password.value) then Some(ApiError(400, PasswordRule))
    else None
  }

  /** `User.findOne({ $or: [{ email }, { username }] })` finds someone. */
  predicate Taken(users: seq<User>, username: string, email: string) {
    exists i :: 0 <= i < |users| && (users[i].email == email || users[i].username == username)
  }

  /** No two users share an email, and no two share a username. */
  predicate AccountsDistinct(users: seq<User>) {
    forall i, j :: 0 <= i < j < |users| ==> users[i].email != users[j].email && users[i].username != users[j].username
  }

  /** `User.findOne({ email })`: the first user, in insertion order, with that email. */
  function FirstWithEmail(users: seq<User>, email: string): (r: Option<nat>)
    ensures r.Some? ==> r.value < |users| && users[r.value].email == email
    ensures r.Some? ==> forall k :: 0 <= k < r.value ==> users[k].email != email
    ensures r.None? ==> forall k :: 0 <= k < |users| ==> users[k].email != email
  {
    if |users| == 0 then None
    else if users[0].email == email then Some(0)
    else match FirstWithEmail(users[1..], email)
      case None => None
      case Some(i) => Some(i + 1)
  }

  /** The fields `findByIdAndUpdate` is given: each new value that is present
      and non-empty replaces the old one; nothing else is touched. */
  function ApplyProfileUpdate(u: User, newUsername: Option<string>, newEmail: Option<string>): (v: User)
    ensures v.id == u.id && v.password == u.password && v.refreshToken == u.refreshToken
    ensures v.username == if Truthy(newUsername) then newUsername.value else u.username
    ensures v.email == if Truthy(newEmail) then newEmail.value else u.email
  {
    u.(username := if Truthy(newUsername) then newUsername.value else u.username,
       email := if Truthy(newEmail) then newEmail.value else u.email)
  }

  /** The profile update checks no uniqueness: it can give a user another
      user's username. */
  lemma ProfileUpdateCanDuplicateUsername()
    ensures exists users: seq<User>, newName: Option<string> ::
      |users| == 2 && AccountsDistinct(users)
      && !AccountsDistinct(users[1 := ApplyProfileUpdate(users[1], newName, None)])
  {
    var a := User(0, "amy", "amy@example.com", Hash("Secret#123", 1), None);
    var b := User(1, "bob", "bob@example.com", Hash("Secret#456", 2), None);
    var users := [a, b];
    var newName := Some("amy");
    var after := users[1 := ApplyProfileUpdate(users[1], newName, None)];
    assert AccountsDistinct(users);
    assert after[0].username == after[1].username;
    assert |users| == 2 && AccountsDistinct(users) && !AccountsDistinct(after);
  }

  /** As written, `registerUser` builds its document from `username`, a path
      the user schema does not declare, and leaves out `fullname`, which the
      schema requires: whatever the request, schema validation refuses the
      document and names the `fullname` path. */
  lemma RegisterDocumentLacksFullname(username: string, email: string, hashed: string)
    ensures var r := UserModel.Validate(UserModel.RawUser(None, Some(email), Some(hashed)));
      r.Failure? && r.error.ValidationError? && UserModel.FullnamePath in r.error.paths
  {
  }

  /** `logoutUser`: only clears cookies; the stored refresh token stays. */
  function Logout(userId: Option<UserId>): (r: Result<(), ApiError>)
    ensures r.Success? <==> userId.Some?
    ensures r.Failure? ==> r.error == ApiError(401, NotAuthenticated)
  {
    if userId.None? then Failure(ApiError(401, NotAuthenticated)) else Success(())
  }

  // ---------------------------------------------------------------------
  // The user collection

  /** The user collection, in insertion order; a user's id is its position. */
  class UserStore {
    var users: seq<User>

    ghost predicate Valid()
      reads this
    {
      forall i :: 0 <= i < |users| ==> users[i].id == i
    }

    constructor ()
      ensures Valid() && users == []
    {
      users := [];
    }

    /** `registerUser`. */
    method Register(username: Option<string>, email: Option<string>, password: Option<string>, salt: nat)
      returns (r: Result<Profile, ApiError>)
      requires Valid()
      modifies this
      ensures Valid()
      ensures RegisterInputError(username, email, password).Some?
        ==> r == Failure(RegisterInputError(username, email, password).value) && users == old(users)
      ensures RegisterInputError(username, email, password).None? && Taken(old(users), username.value, email.value)
        ==> r == Failure(ApiError(409, AccountExists)) && users == old(users)
      ensures r.Success? <==> (RegisterInputError(username, email, password).None?
                               && !Taken(old(users), username.value, email.value))
      ensures r.Success? ==> users == old(users) + [User(|old(users)|, username.value, email.value, Hash(password.value, salt), None)]
      ensures r.Success? ==> r.value == Profile(|old(users)|, username.value, email.value)
      ensures AccountsDistinct(old(users)) ==> AccountsDistinct(users)
    {
      var rejection := RegisterInputError(username, email, password);
      if rejection.Some? {
        return Failure(rejection.value);
      }
      if Taken(users, username.value, email.value) {
        return Failure(ApiError(409, AccountExists));
      }
      var u := User(|users|, username.value, email.value, Hash(password.value, salt), None);
      users := users + [u];
      r := Success(ProfileOf(u));
    }

    /** `loginUser`; `now` is the signing time of both tokens. */
    method Login(email: Option<string>, password: Option<string>, now: int)
      returns (r: Result<(Jwt, Jwt), ApiError>)
      requires Valid()
      modifies this
      ensures Valid()
      ensures !LooseEmailPatternFinds(JsString(email)) ==> r == Failure(ApiError(400, BadEmailFormat))
      ensures email.None? ==> r == Failure(ApiError(400, BadEmailFormat))
      ensures LooseEmailPatternFinds(JsString(email)) && !PasswordPatternMatches(JsString(password))
        ==> r == Failure(ApiError(400, PasswordRule))
      ensures LooseEmailPatternFinds(JsString(email)) && PasswordPatternMatches(JsString(password))
        && FirstWithEmail(old(users), JsString(email)).None?
        ==> r == Failure(ApiError(401, "Invalid email"))
      ensures LooseEmailPatternFinds(JsString(email)) && PasswordPatternMatches(JsString(password))
        && FirstWithEmail(old(users), JsString(email)).Some?
        && !Compare(JsString(password), old(users)[FirstWithEmail(old(users), JsString(email)).value].password)
        ==> r == Failure(ApiError(401, "Invalid password"))
      ensures r.Success? <==> (
        && LooseEmailPatternFinds(JsString(email)) && PasswordPatternMatches(JsString(password))
        && FirstWithEmail(old(users), JsString(email)).Some?
        && Compare(JsString(password), old(users)[FirstWithEmail(old(users), JsString(email)).value].password))
      ensures r.Failure? ==> users == old(users)
      ensures r.Success? ==> email.Some? && password.Some? && FirstWithEmail(old(users), email.value).Some?
      ensures r.Success? ==> (
        var i := FirstWithEmail(old(users), email.value).value;
        && Compare(password.value, old(users)[i].password)
        && r.value == (Jwt(i, Access, now), Jwt(i, Refresh, now))
        && users == old(users)[i := old(users)[i].(refreshToken := Some(Jwt(i, Refresh, now)))])
    {
      var e, p := JsString(email), JsString(password);
      if !LooseEmailPatternFinds(e) {
        return Failure(ApiError(400, BadEmailFormat));
      }
      if !PasswordPatternMatches(p) {
        return Failure(ApiError(400, PasswordRule));
      }
      var found := FirstWithEmail(users, e);
      if found.None? {
        return Failure(ApiError(401, "Invalid email"));
      }
      var i := found.value;
      if !Compare(p, users[i].password) {
        return Failure(ApiError(401, "Invalid password"));
      }
      var access, refresh := Jwt(users[i].id, Access, now), Jwt(users[i].id, Refresh, now);
      users := users[i := users[i].(refreshToken := Some(refresh))];
      r := Success((access, refresh));
    }

    /** `getcurrentUser`. */
    function CurrentUser(userId: Option<UserId>): (r: Result<Profile, ApiError>)
      reads this
      ensures userId.None? ==> r == Failure(ApiError(401, NotAuthenticated))
      ensures userId.Some? && FindById(users, userId.value).None? ==> r == Failure(ApiError(404, UserNotFound))
      ensures r.Success? ==> userId.Some? && r.value.id == userId.value
      ensures r.Success? ==> exists u :: u in users && r.value == ProfileOf(u)
      ensures userId.Some? && FindById(users, userId.value).Some?
        ==> r == Success(ProfileOf(FindById(users, userId.value).value))
    {
      if userId.None? then Failure(ApiError(401, NotAuthenticated))
      else match FindById(users, userId.value)
        case None => Failure(ApiError(404, UserNotFound))
        case Some(u) => Success(ProfileOf(u))
    }

    /** `changeCurrentPassword`. */
    method ChangePassword(userId: Option<UserId>, oldPassword: Option<string>, newPassword: Option<string>,
                          confirmPassword: Option<string>, salt: nat)
      returns (r: Result<(), ApiError>)
      requires Valid()
      modifies this
      ensures Valid()
      ensures userId.None? ==> r == Failure(ApiError(401, NotAuthenticated))
      ensures userId.Some? && userId.value >= |old(users)| ==> r == Failure(ApiError(404, UserNotFound))
      ensures userId.Some? && userId.value < |old(users)|
        && !(Truthy(newPassword) && Truthy(oldPassword) && Truthy(confirmPassword))
        ==> r == Failure(ApiError(400, "All fields are required"))
      ensures userId.Some? && userId.value < |old(users)|
        && Truthy(newPassword) && Truthy(oldPassword) && Truthy(confirmPassword)
        && !Compare(oldPassword.value, old(users)[userId.value].password)
        ==> r == Failure(ApiError(401, "Old password is incorrect"))
      ensures userId.Some? && userId.value < |old(users)|
        && Truthy(newPassword) && Truthy(oldPassword) && Truthy(confirmPassword)
        && Compare(oldPassword.value, old(users)[userId.value].password)
        && !PasswordPatternMatches(newPassword.value)
        ==> r == Failure(ApiError(400, PasswordRule))
      ensures userId.Some? && userId.value < |old(users)|
        && Truthy(newPassword) && Truthy(oldPassword) && Truthy(confirmPassword)
        && Compare(oldPassword.value, old(users)[userId.value].password)
        && PasswordPatternMatches(newPassword.value) && newPassword.value != confirmPassword.value
        ==> r == Failure(ApiError(400, "the newPassword is Not matching."))
      ensures r.Success? <==> (
        && userId.Some? && userId.value < |old(users)|
        && Truthy(newPassword) && Truthy(oldPassword) && Truthy(confirmPassword)
        && Compare(oldPassword.value, old(users)[userId.value].password)
        && PasswordPatternMatches(newPassword.value) && newPassword.value == confirmPassword.value)
      ensures r.Failure? ==> users == old(users)
      ensures r.Success? ==> userId.Some? && userId.value < |old(users)| && newPassword.Some?
      ensures r.Success? ==> users == old(users)[userId.value := old(users)[userId.value].(password := Hash(newPassword.value, salt))]
    {
      if userId.None? {
        return Failure(ApiError(401, NotAuthenticated));
      }
      var found := FindById(users, userId.value);
      FindByIdAtPosition(users, userId.value, 0);
      if found.None? {
        return Failure(ApiError(404, UserNotFound));
      }
      var u := found.value;
      if !Truthy(newPassword) || !Truthy(oldPassword) || !Truthy(confirmPassword) {
        return Failure(ApiError(400, "All fields are required"));
      }
      if !Compare(oldPassword.value, u.password) {
        return Failure(ApiError(401, "Old password is incorrect"));
      }
      if !PasswordPatternMatches(newPassword.value) {
        return Failure(ApiError(400, PasswordRule));
      }
      if newPassword.value != confirmPassword.value {
        return Failure(ApiError(400, "the newPassword is Not matching."));
      }
      users := users[u.id := u.(password := Hash(newPassword.value, salt))];
      r := Success(());
    }

    /** `updateUserProfile`. */
    method UpdateProfile(userId: Option<UserId>, newUsername: Option<string>, newEmail: Option<string>)
      returns (r: Result<Profile, ApiError>)
      requires Valid()
      modifies this
      ensures Valid()
      ensures userId.None? ==> r == Failure(StatusIsText(UserNotFound))
      ensures userId.Some? && !Truthy(newUsername) && !Truthy(newEmail)
        ==> r == Failure(ApiError(400, "No data provided for update"))
      ensures userId.Some? && (Truthy(newUsername) || Truthy(newEmail)) && userId.value >= |old(users)|
        ==> r == Failure(ApiError(404, UserNotFound))
      ensures r.Success? <==> userId.Some? && (Truthy(newUsername) || Truthy(newEmail)) && userId.value < |old(users)|
      ensures r.Failure? ==> users == old(users)
      ensures r.Success? ==> userId.Some? && userId.value < |old(users)|
      ensures r.Success? ==> users == old(users)[userId.value := ApplyProfileUpdate(old(users)[userId.value], newUsername, newEmail)]
      ensures r.Success? ==> r.value == ProfileOf(users[userId.value])
    {
      if userId.None? {
        return Failure(StatusIsText(UserNotFound));
      }
      if !Truthy(newUsername) && !Truthy(newEmail) {
        return Failure(ApiError(400, "No data provided for update"));
      }
      var found := FindById(users, userId.value);
      FindByIdAtPosition(users, userId.value, 0);
      if found.None? {
        return Failure(ApiError(404, UserNotFound));
      }
      var u := ApplyProfileUpdate(found.value, newUsername, newEmail);
      users := users[u.id := u];
      r := Success(ProfileOf(u));
    }
  }
}
