/** The auth store (src/store/auth.ts, src/models/user.model.ts): signing
    in with a name and signing out. Persistence is not modelled; the clock
    reads behind the user id (`Date.now()`) and `createdAt` (`new Date()`)
    are parameters. */
module Auth {
  import opened Options
  import opened Text

  datatype User = User(id: string, name: string, createdAt: int)

  datatype AuthState = AuthState(isAuthenticated: bool, user: Option<User>, userName: Option<string>)

  const SignedOut: AuthState := AuthState(false, None, None)

  /** `value && name`: the optional name is present and not the empty
      string (a name of spaces is truthy). */
  predicate SignsIn(value: bool, name: Option<string>) {
    value && name.Some? && name.value != ""
  }

  /** `setAuthenticated(value, name?)`. Signing in stores the trimmed name
      both as `userName` and in a fresh user whose id is `user-<now>`;
      every other call clears both and stores `value` as the flag. */
  function SetAuthenticated(value: bool, name: Option<string>, now: nat, createdAt: int): (r: AuthState)
    ensures r.isAuthenticated == value
    ensures SignsIn(value, name) ==>
              && r.userName == Some(Trim(name.value))
              && r.user.Some? && r.user.value.name == Trim(name.value)
              && r.user.value.id == "user-" + NatToString(now)
              && r.user.value.createdAt == createdAt
    ensures !SignsIn(value, name) ==> r.userName == None && r.user == None
  {
    if SignsIn(value, name) then
      var trimmed := Trim(name.value);
      AuthState(value, Some(User("user-" + NatToString(now), trimmed, createdAt)), Some(trimmed))
    else AuthState(value, None, None)
  }

  /** `logout()`: signed out, whatever the state was. */
  function Logout(s: AuthState): (r: AuthState)
    ensures !r.isAuthenticated && r.user == None && r.userName == None
  {
    SignedOut
  }

  /** Signing out is `setAuthenticated(false)` with any name. */
  lemma LogoutIsSetFalse(s: AuthState, name: Option<string>, now: nat, createdAt: int)
    ensures Logout(s) == SetAuthenticated(false, name, now, createdAt)
  {
  }

  /** The store's invariant: a user is present exactly when a user name is,
      the user name is the user's name, and a user is present only while
      authenticated. */
  predicate Consistent(s: AuthState) {
    && (s.user.Some? <==> s.userName.Some?)
    && (s.user.Some? ==> s.userName == Some(s.user.value.name))
    && (s.user.Some? ==> s.isAuthenticated)
  }

  /** Both actions leave the store consistent. */
  lemma ActionsKeepConsistent(s: AuthState, value: bool, name: Option<string>, now: nat, createdAt: int)
    ensures Consistent(SetAuthenticated(value, name, now, createdAt))
    ensures Consistent(Logout(s))
  {
  }

  /** A name made only of spaces is truthy, so it signs in with the empty
      user name. */
  lemma BlankNameSignsInEmpty(name: string, now: nat, createdAt: int)
    requires name != "" && AllWhitespace(name)
    ensures var r := SetAuthenticated(true, Some(name), now, createdAt);
            r.isAuthenticated && r.userName == Some("") && r.user.Some?
  {
    TrimEmpty(name);
  }

  /** `setAuthenticated(true)` without a name is authenticated but has no
      user. */
  lemma NamelessSignIn(now: nat, createdAt: int)
    ensures var r := SetAuthenticated(true, None, now, createdAt);
            r.isAuthenticated && r.user == None && r.userName == None
  {
  }
}
