/** The login view model (src/viewModels/auth/login.viewmodel.ts): the
    typed name, the validation of `handleLogin`, and its effect on the auth
    store. `handleLogin` is asynchronous in the code but awaits nothing, so
    it is modelled as one step; its `catch` branch is not modelled, since
    the store update it guards cannot throw. */
module Login {
  import opened Options
  import opened Text
  import opened Auth

  datatype LoginState = LoginState(name: string, isLoading: bool, error: Option<string>)

  const InitialLogin: LoginState := LoginState("", false, None)

  const EmptyNameError: string := "Por favor, digite seu nome"

  /** `setName(name)`: stores the name and clears the error. */
  function SetName(s: LoginState, name: string): (r: LoginState)
    ensures r.name == name && r.error == None && r.isLoading == s.isLoading
  {
    s.(name := name, error := None)
  }

  /** `clearError()`: only the error changes. */
  function ClearError(s: LoginState): (r: LoginState)
    ensures r.error == None && r.name == s.name && r.isLoading == s.isLoading
  {
    s.(error := None)
  }

  /** What `handleLogin` returns and leaves behind. */
  datatype LoginOutcome = LoginOutcome(login: LoginState, auth: AuthState, success: bool)

  /** `handleLogin()`. A name that trims to nothing sets the error, returns
      false and leaves the auth store alone; any other name signs in with
      the trimmed name and returns true, loading off and no error. */
  function HandleLogin(s: LoginState, auth: AuthState, now: nat, createdAt: int): (r: LoginOutcome)
    ensures r.success <==> !AllWhitespace(s.name)
    ensures !r.success ==> r.auth == auth && r.login == s.(error := Some(EmptyNameError))
    ensures r.success ==> r.login == LoginState(s.name, false, None)
    ensures r.success ==> r.auth == SetAuthenticated(true, Some(Trim(s.name)), now, createdAt)
  {
    var trimmedName := Trim(s.name);
    TrimEmpty(s.name);
    if trimmedName == "" then
      LoginOutcome(s.(error := Some(EmptyNameError)), auth, false)
    else
      var loading := s.(isLoading := true, error := None);
      LoginOutcome(loading.(isLoading := false), SetAuthenticated(true, Some(trimmedName), now, createdAt), true)
  }

  /** After a successful login the store holds a non-empty user name with
      no surrounding spaces, which the auth store alone does not promise
      (a blank name reaches it as the empty user name). */
  lemma LoginUserNameNonEmpty(s: LoginState, auth: AuthState, now: nat, createdAt: int)
    requires !AllWhitespace(s.name)
    ensures var a := HandleLogin(s, auth, now, createdAt).auth;
            && a.isAuthenticated && a.userName.Some? && a.userName.value != ""
            && a.userName.value == Trim(a.userName.value)
            && a.user.Some? && a.user.value.name == a.userName.value
  {
    var t := Trim(s.name);
    TrimEmpty(s.name);
    TrimIdempotent(s.name);
    assert SignsIn(true, Some(t));
  }
}
