/** The login/register page: one form whose submit either logs in or
    registers against the in-memory authentication store, reporting the
    outcome as a message with a type.
 */
module LoginPage {
  import opened Outcomes
  import opened AuthMock

  /** The submitted form fields. */
  datatype Form = Form(name: string, email: string, password: string, confirmPassword: string)

  /** The page's state: the mode, `message`, `messageType`, `loading`, the
      token kept in local storage, and whether it moved to the home page. */
  datatype Screen = Screen(isLoginMode: bool, message: string, messageType: string, loading: bool,
                           storedToken: Option<string>, navigatedHome: bool)

  const InitialScreen := Screen(true, "", "", false, None, false)

  const PasswordsDiffer := "Las contraseñas no coinciden"
  const Success := "success"
  const Error := "error"

  /** What every submit does first: clear the message and show the spinner. */
  function BeginSubmit(s: Screen): (r: Screen)
    ensures r.message == "" && r.loading
    ensures r.(message := s.message, loading := s.loading) == s
  {
    s.(message := "", loading := true)
  }

  /** The page and the store after a submit, and which store operation ran. */
  datatype Submitted = Submitted(screen: Screen, store: Store, loginCalled: bool, registerCalled: bool)

  /** `handleSubmit`. In login mode the credentials go to the store; success
      greets the user, keeps the token and goes home, failure shows the error.
      In register mode a mismatched confirmation stops before the store is
      touched; otherwise the store registers the user. `loading` is reset on
      every path. */
  function Submit(s: Screen, store: Store, form: Form): (r: Submitted)
    ensures !r.screen.loading
    ensures r.screen.isLoginMode == s.isLoginMode
    ensures r.loginCalled <==> s.isLoginMode
    ensures r.registerCalled <==> !s.isLoginMode && form.password == form.confirmPassword
    ensures !r.registerCalled ==> r.store == store
    ensures r.registerCalled ==> r.store == Register(store, form.name, form.email, form.password).store
    ensures s.isLoginMode && Login(store, form.email, form.password).Ok? ==>
              var session := Login(store, form.email, form.password).value;
              && r.screen.message == "Bienvenido " + session.name
              && r.screen.messageType == Success
              && r.screen.storedToken == Some(session.token)
              && r.screen.navigatedHome
    ensures s.isLoginMode && Login(store, form.email, form.password).Err? ==>
              r.screen == s.(message := BadCredentials, messageType := Error, loading := false)
    ensures !s.isLoginMode && form.password != form.confirmPassword ==>
              r.screen == s.(message := PasswordsDiffer, messageType := Error, loading := false)
    ensures r.registerCalled ==>
              var reply := Register(store, form.name, form.email, form.password).reply;
              && (reply.Ok? ==> r.screen.message == reply.value && r.screen.messageType == Success
                                && r.screen.navigatedHome && r.screen.storedToken == s.storedToken)
              && (reply.Err? ==> r.screen == s.(message := reply.message, messageType := Error, loading := false))
  {
    var busy := BeginSubmit(s);
    if s.isLoginMode then
      match Login(store, form.email, form.password)
      case Ok(session) =>
        Submitted(busy.(message := "Bienvenido " + session.name, messageType := Success, loading := false,
                        storedToken := Some(session.token), navigatedHome := true),
                  store, true, false)
      case Err(msg) =>
        Submitted(busy.(message := msg, messageType := Error, loading := false), store, true, false)
    else if form.password != form.confirmPassword then
      Submitted(busy.(message := PasswordsDiffer, messageType := Error, loading := false), store, false, false)
    else
      var reg := Register(store, form.name, form.email, form.password);
      match reg.reply
      case Ok(greeting) =>
        Submitted(busy.(message := greeting, messageType := Success, loading := false, navigatedHome := true),
                  reg.store, false, true)
      case Err(msg) =>
        Submitted(busy.(message := msg, messageType := Error, loading := false), reg.store, false, true)
  }

  /** Login mode never reads the name or the confirmation field. */
  lemma LoginIgnoresConfirmation(s: Screen, store: Store, form: Form, name: string, confirm: string)
    requires s.isLoginMode
    ensures Submit(s, store, form) == Submit(s, store, form.(name := name, confirmPassword := confirm))
  {
  }

  /** The token in local storage changes only through a successful login. */
  lemma TokenOnlyFromLogin(s: Screen, store: Store, form: Form)
    ensures Submit(s, store, form).screen.storedToken != s.storedToken ==>
              s.isLoginMode && Login(store, form.email, form.password).Ok?
  {
  }

  /** Registering through the page and then logging in with the same
      credentials succeeds and stores the new user's token. */
  lemma RegisterThenLogin(s: Screen, store: Store, form: Form)
    requires !s.isLoginMode && form.password == form.confirmPassword
    requires !EmailTakenIn(store, form.email)
    ensures var reg := Submit(s, store, form);
            var login := Submit(reg.screen.(isLoginMode := true), reg.store, form);
            && reg.screen.messageType == Success
            && login.screen.messageType == Success
            && login.screen.storedToken == Some(Token(|store| + 1))
  {
    LoginAfterRegister(store, form.name, form.email, form.password);
  }
}
