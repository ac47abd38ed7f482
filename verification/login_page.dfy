/** The login form (src/pages/Login.jsx): editing the two credential fields
    and the submit handler, which posts the credentials and, on an ok
    response, writes the session that the auth service reads. */
module LoginPage {
  import opened JsValues
  import opened Net
  import AuthService

  datatype Credentials = Credentials(username: string, password: string)

  /** The `name` attribute of the two inputs. */
  datatype CredentialField = UsernameField | PasswordField

  datatype LoginState = LoginState(form: Credentials, error: string, loading: bool)

  const Initial := LoginState(Credentials("", ""), "", false)

  const LoginUrl := "https://sheltered-mountain-64913-f230179cbd70.herokuapp.com/users/Login"
  const LoginFailed := "Login failed. Please check your credentials."
  const NetworkError := "Network error. Please try again later."

  /** `handleChange`: sets the named field, keeps the other, clears the error. */
  function HandleChange(s: LoginState, field: CredentialField, value: string): (r: LoginState)
    ensures field == UsernameField ==> r.form.username == value && r.form.password == s.form.password
    ensures field == PasswordField ==> r.form.password == value && r.form.username == s.form.username
    ensures r.error == "" && r.loading == s.loading
  {
    var form := match field
      case UsernameField => s.form.(username := value)
      case PasswordField => s.form.(password := value);
    s.(form := form, error := "")
  }

  /** The first half of `handleSubmit`: loading on, error cleared, and the
      request that is sent. The login call goes to `fetch` directly, not
      through the auth wrapper. */
  function BeginSubmit(s: LoginState): (r: (LoginState, AuthService.Request<Credentials>))
    ensures r.0.loading && r.0.error == "" && r.0.form == s.form
    ensures r.1.url == LoginUrl
    ensures r.1.options.httpMethod == Some("POST")
    ensures r.1.options.body == Some(s.form)
    ensures r.1.options.headers == Some(map[AuthService.ContentTypeHeader := AuthService.JsonContentType])
  {
    var request := AuthService.Request(LoginUrl, AuthService.Options(
      Some("POST"), Some(map["Content-Type" := "application/json"]), Some(s.form), map[]));
    (s.(loading := true, error := ""), request)
  }

  /** What the submit handler leaves behind: the page, the browser storage,
      and whether it navigated to the home page. */
  datatype SubmitResult = SubmitResult(page: LoginState, storage: AuthService.Storage, redirected: bool)

  /** The awaited half of `handleSubmit`, with the response text as the
      outcome. Only an ok response writes storage (under the literal keys the
      page uses) and navigates. */
  function FinishSubmit(s: LoginState, storage: AuthService.Storage, outcome: Loaded<string>): (r: SubmitResult)
    ensures !r.page.loading
    ensures r.page.form == s.form
    ensures outcome.OkBody? ==> r.redirected && r.page.error == s.error
    ensures outcome.ErrBody? ==>
      !r.redirected && r.storage == storage
      && r.page.error == (if outcome.text != "" then outcome.text else LoginFailed)
    ensures outcome.Thrown? ==> !r.redirected && r.storage == storage && r.page.error == NetworkError
  {
    match outcome
    case OkBody(token) =>
      var written := storage["jwtToken" := token]["username" := s.form.username];
      SubmitResult(s.(loading := false), written, true)
    case ErrBody(text) =>
      SubmitResult(s.(loading := false, error := if text != "" then text else LoginFailed), storage, false)
    case Thrown(_) =>
      SubmitResult(s.(loading := false, error := NetworkError), storage, false)
  }

  /** `handleSubmit` from the click to the settled state. */
  function Submit(s: LoginState, storage: AuthService.Storage, outcome: Loaded<string>): (r: SubmitResult)
    ensures !r.page.loading && r.page.form == s.form
    ensures r.redirected <==> outcome.OkBody?
    ensures outcome.OkBody? ==>
      && r.page.error == ""
      && r.storage == storage[AuthService.TokenKey := outcome.data][AuthService.UsernameKey := s.form.username]
    ensures !outcome.OkBody? ==> r.storage == storage && r.page.error != ""
  {
    FinishSubmit(BeginSubmit(s).0, storage, outcome)
  }

  /** A successful login is what the auth service then reads: the token is the
      response text, the user name the one submitted, and the session counts as
      authenticated exactly when the token text is not empty. Other stored
      items stay. */
  lemma LoginWritesSession(s: LoginState, storage: AuthService.Storage, token: string)
    ensures var r := Submit(s, storage, OkBody(token));
      && AuthService.GetToken(r.storage) == Some(token)
      && AuthService.GetUsername(r.storage) == Some(s.form.username)
      && (AuthService.IsAuthenticated(r.storage) <==> token != "")
      && r.page.error == "" && !r.page.loading
      && forall k :: k != AuthService.TokenKey && k != AuthService.UsernameKey ==>
           AuthService.GetItem(r.storage, k) == AuthService.GetItem(storage, k)
  {
  }

  /** After a successful login with a non-empty token every authenticated
      request carries it. */
  lemma LoginAuthorizesRequests<B>(s: LoginState, storage: AuthService.Storage, token: string,
                                   url: string, options: AuthService.Options<B>)
    requires token != ""
    ensures var h := AuthService.AuthFetch(Submit(s, storage, OkBody(token)).storage, url, options).options.headers.value;
      AuthService.AuthorizationHeader in h && h[AuthService.AuthorizationHeader] == "Bearer " + token
  {
  }

  /** A failed login leaves the session as it was, whatever it was. */
  lemma FailedLoginKeepsSession(s: LoginState, storage: AuthService.Storage, outcome: Loaded<string>)
    requires !outcome.OkBody?
    ensures var r := Submit(s, storage, outcome);
      r.storage == storage && r.page.error != "" && !r.page.loading
  {
  }
}
