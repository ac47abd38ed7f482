/** The session store and the authenticated request wrapper
    (src/services/authService.js). Browser storage is a string-to-string map
    passed in explicitly; `authFetch` is modelled as the request it hands to
    `fetch`. */
module AuthService {
  import opened JsValues

  /** The browser's local storage. */
  type Storage = map<string, string>

  const TokenKey := "jwtToken"
  const UsernameKey := "username"
  const JsonContentType := "application/json"

  /** `localStorage.getItem(key)`: the stored string or `null`. */
  function GetItem(storage: Storage, key: string): (r: Option<string>)
    ensures r.Some? <==> key in storage
    ensures r.Some? ==> r.value == storage[key]
  {
    if key in storage then Some(storage[key]) else None
  }

  /** `getToken()`: the stored token, or `null` when there is none. */
  function GetToken(storage: Storage): (r: Option<string>)
    ensures r.Some? <==> TokenKey in storage
    ensures r.Some? ==> r.value == storage[TokenKey]
  {
    GetItem(storage, TokenKey)
  }

  /** `getUsername()`: the stored user name, or `null` when there is none. */
  function GetUsername(storage: Storage): (r: Option<string>)
    ensures r.Some? <==> UsernameKey in storage
    ensures r.Some? ==> r.value == storage[UsernameKey]
  {
    GetItem(storage, UsernameKey)
  }

  /** `!!token`: a session exists when a token is stored and it is not the
      empty string. */
  predicate IsAuthenticated(storage: Storage)
    ensures IsAuthenticated(storage) <==> TokenKey in storage && storage[TokenKey] != ""
  {
    TruthyText(GetToken(storage))
  }

  /** Removes the token and the user name; every other stored item stays. */
  function Logout(storage: Storage): (r: Storage)
    ensures TokenKey !in r && UsernameKey !in r
    ensures !IsAuthenticated(r)
    ensures GetToken(r) == None && GetUsername(r) == None
    ensures forall k :: k != TokenKey && k != UsernameKey ==> GetItem(r, k) == GetItem(storage, k)
  {
    storage - {TokenKey} - {UsernameKey}
  }

  /** Logging out twice is logging out once. */
  lemma LogoutIdempotent(storage: Storage)
    ensures Logout(Logout(storage)) == Logout(storage)
  {
    var once := Logout(storage);
    var twice := Logout(once);
    assert forall k :: k in twice <==> k in once;
  }

  const AuthorizationHeader := "Authorization"
  const ContentTypeHeader := "Content-Type"

  function Bearer(token: string): string {
    "Bearer " + token
  }

  /** `getAuthHeader()`: one Authorization header when a token is truthy,
      otherwise no header at all. */
  function GetAuthHeader(storage: Storage): (r: map<string, string>)
    ensures IsAuthenticated(storage) ==> r == map[AuthorizationHeader := Bearer(storage[TokenKey])]
    ensures !IsAuthenticated(storage) ==> r == map[]
  {
    var token := GetToken(storage);
    if TruthyText(token) then map[AuthorizationHeader := Bearer(token.value)] else map[]
  }

  /** The options bag of `fetch(url, options)`. `headers` is `None` when the
      caller left it out; `rest` holds every other option field untouched. */
  datatype Options<B> = Options(
    httpMethod: Option<string>,
    headers: Option<map<string, string>>,
    body: Option<B>,
    rest: map<string, string>)

  datatype Request<B> = Request(url: string, options: Options<B>)

  /** The caller's headers, `{}` when there are none (spreading `undefined`
      adds nothing). */
  function CallerHeaders<B>(options: Options<B>): map<string, string> {
    options.headers.GetOr(map[])
  }

  /** `authFetch(url, options)`: the request it passes on to `fetch`. The
      headers start from a JSON Content-Type, the caller's headers are spread
      over it, and a truthy token then sets Authorization. */
  function AuthFetch<B>(storage: Storage, url: string, options: Options<B>): (r: Request<B>)
    ensures r.url == url
    ensures r.options.httpMethod == options.httpMethod
    ensures r.options.body == options.body
    ensures r.options.rest == options.rest
    ensures r.options.headers.Some?
    // Content-Type: the caller's value if given, JSON otherwise.
    ensures var h := r.options.headers.value;
      ContentTypeHeader in h
      && h[ContentTypeHeader] == (if ContentTypeHeader in CallerHeaders(options)
                                  then CallerHeaders(options)[ContentTypeHeader] else JsonContentType)
    // Every other caller header passes through, and nothing else is added.
    ensures var h := r.options.headers.value;
      forall k :: k != ContentTypeHeader && k != AuthorizationHeader ==>
        (k in h <==> k in CallerHeaders(options)) && (k in h ==> h[k] == CallerHeaders(options)[k])
    // Authorization: the session's bearer token overrides the caller's value.
    ensures var h := r.options.headers.value;
      IsAuthenticated(storage) ==> AuthorizationHeader in h && h[AuthorizationHeader] == Bearer(storage[TokenKey])
    ensures var h := r.options.headers.value;
      !IsAuthenticated(storage) ==>
        (AuthorizationHeader in h <==> AuthorizationHeader in CallerHeaders(options))
        && (AuthorizationHeader in h ==> h[AuthorizationHeader] == CallerHeaders(options)[AuthorizationHeader])
  {
    var token := GetToken(storage);
    var merged := map[ContentTypeHeader := JsonContentType] + CallerHeaders(options);
    var headers := if TruthyText(token) then merged[AuthorizationHeader := Bearer(token.value)] else merged;
    Request(url, options.(headers := Some(headers)))
  }

  /** For one stored token, the Authorization header `authFetch` sends is the
      one `getAuthHeader` reports, whatever headers the caller passed; with no
      session `getAuthHeader` is empty and `authFetch` adds nothing. */
  lemma AuthFetchAgreesWithGetAuthHeader<B>(storage: Storage, url: string, options: Options<B>)
    ensures var h := AuthFetch(storage, url, options).options.headers.value;
      AuthorizationHeader in GetAuthHeader(storage) ==>
        AuthorizationHeader in h && h[AuthorizationHeader] == GetAuthHeader(storage)[AuthorizationHeader]
    ensures var h := AuthFetch(storage, url, options).options.headers.value;
      AuthorizationHeader !in GetAuthHeader(storage) && AuthorizationHeader !in CallerHeaders(options) ==>
        AuthorizationHeader !in h
  {
  }

  /** After logout no request carries a token: Authorization appears only if
      the caller supplied it. */
  lemma LoggedOutRequestsCarryNoToken<B>(storage: Storage, url: string, options: Options<B>)
    requires AuthorizationHeader !in CallerHeaders(options)
    ensures AuthorizationHeader !in AuthFetch(Logout(storage), url, options).options.headers.value
  {
  }
}
