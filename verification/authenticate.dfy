/**
 * The authentication servlet: where a visitor should return to, whether the
 * page they are on needs a login, and which links the page's login button
 * and profile button get.
 */
module Authenticate {
  import opened Outcomes

  /**
   * The URL paths and parameter names the servlet builds links from. Their
   * values are defined outside the servlet, so here they are just fields.
   */
  datatype Routes = Routes(
    base: string,
    logout: string,
    profile: string,
    redirKey: string,
    userIdKey: string)

  /** What `URLDecoder.decode(s, "UTF-8")` does with one input. */
  datatype DecodeOutcome =
    | Decoded(pathname: string)
    | UnsupportedEncoding
    | IllegalArgument

  /** Why a request to the servlet ends in an exception rather than a login state. */
  datatype AuthError =
    | MissingRedir     // the parameter is read with default `null`, then dereferenced
    | MalformedRedir   // the decoder rejects the parameter, and nothing catches that

  /** The record the servlet serialises for the page's script. */
  datatype LoginState = LoginState(
    isLoggedIn: bool,
    autoRedir: bool,
    toggleLoginURL: Option<string>,
    userProfileURL: Option<string>)

  /**
   * `getRedirPathname`: the page to come back to. An empty parameter and an
   * encoding the decoder does not support both give the site root; a
   * missing parameter or one the decoder rejects is an error.
   */
  function RedirPathname(redir: Option<string>, decode: string -> DecodeOutcome, routes: Routes)
    : (r: Result<string, AuthError>)
    ensures redir.None? ==> r == Failure(MissingRedir)
    ensures redir == Some("") ==> r == Success(routes.base)
    ensures r.Failure? <==> redir.None? || (redir.value != "" && decode(redir.value).IllegalArgument?)
    ensures r.Success? ==> r.value == routes.base || decode(redir.value) == Decoded(r.value)
    ensures redir.Some? && redir.value != "" && decode(redir.value).Decoded? ==>
      r == Success(decode(redir.value).pathname)
    ensures redir.Some? && redir.value != "" && decode(redir.value).IllegalArgument? ==>
      r == Failure(MalformedRedir)
  {
    match redir
    case None => Failure(MissingRedir)
    case Some(encoded) =>
      if encoded == "" then Success(routes.base)
      else
        match decode(encoded)
        case Decoded(pathname) => Success(pathname)
        case UnsupportedEncoding => Success(routes.base)
        case IllegalArgument => Failure(MalformedRedir)
  }

  /** The logout link: log out, then come back to the site root. */
  function LogoutURL(routes: Routes): (u: string)
    ensures routes.logout <= u
    ensures u[|routes.logout|..] == "?" + routes.redirKey + "=" + routes.base
  {
    routes.logout + "?" + routes.redirKey + "=" + routes.base
  }

  /** The link to the profile page of the user with id `userId`. */
  function ProfileURL(routes: Routes, userId: string): (u: string)
    ensures routes.profile <= u
    ensures u[|routes.profile|..] == "?" + routes.userIdKey + "=" + userId
  {
    routes.profile + "?" + routes.userIdKey + "=" + userId
  }

  /** Distinct users get distinct profile links: the link identifies its user. */
  lemma ProfileURLInjective(routes: Routes, a: string, b: string)
    requires ProfileURL(routes, a) == ProfileURL(routes, b)
    ensures a == b
  {
    var head := routes.profile + "?" + routes.userIdKey + "=";
    assert ProfileURL(routes, a) == head + a && ProfileURL(routes, b) == head + b;
    assert a == (head + a)[|head|..];
    assert b == (head + b)[|head|..];
  }

  /**
   * The page script sends its pathname through `encodeURIComponent`, and the
   * servlet container decodes the query string before `getParameter` hands
   * the value over, so the servlet's own decoding is a second one. The
   * pathname comes back unchanged exactly when that second decoding leaves it
   * alone, or when the decoder gives up on a pathname that is the site root.
   */
  lemma RedirRoundTrip(pathname: string, decode: string -> DecodeOutcome, routes: Routes)
    ensures pathname == "" ==> RedirPathname(Some(pathname), decode, routes) == Success(routes.base)
    ensures pathname != "" ==>
      (RedirPathname(Some(pathname), decode, routes) == Success(pathname) <==>
        decode(pathname) == Decoded(pathname) || (decode(pathname).UnsupportedEncoding? && pathname == routes.base))
  {
  }

  /**
   * Decoding twice turns a `+` the page's pathname holds into a space: when
   * the decoder reads "/a+b" as "/a b", as `URLDecoder` does, the visitor is
   * sent back to "/a b" and not to the page they were on.
   */
  lemma PlusInPathnameIsLost(decode: string -> DecodeOutcome, routes: Routes)
    requires decode("/a+b") == Decoded("/a b")
    ensures RedirPathname(Some("/a+b"), decode, routes) == Success("/a b")
    ensures RedirPathname(Some("/a+b"), decode, routes) != Success("/a+b")
  {
  }

  /**
   * Decoding twice rejects a `%` the page's pathname holds: when the decoder
   * rejects "/100%", as `URLDecoder` does, the request ends in an error.
   */
  lemma PercentInPathnameFails(decode: string -> DecodeOutcome, routes: Routes)
    requires decode("/100%") == IllegalArgument
    ensures RedirPathname(Some("/100%"), decode, routes) == Failure(MalformedRedir)
  {
  }

  /**
   * `doGet`: starting from a fresh `initial` state, marks the page for an
   * automatic redirect when its destination is not public, and fills in the
   * login link for a visitor or the logout and profile links for a user.
   */
  function HandleAuthenticate(
    initial: LoginState,
    redir: Option<string>,
    decode: string -> DecodeOutcome,
    publicPages: set<string>,
    loggedIn: bool,
    userId: string,
    createLoginURL: string -> string,
    routes: Routes)
    : (r: Result<LoginState, AuthError>)
    ensures r.Success? <==> RedirPathname(redir, decode, routes).Success?
    ensures r.Failure? ==> r.error == RedirPathname(redir, decode, routes).error
    ensures r.Success? ==>
      var dest := RedirPathname(redir, decode, routes).value;
      && (dest !in publicPages ==> r.value.autoRedir)
      && (dest in publicPages ==> r.value.autoRedir == initial.autoRedir)
      && (r.value.isLoggedIn <==> loggedIn)
      && (!loggedIn ==> r.value.toggleLoginURL == Some(createLoginURL(dest)))
      && (!loggedIn ==> r.value.userProfileURL == initial.userProfileURL)
      && (loggedIn ==> r.value.toggleLoginURL == Some(LogoutURL(routes)))
      && (loggedIn ==> r.value.userProfileURL == Some(ProfileURL(routes, userId)))
  {
    var dest :- RedirPathname(redir, decode, routes);
    var state := if dest !in publicPages then initial.(autoRedir := true) else initial;
    if !loggedIn then
      Success(state.(toggleLoginURL := Some(createLoginURL(dest)), isLoggedIn := false))
    else
      Success(state.(
        toggleLoginURL := Some(LogoutURL(routes)),
        userProfileURL := Some(ProfileURL(routes, userId)),
        isLoggedIn := true))
  }

  /**
   * For a signed-in user the links do not depend on the page they came
   * from: two requests that both succeed differ at most in `autoRedir`.
   */
  lemma LoggedInLinksIgnoreDestination(
    initial: LoginState, redir1: Option<string>, redir2: Option<string>,
    decode: string -> DecodeOutcome, publicPages: set<string>, userId: string,
    createLoginURL: string -> string, routes: Routes)
    requires HandleAuthenticate(initial, redir1, decode, publicPages, true, userId, createLoginURL, routes).Success?
    requires HandleAuthenticate(initial, redir2, decode, publicPages, true, userId, createLoginURL, routes).Success?
    ensures
      var s1 := HandleAuthenticate(initial, redir1, decode, publicPages, true, userId, createLoginURL, routes).value;
      var s2 := HandleAuthenticate(initial, redir2, decode, publicPages, true, userId, createLoginURL, routes).value;
      s1.(autoRedir := false) == s2.(autoRedir := false)
  {
  }

  /**
   * An empty `redir` parameter sends a visitor to log in and come back to
   * the site root, and marks the page for the redirect unless the root is public.
   */
  lemma EmptyRedirLogsInToBase(
    initial: LoginState, decode: string -> DecodeOutcome, publicPages: set<string>,
    userId: string, createLoginURL: string -> string, routes: Routes)
    ensures
      var r := HandleAuthenticate(initial, Some(""), decode, publicPages, false, userId, createLoginURL, routes);
      && r.Success?
      && r.value.toggleLoginURL == Some(createLoginURL(routes.base))
      && (routes.base !in publicPages ==> r.value.autoRedir)
  {
  }
}
