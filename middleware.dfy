/**
 * The request gate in front of every page and API route: a decision over the
 * request path and the outcome of the session lookup.
 */
module Middleware {
  import opened Wrappers
  import opened Text
  import Sanitize

  /** What the awaited session lookup produced. */
  datatype SessionLookup =
    | LookupThrew                       // the lookup raised an exception
    | LookupError                       // the lookup returned an error value
    | NoSession
    | Session(email: Option<string>)    // the session user's e-mail, if any

  datatype Outcome =
    | PassThrough
    | RedirectToLogin(redirectedFrom: string)
    | RedirectToInvalidEmail

  const LoginPath: string := "/auth/login"
  const InvalidEmailPath: string := "/auth/invalid-email"

  const ProtectedPrefixes: seq<string> := ["/dashboard", "/api/events", "/api/upload-url"]

  /** Static assets, auth API routes and the favicon skip the gate without a session lookup. */
  predicate Skipped(path: string) {
    StartsWith(path, "/_next") || StartsWith(path, "/api/auth") || path == "/favicon.ico"
  }

  /** `protectedPaths.some(p => pathname.startsWith(p))`. */
  predicate IsProtected(path: string) {
    exists i :: 0 <= i < |ProtectedPrefixes| && StartsWith(path, ProtectedPrefixes[i])
  }

  /** The session user has a non-empty e-mail that fails the domain check. */
  predicate HasForeignEmail(lookup: SessionLookup, env: Option<string>) {
    lookup.Session? && lookup.email.Some? && lookup.email.value != ""
      && !Sanitize.ValidateKaistEmail(lookup.email.value, env)
  }

  /** `middleware(req)`: `env` is the ALLOWED_EMAIL_DOMAIN setting. */
  function Decide(path: string, lookup: SessionLookup, env: Option<string>): (r: Outcome)
    ensures r.RedirectToLogin? <==> !Skipped(path) && IsProtected(path) && lookup.NoSession?
    ensures r.RedirectToLogin? ==> r.redirectedFrom == path
    ensures r.RedirectToInvalidEmail? <==>
      !Skipped(path) && IsProtected(path) && HasForeignEmail(lookup, env)
    ensures !IsProtected(path) ==> r == PassThrough
    ensures lookup.LookupThrew? || lookup.LookupError? ==> r == PassThrough
  {
    if Skipped(path) then PassThrough
    else match lookup
      case LookupThrew => PassThrough
      case LookupError => PassThrough
      case NoSession => if IsProtected(path) then RedirectToLogin(path) else PassThrough
      case Session(email) =>
        if IsProtected(path) && email.Some? && email.value != ""
           && !Sanitize.ValidateKaistEmail(email.value, env)
        then RedirectToInvalidEmail
        else PassThrough
  }

  /** The pathname the redirect response points at. */
  function RedirectPath(r: Outcome): (p: Option<string>)
    ensures p.None? <==> r.PassThrough?
    ensures r.RedirectToLogin? ==> p == Some(LoginPath)
    ensures r.RedirectToInvalidEmail? ==> p == Some(InvalidEmailPath)
  {
    match r
    case PassThrough => None
    case RedirectToLogin(_) => Some(LoginPath)
    case RedirectToInvalidEmail => Some(InvalidEmailPath)
  }

  /** On a skipped path the session lookup does not influence the decision. */
  lemma SkippedIgnoresSession(path: string, a: SessionLookup, b: SessionLookup, env: Option<string>)
    requires Skipped(path)
    ensures Decide(path, a, env) == Decide(path, b, env) == PassThrough
  {
  }

  /** No path is both skipped and protected, so the skip list never lets a protected route through. */
  lemma SkippedNotProtected(path: string)
    ensures Skipped(path) ==> !IsProtected(path)
  {
    if IsProtected(path) {
      var i :| 0 <= i < |ProtectedPrefixes| && StartsWith(path, ProtectedPrefixes[i]);
      assert path[1] == ProtectedPrefixes[i][1];
      if i == 0 {
        assert path[1] == 'd';
      } else {
        assert path[5] == ProtectedPrefixes[i][5];
        assert path[5] == 'e' || path[5] == 'u';
      }
    }
  }

  /**
   * Both redirect targets lie outside the protected prefixes, so the request
   * that follows a redirect is let through whatever its session.
   */
  lemma RedirectTargetsPass(r: Outcome, lookup: SessionLookup, env: Option<string>)
    ensures RedirectPath(r).Some? ==>
      && !IsProtected(RedirectPath(r).value)
      && Decide(RedirectPath(r).value, lookup, env) == PassThrough
  {
    if RedirectPath(r).Some? {
      var p := RedirectPath(r).value;
      assert p[1] == 'a' && p[2] == 'u';
    }
  }

  /** A protected request with a session on the allowed domain, or with no e-mail, passes. */
  lemma SessionWithoutForeignEmailPasses(path: string, email: Option<string>, env: Option<string>)
    requires email.None? || email.value == "" || Sanitize.ValidateKaistEmail(email.value, env)
    ensures Decide(path, Session(email), env) == PassThrough
  {
  }

  /** The protection test is a prefix test: `/dashboardX` is protected, `/dash` and `/` are not. */
  lemma ProtectedExamples()
    ensures IsProtected("/dashboard") && IsProtected("/dashboardX") && IsProtected("/api/events/42/join")
    ensures !IsProtected("/dash") && !IsProtected("/")
    ensures Decide("/dashboardX", NoSession, None) == RedirectToLogin("/dashboardX")
  {
    assert StartsWith("/dashboard", ProtectedPrefixes[0]);
    assert StartsWith("/dashboardX", ProtectedPrefixes[0]);
    assert "/dashboardX"[1] == 'd';
    assert !Skipped("/dashboardX");
    assert StartsWith("/api/events/42/join", ProtectedPrefixes[1]);
  }
}
