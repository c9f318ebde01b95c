/**
 * Session state and the two access gates of index.js, the language
 * middleware, the process-wide `loggeduser` object, and bcrypt as an opaque
 * pair of functions.
 */
module Auth {
  import opened Wrappers

  /** Where both gates send a request they refuse. */
  const LoginPage := "/login"

  /** The language used when the session has none. */
  const DefaultLang := "en"

  /** A gate either hands the request to the next handler or redirects it. */
  datatype Gate = Next | RedirectTo(location: string)

  /**
   * `req.session`: the per-session flags, updated in place by the handlers.
   * A flag that was never set is undefined in the source, i.e. false here;
   * `lang` is None until the language is changed.
   */
  class Session {
    var isAuth: bool
    var isAuthAdmin: bool
    var lang: Option<string>

    /** The admin flag is only ever set together with the plain one. */
    ghost predicate Valid()
      reads this
    {
      isAuthAdmin ==> isAuth
    }

    /** The session of a client that has not logged in (or whose session was destroyed). */
    constructor ()
      ensures Valid()
      ensures !isAuth && !isAuthAdmin && lang == None
    {
      isAuth, isAuthAdmin, lang := false, false, None;
    }
  }

  /** The `isAuth` middleware: lets the request through exactly when `session.isAuth` is set. */
  function IsAuth(s: Session): (g: Gate)
    reads s
    ensures g == Next <==> s.isAuth
    ensures g != Next ==> g == RedirectTo(LoginPage)
  {
    if s.isAuth then Next else RedirectTo(LoginPage)
  }

  /** The `isAuthAdmin` middleware: looks at `session.isAuthAdmin` only. */
  function IsAuthAdmin(s: Session): (g: Gate)
    reads s
    ensures g == Next <==> s.isAuthAdmin
    ensures g != Next ==> g == RedirectTo(LoginPage)
  {
    if s.isAuthAdmin then Next else RedirectTo(LoginPage)
  }

  /** In a session kept valid by the handlers, passing the admin gate implies passing the plain one. */
  lemma AdminGateImpliesAuthGate(s: Session)
    requires s.Valid()
    ensures IsAuthAdmin(s) == Next ==> IsAuth(s) == Next
  {
  }

  /** The language middleware: `session.lang || 'en'` (an unset or empty language falls back to English). */
  function RequestLanguage(s: Session): (lang: string)
    reads s
    ensures lang != ""
    ensures s.lang.Some? && s.lang.value != "" ==> lang == s.lang.value
    ensures s.lang.None? || s.lang.value == "" ==> lang == DefaultLang
  {
    match s.lang
    case Some(l) => if l != "" then l else DefaultLang
    case None => DefaultLang
  }

  /** The global `loggeduser` object: one for the whole process, shared by every session. */
  class LoggedUser {
    var name: string
    var isAdmin: Option<bool>

    /** Its initial value: an empty name and a null admin flag. */
    constructor ()
      ensures name == "" && isAdmin == None
    {
      name, isAdmin := "", None;
    }
  }

  /** bcrypt's `hash` and `compare`, salting and cost factor left abstract. */
  datatype Bcrypt = Bcrypt(hash: string -> string, compare: (string, string) -> bool)

  /** What the model assumes of bcrypt: a password matches its own digest, and a digest is never empty. */
  ghost predicate Sound(b: Bcrypt) {
    forall p :: b.compare(p, b.hash(p)) && b.hash(p) != ""
  }
}
