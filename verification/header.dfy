/**
  The site header: the navigation links, which of them is highlighted, the
  mobile menu, and the sign-in dialog it opens. The session comes from the
  auth service and is an input.
 */
module Header {
  import opened Common

  datatype NavLink = NavLink(name: string, path: string)

  const HomeLink: NavLink := NavLink("Home", "/")
  const AboutLink: NavLink := NavLink("About", "/about")
  const BlogLink: NavLink := NavLink("Blog", "/blog")
  const ContactLink: NavLink := NavLink("Contact", "/contact")
  const LibraryLink: NavLink := NavLink("Library", "/library")

  const BaseLinks: seq<NavLink> := [HomeLink, AboutLink, BlogLink, ContactLink]

  /** The navigation list: the four public pages, then the library for a
      signed-in user. */
  function NavLinks(isLoggedIn: bool): (links: seq<NavLink>)
    ensures |links| == if isLoggedIn then 5 else 4
    ensures links[..4] == BaseLinks
    ensures isLoggedIn ==> links[4] == LibraryLink
  {
    if isLoggedIn then BaseLinks + [LibraryLink] else BaseLinks
  }

  /** The library link is listed exactly for a signed-in user. */
  lemma LibraryLinkIffLoggedIn(isLoggedIn: bool)
    ensures LibraryLink in NavLinks(isLoggedIn) <==> isLoggedIn
  {
    if !isLoggedIn {
      assert forall i :: 0 <= i < |BaseLinks| ==> BaseLinks[i].path != LibraryLink.path;
    }
  }

  /** A link is highlighted when its path is exactly the current one. */
  predicate IsActive(pathname: string, path: string) {
    pathname == path
  }

  /** The listed paths are distinct, so at most one link is highlighted. */
  lemma AtMostOneActive(pathname: string, isLoggedIn: bool, i: nat, j: nat)
    requires i < |NavLinks(isLoggedIn)| && j < |NavLinks(isLoggedIn)|
    requires IsActive(pathname, NavLinks(isLoggedIn)[i].path) && IsActive(pathname, NavLinks(isLoggedIn)[j].path)
    ensures i == j
  {
    var links := NavLinks(isLoggedIn);
    assert links[..4] == BaseLinks;
    assert forall k :: 0 <= k < 4 ==> links[k] == BaseLinks[k];
  }

  datatype AuthMode = SignIn | SignUp

  datatype State = State(menuOpen: bool, isLoggedIn: bool, authOpen: bool, authMode: AuthMode)

  const Initial: State := State(false, false, false, SignIn)

  /** A sign-in or sign-up button: opens the dialog in that mode and closes
      the mobile menu. */
  function OpenAuth(s: State, mode: AuthMode): (t: State)
    ensures t.authOpen && t.authMode == mode && !t.menuOpen && t.isLoggedIn == s.isLoggedIn
  {
    s.(authOpen := true, authMode := mode, menuOpen := false)
  }

  /** The dialog's close callback: only the open flag changes. */
  function CloseAuth(s: State): (t: State)
    ensures !t.authOpen && t == s.(authOpen := false)
  {
    s.(authOpen := false)
  }

  /** Closing the dialog keeps the mode it was opened in. */
  lemma CloseKeepsMode(s: State, mode: AuthMode)
    ensures var t := CloseAuth(OpenAuth(s, mode)); !t.authOpen && !t.menuOpen && t.authMode == mode
  {
  }

  /** The menu button and the mobile links. */
  function ToggleMenu(s: State): (t: State)
    ensures t.menuOpen == !s.menuOpen && t == s.(menuOpen := t.menuOpen)
  {
    s.(menuOpen := !s.menuOpen)
  }

  function CloseMenu(s: State): (t: State)
    ensures !t.menuOpen && t == s.(menuOpen := false)
  {
    s.(menuOpen := false)
  }

  /** The initial session check and every later auth change: the flag
      mirrors whether a session is present. */
  function SessionChanged<U>(s: State, session: Option<U>): (t: State)
    ensures t.isLoggedIn <==> session.Some?
    ensures t == s.(isLoggedIn := t.isLoggedIn)
  {
    s.(isLoggedIn := session.Some?)
  }

  /** After any session change, the library link is listed exactly when a
      session is present. */
  lemma LibraryLinkFollowsSession<U>(s: State, session: Option<U>)
    ensures LibraryLink in NavLinks(SessionChanged(s, session).isLoggedIn) <==> session.Some?
  {
    LibraryLinkIffLoggedIn(SessionChanged(s, session).isLoggedIn);
  }
}
