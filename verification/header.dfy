/** The site header: the scroll handler, the mobile menu, the signed-in user
    and the navigation links with their active highlighting. */
module Header {
  import opened Snapshot

  datatype Direction = Up | Down

  /** `scrollY` beyond which a downward scroll counts as "down". */
  const DownThreshold: real := 100.0

  /** `scrollY` beyond which the header is drawn as scrolled. */
  const ScrolledThreshold: real := 50.0

  datatype HeaderState = HeaderState(
    isOpen: bool,
    scrolled: bool,
    direction: Direction,
    lastScrollY: real,
    user: Option<string>)

  const InitialHeader := HeaderState(false, false, Up, 0.0, None)

  /** `handleScroll` at offset `y`: direction, scrolled flag and last offset
      are recomputed from `y` and the previous offset alone. */
  function OnScroll(s: HeaderState, y: real): (r: HeaderState)
    ensures r.direction == Down <==> y > s.lastScrollY && y > DownThreshold
    ensures r.scrolled <==> y > ScrolledThreshold
    ensures r.lastScrollY == y
    ensures r.isOpen == s.isOpen && r.user == s.user
  {
    s.(direction := if y > s.lastScrollY && y > DownThreshold then Down else Up,
       scrolled := y > ScrolledThreshold,
       lastScrollY := y)
  }

  /** The first scroll event compares with the initial offset 0, so it
      counts as "down" exactly when it is past the threshold; the menu stays
      closed and no user is set. */
  lemma FirstScrollFromTop(y: real)
    ensures OnScroll(InitialHeader, y).direction == Down <==> y > DownThreshold
    ensures OnScroll(InitialHeader, y).scrolled <==> y > ScrolledThreshold
    ensures !OnScroll(InitialHeader, y).isOpen && OnScroll(InitialHeader, y).user.None?
  {
  }

  /** Near the top of the page, or when not moving down, the direction is
      "up" whatever it was before. */
  lemma UpNearTopOrBackwards(s: HeaderState, y: real)
    requires y <= DownThreshold || y <= s.lastScrollY
    ensures OnScroll(s, y).direction == Up
  {
  }

  /** A run of scroll events, in order; scrolling never touches the menu or
      the user, and the last offset seen is the last event's. */
  function ScrollAll(s: HeaderState, ys: seq<real>): (r: HeaderState)
    ensures r.isOpen == s.isOpen && r.user == s.user
    ensures |ys| > 0 ==> r.lastScrollY == ys[|ys| - 1]
    decreases |ys|
  {
    if |ys| == 0 then s else ScrollAll(OnScroll(s, ys[0]), ys[1..])
  }

  /** After a run of at least two events the state depends only on the last
      two offsets and on the menu and user, never on earlier history. */
  lemma {:induction false} ScrollForgetsHistory(s: HeaderState, ys: seq<real>)
    requires |ys| >= 2
    ensures var prev := ys[|ys| - 2];
            var y := ys[|ys| - 1];
            ScrollAll(s, ys) ==
              HeaderState(s.isOpen, y > ScrolledThreshold,
                          if y > prev && y > DownThreshold then Down else Up, y, s.user)
    decreases |ys|
  {
    if |ys| == 2 {
      assert ys[2..] == [];
      assert ScrollAll(s, ys) == ScrollAll(OnScroll(OnScroll(s, ys[0]), ys[1]), ys[2..]);
    } else {
      ScrollForgetsHistory(OnScroll(s, ys[0]), ys[1..]);
      assert ys[1..][|ys| - 3] == ys[|ys| - 2];
    }
  }

  /** The menu button flips the menu; pressing it twice restores it. */
  function ToggleMenu(s: HeaderState): (r: HeaderState)
    ensures r.isOpen == !s.isOpen
    ensures r.(isOpen := s.isOpen) == s
  {
    s.(isOpen := !s.isOpen)
  }

  /** A mobile navigation link (or the mobile Logout) closes the menu. */
  function CloseMenu(s: HeaderState): (r: HeaderState)
    ensures !r.isOpen
    ensures r.(isOpen := s.isOpen) == s
  {
    s.(isOpen := false)
  }

  lemma ToggleTwice(s: HeaderState)
    ensures ToggleMenu(ToggleMenu(s)) == s
  {
  }

  /** The auth listener: the user is replaced by every notification, signed
      out (null) included, unlike a data snapshot. */
  function OnAuth(s: HeaderState, u: Option<string>): (r: HeaderState)
    ensures r.user == u
    ensures r.(user := s.user) == s
  {
    s.(user := u)
  }

  /** A run of auth notifications, in order. */
  function AuthAll(s: HeaderState, us: seq<Option<string>>): HeaderState
    decreases |us|
  {
    if |us| == 0 then s else AuthAll(OnAuth(s, us[0]), us[1..])
  }

  /** The last notification wins, a sign-out (null) included. */
  lemma {:induction false} AuthLastWins(s: HeaderState, us: seq<Option<string>>)
    requires |us| > 0
    ensures AuthAll(s, us) == s.(user := us[|us| - 1])
    ensures us[|us| - 1].None? ==> AuthAll(s, us).user.None?
    decreases |us|
  {
    if |us| > 1 {
      AuthLastWins(OnAuth(s, us[0]), us[1..]);
    } else {
      assert us[1..] == [];
    }
  }

  /** Where the auth listener differs from a data snapshot: a trailing null
      signs the user out, where `Snapshot.Apply` would keep the old value. */
  lemma SignOutIsNotIgnored(s: HeaderState, us: seq<Option<string>>)
    ensures AuthAll(s, us + [None]).user.None?
    ensures Apply(s.user, None) == s.user
  {
    AuthLastWins(s, us + [None]);
  }

  datatype NavItem = NavItem(name: string, path: string)

  const NavItems: seq<NavItem> := [
    NavItem("Home", "/"),
    NavItem("About Us", "/about"),
    NavItem("News", "/blog"),
    NavItem("Contact", "/contact")
  ]

  const AdminItem := NavItem("Admin", "/admindashboard")

  datatype NavLink = NavLink(item: NavItem, active: bool)

  /** The links shown for the current path: the four items, then Admin when a
      user is signed in; each highlighted iff the path equals its own. */
  function NavLinks(user: Option<string>, pathname: string): (r: seq<NavLink>)
    ensures forall k :: 0 <= k < |r| ==> (r[k].active <==> pathname == r[k].item.path)
  {
    var items := if user.Some? then NavItems + [AdminItem] else NavItems;
    seq(|items|, k requires 0 <= k < |items| => NavLink(items[k], pathname == items[k].path))
  }

  /** A control of the navigation bar: a link, or the Logout button. */
  datatype Control = LinkControl(link: NavLink) | LogoutButton

  /** The controls in display order, desktop and mobile alike: the links,
      then the Logout button when a user is signed in. */
  function NavControls(user: Option<string>, pathname: string): seq<Control> {
    var links := NavLinks(user, pathname);
    var shown := seq(|links|, k requires 0 <= k < |links| => LinkControl(links[k]));
    if user.Some? then shown + [LogoutButton] else shown
  }

  /** The Admin link appears iff a user is signed in, always last; at most
      one link is highlighted. */
  lemma NavLinksSpec(user: Option<string>, pathname: string)
    ensures (exists k :: 0 <= k < |NavLinks(user, pathname)| && NavLinks(user, pathname)[k].item == AdminItem)
            <==> user.Some?
    ensures user.Some? ==> NavLinks(user, pathname)[|NavLinks(user, pathname)| - 1].item == AdminItem
    ensures |NavLinks(user, pathname)| == if user.Some? then 5 else 4
    ensures forall k, l ::
              (0 <= k < l < |NavLinks(user, pathname)| && NavLinks(user, pathname)[k].active) ==>
                !NavLinks(user, pathname)[l].active
  {
    var r := NavLinks(user, pathname);
    if user.Some? {
      assert r[4].item == AdminItem;
    }
  }

  /** The Logout button is shown iff a user is signed in, exactly once, as the
      last control and right after the Admin link; the controls before it are
      the navigation links in order. */
  lemma NavControlsSpec(user: Option<string>, pathname: string)
    ensures LogoutButton in NavControls(user, pathname) <==> user.Some?
    ensures user.Some? ==>
              && |NavControls(user, pathname)| == 6
              && NavControls(user, pathname)[5] == LogoutButton
              && NavControls(user, pathname)[4] == LinkControl(NavLink(AdminItem, pathname == AdminItem.path))
              && forall k :: 0 <= k < 5 ==> NavControls(user, pathname)[k] != LogoutButton
    ensures forall k :: 0 <= k < |NavLinks(user, pathname)| ==>
              NavControls(user, pathname)[k] == LinkControl(NavLinks(user, pathname)[k])
  {
    NavLinksSpec(user, pathname);
    var c := NavControls(user, pathname);
    if user.Some? {
      assert c[5] == LogoutButton;
    }
  }
}
