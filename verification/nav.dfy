/** Route-aware highlighting of the top navigation links.

    `NavLink` styles a link as active exactly when the router's current path
    equals the link's path, character for character; `MenuLink` passes its
    colours only on the same condition. The current path, the accent-derived
    link colour and the colour mode are inputs. */
module NavHighlight {
  import opened Optional

  datatype ColorMode = Light | Dark

  /** A value chosen by colour mode, as `useColorModeValue(light, dark)` does. */
  function ModeValue(mode: ColorMode, light: string, dark: string): (r: string)
    ensures r == light || r == dark
    ensures mode == Light ==> r == light
    ensures mode == Dark ==> r == dark
  {
    match mode
    case Light => light
    case Dark => dark
  }

  datatype NavLinkDescriptor = NavLinkDescriptor(name: string, path: string)

  /** The three props of a `NavLink` that depend on the route. */
  datatype LinkStyle = LinkStyle(bg: string, color: string, outline: string)

  /** Desktop links: every entry points at the root route. */
  const WebLinks: seq<NavLinkDescriptor> := [
    NavLinkDescriptor("Home", "/"),
    NavLinkDescriptor("About", "/"),
    NavLinkDescriptor("Projects", "/")
  ]

  /** Links of the mobile panel. */
  const MobileLinks: seq<NavLinkDescriptor> := [
    NavLinkDescriptor("Projects", "/projects"),
    NavLinkDescriptor("Open Source", "/open-source"),
    NavLinkDescriptor("Blog", "/blog"),
    NavLinkDescriptor("Changelog", "/changelog")
  ]

  /** Background of the active link: the gray of the `link` record, which in
      either mode differs from the inactive `transparent`. */
  function HighlightBg(mode: ColorMode): (r: string)
    ensures r in {"gray.200", "gray.700"}
    ensures r != "transparent"
  {
    ModeValue(mode, "gray.200", "gray.700")
  }

  function ActiveStyle(mode: ColorMode, linkColor: string): LinkStyle {
    LinkStyle(HighlightBg(mode), linkColor, "dashed")
  }

  const InactiveStyle: LinkStyle := LinkStyle("transparent", "inherit", "transparent")

  /** What a visitor sees of the highlight: a dashed outline. */
  predicate Highlighted(st: LinkStyle) {
    st.outline == "dashed"
  }

  /** Whether the link is the current route: exact string equality, with no
      prefix matching and no trailing-slash or query normalisation. */
  function IsActive(link: NavLinkDescriptor, currentPath: string): (b: bool)
    ensures |currentPath| != |link.path| ==> !b
    ensures currentPath == link.path ==> b
  {
    currentPath == link.path
  }

  /** Style of one `NavLink` for the given route. Each of the three props is
      chosen by the same comparison, so the style is always one of the two
      fixed shapes and the outline alone tells them apart. */
  function NavLinkStyle(link: NavLinkDescriptor, currentPath: string, linkColor: string, mode: ColorMode): (r: LinkStyle)
    ensures Highlighted(r) <==> IsActive(link, currentPath)
    ensures r.bg != "transparent" <==> IsActive(link, currentPath)
    ensures IsActive(link, currentPath) ==> r == ActiveStyle(mode, linkColor)
    ensures IsActive(link, currentPath) ==> r.color == linkColor && r.bg in {"gray.200", "gray.700"}
    ensures !IsActive(link, currentPath) ==> r == InactiveStyle
  {
    LinkStyle(
      if currentPath == link.path then HighlightBg(mode) else "transparent",
      if currentPath == link.path then linkColor else "inherit",
      if currentPath == link.path then "dashed" else "transparent")
  }

  /** Positions of the links that are active for a route. */
  function ActiveIndices(links: seq<NavLinkDescriptor>, currentPath: string): set<nat> {
    set i: nat | i < |links| && IsActive(links[i], currentPath)
  }

  /** The styles of a rendered list of links, in list order, as the
      `links.map(...)` of the navigation bar produces them. */
  function StyleLinks(links: seq<NavLinkDescriptor>, currentPath: string, linkColor: string, mode: ColorMode): (r: seq<LinkStyle>)
    ensures |r| == |links|
    ensures forall i :: 0 <= i < |r| ==> r[i] == NavLinkStyle(links[i], currentPath, linkColor, mode)
    ensures forall i :: 0 <= i < |r| ==> (Highlighted(r[i]) <==> i in ActiveIndices(links, currentPath))
    decreases |links|
  {
    if |links| == 0 then []
    else StyleLinks(links[..|links| - 1], currentPath, linkColor, mode)
         + [NavLinkStyle(links[|links| - 1], currentPath, linkColor, mode)]
  }

  predicate DistinctPaths(links: seq<NavLinkDescriptor>) {
    forall i, j :: 0 <= i < j < |links| ==> links[i].path != links[j].path
  }

  /** With pairwise distinct paths, no route highlights two links. */
  lemma AtMostOneActive(links: seq<NavLinkDescriptor>, currentPath: string)
    requires DistinctPaths(links)
    ensures |ActiveIndices(links, currentPath)| <= 1
  {
    var a := ActiveIndices(links, currentPath);
    if a != {} {
      var i :| i in a;
      assert forall j :: j in a ==> j == i;
      assert a == {i};
    }
  }

  /** Conversely, two links sharing a path are highlighted together. */
  lemma SharedPathHighlightsBoth(links: seq<NavLinkDescriptor>, i: nat, j: nat)
    requires i < |links| && j < |links| && links[i].path == links[j].path
    ensures i in ActiveIndices(links, links[i].path) && j in ActiveIndices(links, links[i].path)
  {
  }

  /** All desktop links are active on the root route and none anywhere else. */
  lemma WebLinksAllOrNothing(currentPath: string)
    ensures currentPath == "/" ==> ActiveIndices(WebLinks, currentPath) == {0, 1, 2}
    ensures currentPath != "/" ==> ActiveIndices(WebLinks, currentPath) == {}
  {
    var a := ActiveIndices(WebLinks, currentPath);
    if currentPath == "/" {
      assert 0 in a && 1 in a && 2 in a;
    } else {
      assert forall i: nat :: i < |WebLinks| ==> !IsActive(WebLinks[i], currentPath);
    }
  }

  /** The two link tables, entry by entry. */
  lemma LinkTables()
    ensures |WebLinks| == 3 && forall i :: 0 <= i < |WebLinks| ==> WebLinks[i].path == "/"
    ensures [WebLinks[0].name, WebLinks[1].name, WebLinks[2].name] == ["Home", "About", "Projects"]
    ensures |MobileLinks| == 4
    ensures [MobileLinks[0].path, MobileLinks[1].path, MobileLinks[2].path, MobileLinks[3].path]
         == ["/projects", "/open-source", "/blog", "/changelog"]
    ensures [MobileLinks[0].name, MobileLinks[1].name, MobileLinks[2].name, MobileLinks[3].name]
         == ["Projects", "Open Source", "Blog", "Changelog"]
  {
  }

  lemma MobileLinksDistinct()
    ensures DistinctPaths(MobileLinks)
  {
  }

  /** `/projects` activates the "Projects" entry of the mobile panel alone. */
  lemma ProjectsRouteActivatesOnlyProjects()
    ensures ActiveIndices(MobileLinks, "/projects") == {0}
    ensures MobileLinks[0].name == "Projects"
  {
    MobileLinksDistinct();
    AtMostOneActive(MobileLinks, "/projects");
    assert 0 in ActiveIndices(MobileLinks, "/projects");
  }

  /** No normalisation: a trailing slash or a sub-route is not a match. */
  lemma NoPrefixMatching(linkColor: string, mode: ColorMode)
    ensures NavLinkStyle(NavLinkDescriptor("Blog", "/blog"), "/blog/", linkColor, mode) == InactiveStyle
    ensures NavLinkStyle(NavLinkDescriptor("Blog", "/blog"), "/blog/first-post", linkColor, mode) == InactiveStyle
  {
    assert "/blog/" != "/blog" by { assert |"/blog/"| != |"/blog"|; }
    assert "/blog/first-post" != "/blog" by { assert |"/blog/first-post"| != |"/blog"|; }
  }

  /** The colour and background props of a `MenuLink` item. An absent value is
      the `false` that `rPath === path && color` yields off-route, which the
      item ignores. */
  datatype MenuItemStyle = MenuItemStyle(color: Option<string>, bg: Option<string>)

  function MenuLinkStyle(path: string, rPath: string, color: string, bg: string): (r: MenuItemStyle)
    ensures r.color.Some? <==> rPath == path
    ensures r.bg.Some? <==> rPath == path
    ensures r.color.Some? ==> r.color.value == color
    ensures r.bg.Some? ==> r.bg.value == bg
  {
    if rPath == path then MenuItemStyle(Some(color), Some(bg)) else MenuItemStyle(None, None)
  }
}
