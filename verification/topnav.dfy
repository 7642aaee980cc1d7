/** The top navigation bar as a whole: what it renders for a disclosure state,
    a route, a link colour and a colour mode, and what its clicks do. */
module TopNav {
  import opened Optional
  import opened NavHighlight
  import opened MenuDisclosure

  /** The route-dependent part of the rendered bar. The desktop links are
      always present (their breakpoint display is layout); the mobile panel is
      present only while the disclosure is open. */
  datatype TopNavView = TopNavView(
    icon: Icon,
    desktop: seq<LinkStyle>,
    mobilePanel: Option<seq<LinkStyle>>)

  function Render(d: Disclosure, route: string, linkColor: string, mode: ColorMode): (v: TopNavView)
    ensures v.mobilePanel.Some? <==> d.isOpen
    ensures v.icon == CloseCross <==> d.isOpen
    ensures |v.desktop| == |WebLinks|
    ensures forall i :: 0 <= i < |v.desktop| ==> (Highlighted(v.desktop[i]) <==> route == WebLinks[i].path)
    ensures v.mobilePanel.Some? ==> |v.mobilePanel.value| == |MobileLinks|
    ensures v.mobilePanel.Some? ==>
      forall i :: 0 <= i < |MobileLinks| ==> (Highlighted(v.mobilePanel.value[i]) <==> route == MobileLinks[i].path)
  {
    TopNavView(
      MenuButtonIcon(d),
      StyleLinks(WebLinks, route, linkColor, mode),
      if d.isOpen then Some(StyleLinks(MobileLinks, route, linkColor, mode)) else None)
  }

  /** Indices of the highlighted entries of a rendered list. */
  function HighlightedIndices(styles: seq<LinkStyle>): set<nat> {
    set i: nat | i < |styles| && Highlighted(styles[i])
  }

  /** The desktop links are highlighted all together on `/` and not at all
      elsewhere, whatever the disclosure state. */
  lemma DesktopAllOrNothing(d: Disclosure, route: string, linkColor: string, mode: ColorMode)
    ensures route == "/" ==> HighlightedIndices(Render(d, route, linkColor, mode).desktop) == {0, 1, 2}
    ensures route != "/" ==> HighlightedIndices(Render(d, route, linkColor, mode).desktop) == {}
  {
    var v := Render(d, route, linkColor, mode);
    assert HighlightedIndices(v.desktop) == ActiveIndices(WebLinks, route);
    WebLinksAllOrNothing(route);
  }

  /** In the open mobile panel at most one entry is highlighted. */
  lemma MobileHighlightExclusive(d: Disclosure, route: string, linkColor: string, mode: ColorMode)
    requires d.isOpen
    ensures |HighlightedIndices(Render(d, route, linkColor, mode).mobilePanel.value)| <= 1
  {
    var v := Render(d, route, linkColor, mode);
    assert HighlightedIndices(v.mobilePanel.value) == ActiveIndices(MobileLinks, route);
    MobileLinksDistinct();
    AtMostOneActive(MobileLinks, route);
  }

  /** Clicking any link the bar shows, desktop or mobile, closes the panel:
      afterwards no mobile link is rendered. */
  lemma ClickingRenderedLinkHidesPanel(d: Disclosure, route: string, linkColor: string, mode: ColorMode, e: Event)
    requires IsLinkClick(e)
    ensures Render(Step(d, e), route, linkColor, mode).mobilePanel == None
    ensures Render(Step(d, e), route, linkColor, mode).icon == Hamburger
  {
  }

  /** The mobile panel is rendered after a history of events exactly when the
      menu button was pressed an odd number of times since the last link click
      (from the initially closed disclosure). */
  lemma PanelAfterHistory(evs: seq<Event>, route: string, linkColor: string, mode: ColorMode)
    ensures Render(Run(MenuDisclosure.Initial, evs), route, linkColor, mode).mobilePanel.Some?
      <==> TrailingPresses(evs) % 2 == 1
  {
    RunCharacterised(MenuDisclosure.Initial, evs);
  }
}
