# Portfolio site interaction logic in Dafny

This project models the three pieces of interaction logic in a personal
portfolio front-end. Each is a pure transition function over a small state,
with the user's clicks and the page timer written as explicit events.

- **Emoji sequencer** (`EmojiSequencer`, in `emoji.dfy`). The home page header
  holds two pieces of state: `showEmogi` and `emojiCounter`. Clicking the
  header makes the reaction visible and bumps the counter. A recurring
  interval resets the counter to 0 once it reaches 3. Emoji position `i` of
  the three is animated to "show" exactly when the reaction is visible and the
  counter equals `i`.
- **Navigation link highlighting** (`NavHighlight`, in `nav.dfy`). A
  `NavLink` gets the active style when the router's path equals the link's
  path exactly. The active style is the mode-dependent gray background, the
  accent link colour and a dashed outline. Otherwise the link gets
  `transparent` / `inherit` / `transparent`. A `MenuLink` passes its colour
  and background only on the same condition. The data of the desktop and
  mobile link lists is modelled too.
- **Mobile menu disclosure** (`MenuDisclosure`, in `disclosure.dfy`). This is
  an open/closed machine. The menu button dispatches `onClose` when the menu
  is open and `onOpen` when it is closed. Every link click dispatches
  `onClose`.
- **The bar as a whole** (`TopNav`, in `topnav.dfy`). It describes what the
  bar renders for a disclosure state and a route: the button icon, the desktop
  link styles, and the mobile panel, which exists only while the disclosure
  is open.
- `Optional` (`optional.dfy`) holds the `Option` type that the other modules
  share.

Every event history is folded from its end: `Run(s, evs)` applies the last
event to the state after all earlier ones. This makes statements such as
"since the last link click" direct to prove by induction.

Inputs that come from outside the two components are parameters:
- the current route (`router.pathname`);
- the accent-derived link colour (`useLinkColor()`);
- the colour mode, which `useColorModeValue` reads (modelled as `ModeValue`).

The 500 ms interval becomes the abstract `Tick` event.

Facts about the code that the model keeps as they are:
- The emoji counter is not kept in `[-1, N-1]`. Every click adds one, and
  only a tick brings the counter back. So clicks between two ticks can push
  it past 2 without bound, and while it is there no emoji is shown. Nothing
  sets `showEmogi` back to false. `Inv` and `ReachableIffInv` pin down exactly
  which states are reachable.
- The inactive outline is `'transparent'`.
- `NavLink` takes an `outline` prop but ignores it. The active outline is
  always the `'dashed'` of its own `link` record.
- The interval compares against the literal `3`, not `emojis.length`. The
  model keeps this as `ResetThreshold`, which is equal to `N = |Emojis|`.
- `MenuLink` calls `onClose` on click just as `NavLink` does, but `TopNav`
  never renders a `MenuLink`. Its click is still a disclosure event
  (`MenuLinkClick`), so histories in `MenuDisclosure` and `TopNav` may
  contain it. It acts exactly like `NavLinkClick`, so every statement about
  histories holds equally for the histories the bar can actually produce.

## Model

| member | source | states |
|---|---|---|
| EmojiSequencer.OnClick | components/home-page/home.tsx:129-132 | a click leaves the reaction visible and raises the counter by exactly one |
| EmojiSequencer.OnTick | components/home-page/home.tsx:34-39 | a tick never changes visibility; it resets a counter of 3 or more to 0 and leaves any other state unchanged, so right after a tick the counter is below N |
| EmojiSequencer.Shown | components/home-page/home.tsx:105-106 | a position animated to "show" occurs only in a state inside the reachable-state invariant, and a shown in-range position is never disturbed by a tick |
| EmojiSequencer.ShownIndex | components/home-page/home.tsx:99-107 | the single position shown, if any: it is `Some(i)` exactly when position i's `show` condition holds, and it always names a valid position |
| EmojiSequencer.InitialShowsNothing | components/home-page/home.tsx:31-32 | the initial state (hidden, counter -1) satisfies the invariant, and no emoji position is shown in it |
| EmojiSequencer.AtMostOneShown | components/home-page/home.tsx:105-106 | two positions that are both shown are the same position |
| EmojiSequencer.NothingShownOutOfRange | components/home-page/home.tsx:105-106 | while the counter is N or more (between a click and the next tick) no position is shown |
| EmojiSequencer.Step | components/home-page/home.tsx:34-39 | after one event the reaction is visible exactly when it was before or the event is a click; after a tick the counter is below N and stays at -1 or above |
| EmojiSequencer.Run | components/home-page/home.tsx:31-39 | over any history, visibility once on stays on, the counter never drops below -1, and a history ending in a tick leaves the counter below N |
| EmojiSequencer.StepPreservesInv | components/home-page/home.tsx:34-39 | a click or a tick keeps the counter at -1 or above, with visibility holding exactly when the counter is non-negative |
| EmojiSequencer.RunPreservesInv | components/home-page/home.tsx:31-39 | any sequence of clicks and ticks preserves that invariant |
| EmojiSequencer.VisibleIffClicked | components/home-page/home.tsx:129-132 | after any history, the reaction is visible exactly when it was visible before or some click occurred, so visibility is never switched off |
| EmojiSequencer.RunClicks | components/home-page/home.tsx:130 | k clicks in a row add exactly k to the counter and make the reaction visible when k > 0 |
| EmojiSequencer.ReachableIffInv | components/home-page/home.tsx:31-39 | a state is reachable from the initial state by some event sequence if and only if it satisfies the invariant |
| EmojiSequencer.CounterBounds | components/home-page/home.tsx:34-37 | on every history the counter is at least -1, and when the last event is a tick it is at most N - 1 |
| EmojiSequencer.ClickThenTickRotates | components/home-page/home.tsx:26-37 | from a reachable in-range state, a click followed by a tick shows the next position modulo N |
| EmojiSequencer.FourClicksThenTick | components/home-page/home.tsx:26-37 | from the initial state, clicks give counters 0, 1, 2 and 3; at 3 nothing is shown; one tick then gives 0 |
| EmojiSequencer.TickIdempotent | components/home-page/home.tsx:35-37 | a second tick with no click in between changes nothing |
| NavHighlight.ModeValue | components/shared/top-nav.tsx:63-67 | a mode-dependent value is the light value in light mode and the dark value in dark mode |
| NavHighlight.HighlightBg | components/shared/top-nav.tsx:63-64 | the active background is gray.200 or gray.700 depending on mode, never `transparent` |
| NavHighlight.IsActive | components/shared/top-nav.tsx:81 | a link whose path differs in length from the route is never active (no prefix or trailing-slash matching), and a route equal to the path always is |
| NavHighlight.NavLinkStyle | components/shared/top-nav.tsx:81-83 | a link shows the dashed outline, and a non-transparent background, exactly when the current path equals its path; the active style is (gray background, link colour, dashed) and the inactive style is (transparent, inherit, transparent) |
| NavHighlight.StyleLinks | components/shared/top-nav.tsx:223-231 | rendering a link list yields one style per link, in order, and entry i is highlighted exactly when i is an active index |
| NavHighlight.AtMostOneActive | components/shared/top-nav.tsx:81 | when the paths in a link list are pairwise distinct, at most one link is active for any route |
| NavHighlight.SharedPathHighlightsBoth | components/shared/top-nav.tsx:39-43 | links that share a path are active together on that path |
| NavHighlight.WebLinksAllOrNothing | components/shared/top-nav.tsx:39-43 | on `/` all three desktop links are active, and on any other route none is |
| NavHighlight.LinkTables | components/shared/top-nav.tsx:39-50 | the desktop table is Home, About, Projects, all with path `/`; the mobile table is Projects, Open Source, Blog, Changelog with paths /projects, /open-source, /blog, /changelog |
| NavHighlight.MobileLinksDistinct | components/shared/top-nav.tsx:45-50 | the mobile link paths are pairwise distinct |
| NavHighlight.ProjectsRouteActivatesOnlyProjects | components/shared/top-nav.tsx:45-50 | on `/projects` the only active mobile link is "Projects" |
| NavHighlight.NoPrefixMatching | components/shared/top-nav.tsx:81-83 | a trailing slash or a sub-route of a link's path does not activate the link |
| NavHighlight.MenuLinkStyle | components/shared/top-nav.tsx:112-116 | a menu item receives the given colour and background exactly when the route equals its path; otherwise neither is applied |
| MenuDisclosure.Apply | components/shared/top-nav.tsx:131 | `onOpen` leaves the disclosure open and `onClose` leaves it closed, whatever the prior state |
| MenuDisclosure.MenuButtonAction | components/shared/top-nav.tsx:165 | the menu button dispatches `onClose` exactly when the menu is open |
| MenuDisclosure.PressMenuButton | components/shared/top-nav.tsx:160-166 | pressing the menu button flips the disclosure |
| MenuDisclosure.MenuButtonIcon | components/shared/top-nav.tsx:162 | the button shows the close cross exactly when the menu is open |
| MenuDisclosure.Step | components/shared/top-nav.tsx:84 | any link click leaves the disclosure closed, and a menu-button press flips it |
| MenuDisclosure.Run | components/shared/top-nav.tsx:84 | a history whose last event is a link click leaves the menu closed, and a history without button presses either changes nothing or leaves it closed |
| MenuDisclosure.TrailingPresses | components/shared/top-nav.tsx:165 | the count n of presses since the last link click: the last n events are all presses, and the event just before them, if any, is a link click |
| MenuDisclosure.RunCharacterised | components/shared/top-nav.tsx:131-166 | after any history the menu is open exactly when the start state, ignored if a link was clicked, differs from the parity of menu presses since the last link click |
| MenuDisclosure.ActionsIdempotent | components/shared/top-nav.tsx:131 | repeating `onOpen` or `onClose` changes nothing further |
| MenuDisclosure.PressTwiceRestores | components/shared/top-nav.tsx:165 | two presses of the menu button return to the original state |
| MenuDisclosure.PressesParity | components/shared/top-nav.tsx:165 | n presses in a row leave the menu open exactly when the start state differs from the parity of n |
| MenuDisclosure.AllPressesTrail | components/shared/top-nav.tsx:165 | in a history of n button presses and nothing else, all n presses count as trailing |
| MenuDisclosure.LinkClickCloses | components/shared/top-nav.tsx:84 | whatever happened before, a history that ends with a link click leaves the menu closed |
| TopNav.Render | components/shared/top-nav.tsx:247-268 | the mobile panel is rendered exactly when the disclosure is open; the icon is the cross exactly when it is open; every rendered link is highlighted exactly when the route equals its path |
| TopNav.DesktopAllOrNothing | components/shared/top-nav.tsx:223-231 | the rendered desktop links are all highlighted on `/` and none is highlighted elsewhere |
| TopNav.MobileHighlightExclusive | components/shared/top-nav.tsx:255-265 | in the open mobile panel at most one entry is highlighted |
| TopNav.ClickingRenderedLinkHidesPanel | components/shared/top-nav.tsx:223-265 | after a click on any desktop or mobile link, the mobile panel is not rendered and the button shows the hamburger |
| TopNav.PanelAfterHistory | components/shared/top-nav.tsx:131-268 | starting closed, the mobile panel is rendered after a history exactly when the number of menu presses since the last link click is odd |

## Left out

- The theme store is not part of this model. This covers colour-mode
  toggling, accent picking, persistence and `useLinkColor`, which live in
  `components/theme`. The link colour and the colour mode are opaque inputs.
- Animation is left out because it is cosmetic. This covers the framer-motion
  variants, `ANIMATION_DURATION` and the motion of the "show" variant. Only
  the choice between "show" and "hide" is modelled.
- Timer lifecycle is left out. `setInterval`/`clearInterval`, the 500 ms
  period, and the effect re-subscribing on every counter change are lifecycle
  plumbing. The interval callback is the abstract `Tick` event, and it reads
  the current counter because the effect is re-created on each change.
  Interleavings are covered by arbitrary event sequences.
- Chakra `useDisclosure` internals are left out. Only `onOpen` (sets open)
  and `onClose` (sets closed) are assumed.
- The hover styles (`_hover`) and the icon lookup table of `MenuLink` are
  left out. They are rendering only and do not depend on state.
- Layout and breakpoint display props are left out. So are avatar and GitHub
  links, `ContentBox`, `newContent` and `PopularArticles`. They are static
  content with no logic.
- The Next.js router and `NextLink` navigation are left out. The route is an
  input string, and a link click's navigation effect is not modelled; only
  its effect on the disclosure is.
- `MenuLink` is declared in the navigation file but never rendered by
  `TopNav`. It is modelled on its own (`MenuLinkStyle`, the `MenuLinkClick`
  event) and is not part of `TopNav.Render`.
