/** The open/closed state of the mobile navigation panel.

    Only two operations of the disclosure are used: `onOpen` sets it open and
    `onClose` sets it closed. The hamburger button picks one of them from the
    current state, and every navigation link calls `onClose` when clicked. */
module MenuDisclosure {

  datatype Disclosure = Disclosure(isOpen: bool)

  /** A fresh disclosure starts closed. */
  const Initial: Disclosure := Disclosure(false)

  /** The two callbacks the disclosure hands out. */
  datatype Action = OnOpen | OnClose

  /** Both callbacks are idempotent assignments. */
  function Apply(d: Disclosure, a: Action): (r: Disclosure)
    ensures r.isOpen <==> a == OnOpen
  {
    match a
    case OnOpen => Disclosure(true)
    case OnClose => Disclosure(false)
  }

  /** The callback wired to the menu button for the current state. */
  function MenuButtonAction(d: Disclosure): (a: Action)
    ensures a == OnClose <==> d.isOpen
  {
    if d.isOpen then OnClose else OnOpen
  }

  /** Pressing the menu button flips the disclosure. */
  function PressMenuButton(d: Disclosure): (r: Disclosure)
    ensures r.isOpen == !d.isOpen
  {
    Apply(d, MenuButtonAction(d))
  }

  datatype Icon = Hamburger | CloseCross

  /** The menu button shows a cross while the panel is open. */
  function MenuButtonIcon(d: Disclosure): (r: Icon)
    ensures r == CloseCross <==> d.isOpen
  {
    if d.isOpen then CloseCross else Hamburger
  }

  /** User interactions with the navigation bar. A desktop or mobile
      `NavLink` and a `MenuLink` all close the disclosure on click. */
  datatype Event = MenuButton | NavLinkClick | MenuLinkClick

  predicate IsLinkClick(e: Event) {
    e.NavLinkClick? || e.MenuLinkClick?
  }

  function Step(d: Disclosure, e: Event): (r: Disclosure)
    ensures IsLinkClick(e) ==> !r.isOpen
    ensures e == MenuButton ==> r.isOpen == !d.isOpen
  {
    match e
    case MenuButton => PressMenuButton(d)
    case NavLinkClick => Apply(d, OnClose)
    case MenuLinkClick => Apply(d, OnClose)
  }

  /** The disclosure after the events `evs`, oldest first. */
  function Run(d: Disclosure, evs: seq<Event>): (r: Disclosure)
    ensures |evs| > 0 && IsLinkClick(evs[|evs| - 1]) ==> !r.isOpen
    ensures (forall i :: 0 <= i < |evs| ==> !evs[i].MenuButton?) ==> (r == d || !r.isOpen)
    decreases |evs|
  {
    if |evs| == 0 then d else Step(Run(d, evs[..|evs| - 1]), evs[|evs| - 1])
  }

  /** Whether some link was clicked among `evs`. */
  predicate HasLinkClick(evs: seq<Event>) {
    exists i :: 0 <= i < |evs| && IsLinkClick(evs[i])
  }

  /** Number of menu-button presses after the last link click (after the
      start when no link was clicked): the last `n` events are all presses,
      and the event before them, if any, is a link click. */
  function TrailingPresses(evs: seq<Event>): (n: nat)
    ensures n <= |evs|
    ensures forall i :: |evs| - n <= i < |evs| ==> evs[i] == MenuButton
    ensures n < |evs| ==> IsLinkClick(evs[|evs| - 1 - n])
    decreases |evs|
  {
    if |evs| == 0 then 0
    else if IsLinkClick(evs[|evs| - 1]) then 0
    else
      var pre := evs[..|evs| - 1];
      assert forall i :: 0 <= i < |pre| ==> pre[i] == evs[i];
      TrailingPresses(pre) + 1
  }

  /** Reference description of any history: the panel is open exactly when,
      counting from the last link click (or from the start state when there
      was none), the menu button was pressed an odd number of times. */
  lemma {:induction false} RunCharacterised(d: Disclosure, evs: seq<Event>)
    ensures Run(d, evs).isOpen <==> ((!HasLinkClick(evs) && d.isOpen) != (TrailingPresses(evs) % 2 == 1))
    decreases |evs|
  {
    if |evs| > 0 {
      var pre := evs[..|evs| - 1];
      var e := evs[|evs| - 1];
      RunCharacterised(d, pre);
      if IsLinkClick(e) {
        assert HasLinkClick(evs);
      } else {
        assert HasLinkClick(evs) <==> HasLinkClick(pre) by {
          if HasLinkClick(evs) {
            var i :| 0 <= i < |evs| && IsLinkClick(evs[i]);
            assert i < |pre| && pre[i] == evs[i];
          }
          if HasLinkClick(pre) {
            var i :| 0 <= i < |pre| && IsLinkClick(pre[i]);
            assert evs[i] == pre[i];
          }
        }
      }
    }
  }

  /** Repeating a callback changes nothing further. */
  lemma ActionsIdempotent(d: Disclosure, a: Action)
    ensures Apply(Apply(d, a), a) == Apply(d, a)
  {
  }

  /** Two presses of the menu button return to the original state. */
  lemma PressTwiceRestores(d: Disclosure)
    ensures PressMenuButton(PressMenuButton(d)) == d
  {
  }

  /** `n` presses in a row flip the disclosure `n` times. */
  lemma {:induction false} PressesParity(d: Disclosure, n: nat)
    ensures Run(d, seq(n, i => MenuButton)).isOpen <==> (d.isOpen != (n % 2 == 1))
  {
    var evs := seq(n, i => MenuButton);
    RunCharacterised(d, evs);
    assert !HasLinkClick(evs);
    assert TrailingPresses(evs) == n by { AllPressesTrail(n); }
  }

  lemma {:induction false} AllPressesTrail(n: nat)
    ensures TrailingPresses(seq(n, i => MenuButton)) == n
  {
    if n > 0 {
      assert seq(n, i => MenuButton)[..n - 1] == seq(n - 1, i => MenuButton);
      AllPressesTrail(n - 1);
    }
  }

  /** Whatever happened before, a link click leaves the panel closed. */
  lemma LinkClickCloses(d: Disclosure, evs: seq<Event>, e: Event)
    requires IsLinkClick(e)
    ensures !Run(d, evs + [e]).isOpen
  {
    assert (evs + [e])[..|evs|] == evs;
  }
}
