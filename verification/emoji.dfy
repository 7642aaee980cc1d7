/** The emoji reaction sequencer of the home page header.

    Two pieces of React state, `showEmogi` and `emojiCounter`, are driven by
    clicks on the header and by a recurring interval callback. The interval is
    modelled as an abstract `Tick` event; each emoji position's visibility is a
    predicate over the state. */
module EmojiSequencer {
  import opened Optional

  /** The reaction symbols, in display order (waving hand, thumbs up, raised hand). */
  const Emojis: seq<string> := ["\U{1F44B}", "\U{1F44D}", "\U{1F590}"]

  /** Number of emoji positions. */
  const N: nat := |Emojis|

  /** The interval callback resets the counter once it reaches this literal. */
  const ResetThreshold: int := 3

  datatype EmojiState = EmojiState(visible: bool, counter: int)

  /** Both `useState` initial values: hidden, sequence not started. */
  const Initial: EmojiState := EmojiState(false, -1)

  datatype Event = Click | Tick

  /** Click handler of the header: the counter is bumped through the functional
      updater and the reaction is made visible. */
  function OnClick(s: EmojiState): (r: EmojiState)
    ensures r.visible
    ensures r.counter - s.counter == 1
  {
    EmojiState(true, s.counter + 1)
  }

  /** Interval callback: a counter that ran past the last position is reset to
      the first one; anything else is left alone. Visibility is never touched. */
  function OnTick(s: EmojiState): (r: EmojiState)
    ensures r.visible == s.visible
    ensures r.counter < N
    ensures s.counter < N ==> r == s
    ensures s.counter >= N ==> r.counter == 0
  {
    if s.counter >= ResetThreshold then s.(counter := 0) else s
  }

  /** One event: only a click can make the reaction visible, and right after
      a tick the counter names a position or is still -1. */
  function Step(s: EmojiState, e: Event): (r: EmojiState)
    ensures r.visible <==> s.visible || e == Click
    ensures e == Tick ==> r.counter < N && (s.counter >= -1 ==> r.counter >= -1)
  {
    match e
    case Click => OnClick(s)
    case Tick => OnTick(s)
  }

  /** The state after the events `evs`, oldest first, have been handled. */
  function Run(s: EmojiState, evs: seq<Event>): (r: EmojiState)
    ensures s.visible ==> r.visible
    ensures s.counter >= -1 ==> r.counter >= -1
    ensures |evs| > 0 && evs[|evs| - 1] == Tick ==> r.counter < N
    decreases |evs|
  {
    if |evs| == 0 then s else Step(Run(s, evs[..|evs| - 1]), evs[|evs| - 1])
  }

  /** `k` clicks with no tick in between. */
  function Clicks(k: nat): seq<Event> {
    seq(k, i => Click)
  }

  /** Emoji position `i` is animated to its 'show' variant. A shown position
      lies inside the reachable states, and a tick never interrupts it. */
  function Shown(s: EmojiState, i: nat): (b: bool)
    ensures b ==> Inv(s)
    ensures b && i < N ==> OnTick(s) == s
  {
    s.visible && s.counter == i
  }

  /** The one position shown, if any: an independent summary of all `N`
      per-position predicates. */
  function ShownIndex(s: EmojiState): (r: Option<nat>)
    ensures r.Some? ==> r.value < N && Shown(s, r.value)
    ensures forall i :: 0 <= i < N ==> (Shown(s, i) <==> r == Some(i))
  {
    if s.visible && 0 <= s.counter < N then Some(s.counter) else None
  }

  /** Exactly the states the sequencer can reach: either the untouched initial
      state, or visible with a non-negative counter (which may exceed `N - 1`). */
  predicate Inv(s: EmojiState) {
    s.counter >= -1 && (s.visible <==> s.counter >= 0)
  }

  ghost predicate Reachable(s: EmojiState) {
    exists evs :: Run(Initial, evs) == s
  }

  lemma InitialShowsNothing()
    ensures Inv(Initial)
    ensures ShownIndex(Initial) == None
    ensures forall i :: 0 <= i < N ==> !Shown(Initial, i)
  {
  }

  /** At most one of the positions is shown in any state. */
  lemma AtMostOneShown(s: EmojiState, i: nat, j: nat)
    requires Shown(s, i) && Shown(s, j)
    ensures i == j
  {
  }

  /** Between a click that pushes the counter past the last position and the
      next tick, nothing is shown. */
  lemma NothingShownOutOfRange(s: EmojiState)
    requires s.counter >= N
    ensures ShownIndex(s) == None
    ensures forall i :: 0 <= i < N ==> !Shown(s, i)
  {
  }

  lemma StepPreservesInv(s: EmojiState, e: Event)
    requires Inv(s)
    ensures Inv(Step(s, e))
  {
  }

  lemma {:induction false} RunPreservesInv(s: EmojiState, evs: seq<Event>)
    requires Inv(s)
    ensures Inv(Run(s, evs))
    decreases |evs|
  {
    if |evs| > 0 {
      RunPreservesInv(s, evs[..|evs| - 1]);
      StepPreservesInv(Run(s, evs[..|evs| - 1]), evs[|evs| - 1]);
    }
  }

  /** Visibility is switched on by the first click and never switched off. */
  lemma {:induction false} VisibleIffClicked(s: EmojiState, evs: seq<Event>)
    ensures Run(s, evs).visible <==> (s.visible || Click in evs)
    decreases |evs|
  {
    if |evs| > 0 {
      var pre := evs[..|evs| - 1];
      VisibleIffClicked(s, pre);
      assert evs == pre + [evs[|evs| - 1]];
    }
  }

  /** `k` clicks in a row add exactly `k` to the counter. */
  lemma {:induction false} RunClicks(s: EmojiState, k: nat)
    ensures Run(s, Clicks(k)) == EmojiState(s.visible || k > 0, s.counter + k)
  {
    if k > 0 {
      assert Clicks(k)[..k - 1] == Clicks(k - 1);
      RunClicks(s, k - 1);
    }
  }

  /** The invariant describes the reachable states exactly. */
  lemma ReachableIffInv(s: EmojiState)
    ensures Reachable(s) <==> Inv(s)
  {
    if Reachable(s) {
      var evs :| Run(Initial, evs) == s;
      InitialShowsNothing();
      RunPreservesInv(Initial, evs);
    }
    if Inv(s) {
      var k: nat := s.counter + 1;
      RunClicks(Initial, k);
      assert Run(Initial, Clicks(k)) == s;
    }
  }

  /** The counter never drops below -1 and, right after a tick, never exceeds
      the last position. */
  lemma CounterBounds(evs: seq<Event>)
    ensures Run(Initial, evs).counter >= -1
    ensures |evs| > 0 && evs[|evs| - 1] == Tick ==> -1 <= Run(Initial, evs).counter < N
  {
    InitialShowsNothing();
    RunPreservesInv(Initial, evs);
  }

  /** A click followed by a tick moves the display one position forward,
      wrapping from the last position back to the first. */
  lemma ClickThenTickRotates(s: EmojiState)
    requires Inv(s) && s.counter < N
    ensures OnTick(OnClick(s)) == EmojiState(true, (s.counter + 1) % N)
    ensures ShownIndex(OnTick(OnClick(s))) == Some((s.counter + 1) % N)
  {
  }

  /** The worked scenario: clicks show positions 0, 1 and 2, a fourth click
      leaves the counter at 3 with nothing shown, and one tick resets it to 0. */
  lemma FourClicksThenTick()
    ensures Run(Initial, Clicks(1)) == EmojiState(true, 0)
    ensures Run(Initial, Clicks(2)) == EmojiState(true, 1)
    ensures Run(Initial, Clicks(3)) == EmojiState(true, 2)
    ensures Run(Initial, Clicks(4)) == EmojiState(true, 3)
    ensures ShownIndex(Run(Initial, Clicks(4))) == None
    ensures Run(Initial, Clicks(4) + [Tick]) == EmojiState(true, 0)
  {
    RunClicks(Initial, 1);
    RunClicks(Initial, 2);
    RunClicks(Initial, 3);
    RunClicks(Initial, 4);
    assert (Clicks(4) + [Tick])[..4] == Clicks(4);
  }

  /** A second tick with no click in between changes nothing. */
  lemma TickIdempotent(s: EmojiState)
    ensures OnTick(OnTick(s)) == OnTick(s)
  {
  }
}
