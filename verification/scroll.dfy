/**
 The two scroll-position rules of the Cosmic Destiny site script: the navbar
 switches to its solid style once the page is scrolled past 100 pixels, and the
 back-to-top button shows once it is scrolled past 300. Each scroll event
 overwrites both style properties it owns, in either branch.
 */
module Scroll {

  /** The navbar's inline background and backdrop filter. */
  datatype NavbarStyle = NavbarStyle(background: string, backdropFilter: string)

  /** The style once scrolled past the threshold: dark, strongly blurred. */
  const SolidNavbar: NavbarStyle := NavbarStyle("rgba(15, 15, 15, 0.95)", "blur(20px)")

  /** The style up to the threshold: translucent, lightly blurred. */
  const GlassNavbar: NavbarStyle := NavbarStyle("rgba(255, 255, 255, 0.1)", "blur(10px)")

  const NavbarThreshold: real := 100.0

  /** The back-to-top button's inline opacity and visibility. */
  datatype ButtonStyle = ButtonStyle(opacity: string, visibility: string)

  const ButtonShown: ButtonStyle := ButtonStyle("1", "visible")

  const ButtonHidden: ButtonStyle := ButtonStyle("0", "hidden")

  /** The style the button is created with, before any scroll event. */
  const InitialButton: ButtonStyle := ButtonStyle("0", "hidden")

  const BackToTopThreshold: real := 300.0

  /** The navbar style a scroll event at vertical offset `offset` sets. */
  function NavbarStyleAt(offset: real): (r: NavbarStyle)
    ensures r == SolidNavbar <==> offset > NavbarThreshold
    ensures r == GlassNavbar <==> offset <= NavbarThreshold
  {
    if offset > 100.0 then SolidNavbar else GlassNavbar
  }

  /** The button style a scroll event at vertical offset `offset` sets. */
  function BackToTopStyleAt(offset: real): (r: ButtonStyle)
    ensures r == ButtonShown <==> offset > BackToTopThreshold
    ensures r == ButtonHidden <==> offset <= BackToTopThreshold
  {
    if offset > 300.0 then ButtonShown else ButtonHidden
  }

  /** The state after a series of scroll events, each handled by `handler`. */
  function Replay<S>(initial: S, handler: real -> S, offsets: seq<real>): S
    decreases |offsets|
  {
    if |offsets| == 0 then initial
    else Replay(handler(offsets[0]), handler, offsets[1..])
  }

  /** A handler that overwrites its state remembers only the latest offset. */
  lemma {:induction false} ReplayKeepsLast<S>(initial: S, handler: real -> S, offsets: seq<real>)
    requires |offsets| > 0
    ensures Replay(initial, handler, offsets) == handler(offsets[|offsets| - 1])
    decreases |offsets|
  {
    if |offsets| > 1 {
      ReplayKeepsLast(handler(offsets[0]), handler, offsets[1..]);
    }
  }

  /** After any scrolling the navbar style is decided by the latest offset alone. */
  lemma NavbarFollowsLatestOffset(initial: NavbarStyle, offsets: seq<real>)
    requires |offsets| > 0
    ensures Replay(initial, NavbarStyleAt, offsets) == SolidNavbar <==> offsets[|offsets| - 1] > NavbarThreshold
    ensures Replay(initial, NavbarStyleAt, offsets) == GlassNavbar <==> offsets[|offsets| - 1] <= NavbarThreshold
  {
    ReplayKeepsLast(initial, NavbarStyleAt, offsets);
  }

  /** After any scrolling the button is visible exactly when the latest offset is past 300, hidden otherwise. */
  lemma BackToTopFollowsLatestOffset(offsets: seq<real>)
    requires |offsets| > 0
    ensures Replay(InitialButton, BackToTopStyleAt, offsets) == ButtonShown <==> offsets[|offsets| - 1] > BackToTopThreshold
    ensures Replay(InitialButton, BackToTopStyleAt, offsets) == ButtonHidden <==> offsets[|offsets| - 1] <= BackToTopThreshold
  {
    ReplayKeepsLast(InitialButton, BackToTopStyleAt, offsets);
  }

  /** Scrolling further down never takes the navbar back to the glass style. */
  lemma NavbarMonotone(lower: real, higher: real)
    requires lower <= higher
    ensures NavbarStyleAt(lower) == SolidNavbar ==> NavbarStyleAt(higher) == SolidNavbar
  {
  }

  /** Scrolling further down never hides a shown back-to-top button. */
  lemma BackToTopMonotone(lower: real, higher: real)
    requires lower <= higher
    ensures BackToTopStyleAt(lower) == ButtonShown ==> BackToTopStyleAt(higher) == ButtonShown
  {
  }

  /** Whenever the back-to-top button shows, the navbar is already solid. */
  lemma ButtonShownImpliesSolidNavbar(offset: real)
    ensures BackToTopStyleAt(offset) == ButtonShown ==> NavbarStyleAt(offset) == SolidNavbar
  {
  }

  /** Near the top a scroll event leaves the button as it was created. */
  lemma NearTopKeepsInitialButton(offset: real)
    requires offset <= BackToTopThreshold
    ensures BackToTopStyleAt(offset) == InitialButton
  {
  }

  /** The navbar comparison is strict: exactly 100 keeps the glass style. */
  lemma NavbarThresholdStrict()
    ensures NavbarStyleAt(100.0) == GlassNavbar && NavbarStyleAt(100.5) == SolidNavbar
  {
  }

  /** The button comparison is strict: exactly 300 keeps it hidden. */
  lemma BackToTopThresholdStrict()
    ensures BackToTopStyleAt(300.0) == ButtonHidden && BackToTopStyleAt(300.5) == ButtonShown
  {
  }
}
