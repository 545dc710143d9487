/** The evidence drawer: `toggleDrawer`, `closeDrawer` and the overlay click
    that closes it. Its state is the inline `style.display` of the element. */
module Drawer {
  import opened Wrappers
  import opened PageModel

  const Hidden := "none"
  const Shown := "flex"

  /** `toggleDrawer()`: a drawer whose display is exactly `none` is shown as
      `flex`; any other display, the empty inline value included, is hidden. */
  function ToggleDrawer(p: Page): (r: Page)
    ensures p.drawer.None? ==> r == p
    ensures p.drawer == Some(Hidden) ==> r.drawer == Some(Shown)
    ensures p.drawer.Some? && p.drawer.value != Hidden ==> r.drawer == Some(Hidden)
    ensures r == p.(drawer := r.drawer)
  {
    match p.drawer
    case None => p
    case Some(d) => p.(drawer := Some(if d == Hidden then Shown else Hidden))
  }

  /** `closeDrawer()`: the drawer, when there is one, ends hidden. */
  function CloseDrawer(p: Page): (r: Page)
    ensures p.drawer.None? ==> r == p
    ensures p.drawer.Some? ==> r.drawer == Some(Hidden)
    ensures r == p.(drawer := r.drawer)
  {
    match p.drawer
    case None => p
    case Some(_) => p.(drawer := Some(Hidden))
  }

  /** Toggling twice restores the page exactly when there is no drawer or its
      display is `none` or `flex`; from any other display (the initial empty
      inline value, say) two toggles end at `none`. */
  lemma ToggleTwiceRestoresIff(p: Page)
    ensures ToggleDrawer(ToggleDrawer(p)) == p
        <==> p.drawer.None? || p.drawer == Some(Hidden) || p.drawer == Some(Shown)
  {
  }

  /** The first toggle of a drawer with no inline display hides it. */
  lemma ToggleFromEmptyInlineHides(p: Page)
    requires p.drawer == Some("")
    ensures ToggleDrawer(p).drawer == Some(Hidden)
    ensures ToggleDrawer(ToggleDrawer(p)).drawer == Some(Shown)
  {
  }

  lemma CloseIdempotent(p: Page)
    ensures CloseDrawer(CloseDrawer(p)) == CloseDrawer(p)
  {
  }

  /** Once closed, a toggle always opens the drawer, whatever its display was. */
  lemma ToggleAfterCloseShows(p: Page)
    requires p.drawer.Some?
    ensures ToggleDrawer(CloseDrawer(p)).drawer == Some(Shown)
  {
  }

  /** Where the overlay click landed: on the drawer container itself (its
      backdrop) or on something inside it. */
  datatype ClickTarget = Backdrop | Descendant

  /** A click on the drawer closes it only when the event target is the drawer
      itself; without a drawer there is no listener and nothing happens. */
  function OnDrawerClick(p: Page, target: ClickTarget): (r: Page)
    ensures target == Descendant ==> r == p
    ensures target == Backdrop ==> r == CloseDrawer(p)
    ensures p.drawer.Some? && target == Backdrop ==> r.drawer == Some(Hidden)
  {
    if target == Backdrop then CloseDrawer(p) else p
  }
}
