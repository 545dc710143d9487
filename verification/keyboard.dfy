/** The global `keydown` listener: `/` jumps to the dashboard search field,
    `Escape` closes the drawer, every other key is left alone. */
module Keyboard {
  import opened Wrappers
  import opened PageModel
  import Drawer
  import Navigation

  const DashboardView := "dashboard"

  /** `getElementById('dashboard')` exists and carries `active`. */
  function DashboardActive(p: Page): (b: bool)
    ensures b <==> exists k: nat :: IsFirstWithId(p.views, k, DashboardView) && p.views[k].active
  {
    match FirstViewWithId(p.views, DashboardView)
    case None => false
    case Some(k) =>
      assert forall j :: IsFirstWithId(p.views, j, DashboardView) ==> j == k by {
        forall j | IsFirstWithId(p.views, j, DashboardView) ensures j == k {
          FirstWithIdUnique(p.views, j, k, DashboardView);
        }
      }
      p.views[k].active
  }

  /** What the listener did: the page afterwards, whether it called
      `preventDefault`, and whether it moved focus to the search field. */
  datatype KeyOutcome = KeyOutcome(page: Page, preventedDefault: bool, focusedSearch: bool)

  /** The listener for a key press. */
  function OnKeyDown(p: Page, key: string): (r: KeyOutcome)
    ensures r.preventedDefault <==> key == "/" && DashboardActive(p)
    ensures r.focusedSearch <==> r.preventedDefault && p.hasSearchInput
    ensures key == "Escape" ==> r.page == Drawer.CloseDrawer(p)
    ensures key != "Escape" ==> r.page == p
  {
    if key == "/" && DashboardActive(p) then
      KeyOutcome(p, true, p.hasSearchInput)
    else if key == "Escape" then
      KeyOutcome(Drawer.CloseDrawer(p), false, false)
    else
      KeyOutcome(p, false, false)
  }

  /** Escape closes the drawer whatever view is showing and whatever the drawer's
      display was; the key is never suppressed, and pressing it again changes nothing. */
  lemma EscapeAlwaysCloses(p: Page)
    ensures var r := OnKeyDown(p, "Escape");
            && (p.drawer.Some? ==> r.page.drawer == Some(Drawer.Hidden))
            && r.page == p.(drawer := r.page.drawer)
            && !r.preventedDefault && !r.focusedSearch
            && OnKeyDown(r.page, "Escape").page == r.page
  {
  }

  /** Right after showing the dashboard, `/` is suppressed exactly when a view
      with id `dashboard` exists, and the search field gets focus when it exists too. */
  lemma SlashAfterShowingDashboard(p: Page)
    ensures var q := Navigation.ShowView(p, Some(DashboardView));
            var r := OnKeyDown(q, "/");
            && (r.preventedDefault <==> exists k :: 0 <= k < |p.views| && p.views[k].id == DashboardView)
            && (r.focusedSearch <==> r.preventedDefault && p.hasSearchInput)
            && r.page == q
  {
  }

  /** After switching to any other view, `/` has no effect at all. */
  lemma SlashAfterShowingOtherView(p: Page, v: string)
    requires v != DashboardView
    ensures OnKeyDown(Navigation.ShowView(p, Some(v)), "/") == KeyOutcome(Navigation.ShowView(p, Some(v)), false, false)
  {
  }

  /** Keys other than `/` and `Escape` do nothing. */
  lemma OtherKeysDoNothing(p: Page, key: string)
    requires key != "/" && key != "Escape"
    ensures OnKeyDown(p, key) == KeyOutcome(p, false, false)
  {
  }
}
