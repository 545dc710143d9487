/** The abstract page the UI sketch script works on: the elements its
    handlers touch, reduced to the attributes and classes they read and write. */
module PageModel {
  import opened Wrappers

  /** A `.view-btn` navigation button: its `data-view` attribute (None when the
      attribute is absent, which `getAttribute` reports as null) and whether it
      carries the `active` class. */
  datatype NavButton = NavButton(dataView: Option<string>, active: bool)

  /** A `.view` container: its element id ("" when it has no id attribute)
      and whether it carries the `active` class. */
  datatype View = View(id: string, active: bool)

  /** The four single-selection groups: `.scene-item`, `.bundle-item`,
      `.section-item` and `.settings-tab`. */
  datatype Group = Scenes | Bundles | Sections | SettingsTabs

  /** The class list of one element. */
  type Classes = set<string>

  /** Everything the handlers read or write.
      - `drawer`: the inline `style.display` of `#evidence-drawer`, None when the
        page has no such element;
      - `hasSearchInput`: whether `.filters-bar input` exists;
      - `cards`: the `collapsed` flag of each `.question-card`. */
  datatype Page = Page(
    buttons: seq<NavButton>,
    views: seq<View>,
    drawer: Option<string>,
    hasSearchInput: bool,
    scenes: seq<Classes>,
    bundles: seq<Classes>,
    sections: seq<Classes>,
    settingsTabs: seq<Classes>,
    cards: seq<bool>)

  /** The class a group uses to mark its chosen member: bundles are `selected`,
      the other groups `active`. */
  function Marker(g: Group): (m: string)
    ensures m == "selected" <==> g == Bundles
    ensures m == "active" <==> g != Bundles
  {
    match g
    case Bundles => "selected"
    case _ => "active"
  }

  function Members(p: Page, g: Group): seq<Classes> {
    match g
    case Scenes => p.scenes
    case Bundles => p.bundles
    case Sections => p.sections
    case SettingsTabs => p.settingsTabs
  }

  /** Replaces the members of group `g` and nothing else. */
  function WithMembers(p: Page, g: Group, items: seq<Classes>): (r: Page)
    ensures Members(r, g) == items
    ensures forall h :: h != g ==> Members(r, h) == Members(p, h)
    ensures OutsideGroupsUnchanged(p, r)
  {
    match g
    case Scenes => p.(scenes := items)
    case Bundles => p.(bundles := items)
    case Sections => p.(sections := items)
    case SettingsTabs => p.(settingsTabs := items)
  }

  /** Every part of the page other than the selection groups is the same. */
  predicate OutsideGroupsUnchanged(p: Page, r: Page) {
    && r.buttons == p.buttons
    && r.views == p.views
    && r.drawer == p.drawer
    && r.hasSearchInput == p.hasSearchInput
    && r.cards == p.cards
  }

  /** `k` is the position of the first view whose id is `id`, the element
      `document.getElementById(id)` returns among the views. The empty string
      names no element: a view without an id attribute has id "" here, and
      `getElementById('')` finds nothing. */
  predicate IsFirstWithId(views: seq<View>, k: nat, id: string) {
    && id != ""
    && k < |views|
    && views[k].id == id
    && forall j :: 0 <= j < k ==> views[j].id != id
  }

  /** `getElementById` restricted to the views: the first match, if any, and
      nothing for the empty id. */
  function FirstViewWithId(views: seq<View>, id: string): (r: Option<nat>)
    ensures r.Some? ==> IsFirstWithId(views, r.value, id)
    ensures r.None? ==> id == "" || forall j :: 0 <= j < |views| ==> views[j].id != id
  {
    if |views| == 0 || id == "" then None
    else if views[0].id == id then Some(0)
    else
      match FirstViewWithId(views[1..], id)
      case None => None
      case Some(k) => Some(k + 1)
  }

  /** There is at most one first match, so `IsFirstWithId` pins one position. */
  lemma FirstWithIdUnique(views: seq<View>, a: nat, b: nat, id: string)
    requires IsFirstWithId(views, a, id) && IsFirstWithId(views, b, id)
    ensures a == b
  {
  }

  predicate AtMostOneActiveView(views: seq<View>) {
    forall a, b :: 0 <= a < |views| && 0 <= b < |views| && views[a].active && views[b].active ==> a == b
  }

  predicate AtMostOneMarked(items: seq<Classes>, m: string) {
    forall a, b :: 0 <= a < |items| && 0 <= b < |items| && m in items[a] && m in items[b] ==> a == b
  }

  /** The single-selection discipline the handlers keep: at most one active view
      and at most one marked member in every group. Navigation buttons are not
      part of it, since several buttons may share a target. */
  predicate SingleSelection(p: Page) {
    && AtMostOneActiveView(p.views)
    && forall g :: AtMostOneMarked(Members(p, g), Marker(g))
  }

  /** The parts of the page no handler creates or removes: the elements, their
      ids and `data-view` targets, whether the drawer and the search input exist. */
  predicate SameShape(p: Page, q: Page) {
    && |q.buttons| == |p.buttons|
    && (forall k :: 0 <= k < |p.buttons| ==> q.buttons[k].dataView == p.buttons[k].dataView)
    && |q.views| == |p.views|
    && (forall k :: 0 <= k < |p.views| ==> q.views[k].id == p.views[k].id)
    && q.drawer.Some? == p.drawer.Some?
    && q.hasSearchInput == p.hasSearchInput
    && (forall g :: |Members(q, g)| == |Members(p, g)|)
    && |q.cards| == |p.cards|
  }

  lemma SameShapeTransitive(p: Page, q: Page, r: Page)
    requires SameShape(p, q) && SameShape(q, r)
    ensures SameShape(p, r)
  {
  }
}
