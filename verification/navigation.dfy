/** View switching: `showView` and the three click handlers that call it
    (navigation buttons, story rows, mode tabs). */
module Navigation {
  import opened Wrappers
  import opened PageModel

  /** The string `getElementById` looks up for a `showView` argument: a string is
      itself, and JavaScript converts null to the string "null". */
  function LookupKey(viewId: Option<string>): (key: string)
    ensures viewId.Some? ==> key == viewId.value
    ensures viewId.None? ==> key == "null"
    ensures key == "" <==> viewId == Some("")
  {
    match viewId
    case Some(s) => s
    case None => "null"
  }

  /** `showView(viewId)`: every button loses `active` and regains it when its
      `data-view` is strictly equal to the argument; every view loses `active`
      and the first view with the looked-up id, if any, regains it. */
  function ShowView(p: Page, viewId: Option<string>): (r: Page)
    ensures |r.buttons| == |p.buttons|
    ensures forall k :: 0 <= k < |r.buttons| ==>
      && r.buttons[k].dataView == p.buttons[k].dataView
      && (r.buttons[k].active <==> p.buttons[k].dataView == viewId)
    ensures |r.views| == |p.views|
    ensures forall k :: 0 <= k < |r.views| ==>
      && r.views[k].id == p.views[k].id
      && (r.views[k].active <==> IsFirstWithId(p.views, k, LookupKey(viewId)))
    ensures r == p.(buttons := r.buttons, views := r.views)
  {
    var target := FirstViewWithId(p.views, LookupKey(viewId));
    var buttons := seq(|p.buttons|, k requires 0 <= k < |p.buttons| =>
      p.buttons[k].(active := p.buttons[k].dataView == viewId));
    var views := seq(|p.views|, k requires 0 <= k < |p.views| =>
      p.views[k].(active := target == Some(k)));
    p.(buttons := buttons, views := views)
  }

  /** A request for an id no view has, or for the empty id, is not a no-op: it
      leaves every view inactive. */
  lemma ShowViewUnknownClearsViews(p: Page, viewId: Option<string>)
    requires LookupKey(viewId) == "" || forall j :: 0 <= j < |p.views| ==> p.views[j].id != LookupKey(viewId)
    ensures forall k :: 0 <= k < |ShowView(p, viewId).views| ==> !ShowView(p, viewId).views[k].active
  {
  }

  /** A concrete page on which an unknown view id changes the page: the active
      dashboard is switched off and nothing is switched on. */
  lemma ShowViewUnknownIsNotNoOp()
    ensures var p := Page([NavButton(Some("dashboard"), true)], [View("dashboard", true)],
                          None, false, [], [], [], [], []);
            var r := ShowView(p, Some("nowhere"));
            r != p && !r.views[0].active && !r.buttons[0].active
  {
  }

  /** `showView('')` activates no view, even one without an id attribute,
      while buttons whose `data-view` is empty do become active. */
  lemma ShowViewEmptyIdActivatesNoView()
    ensures var p := Page([NavButton(Some(""), false)], [View("", false)],
                          None, false, [], [], [], [], []);
            var r := ShowView(p, Some(""));
            !r.views[0].active && r.buttons[0].active
  {
  }

  /** Buttons sharing a target are all active together after `showView`. */
  lemma ShowViewSharedTargetAllActive(p: Page, v: string, a: nat, b: nat)
    requires a < |p.buttons| && b < |p.buttons|
    requires p.buttons[a].dataView == Some(v) && p.buttons[b].dataView == Some(v)
    ensures ShowView(p, Some(v)).buttons[a].active && ShowView(p, Some(v)).buttons[b].active
  {
  }

  /** After `showView`, at most one view is active, and one is exactly when the
      requested id is not empty and some view has it. */
  lemma ShowViewActiveViewIff(p: Page, viewId: Option<string>)
    ensures AtMostOneActiveView(ShowView(p, viewId).views)
    ensures (exists k :: 0 <= k < |p.views| && ShowView(p, viewId).views[k].active)
        <==> LookupKey(viewId) != "" && (exists k :: 0 <= k < |p.views| && p.views[k].id == LookupKey(viewId))
  {
    var r := ShowView(p, viewId);
    var key := LookupKey(viewId);
    forall a, b | 0 <= a < |r.views| && 0 <= b < |r.views| && r.views[a].active && r.views[b].active
      ensures a == b
    {
      FirstWithIdUnique(p.views, a, b, key);
    }
    match FirstViewWithId(p.views, key)
    case Some(t) =>
      assert r.views[t].active;
    case None =>
  }

  /** The outcome of `showView` depends only on its argument, not on which
      elements were active before: a later call overrides an earlier one. */
  lemma ShowViewLastWins(p: Page, u: Option<string>, v: Option<string>)
    ensures ShowView(ShowView(p, u), v) == ShowView(p, v)
  {
  }

  lemma ShowViewIdempotent(p: Page, v: Option<string>)
    ensures ShowView(ShowView(p, v), v) == ShowView(p, v)
  {
  }

  /** Click on navigation button `i`: `showView` with its own `data-view`, so the
      clicked button and every button sharing its target become the active ones. */
  function OnNavButtonClick(p: Page, i: nat): (r: Page)
    requires i < |p.buttons|
    ensures r == ShowView(p, p.buttons[i].dataView)
    ensures |r.buttons| == |p.buttons| && r.buttons[i].active
    ensures forall k :: 0 <= k < |r.buttons| ==>
      (r.buttons[k].active <==> p.buttons[k].dataView == p.buttons[i].dataView)
  {
    ShowView(p, p.buttons[i].dataView)
  }

  /** The view id every story row opens. */
  const SeedView := "seed"

  /** Click on a story row: a fixed `showView('seed')`, whatever the row. */
  function OnStoryRowClick(p: Page): (r: Page)
    ensures r == ShowView(p, Some(SeedView))
    ensures forall k :: 0 <= k < |r.views| ==> (r.views[k].active <==> IsFirstWithId(p.views, k, "seed"))
    ensures r.drawer == p.drawer
  {
    ShowView(p, Some(SeedView))
  }

  predicate IsUpper(c: char) {
    'A' <= c <= 'Z'
  }

  /** ASCII lower-casing of one character. */
  function LowerChar(c: char): (d: char)
    ensures !IsUpper(d)
    ensures IsUpper(c) ==> d as int == c as int + 32
    ensures !IsUpper(c) ==> d == c
  {
    if IsUpper(c) then (c as int + 32) as char else c
  }

  /** ASCII lower-casing of a label, character by character: no trimming. */
  function Lower(s: string): (r: string)
    ensures |r| == |s|
    ensures forall k :: 0 <= k < |r| ==> r[k] == LowerChar(s[k])
  {
    seq(|s|, k requires 0 <= k < |s| => LowerChar(s[k]))
  }

  lemma LowerIdempotent(s: string)
    ensures Lower(Lower(s)) == Lower(s)
  {
  }

  /** Click on a mode tab: `showView` with the tab's text lower-cased. */
  function OnModeTabClick(p: Page, text: string): (r: Page)
    ensures r == ShowView(p, Some(Lower(text)))
    ensures forall k :: 0 <= k < |r.buttons| ==>
      (r.buttons[k].active <==> p.buttons[k].dataView == Some(Lower(text)))
  {
    ShowView(p, Some(Lower(text)))
  }

  /** The tab text is not trimmed: "DRAFT" opens view `draft`, but " Draft"
      matches no view and leaves every view inactive. */
  lemma ModeTabLabelNotTrimmed()
    ensures var p := Page([], [View("draft", false)], None, false, [], [], [], [], []);
            OnModeTabClick(p, "DRAFT").views[0].active
            && !OnModeTabClick(p, " Draft").views[0].active
  {
  }
}
