/** The listeners wired up once the document has loaded, as one dispatch over
    input events, and what any sequence of events preserves. */
module Events {
  import opened Wrappers
  import opened PageModel
  import Navigation
  import Drawer
  import Selection
  import Cards
  import Keyboard

  /** One input event. Elements are named by their position among the elements
      of their kind. `ShowViewCall`, `ToggleDrawerCall` and `CloseDrawerCall`
      are the global functions invoked directly from the markup. */
  datatype Event =
    | NavButtonClick(button: nat)
    | StoryRowClick
    | ModeTabClick(text: string)
    | ItemClick(group: Group, item: nat)
    | CardClick(card: nat)
    | DrawerClick(target: Drawer.ClickTarget)
    | KeyDown(key: string)
    | ShowViewCall(viewId: string)
    | ToggleDrawerCall
    | CloseDrawerCall

  /** The page after one event. A click on an element that does not exist
      reaches no listener and changes nothing. No handler adds or removes
      elements, renames ids or retargets buttons; only the navigation events
      touch buttons and views, and only the drawer events and Escape touch the
      drawer, which they leave `none` or `flex`. */
  function Step(p: Page, e: Event): (r: Page)
    ensures SameShape(p, r)
    ensures e.NavButtonClick? && e.button >= |p.buttons| ==> r == p
    ensures e.ItemClick? && e.item >= |Members(p, e.group)| ==> r == p
    ensures e.CardClick? && e.card >= |p.cards| ==> r == p
    ensures r.buttons != p.buttons || r.views != p.views ==>
      e.NavButtonClick? || e.StoryRowClick? || e.ModeTabClick? || e.ShowViewCall?
    ensures r.drawer != p.drawer ==>
      && (e.DrawerClick? || e.ToggleDrawerCall? || e.CloseDrawerCall? || e == KeyDown("Escape"))
      && (r.drawer == Some(Drawer.Hidden) || r.drawer == Some(Drawer.Shown))
  {
    match e
    case NavButtonClick(i) =>
      if i < |p.buttons| then Navigation.OnNavButtonClick(p, i) else p
    case StoryRowClick => Navigation.OnStoryRowClick(p)
    case ModeTabClick(t) => Navigation.OnModeTabClick(p, t)
    case ItemClick(g, i) =>
      if i < |Members(p, g)| then Selection.Select(p, g, i) else p
    case CardClick(i) =>
      if i < |p.cards| then Cards.ToggleCard(p, i) else p
    case DrawerClick(t) => Drawer.OnDrawerClick(p, t)
    case KeyDown(k) => Keyboard.OnKeyDown(p, k).page
    case ShowViewCall(v) => Navigation.ShowView(p, Some(v))
    case ToggleDrawerCall => Drawer.ToggleDrawer(p)
    case CloseDrawerCall => Drawer.CloseDrawer(p)
  }

  /** The page after the events, handled one at a time in arrival order: a
      single event is one `Step`, and no sequence of events adds or removes
      elements, renames ids or retargets buttons. */
  function Run(p: Page, es: seq<Event>): (r: Page)
    ensures |es| == 1 ==> r == Step(p, es[0])
    ensures SameShape(p, r)
    decreases |es|
  {
    if |es| == 0 then p else Run(Step(p, es[0]), es[1..])
  }

  /** Handling `a` and then `b` is handling `a + b`. */
  lemma {:induction false} RunConcat(p: Page, a: seq<Event>, b: seq<Event>)
    ensures Run(p, a + b) == Run(Run(p, a), b)
    decreases |a|
  {
    if |a| == 0 {
      assert a + b == b;
    } else {
      assert (a + b)[1..] == a[1..] + b;
      RunConcat(Step(p, a[0]), a[1..], b);
    }
  }

  lemma RunPair(p: Page, e1: Event, e2: Event)
    ensures Run(p, [e1, e2]) == Step(Step(p, e1), e2)
  {
    var q := Step(p, e1);
    assert [e1, e2][1..] == [e2];
    assert Run(p, [e1, e2]) == Run(q, [e2]);
    assert [e2][1..] == [];
    assert Run(q, [e2]) == Run(Step(q, e2), []);
  }

  /** Every handler keeps at most one active view and at most one marked item
      per group, provided the page started that way. */
  lemma StepKeepsSingleSelection(p: Page, e: Event)
    requires SingleSelection(p)
    ensures SingleSelection(Step(p, e))
  {
  }

  lemma {:induction false} RunKeepsSingleSelection(p: Page, es: seq<Event>)
    requires SingleSelection(p)
    ensures SingleSelection(Run(p, es))
    decreases |es|
  {
    if |es| > 0 {
      StepKeepsSingleSelection(p, es[0]);
      RunKeepsSingleSelection(Step(p, es[0]), es[1..]);
    }
  }

  /** The drawer's display only ever becomes `none` or `flex`: after any events
      it is either still the initial value or one of those two. */
  lemma {:induction false} RunDrawerDisplay(p: Page, es: seq<Event>)
    ensures var d := Run(p, es).drawer;
            d == p.drawer || d == Some(Drawer.Hidden) || d == Some(Drawer.Shown)
    decreases |es|
  {
    if |es| > 0 {
      RunDrawerDisplay(Step(p, es[0]), es[1..]);
    }
  }

  /** Whatever view was showing, a click on a story row makes the first `seed`
      view the only active one and leaves the drawer as it was. */
  lemma StoryRowOpensSeed(p: Page, s: nat)
    requires IsFirstWithId(p.views, s, "seed")
    ensures var r := Run(p, [StoryRowClick]);
            && r.views[s].active
            && (forall k :: 0 <= k < |r.views| && k != s ==> !r.views[k].active)
            && r.drawer == p.drawer
  {
  }

  /** Clicking bundle `b1` and then bundle `b2` leaves only `b2` selected. */
  lemma SecondBundleReplacesFirst(p: Page, b1: nat, b2: nat)
    requires b1 < |p.bundles| && b2 < |p.bundles| && b1 != b2
    ensures var r := Run(p, [ItemClick(Bundles, b1), ItemClick(Bundles, b2)]);
            && |r.bundles| == |p.bundles|
            && "selected" in r.bundles[b2]
            && "selected" !in r.bundles[b1]
            && Selection.CountMarked(r.bundles, "selected") == 1
  {
    var q := Selection.Select(p, Bundles, b1);
    var r := Selection.Select(q, Bundles, b2);
    RunPair(p, ItemClick(Bundles, b1), ItemClick(Bundles, b2));
    Selection.SelectLeavesExactlyOne(q, Bundles, b2);
  }

  /** Two clicks on two different question cards flip both and nothing else. */
  lemma TwoCardClicks(p: Page, i: nat, j: nat)
    requires i < |p.cards| && j < |p.cards| && i != j
    ensures var r := Run(p, [CardClick(i), CardClick(j)]);
            && |r.cards| == |p.cards|
            && r.cards[i] == !p.cards[i] && r.cards[j] == !p.cards[j]
            && (forall k :: 0 <= k < |p.cards| && k != i && k != j ==> r.cards[k] == p.cards[k])
            && r == p.(cards := r.cards)
  {
    RunPair(p, CardClick(i), CardClick(j));
  }
}
