# StoryReview Studio UI sketch: page-state model

The UI sketch script (`ui-sketch/script.js`) wires click and key listeners onto a
single-page mockup. This project recasts each listener as a pure transition over an
immutable `Page` record and proves what those transitions do. The `Page` record holds:

- the `.view-btn` navigation buttons as (`data-view`, `active`) pairs;
- the `.view` containers as (`id`, `active`) pairs;
- the inline `display` of `#evidence-drawer`, or `None` when there is no drawer;
- whether a `.filters-bar input` search field exists;
- the class sets of the items in the four single-selection groups: scene items,
  bundle items, section items and settings tabs;
- the `collapsed` flag of each `.question-card`.

`getElementById(id)` is modelled as the first view in document order whose id is `id`.
A `data-view` attribute that is absent is `None`, because `getAttribute` returns null
for it. `showView(null)` matches such buttons by strict equality, and it looks up the
view id `"null"`, because JavaScript converts null to that string.

Modules: `Wrappers` (Option), `PageModel` (the data model and the `getElementById`
lookup), `Navigation` (`showView` and its three callers), `Drawer`, `Selection`,
`Cards`, `Keyboard`, and `Events`. `Events` dispatches one input event to its handler
and runs sequences of events.

## Behaviour worth knowing

- A `showView` call with an id that no view has still changes the page. It removes
  `active` from every view, and from every button whose `data-view` differs
  (`Navigation.ShowViewUnknownClearsViews`, `Navigation.ShowViewUnknownIsNotNoOp`).
- Several buttons that share a `data-view` all become active together, so more than one
  navigation button can be active at a time.
- After `showView` at most one view is active. Exactly one is active only when the id is
  non-empty and some view has it. Nothing in the script makes a view active on page load.
- `getElementById('')` finds no element, so `showView('')` activates no view. Buttons
  whose `data-view` is empty still become active.
- `toggleDrawer` hides any display other than `none`, including the initial empty inline
  value. So two toggles restore the drawer only from `none` or `flex`.
- `/` on an active dashboard prevents the default even when the search field is missing.
  Only the focus step is skipped.
- The mode tabs carry no marker class of their own. A mode-tab click only calls
  `showView` with the tab text lower-cased, and the text is not trimmed.

## Model

| member | source | states |
|---|---|---|
| PageModel.FirstViewWithId | ui-sketch/script.js:16 | the lookup finds the first view carrying a non-empty id; None means the id is empty or no view carries it |
| PageModel.Marker | ui-sketch/script.js:94-123 | bundles are marked with `selected`; scenes, sections and settings tabs with `active` |
| Navigation.LookupKey | ui-sketch/script.js:16 | the id `getElementById` receives: a string argument is itself, null becomes `"null"`, and the key is empty only for the empty string |
| Navigation.ShowView | ui-sketch/script.js:4-20 | a button is active iff its `data-view` strictly equals the argument; a view is active iff it is the first with the looked-up id and that id is non-empty; ids, targets and the rest of the page are unchanged |
| Navigation.ShowViewUnknownClearsViews | ui-sketch/script.js:15-19 | when the id is empty or no view has it, every view ends inactive |
| Navigation.ShowViewEmptyIdActivatesNoView | ui-sketch/script.js:8-19 | `showView('')` leaves a view without an id inactive, yet activates a button whose `data-view` is empty |
| Navigation.ShowViewUnknownIsNotNoOp | ui-sketch/script.js:15-19 | a page with an active dashboard is changed by an unknown id: both dashboard view and button lose `active` |
| Navigation.ShowViewSharedTargetAllActive | ui-sketch/script.js:8-13 | two buttons sharing the target are both active afterwards |
| Navigation.ShowViewActiveViewIff | ui-sketch/script.js:15-19 | afterwards at most one view is active, and some view is active iff the looked-up id is non-empty and some view has it |
| Navigation.ShowViewLastWins | ui-sketch/script.js:8-19 | the result does not depend on earlier activity: a second call overrides the first |
| Navigation.ShowViewIdempotent | ui-sketch/script.js:4-20 | calling twice with the same id is the same as calling once |
| Navigation.OnNavButtonClick | ui-sketch/script.js:43-48 | the clicked button is active, and so is exactly every button sharing its target |
| Navigation.OnStoryRowClick | ui-sketch/script.js:79-83 | is `showView('seed')`: the first `seed` view is the only active view; the drawer is untouched |
| Navigation.LowerChar | ui-sketch/script.js:88 | result is never an upper-case ASCII letter; upper-case letters move by 32, other characters are unchanged |
| Navigation.Lower | ui-sketch/script.js:88 | same length as the text, each character lower-cased, nothing trimmed |
| Navigation.OnModeTabClick | ui-sketch/script.js:86-91 | is `showView` of the lower-cased text; a button is active iff its target is that text |
| Navigation.ModeTabLabelNotTrimmed | ui-sketch/script.js:88-89 | "DRAFT" opens view `draft`, but " Draft" leaves it inactive |
| Drawer.ToggleDrawer | ui-sketch/script.js:23-28 | without a drawer nothing changes; `none` becomes `flex`; any other display becomes `none`; nothing else changes |
| Drawer.CloseDrawer | ui-sketch/script.js:30-35 | without a drawer nothing changes; otherwise the display is `none` and nothing else changes |
| Drawer.ToggleTwiceRestoresIff | ui-sketch/script.js:26 | two toggles restore the page iff there is no drawer or the display is `none` or `flex` |
| Drawer.ToggleFromEmptyInlineHides | ui-sketch/script.js:26 | from the empty inline display, the first toggle hides and the second shows |
| Drawer.CloseIdempotent | ui-sketch/script.js:30-35 | closing twice is closing once |
| Drawer.ToggleAfterCloseShows | ui-sketch/script.js:23-35 | a toggle right after a close always shows the drawer |
| Drawer.OnDrawerClick | ui-sketch/script.js:51-58 | a click on a descendant changes nothing; a click on the drawer itself is `closeDrawer` and leaves it hidden |
| Selection.MarkOnly | ui-sketch/script.js:96-97 | the marker is on item `i` and no other item; every other class of every item is kept |
| Selection.Select | ui-sketch/script.js:94-123 | in the clicked group only item `i` carries the group's marker, other classes are kept; other groups and all non-group state are unchanged |
| Selection.SelectLeavesExactlyOne | ui-sketch/script.js:94-123 | afterwards exactly one item of the group carries the marker, and it is item `i` |
| Selection.SelectKeepsSingleSelection | ui-sketch/script.js:94-123 | at most one active view and one marked item per group is preserved |
| Selection.SelectLastWins | ui-sketch/script.js:94-123 | selecting `i` then `j` in one group equals selecting `j` alone |
| Selection.SelectOtherGroupsCommute | ui-sketch/script.js:93-123 | selections in two different groups commute |
| Cards.ToggleCard | ui-sketch/script.js:126-130 | only card `i`'s collapsed flag flips; all other cards and state are unchanged |
| Cards.ToggleCardTwiceRestores | ui-sketch/script.js:128 | two clicks on a card restore the page |
| Cards.TwoCardsToggleIndependently | ui-sketch/script.js:126-130 | toggles of two different cards commute and flip exactly those two |
| Keyboard.DashboardActive | ui-sketch/script.js:63-64 | true iff the first view with id `dashboard` exists and is active |
| Keyboard.OnKeyDown | ui-sketch/script.js:61-76 | the default is prevented iff the key is `/` and the dashboard is active; focus moves iff prevented and the search field exists; `Escape` is `closeDrawer`; every other key leaves the page unchanged |
| Keyboard.EscapeAlwaysCloses | ui-sketch/script.js:72-75 | Escape hides an existing drawer whatever the view, changes nothing else, is never suppressed, and repeating it changes nothing |
| Keyboard.SlashAfterShowingDashboard | ui-sketch/script.js:62-70 | right after showing the dashboard, `/` is suppressed iff a `dashboard` view exists, and focuses iff the search field exists too |
| Keyboard.SlashAfterShowingOtherView | ui-sketch/script.js:62-70 | right after showing any other view, `/` neither suppresses, focuses nor changes anything |
| Keyboard.OtherKeysDoNothing | ui-sketch/script.js:61-76 | keys other than `/` and `Escape` have no effect |
| Events.RunConcat | ui-sketch/script.js:38-133 | handling `a` then `b` is handling `a + b`, in arrival order |
| Events.Step | ui-sketch/script.js:43-130 | one event reaches its listener; a click on an element that does not exist changes nothing; no handler changes the page's elements, ids or targets; only navigation events touch buttons and views; only the drawer events and Escape touch the drawer, leaving it `none` or `flex` |
| Events.Run | ui-sketch/script.js:38-133 | events are handled one at a time in arrival order, a single event being one `Step`; no sequence of events changes the page's elements, ids or targets |
| Events.StepKeepsSingleSelection | ui-sketch/script.js:38-133 | every handler keeps at most one active view and one marked item per group |
| Events.RunKeepsSingleSelection | ui-sketch/script.js:38-133 | the same holds after any sequence of events, given it held at the start |
| Events.RunDrawerDisplay | ui-sketch/script.js:22-35 | after any events the drawer display is the initial one, `none` or `flex` |
| Events.StoryRowOpensSeed | ui-sketch/script.js:79-83 | a story-row click makes the seed view the only active view and leaves the drawer as it was |
| Events.SecondBundleReplacesFirst | ui-sketch/script.js:101-107 | after clicking bundle `b1` then `b2`, only `b2` is `selected` |
| Events.TwoCardClicks | ui-sketch/script.js:125-130 | clicking two different cards flips both and nothing else |

## Left out

- Listener registration, the `DOMContentLoaded` callback and `console.log` (ui-sketch/script.js:38-48, 132) are browser plumbing. Each listener becomes one case of `Events.Step`.
- `querySelectorAll` and `getElementById` are not modelled as DOM calls. The elements are fixed sequences in `Page`. Elements added after load, and the listeners they would lack, are not modelled.
- `getElementById` also finds elements that are not `.view` containers. The model searches the views only.
- Event bubbling is not modelled. A click that reaches several listeners, such as a card inside the drawer, is one event reaching one handler.
- Classes other than `active` on buttons and views, and other than `collapsed` on cards, are not modelled. CSS rendering is not modelled.
- Browser focus and `preventDefault` are returned as flags in `Keyboard.KeyOutcome`.
- Navigation.Lower: lower-cases ASCII letters only, because full Unicode `toLowerCase` is not modelled. `textContent` extraction is replaced by the tab text given as a string.
- The overlay-click listener is registered only when the drawer exists at load time. Without a drawer, `closeDrawer` changes nothing, so the outcome is the same.
