# Menu drawer: navigation stack, drag-to-close gesture and content panel

A Dafny model of the slide-up navigation drawer in `menu-drawer-task/src/components/`.
The drawer shows one level of a static menu tree at a time. It keeps a stack of the levels
shown before, closes on Escape or on a long enough downward drag, and hands the current
level to a content panel. That panel renders a back button, a title and the item list, and
it animates each level change with a slide class.

Modules, one per concern of the source:

- `Menu` (menu.dfy): the `MenuNode` tree and the guard "has at least one child" (`Expandable`).
  It also has the level shown after entering an item (`LevelOf`: id, label, children) and the
  tree height. `label` is a Dafny keyword, so the field is called `caption`. The absent
  `children` field is `Absent`, distinct from an empty `Listed([])`.
- `Navigation` (navigation.dfy): the stack as values (`NavState`, `Navigate`, `Back`, `AtRoot`).
  Its lemmas cover the push/pop inverse, the depth count over any action sequence, reset on
  close, and the reachable-state invariant, including "the root is shown iff the history is
  empty".
- `Gesture` (gesture.dfy): the drag record and its press/move/release transitions, the close
  decision and the opacity. There are lemmas about whole gestures.
- `Drawer` (drawer.dfy): class `MenuDrawer`, with the component's state as fields and its
  event handlers as methods that update them in place. Each handler is proved against the
  `Navigation`/`Gesture` functions.
- `Content` (content.dfy): the render derivations as functions, with lemmas tying them to
  navigation. Class `SlideAnimator` holds the animation bookkeeping: the recorded id, the
  slide classes and the pending completion timer.
- `Fixture` (fixture.dfy): the application's sample menu, with scenario lemmas and client
  methods.

Parameters instead of the browser: pointer coordinates are `int`. The measured drawer height
(`offsetHeight`) is a `nat` argument of `PointerUp`, and it is 0 when the drawer element is not
rendered, i.e. while closed. A key event is its key name and its target's tag name. The host's
`onClose` callback is the `close` result of `PointerUp` and `KeyDown`. Prop changes from the
host arrive through `SetProps`. The 300 ms timer is the explicit `Complete` transition; its
cancellation is part of `Commit` and `Unmount`.

## Model

| member | source | states |
|---|---|---|
| `Menu.LevelOf` | menu-drawer-task/src/components/MenuDrawer.jsx:75-79 | the entered level lists the same items as the clicked item and is expandable iff it is; subtitle and icon are dropped |
| `Navigation.AtRoot` | menu-drawer-task/src/components/MenuDrawer.jsx:10-28 | the mount and reset state: the path from the root to the shown level is the root alone (specified further by `CloseResets`, `AtRootReachable`) |
| `Navigation.Navigate` | menu-drawer-task/src/components/MenuDrawer.jsx:71-81 | an item with children extends the path by the entered level; any other item changes nothing (specified further by `NavigatePushes`, `GuardsDecideChange`) |
| `Navigation.Back` | menu-drawer-task/src/components/MenuDrawer.jsx:43-49 | with history, the path loses its last level; at the root nothing changes (specified further by `BackUndoesNavigate`, `GuardsDecideChange`) |
| `Navigation.NavigatePushes` | menu-drawer-task/src/components/MenuDrawer.jsx:71-81 | entering an item with children grows the history by one, with the old level on top; the new level has the item's id, label and children |
| `Navigation.BackUndoesNavigate` | menu-drawer-task/src/components/MenuDrawer.jsx:43-49 | back after a successful navigation restores exactly the previous level and history |
| `Navigation.GuardsDecideChange` | menu-drawer-task/src/components/MenuDrawer.jsx:43-81 | navigation changes the state iff the item has children; back changes it iff the history is non-empty (no-op at the root) |
| `Navigation.RunDepth` | menu-drawer-task/src/components/MenuDrawer.jsx:43-81 | after any sequence of clicks, backs and closes, the history length equals an independent count: +1 per successful navigation, -1 per back off the root, 0 after a close |
| `Navigation.CloseResets` | menu-drawer-task/src/components/MenuDrawer.jsx:23-28 | whatever happened before, closing leaves the root shown with empty history |
| `Navigation.AtRootReachable` | menu-drawer-task/src/components/MenuDrawer.jsx:10-11 | the initial state (root, no history) is reachable |
| `Navigation.NavigateReachable` | menu-drawer-task/src/components/MenuDrawer.jsx:71-81 | clicking an item listed by the current level keeps the path root → ... → current a chain of entered children |
| `Navigation.BackReachable` | menu-drawer-task/src/components/MenuDrawer.jsx:43-49 | back keeps that chain |
| `Navigation.RootIffNoHistory` | menu-drawer-task/src/components/MenuDrawer.jsx:71-81 | in a reachable state the root is shown iff the history is empty |
| `Navigation.DepthBelowHeight` | menu-drawer-task/src/components/MenuDrawer.jsx:71-81 | in a reachable state the history is shorter than the height of the tree |
| `Gesture.Start` | menu-drawer-task/src/components/MenuDrawer.jsx:95-103 | a touch or left-button press starts a drag with distance 0; every press keeps the record consistent |
| `Gesture.MoveTo` | menu-drawer-task/src/components/MenuDrawer.jsx:105-117 | a move keeps the record consistent; while dragging the distance is never negative and is 0 for upward motion; idle moves keep the dragging flag and start |
| `Gesture.ShouldClose` | menu-drawer-task/src/components/MenuDrawer.jsx:131-133 | the close decision needs a positive distance; with height 0 it is exactly "moved down at all" (the strict 30% test is stated by `ThresholdEdges`, `WholeGesture`) |
| `Gesture.Release` | menu-drawer-task/src/components/MenuDrawer.jsx:128-141 | release while dragging resets to idle; it closes only from a drag with positive distance; consistency is preserved |
| `Gesture.Opacity` | menu-drawer-task/src/components/MenuDrawer.jsx:123 | opacity lies in [0.3, 1], is 1 at distance 0 and 0.3 from distance 210 on |
| `Gesture.OpacityNonIncreasing` | menu-drawer-task/src/components/MenuDrawer.jsx:123 | opacity never increases with the distance |
| `Gesture.TrackLast` | menu-drawer-task/src/components/MenuDrawer.jsx:105-117 | during a drag a run of moves keeps the start, and the distance is the clamped offset of the last position |
| `Gesture.TrackIdle` | menu-drawer-task/src/components/MenuDrawer.jsx:106 | moves while idle change nothing |
| `Gesture.WholeGesture` | menu-drawer-task/src/components/MenuDrawer.jsx:95-152 | press, moves, release: ends idle, and closes iff ten times the final clamped distance exceeds three times the height |
| `Gesture.UpwardNeverCloses` | menu-drawer-task/src/components/MenuDrawer.jsx:111 | a gesture that never goes below its start does not close |
| `Gesture.OtherButtonInert` | menu-drawer-task/src/components/MenuDrawer.jsx:155-170 | after a non-left mouse press, moves and release leave the record idle and do not close |
| `Gesture.ThresholdEdges` | menu-drawer-task/src/components/MenuDrawer.jsx:131-133 | exactly 30% does not close; with height 0 any positive distance closes |
| `Gesture.RegisteredMouseUp` | menu-drawer-task/src/components/MenuDrawer.jsx:210-219 | the mouse-up listener as registered decides on the record from drag start, so it never requests a close |
| `Gesture.StaleMouseUpCounterexample` | menu-drawer-task/src/components/MenuDrawer.jsx:185-219 | a 200-unit mouse drag on a 400-high drawer closes by the handler body but not through the registered listener |
| `Drawer.MenuDrawer.constructor` | menu-drawer-task/src/components/MenuDrawer.jsx:9-17 | mount: root shown, no history, idle drag, resting style, scroll lock equal to the open flag |
| `Drawer.MenuDrawer.SetProps` | menu-drawer-task/src/components/MenuDrawer.jsx:23-40 | when the open flag or the root changed and the drawer is closed, navigation resets to the supplied root; the scroll lock follows the open flag; the drag record is untouched |
| `Drawer.MenuDrawer.Navigate` | menu-drawer-task/src/components/MenuDrawer.jsx:71-81 | equals `Navigation.Navigate` on the old state: push and replace for an item with children, otherwise nothing |
| `Drawer.MenuDrawer.Back` | menu-drawer-task/src/components/MenuDrawer.jsx:43-49 | equals `Navigation.Back`: pops the last entry into view, no-op on empty history |
| `Drawer.MenuDrawer.PointerDown` | menu-drawer-task/src/components/MenuDrawer.jsx:155-163 | mouse handler, and the touch handler at menu-drawer-task/src/components/MenuDrawer.jsx:95-103: touch start and left-button mouse down set dragging with start = current = y and distance 0; other buttons change nothing |
| `Drawer.MenuDrawer.PointerMove` | menu-drawer-task/src/components/MenuDrawer.jsx:165-183 | mouse handler, and the touch handler at menu-drawer-task/src/components/MenuDrawer.jsx:105-126: while dragging, sets the distance to max(0, y - start) and shifts the element with the matching opacity; idle moves change nothing |
| `Drawer.MenuDrawer.PointerUp` | menu-drawer-task/src/components/MenuDrawer.jsx:185-207 | mouse handler, and the touch handler at menu-drawer-task/src/components/MenuDrawer.jsx:128-152: while dragging: resets to idle, requests close iff 10·distance > 3·height, otherwise snaps the style back; idle releases do nothing |
| `Drawer.MenuDrawer.KeyDown` | menu-drawer-task/src/components/MenuDrawer.jsx:52-68 | while open, Escape requests close at any depth; Backspace goes back only with history and a non-INPUT target; other keys and a closed drawer do nothing |
| `Content.ItemViews` | menu-drawer-task/src/components/MenuContent.jsx:77-84 | one view per item, in order, flagged iff the item has children |
| `Content.Render` | menu-drawer-task/src/components/MenuContent.jsx:39-88 | nothing without a current menu; back button iff history; title iff a non-empty label and history; placeholder iff no items; otherwise the item views |
| `Content.BackButtonIffBackMoves` | menu-drawer-task/src/components/MenuContent.jsx:43-63 | the back button is shown iff the back action would change the state |
| `Content.FlaggedIffNavigates` | menu-drawer-task/src/components/MenuContent.jsx:77-84 | an item is flagged expandable iff clicking it navigates |
| `Content.NothingExtraAtRoot` | menu-drawer-task/src/components/MenuContent.jsx:65-70 | in a reachable state the root shows neither the back button nor a title |
| `Content.Direction` | menu-drawer-task/src/components/MenuContent.jsx:21-28 | slide-right is chosen only with empty history; `Commit` adds this class |
| `Content.BackToNestedSlidesLeft` | menu-drawer-task/src/components/MenuContent.jsx:21-28 | going back to a level that still has history slides left |
| `Content.SlideAnimator.constructor` | menu-drawer-task/src/components/MenuContent.jsx:10-11 | mount: no recorded id, no classes, nothing pending |
| `Content.SlideAnimator.Commit` | menu-drawer-task/src/components/MenuContent.jsx:14-37 | runs only when (id, history length) changed and cancels the pending completion. With no element or a falsy recorded id it only records the id; otherwise it adds slide-left iff the history is non-empty (else slide-right) and schedules a completion for this id |
| `Content.SlideAnimator.Complete` | menu-drawer-task/src/components/MenuContent.jsx:31-34 | a pending completion removes both classes and records the id of the change it belongs to; with nothing pending it does nothing |
| `Content.SlideAnimator.Unmount` | menu-drawer-task/src/components/MenuContent.jsx:36 | the cleanup cancels the pending completion |
| `Fixture.EnterProducts` | frontend/src/data/menuData.js:6-101 | root → Products & Services: history 1, 8 items, reachable |
| `Fixture.EnterDataAnalytics` | frontend/src/data/menuData.js:59-86 | then → Data & Analytics Consulting: 3 items, history [root, Products & Services], reachable |
| `Fixture.NavigationWalk` | frontend/src/data/menuData.js:18-101 | the two-step walk has history 2 and is reachable, and back from it gives the one-deep state with history 1 |
| `Fixture.LeafDoesNotNavigate` | frontend/src/data/menuData.js:10-16 | clicking the leaf "Home" changes nothing |
| `Fixture.Reopen` | menu-drawer-task/src/components/MenuDrawer.jsx:23-28 | reopening a closed drawer shows the supplied root with empty history, whatever the depth before closing |
| `Fixture.DragScenarios` | menu-drawer-task/src/components/MenuDrawer.jsx:128-152 | drawer height 400: a 150 drag closes, a 50 drag does not; height 0 with an upward drag does not close |

`SlideAnimator.Valid` states the ordering guarantee of the timer: a pending completion always
carries the id of the latest effect run. So a completion for a superseded change cannot fire.
`MenuDrawer.Valid` keeps the drag record consistent (the distance is the clamped offset while
dragging, all zeros while idle). It also keeps the scroll-lock marker equal to the open flag
and, while closed, the style resting and the root shown with no history. The client methods `Fixture.DrawerSession`, `Fixture.CloseSession`,
`Fixture.DragSession` and `Fixture.AnimationSession` call the handlers through the sample
scenarios.

## Left out

- Focus management (MenuDrawer.jsx:84-92) and the backdrop click that calls `onClose` (MenuDrawer.jsx:226-230): DOM-only.
- The scroll lock is only a boolean equal to the open flag; the unmount cleanup (MenuDrawer.jsx:37-39) is not modelled.
- The attaching and detaching of the keyboard and global mouse listeners are not modelled as such. `KeyDown` ignores keys while closed. The mouse handlers are modelled by their bodies; the closure they capture is the finding below.
- Wall-clock time, the 300 ms delay and the CSS animation itself; only the add/complete/cancel order is modelled.
- The inline style is an abstract `Resting`/`Shifted(offset, opacity)` value, not CSS text. The opacity is an exact `real`, not a float.
- Drawer.MenuDrawer.PointerUp: the 30% threshold is the integer comparison `10 * d > 3 * h`, an exact idealisation of the float product `height * 0.3`; fractional coordinates are not modelled.
- Drawer.MenuDrawer.SetProps: a change of `menuData` is detected by value equality, not by object identity as React does.
- Only the first touch point (`e.touches[0]`) is modelled; multi-touch is out of scope.
- `MenuButton.jsx` (class, label and icon chosen by the open flag) and `App.jsx` (the open flag and its open/close handlers, which reach the model through `SetProps` and the `close` results) are presentation and host wiring; `index.js` only re-exports. `MenuItem.jsx` looks up icons in a registry that is not part of this model; its one rule, the arrow iff `hasChildren`, is covered by `Content.Render`.
- `Drawer.MenuDrawer.Navigate` accepts any item, as `handleNavigate` does. The reachability lemmas assume that clicks come from the items the current level lists, which is the only way the UI calls it.
- The slide direction depends only on whether the history is non-empty (MenuContent.jsx:21), not on whether it grew, so going back from depth 2 to depth 1 still slides left (`Content.BackToNestedSlidesLeft`).

## Findings

| source | as written | input that shows it | evidently intended | confidence | as-written member | corrected member |
|---|---|---|---|---|---|---|
| menu-drawer-task/src/components/MenuDrawer.jsx:210-219 | the global mouse listeners are registered by an effect that depends only on `isDragging`, so `handleMouseUp` reads the `dragState` of the render that started the drag, whose `dragDistance` is 0, and never closes | mouse press at y=100, move to y=300, release on a drawer 400 high (threshold 120) | decide on the latest drag distance, as the touch handlers do | not executed; medium, it rests on React's closure semantics | `Gesture.RegisteredMouseUp` | `Gesture.Release` |

The corrected behaviour is the one `Drawer.MenuDrawer.PointerUp` uses. `Gesture.WholeGesture` proves
that it closes iff the final distance exceeds the threshold, for touch and left-button mouse gestures alike.
