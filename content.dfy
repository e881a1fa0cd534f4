/**
 * The content panel: what it renders for the current level and history,
 * and the bookkeeping of its slide animation (a recorded menu id, the slide
 * classes on the element, and one pending completion timer).
 */
module Content {
  import opened Menu
  import Navigation

  /** One listed item and whether it is flagged as expandable (the arrow). */
  datatype ItemView = ItemView(item: MenuNode, hasChildren: bool)

  /** The item list, or the "No items available" placeholder. */
  datatype Body = Placeholder | ItemList(items: seq<ItemView>)

  datatype Panel = Panel(backButton: bool, title: Option<string>, body: Body)

  function ItemViews(items: seq<MenuNode>): (views: seq<ItemView>)
    ensures |views| == |items|
    ensures forall k :: 0 <= k < |items| ==> views[k].item == items[k]
    ensures forall k :: 0 <= k < |items| ==> (views[k].hasChildren <==> Expandable(items[k]))
    decreases |items|
  {
    if items == [] then []
    else [ItemView(items[0], Expandable(items[0]))] + ItemViews(items[1..])
  }

  /** The panel for `current` (nothing when there is no current menu). */
  function Render(current: Option<MenuNode>, history: seq<MenuNode>): (v: Option<Panel>)
    ensures v.None? <==> current.None?
    ensures v.Some? ==> (v.value.backButton <==> |history| > 0)
    ensures v.Some? ==> (v.value.title.Some? <==> current.value.caption != "" && |history| > 0)
    ensures v.Some? && v.value.title.Some? ==> v.value.title.value == current.value.caption
    ensures v.Some? ==> (v.value.body.Placeholder? <==> Items(current.value) == [])
    ensures v.Some? && v.value.body.ItemList? ==> v.value.body.items == ItemViews(Items(current.value))
  {
    match current
    case None => None
    case Some(menu) =>
      var hasBackButton := |history| > 0;
      var menuItems := Items(menu);
      Some(Panel(
        hasBackButton,
        if menu.caption != "" && |history| > 0 then Some(menu.caption) else None,
        if |menuItems| == 0 then Placeholder else ItemList(ItemViews(menuItems))))
  }

  /** The back button is shown exactly when pressing it would change the state. */
  lemma BackButtonIffBackMoves(s: Navigation.NavState)
    ensures Render(Some(s.current), s.history).value.backButton <==> Navigation.Back(s) != s
  {
    Navigation.GuardsDecideChange(s, s.current);
  }

  /** Exactly the items flagged with an arrow are the ones whose click navigates. */
  lemma FlaggedIffNavigates(s: Navigation.NavState, k: nat)
    requires k < |Items(s.current)|
    ensures Render(Some(s.current), s.history).value.body.ItemList?
    ensures var v := Render(Some(s.current), s.history).value.body.items[k];
            v.hasChildren <==> Navigation.Navigate(s, v.item) != s
  {
    Navigation.GuardsDecideChange(s, Items(s.current)[k]);
  }

  /** At the root of a reachable state neither the back button nor a title is shown. */
  lemma NothingExtraAtRoot(root: MenuNode, s: Navigation.NavState)
    requires Navigation.Reachable(root, s)
    ensures s.current == root ==>
              var v := Render(Some(s.current), s.history).value;
              !v.backButton && v.title.None?
  {
    Navigation.RootIffNoHistory(root, s);
  }

  datatype Slide = SlideLeft | SlideRight

  /** The values the animation effect depends on: the menu id and the history length. */
  datatype Deps = Deps(menuId: Option<string>, historyLength: nat)

  /** `currentMenu?.id` */
  function IdOf(current: Option<MenuNode>): Option<string>
  {
    match current
    case None => None
    case Some(menu) => Some(menu.id)
  }

  /** JavaScript truthiness of a recorded id: absent and "" are both false. */
  predicate Truthy(id: Option<string>)
  {
    id.Some? && id.value != ""
  }

  /** The class added on a change: slide-left whenever there is any history. */
  function Direction(historyLength: nat): (r: Slide)
    ensures r == SlideRight ==> historyLength == 0
  {
    if historyLength > 0 then SlideLeft else SlideRight
  }

  /** Going back to a level that still has history slides left, not right. */
  lemma BackToNestedSlidesLeft(s: Navigation.NavState)
    requires |s.history| >= 2
    ensures Direction(|Navigation.Back(s).history|) == SlideLeft
  {
  }

  /** The completion timer: none scheduled, or scheduled with the id it will record. */
  datatype Timer = NoTimer | Scheduled(recordId: Option<string>)

  class SlideAnimator {
    // `previousMenuId.current`
    var previousId: Option<string>
    // the slide classes on the content element
    var classes: set<Slide>
    // the scheduled completion, if any
    var pending: Timer
    // the dependencies of the last effect run, if it ran
    var lastDeps: Option<Deps>

    /**
     * A pending completion always belongs to the latest change and comes with
     * a slide class still on the element.
     */
    ghost predicate Valid()
      reads this
    {
      pending.Scheduled? ==>
        && lastDeps.Some? && pending.recordId == lastDeps.value.menuId
        && Truthy(previousId) && classes != {}
    }

    /** A freshly mounted panel, before its first effect run. */
    constructor ()
      ensures Valid()
      ensures previousId.None? && classes == {} && pending.NoTimer? && lastDeps.None?
    {
      previousId, classes, pending, lastDeps := None, {}, NoTimer, None;
    }

    /**
     * A render commit. The effect runs only when its dependencies changed;
     * it first cancels the pending completion of the previous run.
     */
    method Commit(current: Option<MenuNode>, historyLength: nat)
      requires Valid()
      modifies this
      ensures Valid()
      ensures lastDeps == Some(Deps(IdOf(current), historyLength))
      ensures old(lastDeps) == Some(Deps(IdOf(current), historyLength)) ==>
                previousId == old(previousId) && classes == old(classes) && pending == old(pending)
      ensures old(lastDeps) != Some(Deps(IdOf(current), historyLength))
              && (current.None? || !Truthy(old(previousId))) ==>
                previousId == IdOf(current) && classes == old(classes) && pending.NoTimer?
      ensures old(lastDeps) != Some(Deps(IdOf(current), historyLength))
              && current.Some? && Truthy(old(previousId)) ==>
                && previousId == old(previousId)
                && classes == old(classes) + {Direction(historyLength)}
                && pending == Scheduled(IdOf(current))
    {
      var deps := Deps(IdOf(current), historyLength);
      if lastDeps == Some(deps) {
        return;
      }
      lastDeps := Some(deps);
      pending := NoTimer;
      if current.None? || !Truthy(previousId) {
        previousId := IdOf(current);
        return;
      }
      if historyLength > 0 {
        classes := classes + {SlideLeft};
      } else {
        classes := classes + {SlideRight};
      }
      pending := Scheduled(IdOf(current));
    }

    /** The pending timer fires: both classes go and the change's id is recorded. */
    method Complete()
      requires Valid()
      modifies this
      ensures Valid()
      ensures lastDeps == old(lastDeps) && pending.NoTimer?
      ensures old(pending).Scheduled? ==> classes == {} && previousId == old(lastDeps).value.menuId
      ensures old(pending).NoTimer? ==> classes == old(classes) && previousId == old(previousId)
    {
      if pending.NoTimer? {
        return;
      }
      classes := classes - {SlideLeft, SlideRight};
      forall c: Slide ensures c !in classes {
        assert c == SlideLeft || c == SlideRight;
      }
      previousId := pending.recordId;
      pending := NoTimer;
    }

    /** Unmount: the cleanup cancels the pending completion. */
    method Unmount()
      requires Valid()
      modifies this`pending
      ensures Valid() && pending.NoTimer?
    {
      pending := NoTimer;
    }
  }
}
