/**
 * The drawer's navigation stack as values: the level being shown plus the
 * levels shown before it. These functions are the specification that the
 * MenuDrawer class methods are proved against.
 */
module Navigation {
  import opened Menu

  datatype NavState = NavState(current: MenuNode, history: seq<MenuNode>)

  /** The state at mount and after the drawer closes: the root, no history. */
  function AtRoot(root: MenuNode): (r: NavState)
    ensures Path(r) == [root]
  {
    NavState(root, [])
  }

  /** Clicking `item`: enter it when it is expandable, otherwise nothing happens. */
  function Navigate(s: NavState, item: MenuNode): (r: NavState)
    ensures Expandable(item) ==> Path(r) == Path(s) + [LevelOf(item)]
    ensures !Expandable(item) ==> r == s
  {
    if Expandable(item) then NavState(LevelOf(item), s.history + [s.current]) else s
  }

  /** The back action: restore the last history entry, or nothing at the root. */
  function Back(s: NavState): (r: NavState)
    ensures |s.history| > 0 ==> Path(r) == Path(s)[..|s.history|]
    ensures s.history == [] ==> r == s
  {
    if |s.history| > 0 then NavState(s.history[|s.history| - 1], s.history[..|s.history| - 1])
    else s
  }

  /** Entering an expandable item pushes exactly one entry, the old level. */
  lemma NavigatePushes(s: NavState, item: MenuNode)
    requires Expandable(item)
    ensures |Navigate(s, item).history| == |s.history| + 1
    ensures Navigate(s, item).history[|s.history|] == s.current
    ensures Navigate(s, item).current.id == item.id
    ensures Navigate(s, item).current.caption == item.caption
    ensures Items(Navigate(s, item).current) == Items(item)
  {
  }

  /** Back undoes a successful navigation exactly. */
  lemma BackUndoesNavigate(s: NavState, item: MenuNode)
    requires Expandable(item)
    ensures Back(Navigate(s, item)) == s
  {
    assert (s.history + [s.current])[..|s.history|] == s.history;
  }

  /** Navigation and back change the state exactly when their guards hold. */
  lemma GuardsDecideChange(s: NavState, item: MenuNode)
    ensures Navigate(s, item) != s <==> Expandable(item)
    ensures Back(s) != s <==> |s.history| > 0
  {
    if Expandable(item) {
      assert |Navigate(s, item).history| != |s.history|;
    }
    if |s.history| > 0 {
      assert |Back(s).history| != |s.history|;
    }
  }

  /** The user actions that reach the navigation stack. */
  datatype Action = Enter(item: MenuNode) | GoBack | Close

  /** Applies a sequence of actions; closing the drawer resets to `root`. */
  function Run(root: MenuNode, s: NavState, actions: seq<Action>): NavState
    decreases |actions|
  {
    if actions == [] then s
    else
      var next := match actions[0]
        case Enter(item) => Navigate(s, item)
        case GoBack => Back(s)
        case Close => AtRoot(root);
      Run(root, next, actions[1..])
  }

  /**
   * Independent count of the depth: +1 per successful navigation, -1 per
   * back that is not at the root, 0 after a close.
   */
  function Depth(d: nat, actions: seq<Action>): nat
    decreases |actions|
  {
    if actions == [] then d
    else
      var next := match actions[0]
        case Enter(item) => if Expandable(item) then d + 1 else d
        case GoBack => if d > 0 then d - 1 else 0
        case Close => 0;
      Depth(next, actions[1..])
  }

  /** The history length is always the count of navigations minus backs. */
  lemma {:induction false} RunDepth(root: MenuNode, s: NavState, actions: seq<Action>)
    ensures |Run(root, s, actions).history| == Depth(|s.history|, actions)
    decreases |actions|
  {
    if actions != [] {
      var next := match actions[0]
        case Enter(item) => Navigate(s, item)
        case GoBack => Back(s)
        case Close => AtRoot(root);
      RunDepth(root, next, actions[1..]);
    }
  }

  /** Closing resets to the root with empty history, whatever came before. */
  lemma {:induction false} CloseResets(root: MenuNode, s: NavState, actions: seq<Action>)
    ensures Run(root, s, actions + [Close]) == AtRoot(root)
    decreases |actions|
  {
    if actions == [] {
      assert [Close][1..] == [];
    } else {
      var next := match actions[0]
        case Enter(item) => Navigate(s, item)
        case GoBack => Back(s)
        case Close => AtRoot(root);
      assert (actions + [Close])[1..] == actions[1..] + [Close];
      CloseResets(root, next, actions[1..]);
    }
  }

  /** `v` is the level shown after entering an expandable item of `parent`. */
  ghost predicate ChildLevel(parent: MenuNode, v: MenuNode)
  {
    exists c :: c in Items(parent) && Expandable(c) && v == LevelOf(c)
  }

  /** The levels from the root to the one shown. */
  function Path(s: NavState): seq<MenuNode>
  {
    s.history + [s.current]
  }

  /** Each level on `p` was entered from the one before it. */
  ghost predicate Descends(p: seq<MenuNode>)
  {
    forall i :: 0 <= i < |p| - 1 ==> ChildLevel(p[i], p[i + 1])
  }

  /**
   * The states the user interface can reach from `root`: the history starts at
   * the root and every later level was entered from an item of the previous one.
   */
  ghost predicate Reachable(root: MenuNode, s: NavState)
  {
    Path(s)[0] == root && Descends(Path(s))
  }

  lemma AtRootReachable(root: MenuNode)
    ensures Reachable(root, AtRoot(root))
  {
  }

  /** Clicking an item the current level lists keeps the state reachable. */
  lemma NavigateReachable(root: MenuNode, s: NavState, item: MenuNode)
    requires Reachable(root, s)
    requires item in Items(s.current)
    ensures Reachable(root, Navigate(s, item))
  {
    if Expandable(item) {
      var p, q := Path(s), Path(Navigate(s, item));
      assert q == p + [LevelOf(item)];
      assert ChildLevel(p[|p| - 1], LevelOf(item));
      forall i | 0 <= i < |q| - 1
        ensures ChildLevel(q[i], q[i + 1])
      {
        if i < |p| - 1 {
          assert q[i] == p[i] && q[i + 1] == p[i + 1];
        }
      }
    }
  }

  lemma BackReachable(root: MenuNode, s: NavState)
    requires Reachable(root, s)
    ensures Reachable(root, Back(s))
  {
    if |s.history| > 0 {
      var p, q := Path(s), Path(Back(s));
      assert q == p[..|p| - 1];
      forall i | 0 <= i < |q| - 1
        ensures ChildLevel(q[i], q[i + 1])
      {
        assert q[i] == p[i] && q[i + 1] == p[i + 1];
      }
    }
  }

  /** Levels further along a descending path are lower by at least their distance. */
  lemma {:induction false} PathDescendsInHeight(p: seq<MenuNode>, j: nat)
    requires Descends(p)
    requires j < |p|
    ensures Height(p[j]) + j <= Height(p[0])
  {
    if j > 0 {
      PathDescendsInHeight(p, j - 1);
      assert ChildLevel(p[j - 1], p[j]);
      var c :| c in Items(p[j - 1]) && Expandable(c) && p[j] == LevelOf(c);
      ItemIsLower(p[j - 1], c);
      LevelKeepsHeight(c);
    }
  }

  /** In a reachable state the root is shown exactly when the history is empty. */
  lemma RootIffNoHistory(root: MenuNode, s: NavState)
    requires Reachable(root, s)
    ensures s.current == root <==> s.history == []
  {
    if s.history != [] {
      PathDescendsInHeight(Path(s), |s.history|);
    }
  }

  /** Navigation depth is bounded by the height of the tree. */
  lemma DepthBelowHeight(root: MenuNode, s: NavState)
    requires Reachable(root, s)
    ensures |s.history| < Height(root)
  {
    PathDescendsInHeight(Path(s), |s.history|);
  }
}
