/**
 * The menu tree that the host hands to the drawer: immutable nodes with an
 * id, a label, optional subtitle and icon key, and an optional list of
 * children. A node with at least one child is "expandable".
 */
module Menu {

  datatype Option<+T> = None | Some(value: T)

  /** One node of the menu tree. */
  datatype MenuNode = MenuNode(
    id: string,
    caption: string,
    subtitle: Option<string>,
    iconName: Option<string>,
    children: Children)

  /** The `children` field of a node: absent, or a (possibly empty) list. */
  datatype Children = Absent | Listed(nodes: seq<MenuNode>)

  /** The items a level lists: its children, or none when the field is absent. */
  function Items(n: MenuNode): seq<MenuNode>
  {
    match n.children
    case Absent => []
    case Listed(cs) => cs
  }

  /** The guard used both for the arrow flag and for entering a level. */
  predicate Expandable(n: MenuNode)
  {
    n.children.Listed? && |n.children.nodes| > 0
  }

  /** The level shown after entering `item`: its id, label and children only. */
  function LevelOf(item: MenuNode): (level: MenuNode)
    ensures Items(level) == Items(item) && (Expandable(level) <==> Expandable(item))
    ensures level.subtitle.None? && level.iconName.None?
  {
    MenuNode(item.id, item.caption, None, None, item.children)
  }

  /** Height of a tree: a node without children has height 1. */
  function Height(n: MenuNode): nat
    decreases n, 1
  {
    1 + TallestFrom(n, 0)
  }

  /** The largest height among the items of `n` from index `k` on, 0 for none. */
  function TallestFrom(n: MenuNode, k: nat): nat
    decreases n, 0, |Items(n)| - k
  {
    if k >= |Items(n)| then 0
    else
      var h, rest := Height(Items(n)[k]), TallestFrom(n, k + 1);
      if h < rest then rest else h
  }

  lemma {:induction false} TallestBounds(n: MenuNode, k: nat, j: nat)
    requires k <= j < |Items(n)|
    ensures Height(Items(n)[j]) <= TallestFrom(n, k)
    decreases j - k
  {
    if k < j {
      TallestBounds(n, k + 1, j);
    }
  }

  /** Every item of a level is strictly lower than the level itself. */
  lemma ItemIsLower(parent: MenuNode, c: MenuNode)
    requires c in Items(parent)
    ensures Height(c) < Height(parent)
  {
    var k :| 0 <= k < |Items(parent)| && Items(parent)[k] == c;
    TallestBounds(parent, 0, k);
  }

  lemma {:induction false} TallestByChildren(a: MenuNode, b: MenuNode, k: nat)
    requires a.children == b.children
    ensures TallestFrom(a, k) == TallestFrom(b, k)
    decreases |Items(a)| - k
  {
    if k < |Items(a)| {
      TallestByChildren(a, b, k + 1);
    }
  }

  /** Entering an item shows a level of the same height as the item. */
  lemma LevelKeepsHeight(item: MenuNode)
    ensures Height(LevelOf(item)) == Height(item)
  {
    TallestByChildren(LevelOf(item), item, 0);
  }
}
