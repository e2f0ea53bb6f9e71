// The layout trees of src/MainStructure/FLNodes.h and their optimisation in
// src/MainStructure/FLComponentWindow.cpp: enumeration, choice of the orientation of each node,
// and choice of a tree of least surface.
module LayoutTree {

  // What the optimiser reads of a component item: its rectangle.
  datatype Item<T> = Item(payload: T, width: nat, height: nat)

  datatype Tree<T> =
    | Leaf(item: Item<T>)
    | Node(vertical: bool, left: Tree<T>, right: Tree<T>, rectWidth: nat, rectHeight: nat)
  {
    function Width(): nat { if Leaf? then item.width else rectWidth }

    function Height(): nat { if Leaf? then item.height else rectHeight }

    function Surface(): nat { Width() * Height() }

    // The components, in the order of the leaves.
    function Leaves(): seq<Item<T>> {
      if Leaf? then [item] else left.Leaves() + right.Leaves()
    }
  }

  datatype Screen = Screen(width: nat, height: nat)

  function Max(a: nat, b: nat): nat { if a < b then b else a }

  function CreateBestContainerTree<T>(screen: Screen, node1: Tree<T>, node2: Tree<T>): (t: Tree<T>)
    ensures t.Node? && t.left == node1 && t.right == node2
  {
    var hWidth := node1.Width() + node2.Width();
    var hHeight := Max(node1.Height(), node2.Height());
    var vWidth := Max(node1.Width(), node2.Width());
    var vHeight := node1.Height() + node2.Height();
    if hWidth * hHeight < vWidth * vHeight && hHeight < screen.height && hWidth < screen.width then
      Node(false, node1, node2, hWidth, hHeight)
    else if vHeight > screen.height || vWidth > screen.width then
      Node(false, node1, node2, hWidth, hHeight)
    else
      Node(true, node1, node2, vWidth, vHeight)
  }

  // The two trees in which a component comes before an existing tree, which is not a leaf.
  function FirstDispatch<T>(screen: Screen, c: Item<T>, t: Tree<T>): Tree<T> {
    CreateBestContainerTree(screen, Leaf(c), t)
  }

  function SecondDispatch<T>(screen: Screen, c: Item<T>, t: Tree<T>): Tree<T>
    requires t.Node?
  {
    CreateBestContainerTree(screen, CreateBestContainerTree(screen, Leaf(c), t.left), t.right)
  }

  ghost predicate AllNodes<T>(trees: seq<Tree<T>>) { forall t :: t in trees ==> t.Node? }

  function Dispatch<T>(screen: Screen, c: Item<T>, trees: seq<Tree<T>>): (r: seq<Tree<T>>)
    requires AllNodes(trees)
    ensures |r| == 2 * |trees| && AllNodes(r)
  {
    hide CreateBestContainerTree;
    if trees == [] then []
    else
      [FirstDispatch(screen, c, trees[0]), SecondDispatch(screen, c, trees[0])]
      + Dispatch(screen, c, trees[1..])
  }

  function ListTrees<T>(screen: Screen, components: seq<Item<T>>): (r: seq<Tree<T>>)
    ensures |components| >= 2 ==> AllNodes(r)
  {
    if |components| == 0 then []
    else if |components| == 1 then [Leaf(components[0])]
    else if |components| == 2 then
      [CreateBestContainerTree(screen, Leaf(components[0]), Leaf(components[1]))]
    else Dispatch(screen, components[0], ListTrees(screen, components[1..]))
  }

  // dispatchComponentOnListOfTrees: `left` and `right` are read on inner nodes only.
  method DispatchComponentOnListOfTrees<T>(screen: Screen, component: Item<T>, existingTrees: seq<Tree<T>>)
    returns (newListTrees: seq<Tree<T>>)
    requires AllNodes(existingTrees)
    ensures newListTrees == Dispatch(screen, component, existingTrees)
  {
    hide CreateBestContainerTree;
    newListTrees := [];
    var i := 0;
    assert existingTrees[0..] == existingTrees;
    while i < |existingTrees|
      invariant 0 <= i <= |existingTrees|
      invariant newListTrees + Dispatch(screen, component, existingTrees[i..])
        == Dispatch(screen, component, existingTrees)
    {
      var it := existingTrees[i];
      var newRoot1 := CreateBestContainerTree(screen, Leaf(component), it);
      newListTrees := newListTrees + [newRoot1];
      var intermediateNode := CreateBestContainerTree(screen, Leaf(component), it.left);
      var newRoot2 := CreateBestContainerTree(screen, intermediateNode, it.right);
      newListTrees := newListTrees + [newRoot2];
      i := i + 1;
    }
  }

  method CreateListTrees<T>(screen: Screen, components: seq<Item<T>>) returns (newListTrees: seq<Tree<T>>)
    ensures newListTrees == ListTrees(screen, components)
    decreases |components|
  {
    newListTrees := [];
    if |components| == 0 {
    } else if |components| == 1 {
      newListTrees := newListTrees + [Leaf(components[0])];
    } else if |components| == 2 {
      newListTrees := newListTrees +
        [CreateBestContainerTree(screen, Leaf(components[0]), Leaf(components[1]))];
    } else {
      newListTrees := CreateListTrees(screen, components[1..]);
      newListTrees := DispatchComponentOnListOfTrees(screen, components[0], newListTrees);
    }
  }

  // ---- every enumerated tree keeps the components in order ----

  lemma {:induction false} EnumerationKeepsOrder<T>(screen: Screen, components: seq<Item<T>>)
    ensures forall t :: t in ListTrees(screen, components) ==> t.Leaves() == components
  {
    hide CreateBestContainerTree;
    if |components| >= 3 {
      var rest := ListTrees(screen, components[1..]);
      EnumerationKeepsOrder(screen, components[1..]);
      forall t | t in ListTrees(screen, components)
        ensures t.Leaves() == components
      {
        var k :| 0 <= k < 2 * |rest| && t == ListTrees(screen, components)[k];
        DispatchedAt(screen, components[0], rest, k);
        DispatchedLeaves(screen, components[0], rest[k / 2]);
        assert [components[0]] + components[1..] == components;
      }
    }
  }

  lemma DispatchedLeaves<T>(screen: Screen, c: Item<T>, t: Tree<T>)
    requires t.Node?
    ensures FirstDispatch(screen, c, t).Leaves() == [c] + t.Leaves()
    ensures SecondDispatch(screen, c, t).Leaves() == [c] + t.Leaves()
  {
    hide CreateBestContainerTree;
    assert Leaf(c).Leaves() == [c];
  }

  lemma {:induction false} DispatchedAt<T>(screen: Screen, c: Item<T>, trees: seq<Tree<T>>, k: nat)
    requires AllNodes(trees) && k < 2 * |trees|
    ensures trees[k / 2] in trees
    ensures k % 2 == 0 ==> Dispatch(screen, c, trees)[k] == FirstDispatch(screen, c, trees[k / 2])
    ensures k % 2 == 1 ==> Dispatch(screen, c, trees)[k] == SecondDispatch(screen, c, trees[k / 2])
  {
    hide CreateBestContainerTree;
    if k >= 2 {
      DispatchedAt(screen, c, trees[1..], k - 2);
    }
  }

  // Which tree is at which place: each tree of the other components gives two, next to each other. In the
  // first one the new component is beside the whole tree, in the second one beside its left part.
  lemma EnumerationAt<T>(screen: Screen, components: seq<Item<T>>, k: nat)
    requires |components| >= 3 && k < |ListTrees(screen, components[1..])|
    ensures var trees, rest := ListTrees(screen, components), ListTrees(screen, components[1..]);
      && 2 * k + 1 < |trees| && rest[k].Node?
      && trees[2 * k].Node? && trees[2 * k].left == Leaf(components[0]) && trees[2 * k].right == rest[k]
      && trees[2 * k + 1].Node? && trees[2 * k + 1].right == rest[k].right && trees[2 * k + 1].left.Node?
      && trees[2 * k + 1].left.left == Leaf(components[0]) && trees[2 * k + 1].left.right == rest[k].left
  {
    hide CreateBestContainerTree, Dispatch, ListTrees;
    var rest := ListTrees(screen, components[1..]);
    MoreTrees(screen, components);
    DispatchedAt(screen, components[0], rest, 2 * k);
    DispatchedAt(screen, components[0], rest, 2 * k + 1);
    assert rest[2 * k / 2] == rest[k] && rest[(2 * k + 1) / 2] == rest[k];
  }

  lemma MoreTrees<T>(screen: Screen, components: seq<Item<T>>)
    requires |components| >= 3
    ensures AllNodes(ListTrees(screen, components[1..]))
    ensures ListTrees(screen, components) == Dispatch(screen, components[0], ListTrees(screen, components[1..]))
  {
    hide CreateBestContainerTree, Dispatch;
  }

  // ---- how many trees, and which shapes ----

  datatype Shape = Tip | Fork(left: Shape, right: Shape)

  function ShapeOf<T>(t: Tree<T>): Shape {
    if t.Leaf? then Tip else Fork(ShapeOf(t.left), ShapeOf(t.right))
  }

  function Power2(n: nat): nat { if n == 0 then 1 else 2 * Power2(n - 1) }

  lemma {:induction false} EnumerationCount<T>(screen: Screen, components: seq<Item<T>>)
    requires |components| >= 2
    ensures |ListTrees(screen, components)| == Power2(|components| - 2)
  {
    hide CreateBestContainerTree;
    if |components| >= 3 {
      EnumerationCount(screen, components[1..]);
    }
  }

  lemma {:induction false} EnumerationDistinct<T>(screen: Screen, components: seq<Item<T>>)
    ensures forall i, j :: 0 <= i < j < |ListTrees(screen, components)| ==>
      ShapeOf(ListTrees(screen, components)[i]) != ShapeOf(ListTrees(screen, components)[j])
  {
    hide CreateBestContainerTree;
    if |components| >= 3 {
      var rest := ListTrees(screen, components[1..]);
      var all := ListTrees(screen, components);
      EnumerationDistinct(screen, components[1..]);
      forall i, j | 0 <= i < j < |all|
        ensures ShapeOf(all[i]) != ShapeOf(all[j])
      {
        DispatchedAt(screen, components[0], rest, i);
        DispatchedAt(screen, components[0], rest, j);
        assert i / 2 == j / 2 || ShapeOf(rest[i / 2]) != ShapeOf(rest[j / 2]);
      }
    }
  }

  // ---- geometry ----

  predicate Fits(screen: Screen, width: nat, height: nat) {
    width <= screen.width && height <= screen.height
  }

  // The chosen orientation fits the screen whenever one of the two does; and it is the one of
  // least surface when the vertical one fits and the horizontal one leaves room: the horizontal one is
  // taken exactly when the vertical one does not fit, or when it is smaller and strictly inside the screen.
  lemma BestFits<T>(screen: Screen, l: Tree<T>, r: Tree<T>)
    ensures var t := CreateBestContainerTree(screen, l, r);
      var hw, hh := l.Width() + r.Width(), Max(l.Height(), r.Height());
      var vw, vh := Max(l.Width(), r.Width()), l.Height() + r.Height();
      && (Fits(screen, hw, hh) || Fits(screen, vw, vh) <==> Fits(screen, t.Width(), t.Height()))
      && (t.vertical ==> t.Width() == vw && t.Height() == vh)
      && (!t.vertical ==> t.Width() == hw && t.Height() == hh)
      && (!t.vertical <==> !Fits(screen, vw, vh) || (hw * hh < vw * vh && hw < screen.width && hh < screen.height))
      && (Fits(screen, vw, vh) && hw < screen.width && hh < screen.height ==>
           t.Surface() <= hw * hh && t.Surface() <= vw * vh)
  {
  }

  // Every inner node was built by CreateBestContainerTree.
  ghost predicate Built<T>(screen: Screen, t: Tree<T>) {
    t.Leaf? || (t == CreateBestContainerTree(screen, t.left, t.right)
                && Built(screen, t.left) && Built(screen, t.right))
  }

  lemma {:induction false} EnumerationBuilt<T>(screen: Screen, components: seq<Item<T>>)
    ensures forall t :: t in ListTrees(screen, components) ==> Built(screen, t)
  {
    hide CreateBestContainerTree;
    if |components| >= 3 {
      var rest := ListTrees(screen, components[1..]);
      EnumerationBuilt(screen, components[1..]);
      forall t | t in ListTrees(screen, components)
        ensures Built(screen, t)
      {
        var k :| 0 <= k < 2 * |rest| && t == ListTrees(screen, components)[k];
        DispatchedAt(screen, components[0], rest, k);
        assert Built(screen, rest[k / 2]);
        assert Built(screen, Leaf(components[0]));
        assert Built(screen, CreateBestContainerTree(screen, Leaf(components[0]), rest[k / 2].left));
      }
    } else if |components| == 2 {
      assert Built(screen, Leaf(components[0])) && Built(screen, Leaf(components[1]));
    }
  }

  datatype Box = Box(x: nat, y: nat, width: nat, height: nat) {
    predicate Inside(b: Box) {
      b.x <= x && x + width <= b.x + b.width && b.y <= y && y + height <= b.y + b.height
    }

    predicate Disjoint(b: Box) {
      x + width <= b.x || b.x + b.width <= x || y + height <= b.y || b.y + b.height <= y
    }
  }

  // Children side by side, or one above the other, from the upper left corner of their node.
  function Place<T>(t: Tree<T>, x: nat, y: nat): seq<Box> {
    if t.Leaf? then [Box(x, y, t.Width(), t.Height())]
    else if t.vertical then Place(t.left, x, y) + Place(t.right, x, y + t.left.Height())
    else Place(t.left, x, y) + Place(t.right, x + t.left.Width(), y)
  }

  // Boxes of the sizes of the items, in the rectangle and without overlap.
  ghost predicate Room<T>(items: seq<Item<T>>, boxes: seq<Box>, rectangle: Box) {
    && |boxes| == |items|
    && (forall i :: 0 <= i < |items| ==>
         boxes[i].width == items[i].width && boxes[i].height == items[i].height)
    && (forall i :: 0 <= i < |items| ==> boxes[i].Inside(rectangle))
    && (forall i, j :: 0 <= i < j < |items| ==> boxes[i].Disjoint(boxes[j]))
  }

  lemma RoomAppend<T>(s: seq<Item<T>>, bs: seq<Box>, r: Box, t: seq<Item<T>>, bt: seq<Box>, q: Box, whole: Box)
    requires Room(s, bs, r) && Room(t, bt, q) && r.Disjoint(q) && r.Inside(whole) && q.Inside(whole)
    ensures Room(s + t, bs + bt, whole)
  {
  }

  // All leaves have room in the rectangle of the tree.
  lemma {:induction false} LeavesHaveRoom<T>(screen: Screen, t: Tree<T>, x: nat, y: nat)
    requires Built(screen, t)
    ensures Room(t.Leaves(), Place(t, x, y), Box(x, y, t.Width(), t.Height()))
  {
    hide Room;
    var whole := Box(x, y, t.Width(), t.Height());
    if t.Leaf? {
      OneRoom(t.item, whole);
    } else {
      BestFits(screen, t.left, t.right);
      hide CreateBestContainerTree;
      LeavesHaveRoom(screen, t.left, x, y);
      var x', y' := if t.vertical then x else x + t.left.Width(), if t.vertical then y + t.left.Height() else y;
      LeavesHaveRoom(screen, t.right, x', y');
      RoomAppend(t.left.Leaves(), Place(t.left, x, y), Box(x, y, t.left.Width(), t.left.Height()),
                 t.right.Leaves(), Place(t.right, x', y'), Box(x', y', t.right.Width(), t.right.Height()), whole);
    }
  }

  lemma OneRoom<T>(item: Item<T>, b: Box)
    requires b.width == item.width && b.height == item.height
    ensures Room([item], [b], b)
  {
  }

  function Area<T>(items: seq<Item<T>>): nat {
    if items == [] then 0 else items[0].width * items[0].height + Area(items[1..])
  }

  lemma {:induction false} AreaAppend<T>(s: seq<Item<T>>, t: seq<Item<T>>)
    ensures Area(s + t) == Area(s) + Area(t)
  {
    if s == [] {
      assert s + t == t;
    } else {
      assert (s + t)[1..] == s[1..] + t;
      AreaAppend(s[1..], t);
    }
  }

  lemma SideBySide(a: nat, b: nat, c: nat, d: nat, m: nat)
    requires b <= m && d <= m
    ensures a * b + c * d <= (a + c) * m && b * a + d * c <= m * (a + c)
  {
    assert a * b <= a * m && c * d <= c * m;
    assert (a + c) * m == a * m + c * m;
  }

  // A tree has no less surface than its leaves together.
  lemma {:induction false} SurfaceCoversLeaves<T>(screen: Screen, t: Tree<T>)
    requires Built(screen, t)
    ensures Area(t.Leaves()) <= t.Surface()
  {
    if t.Node? {
      BestFits(screen, t.left, t.right);
      hide CreateBestContainerTree;
      SurfaceCoversLeaves(screen, t.left);
      SurfaceCoversLeaves(screen, t.right);
      AreaAppend(t.left.Leaves(), t.right.Leaves());
      SurfaceOfNode(t);
    }
  }

  lemma SurfaceOfNode<T>(t: Tree<T>)
    requires t.Node?
    requires t.vertical ==> t.Width() == Max(t.left.Width(), t.right.Width())
    requires t.vertical ==> t.Height() == t.left.Height() + t.right.Height()
    requires !t.vertical ==> t.Width() == t.left.Width() + t.right.Width()
    requires !t.vertical ==> t.Height() == Max(t.left.Height(), t.right.Height())
    ensures t.left.Surface() + t.right.Surface() <= t.Surface()
  {
    if t.vertical {
      SideBySide(t.left.Height(), t.left.Width(), t.right.Height(), t.right.Width(), t.Width());
    } else {
      SideBySide(t.left.Width(), t.left.Height(), t.right.Width(), t.right.Height(), t.Height());
    }
  }

  // ---- the choice ----

  ghost predicate FirstLeast<T>(trees: seq<Tree<T>>, k: nat) {
    && k < |trees|
    && (forall j :: 0 <= j < |trees| ==> trees[k].Surface() <= trees[j].Surface())
    && (forall j :: 0 <= j < k ==> trees[k].Surface() < trees[j].Surface())
  }

  function BestIndex<T>(trees: seq<Tree<T>>): (k: nat)
    requires trees != []
    ensures FirstLeast(trees, k)
  {
    if |trees| == 1 then 0
    else
      var k := BestIndex(trees[..|trees| - 1]);
      if trees[|trees| - 1].Surface() < trees[k].Surface() then |trees| - 1 else k
  }

  lemma FirstLeastIsBest<T>(trees: seq<Tree<T>>, k: nat)
    requires FirstLeast(trees, k)
    ensures k == BestIndex(trees)
  {
    hide Tree<T>.Surface, BestIndex;
    var best := BestIndex(trees);
    assert trees[k].Surface() <= trees[best].Surface() <= trees[k].Surface();
  }

  lemma {:induction false} SomeTree<T>(screen: Screen, components: seq<Item<T>>)
    requires components != []
    ensures ListTrees(screen, components) != []
  {
    if |components| >= 2 {
      EnumerationCount(screen, components);
      PowerPositive(|components| - 2);
    }
  }

  lemma {:induction false} PowerPositive(n: nat)
    ensures Power2(n) > 0
  {
    if n > 0 {
      PowerPositive(n - 1);
    }
  }

  function BestDisposition<T>(screen: Screen, components: seq<Item<T>>): Tree<T>
    requires components != []
  {
    SomeTree(screen, components);
    var trees := ListTrees(screen, components);
    trees[BestIndex(trees)]
  }

  // calculateBestDisposition
  method CalculateBestDisposition<T>(screen: Screen, components: seq<Item<T>>) returns (best: Tree<T>)
    requires components != []
    ensures best == BestDisposition(screen, components)
  {
    hide Tree<T>.Surface, ListTrees, BestIndex;
    SomeTree(screen, components);
    var binaryTrees := CreateListTrees(screen, components);
    var minSurfaceTree := binaryTrees[0];
    ghost var k := 0;
    var i := 0;
    while i < |binaryTrees|
      invariant 0 <= i <= |binaryTrees| && 0 <= k < |binaryTrees|
      invariant minSurfaceTree == binaryTrees[k] && (i == 0 ==> k == 0) && (i > 0 ==> k < i)
      invariant forall j :: 0 <= j < i ==> minSurfaceTree.Surface() <= binaryTrees[j].Surface()
      invariant forall j :: 0 <= j < k ==> minSurfaceTree.Surface() < binaryTrees[j].Surface()
    {
      var nodeSurface := binaryTrees[i].Surface();
      if nodeSurface < minSurfaceTree.Surface() {
        minSurfaceTree := binaryTrees[i];
        k := i;
      }
      i := i + 1;
    }
    FirstLeastIsBest(binaryTrees, k);
    best := minSurfaceTree;
  }

  // The chosen tree is one of the enumerated trees, of least surface among them.
  lemma BestDispositionIsLeast<T>(screen: Screen, components: seq<Item<T>>)
    requires components != []
    ensures var best := BestDisposition(screen, components);
      && best in ListTrees(screen, components)
      && (forall t :: t in ListTrees(screen, components) ==> best.Surface() <= t.Surface())
      && best.Leaves() == components && Built(screen, best)
      && Area(components) <= best.Surface()
  {
    SomeTree(screen, components);
    var trees := ListTrees(screen, components);
    var best := trees[BestIndex(trees)];
    assert best in trees;
    EnumerationKeepsOrder(screen, components);
    EnumerationBuilt(screen, components);
    SurfaceCoversLeaves(screen, best);
  }
}
