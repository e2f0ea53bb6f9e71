// The component creator, FLComponentWindow::createComponent: columns of components in parallel,
// composed one after the other, with an optional recursive composition.
module ComponentProgram {
  import opened FaustCode
  import FaustReading
  import opened KeyOrder
  import opened LayoutTree

  // The source of a component item: a file or a web page, some Faust text, or a column that was
  // already composed. Whether a text names a file is a matter of the file system: a `Link` is an
  // item for which it does (or which starts with "http://"), a `Code` is one for which it does not.
  datatype Source = Link(index: string, path: string) | Code(text: string) | Column(code: Expr)

  type Component = Item<Source>

  // FLComponentItem::faustComponent
  function FaustComponent(c: Component, layoutIndex: string): Expr {
    match c.payload
    case Link(index, path) => Expr.Component("[" + layoutIndex + "]component" + index, path)
    case Code(text) => Text(text)
    case Column(code) => code
  }

  // renderToFaust, as an expression; its text is in `Print`.
  function RenderToFaust(t: Tree<Source>, op: Operator, layoutIndex: string): Expr {
    if t.Leaf? then FaustComponent(t.item, layoutIndex)
    else Group(t.vertical, "[" + layoutIndex + "]",
               Compose(op, RenderToFaust(t.left, op, "1"), RenderToFaust(t.right, op, "2")))
  }

  function LeafMeaning<D(!new)>(a: Algebra<D>, c: Component): D {
    match c.payload
    case Link(_, path) => a.component(path)
    case Code(text) => a.text(text)
    case Column(code) => Meaning(a, code)
  }

  function Meanings<D(!new)>(a: Algebra<D>, cs: seq<Component>): (ds: seq<D>)
    ensures |ds| == |cs|
  {
    seq(|cs|, i requires 0 <= i < |cs| => LeafMeaning(a, cs[i]))
  }

  // The program of any tree means the composition of its leaves, from left to right: neither the
  // shape nor the orientation of the tree is heard.
  lemma {:induction false} TreeMeaning<D(!new)>(a: Algebra<D>, t: Tree<Source>, op: Operator, layoutIndex: string)
    requires a.Associative()
    ensures t.Leaves() != []
    ensures Meaning(a, RenderToFaust(t, op, layoutIndex)) == Chain(a, op, Meanings(a, t.Leaves()))
  {
    hide Algebra<D>.Associative, Chain, Meanings, Meaning, FaustComponent;
    if t.Leaf? {
      LeafRendered(a, t, op, layoutIndex);
    } else {
      TreeMeaning(a, t.left, op, "1");
      TreeMeaning(a, t.right, op, "2");
      NodeRendered(a, t, op, layoutIndex);
      MeaningsAppend(a, t.left.Leaves(), t.right.Leaves());
      ChainAppend(a, op, Meanings(a, t.left.Leaves()), Meanings(a, t.right.Leaves()));
    }
  }

  lemma LeafRendered<D(!new)>(a: Algebra<D>, t: Tree<Source>, op: Operator, layoutIndex: string)
    requires t.Leaf?
    ensures Meanings(a, t.Leaves()) == [LeafMeaning(a, t.item)]
    ensures Meaning(a, RenderToFaust(t, op, layoutIndex)) == Chain(a, op, Meanings(a, t.Leaves()))
  {
  }

  lemma NodeRendered<D(!new)>(a: Algebra<D>, t: Tree<Source>, op: Operator, layoutIndex: string)
    requires t.Node?
    ensures Meaning(a, RenderToFaust(t, op, layoutIndex))
         == a.Of(op)(Meaning(a, RenderToFaust(t.left, op, "1")), Meaning(a, RenderToFaust(t.right, op, "2")))
  {
    hide FaustComponent;
  }

  lemma MeaningsAppend<D(!new)>(a: Algebra<D>, s: seq<Component>, t: seq<Component>)
    ensures Meanings(a, s + t) == Meanings(a, s) + Meanings(a, t)
  {
    hide LeafMeaning;
  }

  // ---- componentListWithoutEmptyItem ----

  predicate IsEmpty(c: Component) { Print(FaustComponent(c, "1")) == "" }

  function NonEmptyItems(row: seq<Component>): seq<Component> {
    if row == [] then []
    else (if IsEmpty(row[0]) then [] else [row[0]]) + NonEmptyItems(row[1..])
  }

  predicate NoneEmpty(columns: seq<seq<Component>>) {
    forall i :: 0 <= i < |columns| ==> columns[i] != []
  }

  function NonEmptyColumns(items: seq<seq<Component>>): (r: seq<seq<Component>>)
    ensures NoneEmpty(r)
  {
    if items == [] then []
    else
      var newList := NonEmptyItems(items[0]);
      (if newList == [] then [] else [newList]) + NonEmptyColumns(items[1..])
  }

  // An item without text; a file or a web page always has one.
  predicate HasNoText(c: Component) {
    match c.payload
    case Link(_, _) => false
    case Code(text) => text == ""
    case Column(code) => Print(code) == ""
  }

  lemma EmptyExactly(c: Component)
    ensures IsEmpty(c) <==> HasNoText(c)
  {
  }

  // The positions of the flags that are set, in their order
  ghost predicate Chosen(flags: seq<bool>, positions: seq<nat>) {
    Increasing(positions) && forall j: nat :: j in positions <==> j < |flags| && flags[j]
  }

  function Later(positions: seq<nat>): (r: seq<nat>)
    ensures |r| == |positions| && forall i :: 0 <= i < |r| ==> r[i] == positions[i] + 1
  {
    seq(|positions|, i requires 0 <= i < |positions| => positions[i] + 1)
  }

  lemma LaterHas(positions: seq<nat>, j: nat)
    ensures j in Later(positions) <==> j > 0 && j - 1 in positions
  {
    if j > 0 && j - 1 in positions {
      var i :| 0 <= i < |positions| && positions[i] == j - 1;
      assert Later(positions)[i] == j;
    }
  }

  lemma ChosenFirst(flags: seq<bool>, positions: seq<nat>)
    requires flags != [] && Chosen(flags[1..], positions)
    ensures Chosen(flags, (if flags[0] then [0] else []) + Later(positions))
  {
    var first: seq<nat> := if flags[0] then [0] else [];
    var all := first + Later(positions);
    forall j: nat ensures j in all <==> j < |flags| && flags[j] {
      assert j in all <==> j in first || j in Later(positions);
      LaterHas(positions, j);
      assert 0 < j < |flags| ==> flags[1..][j - 1] == flags[j];
    }
  }

  function HaveText(row: seq<Component>): (flags: seq<bool>)
    ensures |flags| == |row|
  {
    seq(|row|, i requires 0 <= i < |row| => !HasNoText(row[i]))
  }

  // Exactly the items that have a text, in their order
  ghost predicate Selected(row: seq<Component>, kept: seq<Component>) {
    exists positions :: Chosen(HaveText(row), positions) && Picked(row, positions, kept)
  }

  ghost predicate Picked(row: seq<Component>, positions: seq<nat>, kept: seq<Component>) {
    |positions| == |kept| && forall i :: 0 <= i < |kept| ==> positions[i] < |row| && kept[i] == row[positions[i]]
  }

  lemma {:induction false} NonEmptyItemsExactly(row: seq<Component>)
    ensures Selected(row, NonEmptyItems(row))
  {
    hide HasNoText, IsEmpty, Chosen, Picked, Later, HaveText;
    if row == [] {
      NothingChosen();
    } else {
      NonEmptyItemsExactly(row[1..]);
      var kept := NonEmptyItems(row[1..]);
      var positions :| Chosen(HaveText(row[1..]), positions) && Picked(row[1..], positions, kept);
      EmptyExactly(row[0]);
      FirstFlag(row);
      ChosenFirst(HaveText(row), positions);
      PickedFirst(row, positions, kept);
    }
  }

  lemma NothingChosen()
    ensures Chosen(HaveText([]), []) && Picked([], [], [])
    ensures Chosen(ColumnsHaveText([]), []) && PickedColumns([], [], [])
  {
  }

  lemma FirstFlag(row: seq<Component>)
    requires row != []
    ensures HaveText(row)[0] == !HasNoText(row[0]) && HaveText(row)[1..] == HaveText(row[1..])
  {
    hide HasNoText;
  }

  lemma PickedFirst(row: seq<Component>, positions: seq<nat>, kept: seq<Component>)
    requires row != [] && Picked(row[1..], positions, kept)
    ensures Picked(row, [] + Later(positions), [] + kept) && Picked(row, [0] + Later(positions), [row[0]] + kept)
  {
  }

  // Exactly the columns that have an item with text, in their order, each with these items
  ghost predicate SelectedColumns(items: seq<seq<Component>>, kept: seq<seq<Component>>) {
    exists positions :: Chosen(ColumnsHaveText(items), positions) && PickedColumns(items, positions, kept)
  }

  ghost predicate PickedColumns(items: seq<seq<Component>>, positions: seq<nat>, kept: seq<seq<Component>>) {
    && |positions| == |kept|
    && forall i :: 0 <= i < |kept| ==> positions[i] < |items| && Selected(items[positions[i]], kept[i])
  }

  ghost predicate HasText(row: seq<Component>) { exists c :: c in row && !HasNoText(c) }

  ghost function ColumnsHaveText(items: seq<seq<Component>>): (flags: seq<bool>)
    ensures |flags| == |items|
  {
    seq(|items|, i requires 0 <= i < |items| => HasText(items[i]))
  }

  lemma SelectedSome(row: seq<Component>, kept: seq<Component>)
    requires Selected(row, kept)
    ensures kept != [] <==> HasText(row)
  {
    hide HasNoText;
    var positions :| Chosen(HaveText(row), positions) && Picked(row, positions, kept);
    if kept != [] {
      assert positions[0] in positions;
      assert row[positions[0]] in row;
    }
    if c :| c in row && !HasNoText(c) {
      var j: nat :| j < |row| && row[j] == c;
      assert j in positions;
    }
  }

  lemma {:induction false} NonEmptyColumnsExactly(items: seq<seq<Component>>)
    ensures SelectedColumns(items, NonEmptyColumns(items))
  {
    hide Selected, HasText, NonEmptyItems, Chosen, PickedColumns, Later, ColumnsHaveText;
    if items == [] {
      NothingChosen();
    } else {
      NonEmptyColumnsExactly(items[1..]);
      var kept := NonEmptyColumns(items[1..]);
      var positions :| Chosen(ColumnsHaveText(items[1..]), positions) && PickedColumns(items[1..], positions, kept);
      NonEmptyItemsExactly(items[0]);
      SelectedSome(items[0], NonEmptyItems(items[0]));
      FirstColumnFlag(items);
      ChosenFirst(ColumnsHaveText(items), positions);
      PickedFirstColumn(items, positions, NonEmptyItems(items[0]), kept);
    }
  }

  lemma FirstColumnFlag(items: seq<seq<Component>>)
    requires items != []
    ensures ColumnsHaveText(items)[0] == HasText(items[0]) && ColumnsHaveText(items)[1..] == ColumnsHaveText(items[1..])
  {
    hide HasText;
  }

  lemma PickedFirstColumn(items: seq<seq<Component>>, positions: seq<nat>, first: seq<Component>,
                          kept: seq<seq<Component>>)
    requires items != [] && PickedColumns(items[1..], positions, kept) && Selected(items[0], first)
    ensures PickedColumns(items, [] + Later(positions), [] + kept)
    ensures PickedColumns(items, [0] + Later(positions), [first] + kept)
  {
    hide Selected;
  }

  lemma NextColumn(items: seq<seq<Component>>, i: nat)
    requires i < |items|
    ensures var newList := NonEmptyItems(items[i]);
            NonEmptyColumns(items[i..]) == (if newList == [] then [] else [newList]) + NonEmptyColumns(items[i + 1..])
  {
    hide NonEmptyItems;
    assert items[i..][1..] == items[i + 1..];
  }

  lemma NoColumn(items: seq<seq<Component>>)
    ensures NonEmptyColumns(items[|items|..]) == []
  {
    hide NonEmptyItems;
  }

  method ComponentListWithoutEmptyItem(items: seq<seq<Component>>) returns (list: seq<seq<Component>>)
    ensures list == NonEmptyColumns(items) && SelectedColumns(items, list)
  {
    hide NonEmptyItems, NonEmptyColumns, SelectedColumns;
    NonEmptyColumnsExactly(items);
    list := [];
    var i := 0;
    assert items[0..] == items;
    while i < |items|
      invariant 0 <= i <= |items|
      invariant list + NonEmptyColumns(items[i..]) == NonEmptyColumns(items)
    {
      var newList := RowsWithoutEmptyItem(items[i]);
      NextColumn(items, i);
      if newList != [] {
        list := list + [newList];
      }
      i := i + 1;
    }
    NoColumn(items);
  }

  lemma NextItem(rows: seq<Component>, j: nat)
    requires j < |rows|
    ensures NonEmptyItems(rows[j..])
         == (if IsEmpty(rows[j]) then [] else [rows[j]]) + NonEmptyItems(rows[j + 1..])
  {
    hide IsEmpty;
    assert rows[j..][1..] == rows[j + 1..];
  }

  lemma NoItem(rows: seq<Component>)
    ensures NonEmptyItems(rows[|rows|..]) == []
  {
    hide IsEmpty;
  }

  // The inner loop of componentListWithoutEmptyItem.
  method RowsWithoutEmptyItem(rows: seq<Component>) returns (newList: seq<Component>)
    ensures newList == NonEmptyItems(rows) && Selected(rows, newList)
  {
    hide IsEmpty, NonEmptyItems, Selected;
    NonEmptyItemsExactly(rows);
    newList := [];
    var j := 0;
    assert rows[0..] == rows;
    while j < |rows|
      invariant 0 <= j <= |rows|
      invariant newList + NonEmptyItems(rows[j..]) == NonEmptyItems(rows)
    {
      NextItem(rows, j);
      if !IsEmpty(rows[j]) {
        newList := newList + [rows[j]];
      }
      j := j + 1;
    }
    NoItem(rows);
  }

  // ---- the emitted text lays out what was optimised ----

  // The text of one item with the tag of its place
  function ItemText(c: Component, tag: string): string {
    match c.payload
    case Link(index, path) => "vgroup(\"" + ("[" + tag + "]component" + index) + "\", component(\"" + path + "\"))"
    case Code(text) => text
    case Column(code) => Print(code)
  }

  // The two parts of a group: how many items the first one has, their texts and their places
  datatype Parts = Parts(count: nat, vertical: bool, left: string, right: string, first: Box, second: Box)

  // A vgroup stacks its two parts, an hgroup puts them side by side.
  predicate Arranged(p: Parts, text: string, tag: string, op: string, place: Box) {
    && text == (if p.vertical then "vgroup(\"" else "hgroup(\"") + ("[" + tag + "]") + "\","
               + (p.left + op + p.right) + ")"
    && p.first.x == place.x && p.first.y == place.y
    && if p.vertical then
         && p.second.x == place.x && p.second.y == place.y + p.first.height
         && place.height == p.first.height + p.second.height
         && place.width == Max(p.first.width, p.second.width)
       else
         && p.second.x == place.x + p.first.width && p.second.y == place.y
         && place.width == p.first.width + p.second.width
         && place.height == Max(p.first.height, p.second.height)
  }

  // A text lays these items out in these boxes: an item has its own size, and the two parts of a group
  // have the tags 1 and 2.
  ghost predicate Lays(text: string, tag: string, op: string, items: seq<Component>, boxes: seq<Box>, place: Box)
    decreases |items|
  {
    && |boxes| == |items| > 0
    && if |items| == 1 then
         && text == ItemText(items[0], tag) && boxes == [place]
         && place.width == items[0].width && place.height == items[0].height
       else
         exists p: Parts ::
           && 0 < p.count < |items| && Arranged(p, text, tag, op, place)
           && Lays(p.left, "1", op, items[..p.count], boxes[..p.count], p.first)
           && Lays(p.right, "2", op, items[p.count..], boxes[p.count..], p.second)
  }

  lemma ItemTextOf(c: Component, tag: string)
    ensures Print(FaustComponent(c, tag)) == ItemText(c, tag)
  {
  }

  lemma {:induction false} PlaceCount<T>(t: Tree<T>, x: nat, y: nat)
    ensures |Place(t, x, y)| == |t.Leaves()| > 0
  {
    if t.Node? {
      PlaceCount(t.left, x, y);
      PlaceCount(t.right, if t.vertical then x else x + t.left.Width(), if t.vertical then y + t.left.Height() else y);
    }
  }

  // The text of a tree lays out its leaves where the optimiser has placed them.
  lemma {:induction false} TreeIsLaidOut(screen: Screen, t: Tree<Source>, op: Operator, tag: string, x: nat, y: nat)
    requires Built(screen, t)
    ensures Lays(Print(RenderToFaust(t, op, tag)), tag, op.Symbol(), t.Leaves(), Place(t, x, y),
                 Box(x, y, t.Width(), t.Height()))
  {
    hide ItemText, FaustComponent;
    if t.Leaf? {
      ItemTextOf(t.item, tag);
    } else {
      BestFits(screen, t.left, t.right);
      hide CreateBestContainerTree;
      var x', y' := if t.vertical then x else x + t.left.Width(), if t.vertical then y + t.left.Height() else y;
      TreeIsLaidOut(screen, t.left, op, "1", x, y);
      TreeIsLaidOut(screen, t.right, op, "2", x', y');
      PlaceCount(t.left, x, y);
      PlaceCount(t.right, x', y');
      NodeIsLaidOut(t, op, tag, x, y, x', y');
    }
  }

  lemma NodeIsLaidOut(t: Tree<Source>, op: Operator, tag: string, x: nat, y: nat, x': nat, y': nat)
    requires t.Node? && x' == (if t.vertical then x else x + t.left.Width())
    requires y' == (if t.vertical then y + t.left.Height() else y)
    requires t.vertical ==> t.Width() == Max(t.left.Width(), t.right.Width())
    requires t.vertical ==> t.Height() == t.left.Height() + t.right.Height()
    requires !t.vertical ==> t.Width() == t.left.Width() + t.right.Width()
    requires !t.vertical ==> t.Height() == Max(t.left.Height(), t.right.Height())
    requires |Place(t.left, x, y)| == |t.left.Leaves()| > 0 && |Place(t.right, x', y')| == |t.right.Leaves()| > 0
    requires Lays(Print(RenderToFaust(t.left, op, "1")), "1", op.Symbol(), t.left.Leaves(), Place(t.left, x, y),
                  Box(x, y, t.left.Width(), t.left.Height()))
    requires Lays(Print(RenderToFaust(t.right, op, "2")), "2", op.Symbol(), t.right.Leaves(), Place(t.right, x', y'),
                  Box(x', y', t.right.Width(), t.right.Height()))
    ensures Lays(Print(RenderToFaust(t, op, tag)), tag, op.Symbol(), t.Leaves(), Place(t, x, y),
                 Box(x, y, t.Width(), t.Height()))
  {
    var l, r := RenderToFaust(t.left, op, "1"), RenderToFaust(t.right, op, "2");
    var n := |t.left.Leaves()|;
    var p := Parts(n, t.vertical, Print(l), Print(r), Box(x, y, t.left.Width(), t.left.Height()),
                   Box(x', y', t.right.Width(), t.right.Height()));
    var place := Box(x, y, t.Width(), t.Height());
    GroupText(t.vertical, tag, op, l, r);
    assert Arranged(p, Print(RenderToFaust(t, op, tag)), tag, op.Symbol(), place);
    assert Place(t, x, y) == Place(t.left, x, y) + Place(t.right, x', y');
    hide RenderToFaust, Print, Place, Arranged;
    PartsLaidOut(p, Print(RenderToFaust(t, op, tag)), tag, op.Symbol(), t.left.Leaves(), t.right.Leaves(),
                 Place(t.left, x, y), Place(t.right, x', y'), place);
  }

  lemma PartsLaidOut(p: Parts, text: string, tag: string, op: string, a: seq<Component>, b: seq<Component>,
                     first: seq<Box>, second: seq<Box>, place: Box)
    requires p.count == |a| == |first| > 0 && |b| == |second| > 0 && Arranged(p, text, tag, op, place)
    requires Lays(p.left, "1", op, a, first, p.first) && Lays(p.right, "2", op, b, second, p.second)
    ensures Lays(text, tag, op, a + b, first + second, place)
  {
    hide ItemText, Arranged;
    assert (a + b)[..p.count] == a && (a + b)[p.count..] == b;
    assert (first + second)[..p.count] == first && (first + second)[p.count..] == second;
  }

  lemma GroupText(vertical: bool, tag: string, op: Operator, l: Expr, r: Expr)
    ensures Print(Group(vertical, "[" + tag + "]", Compose(op, l, r)))
      == (if vertical then "vgroup(\"" else "hgroup(\"") + ("[" + tag + "]") + "\","
         + (Print(l) + op.Symbol() + Print(r)) + ")"
  {
  }

  lemma ArrangedApart(p: Parts, text: string, tag: string, op: string, place: Box)
    requires Arranged(p, text, tag, op, place)
    ensures p.first.Disjoint(p.second) && p.first.Inside(place) && p.second.Inside(place)
  {
  }

  // Whatever text lays them out, the items have their sizes, inside the place and without overlap.
  lemma {:induction false} LaidOutHasRoom(text: string, tag: string, op: string, items: seq<Component>,
                                          boxes: seq<Box>, place: Box)
    requires Lays(text, tag, op, items, boxes, place)
    ensures Room(items, boxes, place)
    decreases |items|
  {
    hide ItemText, Room, Arranged, Lays;
    if |items| == 1 {
      OneLaidOut(text, tag, op, items, boxes, place);
      OneRoom(items[0], place);
    } else {
      var p := PartsOf(text, tag, op, items, boxes, place);
      ArrangedApart(p, text, tag, op, place);
      LaidOutHasRoom(p.left, "1", op, items[..p.count], boxes[..p.count], p.first);
      LaidOutHasRoom(p.right, "2", op, items[p.count..], boxes[p.count..], p.second);
      RoomAppend(items[..p.count], boxes[..p.count], p.first, items[p.count..], boxes[p.count..], p.second, place);
      assert items[..p.count] + items[p.count..] == items && boxes[..p.count] + boxes[p.count..] == boxes;
    }
  }

  lemma OneLaidOut(text: string, tag: string, op: string, items: seq<Component>, boxes: seq<Box>, place: Box)
    requires Lays(text, tag, op, items, boxes, place) && |items| <= 1
    ensures items == [items[0]] && boxes == [place]
    ensures place.width == items[0].width && place.height == items[0].height
  {
    hide ItemText;
  }

  lemma PartsOf(text: string, tag: string, op: string, items: seq<Component>, boxes: seq<Box>, place: Box)
    returns (p: Parts)
    requires Lays(text, tag, op, items, boxes, place) && |items| != 1
    ensures |boxes| == |items| && 0 < p.count < |items| && Arranged(p, text, tag, op, place)
    ensures Lays(p.left, "1", op, items[..p.count], boxes[..p.count], p.first)
    ensures Lays(p.right, "2", op, items[p.count..], boxes[p.count..], p.second)
  {
    hide ItemText, Arranged;
    p :| 0 < p.count < |items| && Arranged(p, text, tag, op, place)
         && Lays(p.left, "1", op, items[..p.count], boxes[..p.count], p.first)
         && Lays(p.right, "2", op, items[p.count..], boxes[p.count..], p.second);
  }

  // ---- createComponent ----

  // One column, as an item of the second level.
  function ColumnItem(screen: Screen, column: seq<Component>, layoutIndex: string): Component
    requires column != []
  {
    var t := BestDisposition(screen, column);
    Item(Column(Stereoize(RenderToFaust(t, Parallel, layoutIndex))), t.Width(), t.Height())
  }

  // The tags of the columns alternate between "1" and "2".
  function ColumnItems(screen: Screen, columns: seq<seq<Component>>, layoutIndex: string): (r: seq<Component>)
    requires NoneEmpty(columns)
    ensures |r| == |columns|
  {
    if columns == [] then []
    else
      [ColumnItem(screen, columns[0], layoutIndex)]
      + ColumnItems(screen, columns[1..], if layoutIndex == "1" then "2" else "1")
  }

  function Program(screen: Screen, items: seq<seq<Component>>, feedback: Component): Expr
    requires NonEmptyColumns(items) != []
  {
    var columns := ColumnItems(screen, NonEmptyColumns(items), "1");
    var body := RenderToFaust(BestDisposition(screen, columns), Sequential, "");
    var loop := FaustComponent(feedback, "");
    if Print(loop) != "" then Recursivize(body, loop) else body
  }

  // A rectangle of least surface: an enumerated tree has it, and none has a smaller one.
  ghost predicate Optimal(screen: Screen, items: seq<Component>, width: nat, height: nat) {
    && (exists t :: t in ListTrees(screen, items) && t.Width() == width && t.Height() == height)
    && forall t :: t in ListTrees(screen, items) ==> width * height <= t.Surface()
  }

  lemma BestIsOptimal(screen: Screen, items: seq<Component>)
    requires items != []
    ensures Built(screen, BestDisposition(screen, items)) && BestDisposition(screen, items).Leaves() == items
    ensures Optimal(screen, items, BestDisposition(screen, items).Width(), BestDisposition(screen, items).Height())
  {
    hide BestDisposition, ListTrees;
    BestDispositionIsLeast(screen, items);
  }

  // The item of a composed column: its text is the column in stereo, laid out in the rectangle of the item.
  ghost predicate IsColumn(screen: Screen, item: Component, column: seq<Component>, tag: string) {
    item.payload.Column? && Optimal(screen, column, item.width, item.height) && exists d: Layout ::
      && Print(item.payload.code) == "stereoize(" + d.text + ")"
      && Lays(d.text, tag, ",", column, d.boxes, Box(0, 0, item.width, item.height))
  }

  // A text and where it lays out its items
  datatype Layout = Layout(text: string, boxes: seq<Box>, place: Box)

  // The program of these columns: they are laid out with the tags 1 and 2 in turn, their composition
  // without a tag, and the feedback is behind it if it has a text.
  ghost predicate LaidOut(screen: Screen, program: string, columns: seq<seq<Component>>, feedback: Component) {
    exists items: seq<Component>, d: Layout :: LaidOutAs(screen, program, columns, feedback, items, d)
  }

  ghost predicate LaidOutAs(screen: Screen, program: string, columns: seq<seq<Component>>, feedback: Component,
                            items: seq<Component>, d: Layout) {
    && |items| == |columns|
    && (forall i :: 0 <= i < |items| ==> IsColumn(screen, items[i], columns[i], if i % 2 == 0 then "1" else "2"))
    && Optimal(screen, items, d.place.width, d.place.height) && Lays(d.text, "", ":", items, d.boxes, d.place)
    && program == if HasNoText(feedback) then d.text
                  else "recursivize(" + d.text + "," + ItemText(feedback, "") + ")"
  }

  lemma ColumnIsLaidOut(screen: Screen, column: seq<Component>, tag: string)
    requires column != []
    ensures IsColumn(screen, ColumnItem(screen, column, tag), column, tag)
  {
    hide BestDisposition, Lays, RenderToFaust, Optimal;
    BestIsOptimal(screen, column);
    var t := BestDisposition(screen, column);
    TreeIsLaidOut(screen, t, Parallel, tag, 0, 0);
    var text := Print(RenderToFaust(t, Parallel, tag));
    var d := Layout(text, Place(t, 0, 0), Box(0, 0, t.Width(), t.Height()));
    assert Print(ColumnItem(screen, column, tag).payload.code) == "stereoize(" + d.text + ")";
  }

  lemma {:induction false} ColumnsAreLaidOut(screen: Screen, columns: seq<seq<Component>>, tag: string)
    requires NoneEmpty(columns) && (tag == "1" || tag == "2")
    ensures forall i :: 0 <= i < |columns| ==>
      IsColumn(screen, ColumnItems(screen, columns, tag)[i], columns[i],
               if i % 2 == 0 then tag else if tag == "1" then "2" else "1")
  {
    hide ColumnItem, IsColumn;
    if columns != [] {
      var next := if tag == "1" then "2" else "1";
      ColumnIsLaidOut(screen, columns[0], tag);
      ColumnsAreLaidOut(screen, columns[1..], next);
      forall i | 0 < i < |columns|
        ensures IsColumn(screen, ColumnItems(screen, columns, tag)[i], columns[i], if i % 2 == 0 then tag else next)
      {
        assert ColumnItems(screen, columns, tag)[i] == ColumnItems(screen, columns[1..], next)[i - 1];
        assert columns[i] == columns[1..][i - 1];
      }
    }
  }

  // The layout of the emitted program is the one that was chosen for the columns and for the whole.
  lemma ProgramIsLaidOut(screen: Screen, items: seq<seq<Component>>, feedback: Component)
    requires NonEmptyColumns(items) != []
    ensures LaidOut(screen, Print(Program(screen, items, feedback)), NonEmptyColumns(items), feedback)
  {
    hide BestDisposition, Lays, RenderToFaust, FaustComponent, ColumnItems, IsColumn, NonEmptyColumns, Print, ItemText;
    var columns := NonEmptyColumns(items);
    var composed := ColumnItems(screen, columns, "1");
    ColumnsAreLaidOut(screen, columns, "1");
    BestIsOptimal(screen, composed);
    hide Optimal;
    var t := BestDisposition(screen, composed);
    TreeIsLaidOut(screen, t, Sequential, "", 0, 0);
    var body := RenderToFaust(t, Sequential, "");
    var d := Layout(Print(body), Place(t, 0, 0), Box(0, 0, t.Width(), t.Height()));
    ItemTextOf(feedback, "");
    TextOrNot(feedback);
    PrintRecursivize(body, FaustComponent(feedback, ""));
    assert LaidOutAs(screen, Print(Program(screen, items, feedback)), columns, feedback, composed, d);
  }

  lemma TextOrNot(c: Component)
    ensures HasNoText(c) <==> Print(FaustComponent(c, "")) == ""
  {
  }

  method CreateComponent(screen: Screen, items: seq<seq<Component>>, feedback: Component)
    returns (faustToCompile: string)
    ensures NonEmptyColumns(items) == [] ==> faustToCompile == ""
    ensures NonEmptyColumns(items) != [] ==>
      && faustToCompile == "import(\"music.lib\");\n\n\nprocess = " + Print(Program(screen, items, feedback)) + ";"
      && LaidOut(screen, Print(Program(screen, items, feedback)), NonEmptyColumns(items), feedback)
  {
    hide LaidOut, Print, RenderToFaust, FaustComponent, NonEmptyColumns, ColumnItems, BestDisposition;
    var fItems := ComponentListWithoutEmptyItem(items);
    if |fItems| != 0 {
      ProgramIsLaidOut(screen, items, feedback);
      var parallelItems := ComposeColumns(screen, fItems);
      var root := CalculateBestDisposition(screen, parallelItems);
      var body := RenderToFaust(root, Sequential, "");
      faustToCompile := Print(body);
      var loop := FaustComponent(feedback, "");
      if Print(loop) != "" {
        PrintRecursivize(body, loop);
        faustToCompile := "import(\"music.lib\");\n\n\nprocess = "
          + ("recursivize(" + faustToCompile + "," + Print(loop) + ")");
      } else {
        faustToCompile := "import(\"music.lib\");\n\n\nprocess = " + faustToCompile;
      }
      faustToCompile := faustToCompile + ";";
    } else {
      faustToCompile := "";
    }
  }

  lemma PrintRecursivize(f: Expr, b: Expr)
    ensures Print(Recursivize(f, b)) == "recursivize(" + Print(f) + "," + Print(b) + ")"
  {
  }

  // The loop of createComponent.
  method ComposeColumns(screen: Screen, fItems: seq<seq<Component>>) returns (parallelItems: seq<Component>)
    requires NoneEmpty(fItems)
    ensures parallelItems == ColumnItems(screen, fItems, "1")
  {
    hide Print, RenderToFaust, BestDisposition, ColumnItems;
    parallelItems := [];
    var layoutIndex := "1";
    var i := 0;
    assert fItems[0..] == fItems;
    while i < |fItems|
      invariant 0 <= i <= |fItems|
      invariant parallelItems + ColumnItems(screen, fItems[i..], layoutIndex) == ColumnItems(screen, fItems, "1")
    {
      NextColumnItem(screen, fItems, i, layoutIndex);
      if |fItems[i]| != 0 {
        var rootDisposition := CalculateBestDisposition(screen, fItems[i]);
        var composition := Stereoize(RenderToFaust(rootDisposition, Parallel, layoutIndex));
        parallelItems := parallelItems
          + [Item(Column(composition), rootDisposition.Width(), rootDisposition.Height())];
        layoutIndex := if layoutIndex == "1" then "2" else "1";
      }
      i := i + 1;
    }
    NoColumnItem(screen, fItems, layoutIndex);
  }

  lemma NextColumnItem(screen: Screen, columns: seq<seq<Component>>, i: nat, layoutIndex: string)
    requires NoneEmpty(columns) && i < |columns|
    ensures ColumnItems(screen, columns[i..], layoutIndex)
         == [ColumnItem(screen, columns[i], layoutIndex)]
            + ColumnItems(screen, columns[i + 1..], if layoutIndex == "1" then "2" else "1")
  {
    hide ColumnItem;
    assert columns[i..][1..] == columns[i + 1..];
  }

  lemma NoColumnItem(screen: Screen, columns: seq<seq<Component>>, layoutIndex: string)
    requires NoneEmpty(columns)
    ensures ColumnItems(screen, columns[|columns|..], layoutIndex) == []
  {
    hide ColumnItem;
  }

  // What the user drew: each column in parallel, made stereo.
  function ColumnMeanings<D(!new)>(a: Algebra<D>, columns: seq<seq<Component>>): (r: seq<D>)
    requires NoneEmpty(columns)
    ensures |r| == |columns|
  {
    if columns == [] then []
    else [a.stereo(Chain(a, Parallel, Meanings(a, columns[0])))] + ColumnMeanings(a, columns[1..])
  }

  lemma {:induction false} ColumnItemsMeaning<D(!new)>(a: Algebra<D>, screen: Screen, columns: seq<seq<Component>>,
                                                       layoutIndex: string)
    requires a.Associative() && NoneEmpty(columns)
    ensures Meanings(a, ColumnItems(screen, columns, layoutIndex)) == ColumnMeanings(a, columns)
  {
    hide Algebra<D>.Associative, Chain, Meanings, ColumnItem, LeafMeaning;
    if columns == [] {
      NoMeanings(a);
    } else {
      var next := if layoutIndex == "1" then "2" else "1";
      ColumnItemsMeaning(a, screen, columns[1..], next);
      var item := ColumnItem(screen, columns[0], layoutIndex);
      ColumnItemMeaning(a, screen, columns[0], layoutIndex);
      MeaningsAppend(a, [item], ColumnItems(screen, columns[1..], next));
      OneMeaning(a, item);
    }
  }

  lemma NoMeanings<D(!new)>(a: Algebra<D>)
    ensures Meanings(a, []) == []
  {
  }

  lemma OneMeaning<D(!new)>(a: Algebra<D>, c: Component)
    ensures Meanings(a, [c]) == [LeafMeaning(a, c)]
  {
    hide LeafMeaning;
  }

  lemma ColumnItemMeaning<D(!new)>(a: Algebra<D>, screen: Screen, column: seq<Component>, layoutIndex: string)
    requires a.Associative() && column != []
    ensures LeafMeaning(a, ColumnItem(screen, column, layoutIndex)) == a.stereo(Chain(a, Parallel, Meanings(a, column)))
  {
    hide Algebra<D>.Associative, Chain, RenderToFaust, BestDisposition;
    var t := BestDisposition(screen, column);
    BestDispositionIsLeast(screen, column);
    TreeMeaning(a, t, Parallel, layoutIndex);
  }

  // For any associative reading of `,` and `:`, the generated program is the columns one after
  // the other, each of them its non-empty rows in parallel, in a loop with the feedback if any.
  lemma ProgramMeaning<D(!new)>(a: Algebra<D>, screen: Screen, items: seq<seq<Component>>, feedback: Component)
    requires a.Associative() && NonEmptyColumns(items) != []
    ensures var drawn := Chain(a, Sequential, ColumnMeanings(a, NonEmptyColumns(items)));
      Meaning(a, Program(screen, items, feedback)) ==
        if Print(FaustComponent(feedback, "")) != "" then a.rec(drawn, LeafMeaning(a, feedback)) else drawn
  {
    hide Algebra<D>.Associative, RenderToFaust, BestDisposition, ColumnItems, NonEmptyColumns, Chain;
    var columns := NonEmptyColumns(items);
    var composed := ColumnItems(screen, columns, "1");
    ColumnItemsMeaning(a, screen, columns, "1");
    BestDispositionIsLeast(screen, composed);
    TreeMeaning(a, BestDisposition(screen, composed), Sequential, "");
  }

  // ---- the emitted text determines the program ----

  // Names without quotes, and texts that are one expression wherever they stand
  predicate ClosedItem(c: Component) {
    match c.payload
    case Link(index, path) => FaustReading.QUOTE !in index && FaustReading.QUOTE !in path
    case Code(text) => FaustReading.Closed(Text(text))
    case Column(code) => FaustReading.Closed(code)
  }

  ghost predicate ClosedItems(cs: seq<Component>) { forall i :: 0 <= i < |cs| ==> ClosedItem(cs[i]) }

  lemma ItemIsClosed(c: Component, layoutIndex: string)
    requires ClosedItem(c) && FaustReading.QUOTE !in layoutIndex
    ensures FaustReading.Closed(FaustComponent(c, layoutIndex))
  {
    hide FaustReading.Closed;
    match c.payload {
      case Link(index, path) => LinkIsClosed(index, path, layoutIndex);
      case Code(_) =>
      case Column(_) =>
    }
  }

  lemma LinkIsClosed(index: string, path: string, layoutIndex: string)
    requires FaustReading.QUOTE !in index && FaustReading.QUOTE !in path && FaustReading.QUOTE !in layoutIndex
    ensures FaustReading.Closed(Expr.Component("[" + layoutIndex + "]component" + index, path))
  {
  }

  lemma TagHasNoQuote(layoutIndex: string)
    requires FaustReading.QUOTE !in layoutIndex
    ensures FaustReading.QUOTE !in "[" + layoutIndex + "]"
  {
  }

  lemma {:induction false} RenderIsClosed(t: Tree<Source>, op: Operator, layoutIndex: string)
    requires ClosedItems(t.Leaves()) && FaustReading.QUOTE !in layoutIndex
    ensures FaustReading.Closed(RenderToFaust(t, op, layoutIndex))
  {
    hide FaustComponent, ClosedItem;
    if t.Leaf? {
      assert ClosedItem(t.Leaves()[0]);
      ItemIsClosed(t.item, layoutIndex);
    } else {
      var l, r := t.left.Leaves(), t.right.Leaves();
      assert forall i :: 0 <= i < |l| ==> (l + r)[i] == l[i];
      assert forall i :: 0 <= i < |r| ==> (l + r)[|l| + i] == r[i];
      RenderIsClosed(t.left, op, "1");
      RenderIsClosed(t.right, op, "2");
      TagHasNoQuote(layoutIndex);
    }
  }

  lemma {:induction false} ColumnItemsAreClosed(screen: Screen, columns: seq<seq<Component>>, layoutIndex: string)
    requires NoneEmpty(columns) && FaustReading.QUOTE !in layoutIndex
    requires forall i :: 0 <= i < |columns| ==> ClosedItems(columns[i])
    ensures ClosedItems(ColumnItems(screen, columns, layoutIndex))
  {
    hide ClosedItem, BestDisposition, ColumnItem;
    if columns != [] {
      ColumnItemIsClosed(screen, columns[0], layoutIndex);
      ColumnItemsAreClosed(screen, columns[1..], if layoutIndex == "1" then "2" else "1");
    }
  }

  lemma ColumnItemIsClosed(screen: Screen, column: seq<Component>, layoutIndex: string)
    requires column != [] && ClosedItems(column) && FaustReading.QUOTE !in layoutIndex
    ensures ClosedItem(ColumnItem(screen, column, layoutIndex))
  {
    hide BestDisposition, RenderToFaust;
    BestDispositionIsLeast(screen, column);
    RenderIsClosed(BestDisposition(screen, column), Parallel, layoutIndex);
  }

  lemma {:induction false} NonEmptyAreClosed(items: seq<seq<Component>>)
    requires forall i :: 0 <= i < |items| ==> ClosedItems(items[i])
    ensures forall i :: 0 <= i < |NonEmptyColumns(items)| ==> ClosedItems(NonEmptyColumns(items)[i])
  {
    hide ClosedItem, IsEmpty, NonEmptyItems;
    if items != [] {
      NonEmptyRowIsClosed(items[0]);
      NonEmptyAreClosed(items[1..]);
    }
  }

  lemma {:induction false} NonEmptyRowIsClosed(row: seq<Component>)
    requires ClosedItems(row)
    ensures ClosedItems(NonEmptyItems(row))
  {
    hide ClosedItem, IsEmpty;
    if row != [] {
      NonEmptyRowIsClosed(row[1..]);
    }
  }

  lemma ProgramIsClosed(screen: Screen, items: seq<seq<Component>>, feedback: Component)
    requires NonEmptyColumns(items) != [] && ClosedItem(feedback)
    requires forall i :: 0 <= i < |items| ==> ClosedItems(items[i])
    ensures FaustReading.Closed(Program(screen, items, feedback))
  {
    hide ClosedItem, NonEmptyColumns, ColumnItems, RenderToFaust, FaustComponent, BestDisposition, Print;
    var columns := ColumnItems(screen, NonEmptyColumns(items), "1");
    NonEmptyAreClosed(items);
    ColumnItemsAreClosed(screen, NonEmptyColumns(items), "1");
    BestDispositionIsLeast(screen, columns);
    RenderIsClosed(BestDisposition(screen, columns), Sequential, "");
    ItemIsClosed(feedback, "");
  }

  // Two drawings with the same text are the same program, and mean the same in every algebra.
  lemma SameTextSameMeaning<D(!new)>(a: Algebra<D>, screen: Screen, items: seq<seq<Component>>, feedback: Component,
                                     items': seq<seq<Component>>, feedback': Component)
    requires NonEmptyColumns(items) != [] && ClosedItem(feedback)
    requires NonEmptyColumns(items') != [] && ClosedItem(feedback')
    requires forall i :: 0 <= i < |items| ==> ClosedItems(items[i])
    requires forall i :: 0 <= i < |items'| ==> ClosedItems(items'[i])
    requires Print(Program(screen, items, feedback)) == Print(Program(screen, items', feedback'))
    ensures Program(screen, items, feedback) == Program(screen, items', feedback')
    ensures Meaning(a, Program(screen, items, feedback)) == Meaning(a, Program(screen, items', feedback'))
  {
    hide ClosedItem, ClosedItems, NonEmptyColumns, Program, Print, Meaning, FaustReading.Closed;
    ProgramIsClosed(screen, items, feedback);
    ProgramIsClosed(screen, items', feedback');
    FaustReading.TextDeterminesProgram(Program(screen, items, feedback), Program(screen, items', feedback'));
  }
}
