/** Reconciling a decoded grid layout with the tabs that exist: unknown tabs and the
    sets and rows they leave empty go, and selections follow the tabs they were on. */
module GridLayout {
  import opened Options

  datatype ShellTab = ShellTab(id: string, name: string, customName: Option<string>)

  /** `rest` stands for the attributes that are copied as they are. */
  datatype TabNode = TabNode(id: Option<string>, name: string, rest: string)

  datatype Node =
    | Row(rows: seq<Node>, rest: string)
    | Tabset(tabs: seq<TabNode>, selected: Option<int>, rest: string)

  datatype Border = Border(tabs: seq<TabNode>, selected: Option<int>, rest: string)

  /** The layout is the children and attributes of the root row. */
  datatype Model = Model(layout: seq<Node>, layoutRest: string, borders: Option<seq<Border>>, rest: string)

  // ----- the tabs that exist

  function Display(t: ShellTab): string {
    if t.customName.Some? && t.customName.value != "" then t.customName.value else t.name
  }

  /** The last tab with an ID is the one the map holds. */
  function Find(tabs: seq<ShellTab>, id: string): Option<ShellTab> {
    if tabs == [] then None
    else if tabs[|tabs| - 1].id == id then Some(tabs[|tabs| - 1])
    else Find(tabs[..|tabs| - 1], id)
  }

  /** An empty ID is never looked up. */
  function Name(tabs: seq<ShellTab>, node: TabNode): Option<string> {
    if node.id.None? || node.id.value == "" then None
    else
      match Find(tabs, node.id.value)
      case None => None
      case Some(t) => Some(Display(t))
  }

  predicate Known(tabs: seq<ShellTab>, node: TabNode) {
    Name(tabs, node).Some?
  }

  // ----- reconciling

  function ReconcileTabs(tabs: seq<ShellTab>, nodes: seq<TabNode>): seq<TabNode> {
    if nodes == [] then []
    else
      (match Name(tabs, nodes[0])
       case None => []
       case Some(name) => [nodes[0].(name := name)])
      + ReconcileTabs(tabs, nodes[1..])
  }

  function IndexOf(nodes: seq<TabNode>, id: string): Option<nat> {
    if nodes == [] then None
    else if nodes[0].id == Some(id) then Some(0)
    else match IndexOf(nodes[1..], id) case None => None case Some(i) => Some(i + 1)
  }

  function NormalizeSelected(selected: Option<int>, originals: seq<TabNode>, nodes: seq<TabNode>, empty: int)
    : Option<int>
  {
    if nodes == [] then Some(empty)
    else if selected.None? || selected.value < 0 then selected
    else if selected.value >= |originals| then Some(0)
    else
      var id := originals[selected.value].id;
      if id.None? || id.value == "" then Some(0)
      else
        match IndexOf(nodes, id.value)
        case None => Some(0)
        case Some(i) => Some(i)
  }

  function ReconcileNode(tabs: seq<ShellTab>, node: Node): Option<Node>
    decreases node
  {
    match node
    case Tabset(nodes, selected, rest) =>
      var kept := ReconcileTabs(tabs, nodes);
      if kept == [] then None else Some(Tabset(kept, NormalizeSelected(selected, nodes, kept, 0), rest))
    case Row(rows, rest) =>
      var kept := ReconcileNodes(tabs, rows);
      if kept == [] then None else Some(Row(kept, rest))
  }

  function ReconcileNodes(tabs: seq<ShellTab>, nodes: seq<Node>): seq<Node>
    decreases nodes
  {
    if nodes == [] then []
    else
      (match ReconcileNode(tabs, nodes[0])
       case None => []
       case Some(node) => [node])
      + ReconcileNodes(tabs, nodes[1..])
  }

  function ReconcileBorder(tabs: seq<ShellTab>, b: Border): Border {
    var kept := ReconcileTabs(tabs, b.tabs);
    Border(kept, NormalizeSelected(b.selected, b.tabs, kept, -1), b.rest)
  }

  function ReconcileBorders(tabs: seq<ShellTab>, bs: seq<Border>): (rs: seq<Border>)
    ensures |rs| == |bs| && forall i | 0 <= i < |bs| :: rs[i] == ReconcileBorder(tabs, bs[i])
  {
    seq(|bs|, i requires 0 <= i < |bs| => ReconcileBorder(tabs, bs[i]))
  }

  /** The root row stays even when nothing is left in it. */
  function Reconcile(tabs: seq<ShellTab>, m: Model): Model {
    m.(layout := ReconcileNodes(tabs, m.layout),
    borders := if m.borders.None? then None else Some(ReconcileBorders(tabs, m.borders.value)))
  }

  // ----- absorption

  /** Every ID the second list knows, the first knows too. */
  ghost predicate Covers(tabs: seq<ShellTab>, fewer: seq<ShellTab>) {
    forall id | id != "" && Find(fewer, id).Some? :: Find(tabs, id).Some?
  }

  lemma {:induction false} TabsAbsorb(tabs: seq<ShellTab>, fewer: seq<ShellTab>, nodes: seq<TabNode>)
    requires Covers(tabs, fewer)
    ensures ReconcileTabs(fewer, ReconcileTabs(tabs, nodes)) == ReconcileTabs(fewer, nodes)
  {
    if nodes != [] {
      TabsAbsorb(tabs, fewer, nodes[1..]);
      var rest := ReconcileTabs(tabs, nodes[1..]);
      if Name(tabs, nodes[0]).Some? {
        var node := nodes[0].(name := Name(tabs, nodes[0]).value);
        assert ([node] + rest)[0] == node && ([node] + rest)[1..] == rest;
        assert Name(fewer, node) == Name(fewer, nodes[0]);
      } else {
        assert Name(fewer, nodes[0]).None?;
        assert [] + rest == rest;
      }
    }
  }

  /** A reconciled tab list holds an ID exactly when the original did and it is known. */
  lemma {:induction false} KeptIds(tabs: seq<ShellTab>, nodes: seq<TabNode>, id: string)
    requires id != ""
    ensures IndexOf(ReconcileTabs(tabs, nodes), id).Some? <==> IndexOf(nodes, id).Some? && Find(tabs, id).Some?
  {
    hide Find;
    if nodes != [] {
      KeptIds(tabs, nodes[1..], id);
      var rest := ReconcileTabs(tabs, nodes[1..]);
      if Name(tabs, nodes[0]).Some? {
        var node := nodes[0].(name := Name(tabs, nodes[0]).value);
        assert ([node] + rest)[0] == node && ([node] + rest)[1..] == rest;
      } else {
        assert [] + rest == rest;
      }
    }
  }

  lemma {:induction false} InList(nodes: seq<TabNode>, i: nat, id: string)
    requires i < |nodes| && nodes[i].id == Some(id)
    ensures IndexOf(nodes, id).Some?
  {
    if i > 0 {
      InList(nodes[1..], i - 1, id);
    }
  }

  lemma {:induction false} IndexInRange(nodes: seq<TabNode>, id: string)
    requires IndexOf(nodes, id).Some?
    ensures var i := IndexOf(nodes, id).value;
      i < |nodes| && nodes[i].id == Some(id) && forall j | 0 <= j < i :: nodes[j].id != Some(id)
  {
    if nodes[0].id != Some(id) {
      IndexInRange(nodes[1..], id);
      var i := IndexOf(nodes, id).value;
      assert forall j | 0 < j < i :: nodes[j] == nodes[1..][j - 1];
    }
  }

  lemma {:induction false} KeptAreKnown(tabs: seq<ShellTab>, nodes: seq<TabNode>)
    ensures forall i | 0 <= i < |ReconcileTabs(tabs, nodes)| ::
        var id := ReconcileTabs(tabs, nodes)[i].id; id.Some? && id.value != "" && Find(tabs, id.value).Some?
  {
    if nodes != [] {
      KeptAreKnown(tabs, nodes[1..]);
    }
  }

  /** The first tab left, if it stays, is still the first. */
  lemma FirstStaysFirst(tabs: seq<ShellTab>, nodes: seq<TabNode>)
    requires nodes != [] && nodes[0].id.Some? && nodes[0].id.value != ""
    ensures var kept, id := ReconcileTabs(tabs, nodes), nodes[0].id.value;
      IndexOf(kept, id).Some? && Name(tabs, nodes[0]).Some? ==> IndexOf(kept, id) == Some(0)
    ensures Name(tabs, nodes[0]).None? ==> IndexOf(ReconcileTabs(tabs, nodes), nodes[0].id.value).None?
  {
    var id := nodes[0].id.value;
    if Name(tabs, nodes[0]).None? {
      KeptIds(tabs, nodes, id);
    } else {
      var node := nodes[0].(name := Name(tabs, nodes[0]).value);
      assert ([node] + ReconcileTabs(tabs, nodes[1..]))[0] == node;
    }
  }

  lemma SelectedAbsorbs(tabs: seq<ShellTab>, fewer: seq<ShellTab>, selected: Option<int>, nodes: seq<TabNode>,
                        empty: int)
    requires Covers(tabs, fewer) && empty <= 0
    ensures var once := ReconcileTabs(tabs, nodes);
      var twice := ReconcileTabs(fewer, once);
      NormalizeSelected(NormalizeSelected(selected, nodes, once, empty), once, twice, empty)
      == NormalizeSelected(selected, nodes, twice, empty)
  {
    var once := ReconcileTabs(tabs, nodes);
    var twice := ReconcileTabs(fewer, once);
    if twice != [] && selected.Some? && selected.value >= 0 {
      assert once != [];
      KeptAreKnown(tabs, nodes);
      FirstStaysFirst(fewer, once);
      if selected.value < |nodes| && nodes[selected.value].id.Some? && nodes[selected.value].id.value != "" {
        var id := nodes[selected.value].id.value;
        InList(nodes, selected.value, id);
        KeptIds(tabs, nodes, id);
        KeptIds(fewer, once, id);
        if IndexOf(once, id).Some? {
          IndexInRange(once, id);
        }
      }
    }
  }

  /** Pruning with one list and then with a list it covers is pruning with the second. */
  lemma {:induction false} NodeAbsorbs(tabs: seq<ShellTab>, fewer: seq<ShellTab>, node: Node)
    requires Covers(tabs, fewer)
    ensures ReconcileNode(fewer, node)
         == match ReconcileNode(tabs, node) case None => None case Some(n) => ReconcileNode(fewer, n)
    decreases node
  {
    match node
    case Tabset(nodes, selected, rest) =>
      TabsAbsorb(tabs, fewer, nodes);
      SelectedAbsorbs(tabs, fewer, selected, nodes, 0);
    case Row(rows, rest) =>
      NodesAbsorb(tabs, fewer, rows);
  }

  lemma {:induction false} NodesAbsorb(tabs: seq<ShellTab>, fewer: seq<ShellTab>, nodes: seq<Node>)
    requires Covers(tabs, fewer)
    ensures ReconcileNodes(fewer, ReconcileNodes(tabs, nodes)) == ReconcileNodes(fewer, nodes)
    decreases nodes
  {
    if nodes != [] {
      NodeAbsorbs(tabs, fewer, nodes[0]);
      NodesAbsorb(tabs, fewer, nodes[1..]);
      var rest := ReconcileNodes(tabs, nodes[1..]);
      match ReconcileNode(tabs, nodes[0])
      case None => assert [] + rest == rest;
      case Some(n) => assert ([n] + rest)[0] == n && ([n] + rest)[1..] == rest;
    }
  }

  lemma BorderAbsorbs(tabs: seq<ShellTab>, fewer: seq<ShellTab>, b: Border)
    requires Covers(tabs, fewer)
    ensures ReconcileBorder(fewer, ReconcileBorder(tabs, b)) == ReconcileBorder(fewer, b)
  {
    TabsAbsorb(tabs, fewer, b.tabs);
    SelectedAbsorbs(tabs, fewer, b.selected, b.tabs, -1);
  }

  lemma ModelAbsorbs(tabs: seq<ShellTab>, fewer: seq<ShellTab>, m: Model)
    requires Covers(tabs, fewer)
    ensures Reconcile(fewer, Reconcile(tabs, m)) == Reconcile(fewer, m)
  {
    NodesAbsorb(tabs, fewer, m.layout);
    if m.borders.Some? {
      var bs := m.borders.value;
      forall i | 0 <= i < |bs|
        ensures ReconcileBorders(fewer, ReconcileBorders(tabs, bs))[i] == ReconcileBorders(fewer, bs)[i]
      {
        BorderAbsorbs(tabs, fewer, bs[i]);
      }
      assert ReconcileBorders(fewer, ReconcileBorders(tabs, bs)) == ReconcileBorders(fewer, bs);
    }
  }

  /** A tab that only the second list knows, in a layout of its own. */
  lemma UncoveredTab(tabs: seq<ShellTab>, fewer: seq<ShellTab>, id: string)
    requires id != "" && Find(fewer, id).Some? && Find(tabs, id).None?
    ensures var m := Model([Tabset([TabNode(Some(id), "", "")], None, "")], "", None, "");
      Reconcile(fewer, Reconcile(tabs, m)) != Reconcile(fewer, m)
  {
    var node := TabNode(Some(id), "", "");
    var set1 := Tabset([node], None, "");
    assert ReconcileTabs(tabs, [node]) == [] && |ReconcileTabs(fewer, [node])| == 1 by {
      assert [node][1..] == [];
    }
    assert ReconcileNode(tabs, set1).None? && ReconcileNode(fewer, set1).Some?;
    assert [set1][1..] == [];
    assert ReconcileNodes(tabs, []) == [] && ReconcileNodes(fewer, []) == [];
    assert ReconcileNodes(tabs, [set1]) == [] + [];
    assert ReconcileNodes(fewer, [set1]) == [ReconcileNode(fewer, set1).value] + [];
  }

  /** Reconciling with one list of tabs is absorbed by reconciling with another, for every
      layout, exactly when the first knows every ID that the second knows. */
  lemma AbsorptionIff(tabs: seq<ShellTab>, fewer: seq<ShellTab>)
    ensures Covers(tabs, fewer) <==> forall m :: Reconcile(fewer, Reconcile(tabs, m)) == Reconcile(fewer, m)
  {
    if Covers(tabs, fewer) {
      forall m ensures Reconcile(fewer, Reconcile(tabs, m)) == Reconcile(fewer, m) {
        ModelAbsorbs(tabs, fewer, m);
      }
    } else {
      var id :| id != "" && Find(fewer, id).Some? && Find(tabs, id).None?;
      UncoveredTab(tabs, fewer, id);
    }
  }

  // ----- what is left

  /** The tabs of a layout, in order. */
  function Leaves(node: Node): seq<TabNode>
    decreases node
  {
    match node
    case Tabset(nodes, _, _) => nodes
    case Row(rows, _) => AllLeaves(rows)
  }

  function AllLeaves(nodes: seq<Node>): seq<TabNode>
    decreases nodes
  {
    if nodes == [] then [] else Leaves(nodes[0]) + AllLeaves(nodes[1..])
  }

  lemma {:induction false} TabsConcat(tabs: seq<ShellTab>, a: seq<TabNode>, b: seq<TabNode>)
    ensures ReconcileTabs(tabs, a + b) == ReconcileTabs(tabs, a) + ReconcileTabs(tabs, b)
  {
    if a == [] {
      assert a + b == b;
    } else {
      assert (a + b)[0] == a[0] && (a + b)[1..] == a[1..] + b;
      TabsConcat(tabs, a[1..], b);
    }
  }

  lemma {:induction false} SomeKnown(tabs: seq<ShellTab>, nodes: seq<TabNode>)
    ensures ReconcileTabs(tabs, nodes) != [] <==> exists n :: n in nodes && Known(tabs, n)
  {
    if nodes != [] {
      SomeKnown(tabs, nodes[1..]);
      assert forall n :: n in nodes <==> n == nodes[0] || n in nodes[1..];
      assert Known(tabs, nodes[0]) ==> nodes[0] in nodes && |ReconcileTabs(tabs, nodes)| > 0;
    }
  }

  /** The tabs left are exactly the known ones, in order and under their current names;
      a set or a row other than the root stays exactly when it holds one of them. */
  lemma {:induction false} NodeKeepsKnown(tabs: seq<ShellTab>, node: Node)
    ensures var r := ReconcileNode(tabs, node);
      && (r.Some? <==> exists n :: n in Leaves(node) && Known(tabs, n))
      && (if r.Some? then Leaves(r.value) else []) == ReconcileTabs(tabs, Leaves(node))
    decreases node
  {
    SomeKnown(tabs, Leaves(node));
    if node.Row? {
      NodesKeepKnown(tabs, node.rows);
    }
  }

  lemma {:induction false} NodesKeepKnown(tabs: seq<ShellTab>, nodes: seq<Node>)
    ensures AllLeaves(ReconcileNodes(tabs, nodes)) == ReconcileTabs(tabs, AllLeaves(nodes))
    ensures ReconcileNodes(tabs, nodes) != [] <==> ReconcileTabs(tabs, AllLeaves(nodes)) != []
    decreases nodes
  {
    if nodes != [] {
      NodeKeepsKnown(tabs, nodes[0]);
      SomeKnown(tabs, Leaves(nodes[0]));
      NodesKeepKnown(tabs, nodes[1..]);
      TabsConcat(tabs, Leaves(nodes[0]), AllLeaves(nodes[1..]));
      var rest := ReconcileNodes(tabs, nodes[1..]);
      match ReconcileNode(tabs, nodes[0])
      case None => assert [] + rest == rest && [] + AllLeaves(rest) == AllLeaves(rest);
      case Some(n) => assert ([n] + rest)[0] == n && ([n] + rest)[1..] == rest;
    }
  }

  /** What reconciling a list of tabs means, tab by tab. */
  lemma {:induction false} TabsExact(tabs: seq<ShellTab>, nodes: seq<TabNode>, n: TabNode)
    ensures n in ReconcileTabs(tabs, nodes) <==>
        exists o :: o in nodes && Known(tabs, o) && n == o.(name := Name(tabs, o).value)
  {
    if nodes != [] {
      TabsExact(tabs, nodes[1..], n);
      assert forall o :: o in nodes <==> o == nodes[0] || o in nodes[1..];
    }
  }

  /** Tab by tab, each in its place. */
  lemma TabByTab(tabs: seq<ShellTab>, a: seq<TabNode>, n: TabNode, b: seq<TabNode>)
    ensures ReconcileTabs(tabs, []) == []
    ensures ReconcileTabs(tabs, a + [n] + b)
         == ReconcileTabs(tabs, a)
            + (if Known(tabs, n) then [n.(name := Name(tabs, n).value)] else [])
            + ReconcileTabs(tabs, b)
  {
    TabsConcat(tabs, a + [n], b);
    TabsConcat(tabs, a, [n]);
    assert [n][1..] == [];
  }

  ghost predicate LastAt(tabs: seq<ShellTab>, i: int, id: string) {
    0 <= i < |tabs| && tabs[i].id == id && forall j | i < j < |tabs| :: tabs[j].id != id
  }

  /** A tab is known under its own ID, the last of the tabs that have it counts, and a
      custom name goes before the other unless it is empty. */
  lemma NameMeans(tabs: seq<ShellTab>, node: TabNode, name: string)
    ensures Name(tabs, node) == Some(name) <==>
        node.id.Some? && node.id.value != ""
        && exists i ::
            && LastAt(tabs, i, node.id.value)
            && name == (if tabs[i].customName in {None, Some("")} then tabs[i].name else tabs[i].customName.value)
  {
    if node.id.Some? && node.id.value != "" {
      var id := node.id.value;
      LastOfId(tabs, id);
      if Find(tabs, id).Some? {
        var k :| LastAt(tabs, k, id) && tabs[k] == Find(tabs, id).value;
        assert forall i | LastAt(tabs, i, id) :: i == k;
        var t := tabs[k];
        assert Name(tabs, node) == Some(Display(t));
        assert Display(t) == if t.customName in {None, Some("")} then t.name else t.customName.value;
        hide *;
      }
    }
  }

  lemma {:induction false} LastOfId(tabs: seq<ShellTab>, id: string)
    ensures if Find(tabs, id).None? then forall i | 0 <= i < |tabs| :: tabs[i].id != id
            else exists i :: LastAt(tabs, i, id) && tabs[i] == Find(tabs, id).value
  {
    if tabs != [] {
      var k, init := |tabs| - 1, tabs[..|tabs| - 1];
      LastOfId(init, id);
      if tabs[k].id == id {
        assert LastAt(tabs, k, id);
      } else if Find(init, id).Some? {
        var i :| LastAt(init, i, id) && init[i] == Find(init, id).value;
        assert LastAt(tabs, i, id) by {
          assert forall j | i < j < k :: tabs[j] == init[j];
        }
      } else {
        assert forall j | 0 <= j < k :: tabs[j] == init[j];
      }
    }
  }

  /** A selection on a tab that stays is on the first tab left that has its ID, and any
      other falls back to the first tab. None and negative ones stay, and with no tab left
      the selection is the one for an empty list. */
  lemma SelectionFollowsTab(tabs: seq<ShellTab>, nodes: seq<TabNode>, selected: Option<int>, empty: int)
    ensures var kept := ReconcileTabs(tabs, nodes);
      var s := NormalizeSelected(selected, nodes, kept, empty);
      if kept == [] then s == Some(empty)
      else if selected.None? || selected.value < 0 then s == selected
      else
        && s.Some? && 0 <= s.value < |kept|
        && (if selected.value < |nodes| && Known(tabs, nodes[selected.value]) then
              var id := nodes[selected.value].id;
              kept[s.value].id == id && forall j | 0 <= j < s.value :: kept[j].id != id
            else s.value == 0)
  {
    var kept := ReconcileTabs(tabs, nodes);
    if selected.Some? && 0 <= selected.value < |nodes| {
      var node := nodes[selected.value];
      if node.id.Some? && node.id.value != "" {
        InList(nodes, selected.value, node.id.value);
        KeptIds(tabs, nodes, node.id.value);
        if IndexOf(kept, node.id.value).Some? {
          IndexInRange(kept, node.id.value);
        }
      }
    }
  }

  // ----- the shape that is left

  /** A row or set of tabs, as it comes up on the way down: how deep it stands, what it
      carries and the tabs below it. The depths give the tree back. */
  datatype Frame = Frame(depth: nat, row: bool, selected: Option<int>, rest: string, leaves: seq<TabNode>)

  function Outline(node: Node, depth: nat): seq<Frame>
    decreases node
  {
    match node
    case Tabset(nodes, selected, rest) => [Frame(depth, false, selected, rest, nodes)]
    case Row(rows, rest) => [Frame(depth, true, None, rest, AllLeaves(rows))] + Outlines(rows, depth + 1)
  }

  function Outlines(nodes: seq<Node>, depth: nat): seq<Frame>
    decreases nodes
  {
    if nodes == [] then [] else Outline(nodes[0], depth) + Outlines(nodes[1..], depth)
  }

  predicate Holds(tabs: seq<ShellTab>, f: Frame) {
    exists n :: n in f.leaves && Known(tabs, n)
  }

  function Pruned(tabs: seq<ShellTab>, f: Frame): Frame {
    var kept := ReconcileTabs(tabs, f.leaves);
    f.(leaves := kept, selected := if f.row then None else NormalizeSelected(f.selected, f.leaves, kept, 0))
  }

  function Left(tabs: seq<ShellTab>, fs: seq<Frame>): seq<Frame> {
    if fs == [] then []
    else (if Holds(tabs, fs[0]) then [Pruned(tabs, fs[0])] else []) + Left(tabs, fs[1..])
  }

  lemma {:induction false} LeftConcat(tabs: seq<ShellTab>, a: seq<Frame>, b: seq<Frame>)
    ensures Left(tabs, a + b) == Left(tabs, a) + Left(tabs, b)
  {
    hide Holds, Pruned;
    if a == [] {
      assert a + b == b;
    } else {
      assert (a + b)[0] == a[0] && (a + b)[1..] == a[1..] + b;
      LeftConcat(tabs, a[1..], b);
    }
  }

  lemma {:induction false} NothingLeft(tabs: seq<ShellTab>, node: Node, depth: nat)
    requires forall n | n in Leaves(node) :: !Known(tabs, n)
    ensures Left(tabs, Outline(node, depth)) == []
    decreases node
  {
    var fs := Outline(node, depth);
    assert !Holds(tabs, fs[0]);
    if node.Row? {
      NoneLeft(tabs, node.rows, depth + 1);
      assert fs[1..] == Outlines(node.rows, depth + 1);
    } else {
      assert fs[1..] == [];
    }
  }

  lemma {:induction false} NoneLeft(tabs: seq<ShellTab>, nodes: seq<Node>, depth: nat)
    requires forall n | n in AllLeaves(nodes) :: !Known(tabs, n)
    ensures Left(tabs, Outlines(nodes, depth)) == []
    decreases nodes
  {
    if nodes != [] {
      NothingLeft(tabs, nodes[0], depth);
      NoneLeft(tabs, nodes[1..], depth);
      LeftConcat(tabs, Outline(nodes[0], depth), Outlines(nodes[1..], depth));
    }
  }

  /** Of the rows and sets those that hold a known tab are left, each at its place and
      depth with its attributes. */
  lemma {:induction false} ShapeIsKept(tabs: seq<ShellTab>, node: Node, depth: nat)
    ensures var r := ReconcileNode(tabs, node);
      (if r.Some? then Outline(r.value, depth) else []) == Left(tabs, Outline(node, depth))
    decreases node
  {
    var r, fs := ReconcileNode(tabs, node), Outline(node, depth);
    NodeKeepsKnown(tabs, node);
    if r.None? {
      NothingLeft(tabs, node, depth);
    } else if node.Row? {
      assert Holds(tabs, fs[0]);
      NodesKeepKnown(tabs, node.rows);
      ShapesAreKept(tabs, node.rows, depth + 1);
      assert fs[1..] == Outlines(node.rows, depth + 1);
    } else {
      assert Holds(tabs, fs[0]);
      assert fs[1..] == [];
    }
  }

  lemma {:induction false} ShapesAreKept(tabs: seq<ShellTab>, nodes: seq<Node>, depth: nat)
    ensures Outlines(ReconcileNodes(tabs, nodes), depth) == Left(tabs, Outlines(nodes, depth))
    decreases nodes
  {
    if nodes != [] {
      ShapeIsKept(tabs, nodes[0], depth);
      ShapesAreKept(tabs, nodes[1..], depth);
      LeftConcat(tabs, Outline(nodes[0], depth), Outlines(nodes[1..], depth));
      var rest := ReconcileNodes(tabs, nodes[1..]);
      match ReconcileNode(tabs, nodes[0])
      case None => assert [] + rest == rest;
      case Some(n) => assert ([n] + rest)[0] == n && ([n] + rest)[1..] == rest;
    }
  }

  /** A layout keeps its root, its attributes and all its borders, each with its known
      tabs; a border none of whose tabs is left selects none. */
  lemma LayoutIsKept(tabs: seq<ShellTab>, m: Model)
    ensures var r := Reconcile(tabs, m);
      && r.rest == m.rest && r.layoutRest == m.layoutRest
      && Outlines(r.layout, 1) == Left(tabs, Outlines(m.layout, 1))
      && (r.borders.None? <==> m.borders.None?)
      && (m.borders.Some? ==>
          && |r.borders.value| == |m.borders.value|
          && forall i | 0 <= i < |m.borders.value| ::
              var was, now := m.borders.value[i], r.borders.value[i];
              && now.rest == was.rest && now.tabs == ReconcileTabs(tabs, was.tabs)
              && now.selected == NormalizeSelected(was.selected, was.tabs, now.tabs, -1))
  {
    ShapesAreKept(tabs, m.layout, 1);
  }
}
