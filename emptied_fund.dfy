/**
 * A fund emptied through the edit tree: the add button puts a holding below
 * a fund without holdings, the remove button takes it away again, and the
 * fund is left with `children: []`. The next derivation run then calls
 * `reduce` without an initial value on an empty array (src/App.tsx:360),
 * which throws.
 */
module EmptiedFund {
  import opened DataModel
  import opened KeyCodec
  import opened TreeStore
  import opened TreeRemove
  import opened Converter
  import opened Derivation

  /** The keys of the example tree's nodes, root first. */
  datatype Layout = Layout(root: string, category: string, bonds: string, cash: string, stocks: string)

  /** The keys the loader gives: `0`, `0-0`, `0-0-0`, `0-0-0-0` and `0-0-1`. */
  function Position(): Layout {
    var root := ChildKey([], 0);
    var category := ChildKey(root, 0);
    var bonds := ChildKey(category, 0);
    Layout(root, category, bonds, ChildKey(bonds, 0), ChildKey(category, 1))
  }

  /** The fund without holdings, the second below the category. */
  function FundKey(): string {
    Position().stocks
  }

  function Node(name: string, value: real, key: string, children: ChildList): DataNode {
    DataNode(TreeTitle(name, value, key), NodeData(name, value), key, None, children)
  }

  function Cash(p: Layout): DataNode {
    Node("cash", 100.0, p.cash, UndefinedChildren)
  }

  function Bonds(p: Layout): DataNode {
    Node("bonds", 50.0, p.bonds, Children([Cash(p)]))
  }

  /** The second fund, with `c` as its children. */
  function Stocks(p: Layout, c: ChildList): DataNode {
    Node("stocks", 50.0, p.stocks, c)
  }

  function Category(p: Layout, c: ChildList): DataNode {
    Node("world", 100.0, p.category, Children([Bonds(p), Stocks(p, c)]))
  }

  function Tree(p: Layout, c: ChildList): seq<DataNode> {
    [Node("all", 100.0, p.root, Children([Category(p, c)]))]
  }

  /**
   * A tree as the loader builds it: one root, one category, and two funds of
   * target 50%. The first holds 100; the second has no holdings, so its
   * `children` is `undefined`.
   */
  function FundTree(): seq<DataNode> {
    Tree(Position(), UndefinedChildren)
  }

  /** Select the second fund and add a holding, then select that holding and remove it (src/App.tsx:401-447). */
  function AddedAndRemoved(): seq<DataNode> {
    Removal(None, AddNewTree(FundKey(), FundTree()), Extend(FundKey(), 0))
  }

  lemma KeysApart()
    ensures var p := Position();
      && p.root != p.stocks && p.category != p.stocks && p.bonds != p.stocks && p.cash != p.stocks
      && p.category == ChildKey(p.root, 0) && p.bonds == ChildKey(p.category, 0)
      && p.cash == ChildKey(p.bonds, 0) && p.stocks == ChildKey(p.category, 1) && p.root == ChildKey([], 0)
  {
    var p := Position();
    assert |p.root| < |p.category| < |p.stocks| < |p.cash|;
    if p.bonds == p.stocks {
      ExtendInjective(p.category, 0, p.category, 1);
    }
  }

  lemma FundTreeKeyed()
    ensures Keyed(FundTree(), [])
    ensures KidsAt(FundTree(), FundKey(), 0)
  {
    KeysApart();
    var p := Position();
    var k := FundKey();
    var u := UndefinedChildren;
    assert Keyed([Cash(p)], p.bonds);
    assert KidsAt([Cash(p)], k, 0);
    assert Keyed([Bonds(p), Stocks(p, u)], p.category);
    assert KidsAt([Bonds(p), Stocks(p, u)], k, 0);
    assert Keyed([Category(p, u)], p.root);
    assert KidsAt([Category(p, u)], k, 0);
  }

  /** Touching the second fund only turns its `undefined` children into `[]`. */
  lemma TouchFundTree()
    ensures Touch(FundTree(), FundKey()) == Tree(Position(), Children([]))
  {
    KeysApart();
    var p := Position();
    var k := FundKey();
    var u := UndefinedChildren;
    var e := Children([]);
    assert TouchNode(Cash(p), k) == Cash(p);
    assert Touch([Cash(p)], k) == [Cash(p)];
    assert TouchNode(Bonds(p), k) == Bonds(p);
    assert TouchNode(Stocks(p, u), k) == Stocks(p, e);
    assert Touch([Bonds(p), Stocks(p, u)], k) == [Bonds(p), Stocks(p, e)];
    assert TouchNode(Category(p, u), k) == Category(p, e);
    assert Touch([Category(p, u)], k) == [Category(p, e)];
  }

  lemma RemovalEmpties()
    ensures AddedAndRemoved() == Tree(Position(), Children([]))
    ensures ListCount(AddedAndRemoved()) == ListCount(FundTree())
    ensures Keyed(AddedAndRemoved(), [])
  {
    FundTreeKeyed();
    AddThenRemove(FundTree(), FundKey(), 0);
    TouchFundTree();
  }

  /** The radial snapshot of either tree, level by level. */
  lemma RadialLevels(p: Layout, c: ChildList)
    ensures Level3(ToRadialForest(Tree(p, c))) == [ToRadial(Bonds(p)), ToRadial(Stocks(p, c))]
    ensures Level4(ToRadialForest(Tree(p, c))) == [ToRadial(Cash(p))] + RingsOf(ToRadial(Stocks(p, c)))
  {
    var roots := ToRadialForest(Tree(p, c));
    var root := ToRadial(Tree(p, c)[0]);
    var cat := ToRadial(Category(p, c));
    var b := ToRadial(Bonds(p));
    var s := ToRadial(Stocks(p, c));
    assert roots == [root];
    assert RingsOf(root) == [cat];
    assert RingsOf(cat) == [b, s];
    assert RingsOf(b) == [ToRadial(Cash(p))];
    ConcatRingsSingle(root);
    ConcatRingsSingle(cat);
    ConcatRingsSingle(b);
    assert [b, s][..1] == [b];
  }

  /** The two funds as the radial snapshot shows them. */
  lemma RadialFunds(p: Layout, c: ChildList)
    requires c == UndefinedChildren || c == Children([])
    ensures ToRadial(Bonds(p)).value == 50.0 && RingsOf(ToRadial(Bonds(p))) == [ToRadial(Cash(p))]
    ensures GroupTotal(ToRadial(Bonds(p))) == Some(100.0)
    ensures ToRadial(Stocks(p, c)).value == 50.0 && RingsOf(ToRadial(Stocks(p, c))) == []
    ensures ToRadial(Stocks(p, c)).children == if c == UndefinedChildren then NoRings else Rings([])
  {
    var h := ToRadial(Cash(p));
    assert ToRadial(Bonds(p)).children == Rings([h]);
    assert [h][..0] == [];
    assert ValueSum([h]) == 100.0;
  }

  /** The first fund implies 100 / 50% = 200; the second weighs nothing in either tree. */
  lemma FundsMax(p: Layout, c: ChildList)
    requires c == UndefinedChildren || c == Children([])
    ensures MaxTotal(ToRadialForest(Tree(p, c))) == 200.0
  {
    RadialLevels(p, c);
    RadialFunds(p, c);
    var b := ToRadial(Bonds(p));
    var s := ToRadial(Stocks(p, c));
    assert Funded(b) && Implied(b) == 200.0;
    assert !Funded(s);
    assert [b, s][..1] == [b];
    assert [b][..0] == [];
    assert FoldMax(0.0, [b]) == 200.0;
  }

  /** The rewrite with 200 leaves the fund without holdings as it is. */
  lemma FundsRewrittenLevel3(p: Layout, c: ChildList)
    requires c == UndefinedChildren || c == Children([])
    ensures RewrittenFunds([ToRadial(Bonds(p)), ToRadial(Stocks(p, c))], 200.0) ==
            [RewrittenFund(ToRadial(Bonds(p)), 200.0), ToRadial(Stocks(p, c))]
  {
    var b := ToRadial(Bonds(p));
    var s := ToRadial(Stocks(p, c));
    assert RewrittenFund(s, 200.0) == s by {
      RadialFunds(p, c);
    }
    var r := RewrittenFunds([b, s], 200.0);
    assert r[0] == RewrittenFund(b, 200.0) && r[1] == RewrittenFund(s, 200.0);
  }

  /** After the rewrite with 200 the level-4 nodes are the first fund's holding, rewritten. */
  lemma FundsRewritten(p: Layout, c: ChildList)
    requires c == UndefinedChildren || c == Children([])
    ensures Level4(Rewrite(ToRadialForest(Tree(p, c)), 200.0)) == RewrittenLeaves([ToRadial(Cash(p))], 200.0)
  {
    var roots := ToRadialForest(Tree(p, c));
    RadialLevels(p, c);
    RewriteByLevel(roots, 200.0);
    FundsRewrittenLevel3(p, c);
    var s := ToRadial(Stocks(p, c));
    var rb := RewrittenFund(ToRadial(Bonds(p)), 200.0);
    assert RingsOf(rb) == RewrittenLeaves([ToRadial(Cash(p))], 200.0) by {
      RadialFunds(p, c);
    }
    assert RingsOf(s) == [] by {
      RadialFunds(p, c);
    }
    assert [rb, s][..1] == [rb];
    ConcatRingsSingle(rb);
  }

  lemma FundsSummary(p: Layout, c: ChildList)
    requires c == UndefinedChildren || c == Children([])
    ensures DerivedSummary(ToRadialForest(Tree(p, c))) == Summary(200.0, Some(Holdings(100.0, 100.0)))
  {
    var roots := ToRadialForest(Tree(p, c));
    var h := ToRadial(Cash(p));
    FundsMax(p, c);
    FundsRewritten(p, c);
    RadialLevels(p, c);
    RadialFunds(p, c);
    assert [h][..0] == [];
    assert ValueSum([h]) == 100.0;
    PriceSumRewritten([h], 200.0);
    assert |Level4(roots)| > 0;
    RunSummary(roots, Derived(roots));
  }

  /** Before the add, both funds let the run finish. */
  lemma LoadedDerivable(p: Layout)
    ensures AllDerivable(Level3(ToRadialForest(Tree(p, UndefinedChildren))))
  {
    RadialLevels(p, UndefinedChildren);
    RadialFunds(p, UndefinedChildren);
    var b := ToRadial(Bonds(p));
    var s := ToRadial(Stocks(p, UndefinedChildren));
    assert AllPresent([b, s]) by {
      assert HoldingsPresent(b) && HoldingsPresent(s);
    }
    assert AllFinite([b, s]) by {
      assert FiniteTarget(b) && FiniteTarget(s);
    }
  }

  /** After the removal, the second fund has an empty array of holdings. */
  lemma EmptiedNotPresent(p: Layout)
    ensures AllFinite(Level3(ToRadialForest(Tree(p, Children([])))))
    ensures !AllPresent(Level3(ToRadialForest(Tree(p, Children([])))))
  {
    RadialLevels(p, Children([]));
    RadialFunds(p, Children([]));
    var funds := Level3(ToRadialForest(Tree(p, Children([]))));
    assert FiniteTarget(funds[0]) && FiniteTarget(funds[1]);
    assert !HoldingsPresent(funds[1]);
  }

  /**
   * Adding and removing the holding gives the tree back with the second
   * fund's `children` now `[]`. Before, every fund lets the run finish;
   * afterwards the second fund makes it throw.
   */
  lemma EmptiedFundThrows()
    ensures Keyed(FundTree(), [])
    ensures ListCount(AddedAndRemoved()) == ListCount(FundTree())
    ensures AllDerivable(Level3(ToRadialForest(FundTree())))
    ensures AllFinite(Level3(ToRadialForest(AddedAndRemoved())))
    ensures !AllPresent(Level3(ToRadialForest(AddedAndRemoved())))
  {
    FundTreeKeyed();
    RemovalEmpties();
    LoadedDerivable(Position());
    EmptiedNotPresent(Position());
  }

  /**
   * The run on the snapshot of the tree before the add reports an expected
   * 200 with 100 held; after the add and the removal it throws.
   */
  method EmptiedFundRun() returns (before: Option<Summary>, after: Option<Summary>)
    ensures before == Some(Summary(200.0, Some(Holdings(100.0, 100.0))))
    ensures after == None
  {
    EmptiedFundThrows();
    FundsSummary(Position(), UndefinedChildren);
    var s := new RadialSnapshot(ToRadialForest(FundTree()));
    before := s.Derive();
    var e := new RadialSnapshot(ToRadialForest(AddedAndRemoved()));
    after := e.Derive();
  }

  /**
   * Read as a sum of 0, as `reduce` with the initial value 0 gives it, the
   * emptied fund weighs nothing: the figures are those from before the add.
   */
  lemma EmptiedFundFigures()
    ensures DerivedSummary(ToRadialForest(FundTree())) == Summary(200.0, Some(Holdings(100.0, 100.0)))
    ensures DerivedSummary(ToRadialForest(AddedAndRemoved())) == DerivedSummary(ToRadialForest(FundTree()))
  {
    RemovalEmpties();
    FundsSummary(Position(), UndefinedChildren);
    FundsSummary(Position(), Children([]));
  }
}
