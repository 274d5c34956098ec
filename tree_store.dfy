/**
 * The edit-tree operations of src/App.tsx that build a new tree from the old
 * one: insert a child (`addTreeData` and the app's `addNewTree`), shallow-merge
 * a patch (`updateTreeData`), and the pre-order listing (`getAllKeys`).
 */
module TreeStore {
  import opened DataModel
  import opened KeyCodec

  /** The factory `child(children, key)` that `addTreeData` calls for the new child. */
  type ChildFactory = (seq<DataNode>, string) -> DataNode

  /** Two nodes agree on everything but their children. */
  predicate SameEntry(a: DataNode, b: DataNode) {
    a.title == b.title && a.data == b.data && a.key == b.key && a.isLeaf == b.isLeaf
  }

  // ---------------------------------------------------------------- lookup

  /** Some node of the forest, at any depth, has key `key`. */
  predicate HasKey(list: seq<DataNode>, key: string) {
    exists i :: 0 <= i < |list| && NodeHasKey(list[i], key)
  }

  predicate NodeHasKey(n: DataNode, key: string) {
    n.key == key ||
    match n.children
    case NoChildren | UndefinedChildren => false
    case Children(cs) => HasKey(cs, key)
  }

  /**
   * Sibling keys are the contiguous positions 0..n-1 below their parent's key,
   * at every level: the key layout the converter produces on load.
   */
  predicate Keyed(list: seq<DataNode>, parent: string) {
    forall i :: 0 <= i < |list| ==> list[i].key == ChildKey(parent, i) && KeyedNode(list[i])
  }

  predicate KeyedNode(n: DataNode) {
    match n.children
    case NoChildren | UndefinedChildren => true
    case Children(cs) => Keyed(cs, n.key)
  }

  // ---------------------------------------------------------------- insert

  /**
   * `addTreeData` (src/App.tsx:133-155): every node keyed `key` (not looking
   * below it) gets `child(oldChildren, key)` appended to its children; other
   * nodes with children are rebuilt around the recursive result.
   */
  function AddTreeData(list: seq<DataNode>, key: string, child: ChildFactory): (r: seq<DataNode>)
    ensures |r| == |list|
    ensures forall i :: 0 <= i < |list| ==> SameEntry(r[i], list[i])
    ensures forall i :: 0 <= i < |list| && list[i].key == key ==>
              r[i].children == Children(Kids(list[i]) + [child(Kids(list[i]), key)])
    ensures forall i :: 0 <= i < |list| && list[i].key != key && !list[i].children.Children? ==>
              r[i] == list[i]
  {
    seq(|list|, i requires 0 <= i < |list| => AddNode(list[i], key, child))
  }

  function AddNode(node: DataNode, key: string, child: ChildFactory): DataNode {
    if node.key == key then
      node.(children := Children(Kids(node) + [child(Kids(node), key)]))
    else
      match node.children
      case NoChildren | UndefinedChildren => node
      case Children(cs) => node.(children := Children(AddTreeData(cs, key, child)))
  }

  /** An unknown key gives back the same tree. */
  lemma {:induction false} AddUnknownKey(list: seq<DataNode>, key: string, child: ChildFactory)
    requires !HasKey(list, key)
    ensures AddTreeData(list, key, child) == list
  {
    forall i | 0 <= i < |list|
      ensures AddNode(list[i], key, child) == list[i]
    {
      AddUnknownKeyNode(list[i], key, child);
    }
  }

  lemma {:induction false} AddUnknownKeyNode(n: DataNode, key: string, child: ChildFactory)
    requires !NodeHasKey(n, key)
    ensures AddNode(n, key, child) == n
  {
    match n.children
    case NoChildren | UndefinedChildren =>
    case Children(cs) => AddUnknownKey(cs, key, child);
  }

  /** Nodes keyed `key` that do not sit below another node keyed `key`. */
  function TopMatches(list: seq<DataNode>, key: string): nat {
    if list == [] then 0
    else TopMatches(list[..|list| - 1], key) + NodeTopMatches(list[|list| - 1], key)
  }

  function NodeTopMatches(n: DataNode, key: string): nat {
    if n.key == key then 1
    else
      match n.children
      case NoChildren | UndefinedChildren => 0
      case Children(cs) => TopMatches(cs, key)
  }

  /** With a factory that makes leaves, the tree grows by one node per top-level match. */
  lemma {:induction false} AddCount(list: seq<DataNode>, key: string, child: ChildFactory)
    requires forall cs, k :: !child(cs, k).children.Children?
    ensures ListCount(AddTreeData(list, key, child)) == ListCount(list) + TopMatches(list, key)
  {
    if list != [] {
      var n := |list| - 1;
      var r := AddTreeData(list, key, child);
      AddCount(list[..n], key, child);
      assert r[..n] == AddTreeData(list[..n], key, child);
      AddCountNode(list[n], key, child);
    }
  }

  lemma {:induction false} AddCountNode(node: DataNode, key: string, child: ChildFactory)
    requires forall cs, k :: !child(cs, k).children.Children?
    ensures NodeCount(AddNode(node, key, child)) == NodeCount(node) + NodeTopMatches(node, key)
  {
    if node.key == key {
      var kids := Kids(node);
      var leaf := child(kids, key);
      ListCountConcat(kids, [leaf]);
      assert [leaf][..0] == [];
      match node.children
      case NoChildren | UndefinedChildren =>
      case Children(cs) =>
    } else {
      match node.children
      case NoChildren | UndefinedChildren =>
      case Children(cs) => AddCount(cs, key, child);
    }
  }

  /** A new leaf made by the app: a placeholder name and the value 0 (src/App.tsx:407-416, 420-431). */
  function NewNode(key: string, children: ChildList): DataNode {
    DataNode(TreeTitle("new Date", 0.0, key), NodeData("new Date", 0.0), key, None, children)
  }

  /**
   * The factory `addNewTree` hands to `addTreeData` (src/App.tsx:406-417): the
   * child is keyed `${treeKey}-${children.length}` (the selected key, not the
   * factory's `key` argument) and has no children property.
   */
  function AppChildFactory(treeKey: string): (f: ChildFactory) {
    (children: seq<DataNode>, key: string) =>
      NewNode(Extend(treeKey, |children|), NoChildren)
  }

  /** The factory's child sits one level below the selected node, at the next free position. */
  lemma AppChildFactoryKey(treeKey: string, children: seq<DataNode>, key: string)
    ensures AppChildFactory(treeKey)(children, key).key == Extend(treeKey, |children|)
    ensures ParseKey(AppChildFactory(treeKey)(children, key).key) == ParseKey(treeKey) + 1
    ensures AppChildFactory(treeKey)(children, key).children == NoChildren
  {
    ExtendDeepens(treeKey, |children|);
  }

  /** The root insert of `addNewTree` when nothing is selected (src/App.tsx:419-432). */
  function AddRoot(tree: seq<DataNode>): (r: seq<DataNode>)
    ensures |r| == |tree| + 1 && r[..|tree|] == tree
    ensures r[|tree|].key == RootKey(|tree|) && r[|tree|].children == Children([])
  {
    tree + [NewNode(RootKey(|tree|), Children([]))]
  }

  /** `addNewTree` (src/App.tsx:401-434): insert below the selected key, or a new root. */
  function AddNewTree(treeKey: string, tree: seq<DataNode>): seq<DataNode> {
    if treeKey != [] then AddTreeData(tree, treeKey, AppChildFactory(treeKey))
    else AddRoot(tree)
  }

  /** Inserting through the app keeps every sibling list keyed by contiguous positions. */
  lemma AddNewTreeKeyed(treeKey: string, tree: seq<DataNode>)
    requires Keyed(tree, [])
    ensures Keyed(AddNewTree(treeKey, tree), [])
  {
    if treeKey != [] {
      AddKeyed(tree, [], treeKey);
    } else {
      var r := AddRoot(tree);
      forall i | 0 <= i < |r|
        ensures r[i].key == ChildKey([], i) && KeyedNode(r[i])
      {
        if i < |tree| {
          assert r[i] == tree[i];
        }
      }
    }
  }

  lemma {:induction false} AddKeyed(list: seq<DataNode>, parent: string, treeKey: string)
    requires treeKey != []
    requires Keyed(list, parent)
    ensures Keyed(AddTreeData(list, treeKey, AppChildFactory(treeKey)), parent)
  {
    var r := AddTreeData(list, treeKey, AppChildFactory(treeKey));
    forall i | 0 <= i < |list|
      ensures r[i].key == ChildKey(parent, i) && KeyedNode(r[i])
    {
      AddKeyedNode(list[i], treeKey);
    }
  }

  lemma {:induction false} AddKeyedNode(node: DataNode, treeKey: string)
    requires treeKey != []
    requires KeyedNode(node)
    ensures KeyedNode(AddNode(node, treeKey, AppChildFactory(treeKey)))
  {
    var f := AppChildFactory(treeKey);
    if node.key == treeKey {
      var kids := Kids(node);
      var cs := kids + [f(kids, treeKey)];
      assert Keyed(kids, node.key) by {
        match node.children
        case NoChildren | UndefinedChildren =>
        case Children(c) =>
      }
      forall j | 0 <= j < |cs|
        ensures cs[j].key == ChildKey(node.key, j) && KeyedNode(cs[j])
      {
        if j < |kids| {
          assert cs[j] == kids[j];
        }
      }
    } else {
      match node.children
      case NoChildren | UndefinedChildren =>
      case Children(cs) => AddKeyed(cs, node.key, treeKey);
    }
  }

  // ---------------------------------------------------------------- update

  /**
   * `{...node, ...patch}`: the patch's own properties win, its absent optional
   * ones fall through; a `children` property set to `undefined` is an own
   * property and wins too.
   */
  function Merge(node: DataNode, patch: DataNode): DataNode {
    DataNode(
      patch.title,
      patch.data,
      patch.key,
      if patch.isLeaf.Some? then patch.isLeaf else node.isLeaf,
      if patch.children == NoChildren then node.children else patch.children)
  }

  /**
   * `updateTreeData` (src/App.tsx:157-173): every node keyed `key` (not looking
   * below it) becomes `{...node, ...patch}`; other nodes with children are
   * rebuilt around the recursive result.
   */
  function UpdateTreeData(list: seq<DataNode>, key: string, patch: DataNode): (r: seq<DataNode>)
    ensures |r| == |list|
    ensures forall i :: 0 <= i < |list| && list[i].key == key ==> r[i] == Merge(list[i], patch)
    ensures forall i :: 0 <= i < |list| && list[i].key != key ==>
              SameEntry(r[i], list[i]) && r[i].children.Children? == list[i].children.Children?
    ensures forall i :: 0 <= i < |list| && list[i].key != key && !list[i].children.Children? ==>
              r[i] == list[i]
  {
    seq(|list|, i requires 0 <= i < |list| => UpdateNode(list[i], key, patch))
  }

  function UpdateNode(node: DataNode, key: string, patch: DataNode): DataNode {
    if node.key == key then Merge(node, patch)
    else
      match node.children
      case NoChildren | UndefinedChildren => node
      case Children(cs) => node.(children := Children(UpdateTreeData(cs, key, patch)))
  }

  /** An unknown key gives back the same tree. */
  lemma {:induction false} UpdateUnknownKey(list: seq<DataNode>, key: string, patch: DataNode)
    requires !HasKey(list, key)
    ensures UpdateTreeData(list, key, patch) == list
  {
    forall i | 0 <= i < |list|
      ensures UpdateNode(list[i], key, patch) == list[i]
    {
      UpdateUnknownKeyNode(list[i], key, patch);
    }
  }

  lemma {:induction false} UpdateUnknownKeyNode(n: DataNode, key: string, patch: DataNode)
    requires !NodeHasKey(n, key)
    ensures UpdateNode(n, key, patch) == n
  {
    match n.children
    case NoChildren | UndefinedChildren =>
    case Children(cs) => UpdateUnknownKey(cs, key, patch);
  }

  /** A patch without a children property leaves the number of nodes unchanged. */
  lemma {:induction false} UpdateCount(list: seq<DataNode>, key: string, patch: DataNode)
    requires patch.children == NoChildren
    ensures ListCount(UpdateTreeData(list, key, patch)) == ListCount(list)
  {
    if list != [] {
      var n := |list| - 1;
      var r := UpdateTreeData(list, key, patch);
      UpdateCount(list[..n], key, patch);
      assert r[..n] == UpdateTreeData(list[..n], key, patch);
      UpdateCountNode(list[n], key, patch);
    }
  }

  lemma {:induction false} UpdateCountNode(node: DataNode, key: string, patch: DataNode)
    requires patch.children == NoChildren
    ensures NodeCount(UpdateNode(node, key, patch)) == NodeCount(node)
  {
    if node.key != key {
      match node.children
      case NoChildren | UndefinedChildren =>
      case Children(cs) => UpdateCount(cs, key, patch);
    }
  }

  /**
   * A patch that keeps the node's key, and brings either no children or
   * children keyed below that key, keeps the whole tree position-keyed.
   */
  lemma {:induction false} UpdateKeyed(list: seq<DataNode>, parent: string, key: string, patch: DataNode)
    requires Keyed(list, parent)
    requires patch.key == key
    requires patch.children.Children? ==> Keyed(patch.children.nodes, key)
    ensures Keyed(UpdateTreeData(list, key, patch), parent)
  {
    var r := UpdateTreeData(list, key, patch);
    forall i | 0 <= i < |list|
      ensures r[i].key == ChildKey(parent, i) && KeyedNode(r[i])
    {
      UpdateKeyedNode(list[i], key, patch);
    }
  }

  lemma {:induction false} UpdateKeyedNode(node: DataNode, key: string, patch: DataNode)
    requires KeyedNode(node)
    requires patch.key == key
    requires patch.children.Children? ==> Keyed(patch.children.nodes, key)
    ensures KeyedNode(UpdateNode(node, key, patch))
  {
    if node.key != key {
      match node.children
      case NoChildren | UndefinedChildren =>
      case Children(cs) => UpdateKeyed(cs, node.key, key, patch);
    }
  }

  // ---------------------------------------------------------------- reach

  /** No node of the forest, at any depth, carries the key. */
  lemma {:induction false} AbsentKey(list: seq<DataNode>, key: string)
    requires forall x :: InForest(x, list) ==> x.key != key
    ensures !HasKey(list, key)
    decreases list, 1
  {
    forall i | 0 <= i < |list|
      ensures !NodeHasKey(list[i], key)
    {
      forall x | InSubtree(x, list[i])
        ensures x.key != key
      {
        assert InForest(x, list);
      }
      AbsentNodeKey(list[i], key);
    }
  }

  lemma {:induction false} AbsentNodeKey(n: DataNode, key: string)
    requires forall x :: InSubtree(x, n) ==> x.key != key
    ensures !NodeHasKey(n, key)
    decreases n, 0
  {
    assert InSubtree(n, n);
    match n.children
    case NoChildren | UndefinedChildren =>
    case Children(cs) =>
      forall x | InForest(x, cs)
        ensures x.key != key
      {
        assert InSubtree(x, n);
      }
      AbsentKey(cs, key);
  }

  /** In a position-keyed node, no strict descendant carries the node's own key. */
  lemma DescendantKeyDiffers(n: DataNode, x: DataNode)
    requires KeyedNode(n) && InForest(x, Kids(n))
    ensures x.key != n.key
  {
    NodeKeysBelow(n);
    PreOrderMembers(Kids(n), x);
  }

  /** In a position-keyed forest, the key of a node below entry `i` occurs below no other entry. */
  lemma OtherEntriesMiss(list: seq<DataNode>, parent: string, i: nat, m: DataNode, j: nat)
    requires Keyed(list, parent) && i < |list| && j < |list| && i != j
    requires InSubtree(m, list[i])
    ensures !NodeHasKey(list[j], m.key)
  {
    NodePreOrderMembers(list[i], m);
    EntryKeysBelow(list, parent, i, m);
    forall y | InSubtree(y, list[j])
      ensures y.key != m.key
    {
      NodePreOrderMembers(list[j], y);
      EntryKeysBelow(list, parent, j, y);
      if y.key == m.key {
        NatToStringInjective(i, j);
      }
    }
    AbsentNodeKey(list[j], m.key);
  }

  /** The first `n` entries of a position-keyed forest are keyed by position too. */
  lemma KeyedPrefix(list: seq<DataNode>, parent: string, n: nat)
    requires Keyed(list, parent) && n <= |list|
    ensures Keyed(list[..n], parent)
  {
    assert forall j :: 0 <= j < n ==> list[..n][j] == list[j];
  }

  /** Without the key anywhere there is nothing to match. */
  lemma {:induction false} NoKeyNoMatches(list: seq<DataNode>, key: string)
    requires !HasKey(list, key)
    ensures TopMatches(list, key) == 0
  {
    if list != [] {
      var n := |list| - 1;
      assert !NodeHasKey(list[n], key);
      assert !HasKey(list[..n], key) by {
        forall j | 0 <= j < n
          ensures !NodeHasKey(list[..n][j], key)
        {
          assert list[..n][j] == list[j];
        }
      }
      NoKeyNoMatches(list[..n], key);
      NodeNoKeyNoMatches(list[n], key);
    }
  }

  lemma {:induction false} NodeNoKeyNoMatches(n: DataNode, key: string)
    requires !NodeHasKey(n, key)
    ensures NodeTopMatches(n, key) == 0
  {
    match n.children
    case NoChildren | UndefinedChildren =>
    case Children(cs) => NoKeyNoMatches(cs, key);
  }

  /** In a position-keyed forest the key of any node is matched exactly once. */
  lemma {:induction false} TopMatchesKeyed(list: seq<DataNode>, parent: string, m: DataNode)
    requires Keyed(list, parent) && InForest(m, list)
    ensures TopMatches(list, m.key) == 1
    decreases list, 1
  {
    var n := |list| - 1;
    var front := list[..n];
    var i :| 0 <= i < |list| && InSubtree(m, list[i]);
    KeyedPrefix(list, parent, n);
    if i == n {
      forall j | 0 <= j < n
        ensures !NodeHasKey(front[j], m.key)
      {
        OtherEntriesMiss(list, parent, i, m, j);
      }
      NoKeyNoMatches(front, m.key);
      NodeTopMatchesKeyed(list[n], m);
    } else {
      assert InSubtree(m, front[i]);
      TopMatchesKeyed(front, parent, m);
      OtherEntriesMiss(list, parent, i, m, n);
      NodeNoKeyNoMatches(list[n], m.key);
    }
  }

  lemma {:induction false} NodeTopMatchesKeyed(n: DataNode, m: DataNode)
    requires KeyedNode(n) && InSubtree(m, n)
    ensures NodeTopMatches(n, m.key) == 1
    decreases n, 0
  {
    if n.key != m.key {
      TopMatchesKeyed(n.children.nodes, n.key, m);
    }
  }

  /**
   * In a position-keyed forest the insert reaches every node with the key,
   * at any depth, and appends the factory's child to its children.
   */
  lemma {:induction false} AddReaches(list: seq<DataNode>, parent: string, key: string, child: ChildFactory, m: DataNode)
    requires Keyed(list, parent) && InForest(m, list) && m.key == key
    ensures InForest(m.(children := Children(Kids(m) + [child(Kids(m), key)])), AddTreeData(list, key, child))
    decreases list, 1
  {
    var i :| 0 <= i < |list| && InSubtree(m, list[i]);
    AddReachesNode(list[i], key, child, m);
    assert AddTreeData(list, key, child)[i] == AddNode(list[i], key, child);
  }

  lemma {:induction false} AddReachesNode(n: DataNode, key: string, child: ChildFactory, m: DataNode)
    requires KeyedNode(n) && InSubtree(m, n) && m.key == key
    ensures InSubtree(m.(children := Children(Kids(m) + [child(Kids(m), key)])), AddNode(n, key, child))
    decreases n, 0
  {
    if m != n {
      DescendantKeyDiffers(n, m);
      AddReaches(n.children.nodes, n.key, key, child, m);
    }
  }

  /**
   * In a position-keyed forest the update reaches every node with the key,
   * at any depth, and leaves `{...node, ...patch}` in its place.
   */
  lemma {:induction false} UpdateReaches(list: seq<DataNode>, parent: string, key: string, patch: DataNode, m: DataNode)
    requires Keyed(list, parent) && InForest(m, list) && m.key == key
    ensures InForest(Merge(m, patch), UpdateTreeData(list, key, patch))
    decreases list, 1
  {
    var i :| 0 <= i < |list| && InSubtree(m, list[i]);
    UpdateReachesNode(list[i], key, patch, m);
    assert UpdateTreeData(list, key, patch)[i] == UpdateNode(list[i], key, patch);
  }

  lemma {:induction false} UpdateReachesNode(n: DataNode, key: string, patch: DataNode, m: DataNode)
    requires KeyedNode(n) && InSubtree(m, n) && m.key == key
    ensures InSubtree(Merge(m, patch), UpdateNode(n, key, patch))
    decreases n, 0
  {
    if m != n {
      DescendantKeyDiffers(n, m);
      UpdateReaches(n.children.nodes, n.key, key, patch, m);
    }
  }

  /**
   * A node whose subtree does not hold the key comes through the insert
   * unchanged, at any depth: a node with the key above it keeps its old
   * children in front of the new one.
   */
  lemma {:induction false} AddKeepsOthers(list: seq<DataNode>, key: string, child: ChildFactory, x: DataNode)
    requires InForest(x, list) && !NodeHasKey(x, key)
    ensures InForest(x, AddTreeData(list, key, child))
    decreases list, 1
  {
    var i :| 0 <= i < |list| && InSubtree(x, list[i]);
    AddKeepsOthersNode(list[i], key, child, x);
    assert AddTreeData(list, key, child)[i] == AddNode(list[i], key, child);
  }

  lemma {:induction false} AddKeepsOthersNode(n: DataNode, key: string, child: ChildFactory, x: DataNode)
    requires InSubtree(x, n) && !NodeHasKey(x, key)
    ensures InSubtree(x, AddNode(n, key, child))
    decreases n, 0
  {
    if x == n {
      AddUnknownKeyNode(n, key, child);
    } else if n.key == key {
      var cs := n.children.nodes;
      var i :| 0 <= i < |cs| && InSubtree(x, cs[i]);
      assert (cs + [child(cs, key)])[i] == cs[i];
    } else {
      AddKeepsOthers(n.children.nodes, key, child, x);
    }
  }

  /**
   * In a position-keyed forest a node that is neither the node with the key,
   * nor above it, nor below it comes through the update unchanged, at any
   * depth.
   */
  lemma {:induction false} UpdateKeepsOthers(list: seq<DataNode>, parent: string, key: string, patch: DataNode, x: DataNode)
    requires Keyed(list, parent) && InForest(x, list)
    requires !NodeHasKey(x, key) && !Below(x.key, Fields(key))
    ensures InForest(x, UpdateTreeData(list, key, patch))
    decreases list, 1
  {
    var i :| 0 <= i < |list| && InSubtree(x, list[i]);
    UpdateKeepsOthersNode(list[i], key, patch, x);
    assert UpdateTreeData(list, key, patch)[i] == UpdateNode(list[i], key, patch);
  }

  lemma {:induction false} UpdateKeepsOthersNode(n: DataNode, key: string, patch: DataNode, x: DataNode)
    requires KeyedNode(n) && InSubtree(x, n)
    requires !NodeHasKey(x, key) && !Below(x.key, Fields(key))
    ensures InSubtree(x, UpdateNode(n, key, patch))
    decreases n, 0
  {
    if x == n {
      UpdateUnknownKeyNode(n, key, patch);
    } else {
      assert n.key != key by {
        NodeKeysBelow(n);
        NodePreOrderMembers(n, x);
      }
      UpdateKeepsOthers(n.children.nodes, n.key, key, patch, x);
    }
  }

  /**
   * In a position-keyed forest the update changes the node count only at
   * the node with the key: its subtree is traded for that of the merge.
   */
  lemma {:induction false} UpdateCountAt(list: seq<DataNode>, parent: string, key: string, patch: DataNode, m: DataNode)
    requires Keyed(list, parent) && InForest(m, list) && m.key == key
    ensures ListCount(UpdateTreeData(list, key, patch)) + NodeCount(m) == ListCount(list) + NodeCount(Merge(m, patch))
    decreases list, 2
  {
    var n := |list| - 1;
    var front := list[..n];
    UpdateSplitCount(list, key, patch);
    KeyedPrefix(list, parent, n);
    var i :| 0 <= i < |list| && InSubtree(m, list[i]);
    if i == n {
      UpdateCountInLast(list, parent, key, patch, m);
      UpdateCountAtNode(list[n], key, patch, m);
    } else {
      assert InSubtree(m, front[i]);
      UpdateCountAt(front, parent, key, patch, m);
      assert UpdateNode(list[n], key, patch) == list[n] by {
        OtherEntriesMiss(list, parent, i, m, n);
        UpdateUnknownKeyNode(list[n], key, patch);
      }
    }
  }

  /** The count of an updated forest: the updated front, then the updated last entry. */
  lemma UpdateSplitCount(list: seq<DataNode>, key: string, patch: DataNode)
    requires |list| > 0
    ensures ListCount(UpdateTreeData(list, key, patch)) ==
              ListCount(UpdateTreeData(list[..|list| - 1], key, patch)) + NodeCount(UpdateNode(list[|list| - 1], key, patch))
  {
    var n := |list| - 1;
    var r := UpdateTreeData(list, key, patch);
    assert r[..n] == UpdateTreeData(list[..n], key, patch);
  }

  /** The node with the key is below the last entry, so the others are left as they are. */
  lemma UpdateCountInLast(list: seq<DataNode>, parent: string, key: string, patch: DataNode, m: DataNode)
    requires Keyed(list, parent) && |list| > 0 && InSubtree(m, list[|list| - 1]) && m.key == key
    ensures UpdateTreeData(list[..|list| - 1], key, patch) == list[..|list| - 1]
  {
    var n := |list| - 1;
    forall j | 0 <= j < n
      ensures !NodeHasKey(list[..n][j], key)
    {
      OtherEntriesMiss(list, parent, n, m, j);
    }
    UpdateUnknownKey(list[..n], key, patch);
  }

  lemma {:induction false} UpdateCountAtNode(n: DataNode, key: string, patch: DataNode, m: DataNode)
    requires KeyedNode(n) && InSubtree(m, n) && m.key == key
    ensures NodeCount(UpdateNode(n, key, patch)) + NodeCount(m) == NodeCount(n) + NodeCount(Merge(m, patch))
    decreases n, 1
  {
    if m != n {
      DescendantKeyDiffers(n, m);
      UpdateCountAt(n.children.nodes, n.key, key, patch, m);
    }
  }

  // ---------------------------------------------------------------- form

  /**
   * The patch the node form saves (src/App.tsx:55-63): a copy of the node
   * selected in the tree, as it was when it was selected, with the new name
   * and value in its title and data.
   */
  function FormPatch(selected: DataNode, name: string, value: real): DataNode {
    selected.(title := TreeTitle(name, value, selected.key), data := NodeData(name, value))
  }

  /** `onFinish` then `update` (src/App.tsx:51-64, 436-438): without a key or a name nothing is saved. */
  function FormSubmit(tree: seq<DataNode>, treeKey: string, selected: DataNode, name: string, value: real)
    : seq<DataNode>
  {
    if treeKey == [] || name == [] then tree
    else UpdateTreeData(tree, treeKey, FormPatch(selected, name, value))
  }

  /**
   * A saved node takes the children it had when it was selected: the patch
   * carries them (an undefined `children` too), and the spread lets them win.
   * In a position-keyed tree this holds at every depth: the node with the key
   * is replaced by the renamed selection, of which only an absent `isLeaf`
   * falls through.
   */
  lemma FormSubmitRestoresSelection(tree: seq<DataNode>, treeKey: string, selected: DataNode, name: string, value: real)
    requires treeKey != [] && name != [] && selected.children != NoChildren
    ensures forall i :: 0 <= i < |tree| && tree[i].key == treeKey ==>
              FormSubmit(tree, treeKey, selected, name, value)[i].children == selected.children
    ensures Keyed(tree, []) ==> forall m :: InForest(m, tree) && m.key == treeKey ==>
              InForest(FormPatch(selected, name, value).(isLeaf := if selected.isLeaf.Some? then selected.isLeaf else m.isLeaf),
                       FormSubmit(tree, treeKey, selected, name, value))
  {
    if Keyed(tree, []) {
      var p := FormPatch(selected, name, value);
      forall m | InForest(m, tree) && m.key == treeKey
        ensures InForest(p.(isLeaf := if selected.isLeaf.Some? then selected.isLeaf else m.isLeaf),
                         FormSubmit(tree, treeKey, selected, name, value))
      {
        UpdateReaches(tree, [], treeKey, p, m);
      }
    }
  }

  /**
   * A node loaded without children (so with `children: undefined`), given a
   * child by the add button and then saved through the form it was selected
   * with, loses that child again.
   */
  lemma StaleFormDropsChild(l: DataNode, name: string, value: real)
    requires l.key != [] && l.children == UndefinedChildren && name != []
    ensures ListCount(AddNewTree(l.key, [l])) == 2
    ensures FormSubmit(AddNewTree(l.key, [l]), l.key, l, name, value) == [FormPatch(l, name, value)]
    ensures ListCount(FormSubmit(AddNewTree(l.key, [l]), l.key, l, name, value)) == 1
  {
    var f := AppChildFactory(l.key);
    var grown := AddNewTree(l.key, [l]);
    var child := f([], l.key);
    assert grown[0].children == Children([child]) && SameEntry(grown[0], l);
    assert grown == [l.(children := Children([child]))];
    assert ListCount([child]) == 1;
    var saved := FormSubmit(grown, l.key, l, name, value);
    assert saved[0] == Merge(grown[0], FormPatch(l, name, value));
    assert ListCount(saved) == NodeCount(saved[0]);
  }

  /**
   * The same loss at any depth: in a position-keyed tree, a node without
   * children (so with `children: undefined`) is given a child, one node more,
   * and the save through its stale selection puts the childless snapshot back,
   * one node less.
   */
  lemma StaleFormDropsNestedChild(tree: seq<DataNode>, l: DataNode, name: string, value: real)
    requires Keyed(tree, []) && InForest(l, tree)
    requires l.key != [] && l.children == UndefinedChildren && name != []
    ensures ListCount(AddNewTree(l.key, tree)) == ListCount(tree) + 1
    ensures InForest(l.(children := Children([NewNode(Extend(l.key, 0), NoChildren)])), AddNewTree(l.key, tree))
    ensures InForest(FormPatch(l, name, value), FormSubmit(AddNewTree(l.key, tree), l.key, l, name, value))
    ensures ListCount(FormSubmit(AddNewTree(l.key, tree), l.key, l, name, value)) == ListCount(tree)
  {
    var g := AddNewTree(l.key, tree);
    var grown := l.(children := Children([NewNode(Extend(l.key, 0), NoChildren)]));
    AddChildBelow(tree, l);
    var p := FormPatch(l, name, value);
    assert FormSubmit(g, l.key, l, name, value) == UpdateTreeData(g, l.key, p);
    UpdateReaches(g, [], l.key, p, grown);
    assert Merge(grown, p) == p;
    UpdateCountAt(g, [], l.key, p, grown);
  }

  /** The add button below a childless node of a position-keyed tree: one node more, found at that node. */
  lemma AddChildBelow(tree: seq<DataNode>, l: DataNode)
    requires Keyed(tree, []) && InForest(l, tree)
    requires l.key != [] && !l.children.Children?
    ensures ListCount(AddNewTree(l.key, tree)) == ListCount(tree) + 1
    ensures InForest(l.(children := Children([NewNode(Extend(l.key, 0), NoChildren)])), AddNewTree(l.key, tree))
    ensures NodeCount(l.(children := Children([NewNode(Extend(l.key, 0), NoChildren)]))) == 2
    ensures Keyed(AddNewTree(l.key, tree), [])
  {
    var f := AppChildFactory(l.key);
    var g := AddNewTree(l.key, tree);
    assert g == AddTreeData(tree, l.key, f);
    AddCount(tree, l.key, f);
    TopMatchesKeyed(tree, [], l);
    var leaf := NewNode(Extend(l.key, 0), NoChildren);
    assert Kids(l) + [f(Kids(l), l.key)] == [leaf];
    AddReaches(tree, [], l.key, f, l);
    AddKeyed(tree, [], l.key);
    assert ListCount([leaf]) == 1;
  }

  /** The intended patch: the new title and data only, so the node keeps its current children. */
  function FixedFormPatch(selected: DataNode, name: string, value: real): DataNode {
    FormPatch(selected, name, value).(isLeaf := None, children := NoChildren)
  }

  function FixedFormSubmit(tree: seq<DataNode>, treeKey: string, selected: DataNode, name: string, value: real)
    : seq<DataNode>
  {
    if treeKey == [] || name == [] then tree
    else UpdateTreeData(tree, treeKey, FixedFormPatch(selected, name, value))
  }

  /**
   * Saving through the intended patch renames the node and keeps its
   * children, whatever was selected: the node count is unchanged, and a
   * position-keyed tree stays position-keyed.
   */
  lemma FixedFormKeepsChildren(tree: seq<DataNode>, treeKey: string, selected: DataNode, name: string, value: real)
    requires selected.key == treeKey
    ensures ListCount(FixedFormSubmit(tree, treeKey, selected, name, value)) == ListCount(tree)
    ensures Keyed(tree, []) ==> Keyed(FixedFormSubmit(tree, treeKey, selected, name, value), [])
    ensures name != [] && treeKey != [] ==> forall i :: 0 <= i < |tree| && tree[i].key == treeKey ==>
              FixedFormSubmit(tree, treeKey, selected, name, value)[i].children == tree[i].children
              && FixedFormSubmit(tree, treeKey, selected, name, value)[i].data == NodeData(name, value)
    ensures name != [] && treeKey != [] && Keyed(tree, []) ==> forall m :: InForest(m, tree) && m.key == treeKey ==>
              InForest(m.(title := TreeTitle(name, value, treeKey), data := NodeData(name, value)),
                       FixedFormSubmit(tree, treeKey, selected, name, value))
  {
    if treeKey != [] && name != [] {
      var p := FixedFormPatch(selected, name, value);
      var r := FixedFormSubmit(tree, treeKey, selected, name, value);
      assert r == UpdateTreeData(tree, treeKey, p);
      assert p.children == NoChildren && p.key == treeKey;
      UpdateCount(tree, treeKey, p);
      if Keyed(tree, []) {
        UpdateKeyed(tree, [], treeKey, p);
        forall m | InForest(m, tree) && m.key == treeKey
          ensures InForest(m.(title := TreeTitle(name, value, treeKey), data := NodeData(name, value)), r)
        {
          UpdateReaches(tree, [], treeKey, p, m);
          assert Merge(m, p) == m.(title := TreeTitle(name, value, treeKey), data := NodeData(name, value));
        }
      }
    }
  }

  // ---------------------------------------------------------------- listing

  /** Pre-order listing of a forest: each node, then its subtree. */
  function PreOrder(list: seq<DataNode>): seq<DataNode> {
    if list == [] then [] else PreOrder(list[..|list| - 1]) + NodePreOrder(list[|list| - 1])
  }

  function NodePreOrder(n: DataNode): seq<DataNode> {
    match n.children
    case NoChildren | UndefinedChildren => [n]
    case Children(cs) => [n] + PreOrder(cs)
  }

  /** `x` is one of the forest's nodes, at any depth. */
  predicate InForest(x: DataNode, list: seq<DataNode>) {
    exists i :: 0 <= i < |list| && InSubtree(x, list[i])
  }

  predicate InSubtree(x: DataNode, n: DataNode) {
    x == n ||
    match n.children
    case NoChildren | UndefinedChildren => false
    case Children(cs) => InForest(x, cs)
  }

  /** The listing has one entry per node of the forest. */
  lemma {:induction false} PreOrderLength(list: seq<DataNode>)
    ensures |PreOrder(list)| == ListCount(list)
  {
    if list != [] {
      PreOrderLength(list[..|list| - 1]);
      NodePreOrderLength(list[|list| - 1]);
    }
  }

  lemma {:induction false} NodePreOrderLength(n: DataNode)
    ensures |NodePreOrder(n)| == NodeCount(n)
  {
    match n.children
    case NoChildren | UndefinedChildren =>
    case Children(cs) => PreOrderLength(cs);
  }

  /** The listing holds exactly the nodes of the forest. */
  lemma {:induction false} PreOrderMembers(list: seq<DataNode>, x: DataNode)
    ensures x in PreOrder(list) <==> InForest(x, list)
  {
    if list != [] {
      var n := |list| - 1;
      var init := list[..n];
      PreOrderMembers(init, x);
      NodePreOrderMembers(list[n], x);
      if InForest(x, list) {
        var i :| 0 <= i < |list| && InSubtree(x, list[i]);
        if i < n {
          assert init[i] == list[i];
        }
      }
      if InForest(x, init) {
        var i :| 0 <= i < |init| && InSubtree(x, init[i]);
        assert list[i] == init[i];
      }
    }
  }

  lemma {:induction false} NodePreOrderMembers(n: DataNode, x: DataNode)
    ensures x in NodePreOrder(n) <==> InSubtree(x, n)
  {
    match n.children
    case NoChildren | UndefinedChildren =>
    case Children(cs) => PreOrderMembers(cs, x);
  }

  /**
   * `getAllKeys` (src/App.tsx:311-320): push each node, then everything the
   * recursive call returns for its children.
   */
  method GetAllKeys(nodes: seq<DataNode>) returns (result: seq<DataNode>)
    ensures result == PreOrder(nodes)
    decreases ListCount(nodes)
  {
    result := [];
    var i := 0;
    while i < |nodes|
      invariant 0 <= i <= |nodes|
      invariant result == PreOrder(nodes[..i])
    {
      var node := nodes[i];
      assert nodes[..i + 1][..i] == nodes[..i];
      ghost var done := result;
      result := result + [node];
      match node.children {
        case NoChildren | UndefinedChildren =>
        case Children(cs) =>
          ListCountElement(nodes, i);
          var sub := GetAllKeys(cs);
          Associative(done, [node], sub);
          result := PushAll(result, sub);
      }
      i := i + 1;
    }
    assert nodes[..|nodes|] == nodes;
  }

  // ---------------------------------------------------------------- unique keys

  /** The fields of a key; the empty key (no parent) has none. */
  function Fields(key: string): seq<string> {
    if key == [] then [] else Split(key)
  }

  /** A position key adds one field, the position, to its parent's. */
  lemma FieldsOfChild(parent: string, index: nat)
    ensures Fields(ChildKey(parent, index)) == Fields(parent) + [NatToString(index)]
  {
    if parent == [] {
      DigitsNoDash(NatToString(index));
      SplitNoDash(NatToString(index));
    } else {
      ExtendDeepens(parent, index);
    }
  }

  /** The key's fields start with `fs`. */
  predicate Below(key: string, fs: seq<string>) {
    |fs| <= |Fields(key)| && Fields(key)[..|fs|] == fs
  }

  /** No two entries of the listing share a key. */
  predicate UniqueKeys(s: seq<DataNode>) {
    forall i, j :: 0 <= i < j < |s| ==> s[i].key != s[j].key
  }

  lemma UniqueKeysConcat(a: seq<DataNode>, b: seq<DataNode>)
    requires UniqueKeys(a) && UniqueKeys(b)
    requires forall x, y :: x in a && y in b ==> x.key != y.key
    ensures UniqueKeys(a + b)
  {
    var c := a + b;
    forall i, j | 0 <= i < j < |c| ensures c[i].key != c[j].key {
      if j < |a| {
        assert c[i] == a[i] && c[j] == a[j];
      } else if i >= |a| {
        assert c[i] == b[i - |a|] && c[j] == b[j - |a|];
      } else {
        assert c[i] == a[i] && c[j] == b[j - |a|];
      }
    }
  }

  /**
   * In a position-keyed node, every key of the subtree has the node's
   * fields in front, and every strict descendant has more fields.
   */
  lemma {:induction false} NodeKeysBelow(n: DataNode)
    requires KeyedNode(n)
    ensures forall x :: x in NodePreOrder(n) ==> Below(x.key, Fields(n.key))
    ensures forall x :: x in PreOrder(Kids(n)) ==> |Fields(x.key)| > |Fields(n.key)|
    decreases n, 2
  {
    match n.children
    case NoChildren | UndefinedChildren =>
    case Children(cs) =>
      ForestKeysBelow(cs, n.key);
      var fs := Fields(n.key);
      forall x | x in PreOrder(cs) ensures Below(x.key, fs) {
        var i :| 0 <= i < |cs| && Fields(x.key)[|fs|] == NatToString(i);
        assert Fields(x.key)[..|fs|] == fs;
      }
  }

  /** One more field than `fs` in front: `fs` itself in front, then that field. */
  lemma PrefixStep(f: seq<string>, fs: seq<string>, field: string)
    requires |fs| + 1 <= |f| && f[..|fs| + 1] == fs + [field]
    ensures f[..|fs|] == fs && f[|fs|] == field
  {
    assert f[..|fs| + 1][..|fs|] == f[..|fs|];
    assert f[|fs|] == f[..|fs| + 1][|fs|];
  }

  /** The keys in the subtree of the `i`-th entry start with the parent's fields and `i`. */
  lemma EntryKeysBelow(list: seq<DataNode>, parent: string, i: nat, x: DataNode)
    requires Keyed(list, parent) && i < |list| && x in NodePreOrder(list[i])
    ensures Below(x.key, Fields(parent)) && |Fields(x.key)| > |Fields(parent)|
    ensures Fields(x.key)[|Fields(parent)|] == NatToString(i)
    decreases list, 0
  {
    NodeKeysBelow(list[i]);
    FieldsOfChild(parent, i);
    PrefixStep(Fields(x.key), Fields(parent), NatToString(i));
  }

  /** The key lies below the parent fields `fs`, under one of the first `n` positions. */
  predicate UnderPosition(key: string, fs: seq<string>, n: nat) {
    && Below(key, fs)
    && |Fields(key)| > |fs|
    && exists i :: 0 <= i < n && Fields(key)[|fs|] == NatToString(i)
  }

  /**
   * In a forest keyed by position below `parent`, every key has the
   * parent's fields in front, followed by the position of one of the
   * forest's entries.
   */
  lemma {:induction false} ForestKeysBelow(list: seq<DataNode>, parent: string)
    requires Keyed(list, parent)
    ensures forall x :: x in PreOrder(list) ==> UnderPosition(x.key, Fields(parent), |list|)
    decreases list, 1
  {
    forall x | x in PreOrder(list) ensures UnderPosition(x.key, Fields(parent), |list|) {
      PreOrderMembers(list, x);
      var i :| 0 <= i < |list| && InSubtree(x, list[i]);
      NodePreOrderMembers(list[i], x);
      EntryKeysBelow(list, parent, i, x);
      assert 0 <= i < |list| && Fields(x.key)[|Fields(parent)|] == NatToString(i);
    }
  }

  /** A position-keyed forest never holds two nodes with the same key. */
  lemma {:induction false} KeyedForestUnique(list: seq<DataNode>, parent: string)
    requires Keyed(list, parent)
    ensures UniqueKeys(PreOrder(list))
    decreases list, 0
  {
    if list != [] {
      var n := |list| - 1;
      var front, last := list[..n], list[n];
      assert Keyed(front, parent) by {
        assert forall i :: 0 <= i < n ==> front[i] == list[i];
      }
      KeyedForestUnique(front, parent);
      KeyedNodeUnique(last);
      ForestKeysBelow(front, parent);
      NodeKeysBelow(last);
      FieldsOfChild(parent, n);
      var fp := Fields(parent);
      forall x, y | x in PreOrder(front) && y in NodePreOrder(last) ensures x.key != y.key {
        var i :| 0 <= i < |front| && Fields(x.key)[|fp|] == NatToString(i);
        PrefixStep(Fields(y.key), fp, NatToString(n));
        if x.key == y.key {
          NatToStringInjective(i, n);
        }
      }
      UniqueKeysConcat(PreOrder(front), NodePreOrder(last));
    }
  }

  lemma {:induction false} KeyedNodeUnique(n: DataNode)
    requires KeyedNode(n)
    ensures UniqueKeys(NodePreOrder(n))
    decreases n, 1
  {
    match n.children
    case NoChildren | UndefinedChildren =>
    case Children(cs) =>
      KeyedForestUnique(cs, n.key);
      NodeKeysBelow(n);
      UniqueKeysConcat([n], PreOrder(cs));
  }
}
