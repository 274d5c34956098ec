/**
 * `removeTreeData` (src/App.tsx:175-195) and its caller `removeTree`
 * (src/App.tsx:440-447).
 *
 * The source walks a list, skips the nodes keyed `key`, replaces the
 * children of every other node (in place, on the input node) by the
 * recursive result, and finally copies each kept node with the key
 * `${parent.key}-${index}` (or `${index}` at the root). The children were
 * re-keyed from the parent's key BEFORE the parent itself was renumbered, so
 * the descendants of a renumbered node keep the old prefix.
 */
module TreeRemove {
  import opened DataModel
  import opened KeyCodec
  import opened TreeStore

  /** `parent ? `${parent.key}-${index}` : `${index}``: the parent object's presence decides. */
  function RemovalKey(parent: Option<string>, index: nat): string {
    match parent
    case None => RootKey(index)
    case Some(pk) => Extend(pk, index)
  }

  /** The final `result.map` of removeTreeData: the i-th node gets the i-th key. */
  function Renumber(parent: Option<string>, list: seq<DataNode>): (r: seq<DataNode>)
    ensures |r| == |list|
    ensures forall i :: 0 <= i < |list| ==> r[i] == list[i].(key := RemovalKey(parent, i))
  {
    seq(|list|, i requires 0 <= i < |list| => list[i].(key := RemovalKey(parent, i)))
  }

  /** What the forEach of removeTreeData pushes: the survivors, children already processed. */
  function Kept(list: seq<DataNode>, key: string): seq<DataNode> {
    if list == [] then []
    else
      var last := list[|list| - 1];
      Kept(list[..|list| - 1], key) + (if last.key == key then [] else [KeepNode(last, key)])
  }

  /** A surviving node after `node.children = removeTreeData({parent: node, ...})`. */
  function KeepNode(node: DataNode, key: string): DataNode {
    match node.children
    case NoChildren | UndefinedChildren => node
    case Children(cs) => node.(children := Children(Renumber(Some(node.key), Kept(cs, key))))
  }

  /** The value removeTreeData returns. */
  function Removal(parent: Option<string>, list: seq<DataNode>, key: string): seq<DataNode> {
    Renumber(parent, Kept(list, key))
  }

  /** The input list after the call: each surviving node's `children` was reassigned (line 182). */
  function MutatedInput(list: seq<DataNode>, key: string): (r: seq<DataNode>)
    ensures |r| == |list|
  {
    seq(|list|, i requires 0 <= i < |list| =>
      if list[i].key == key then list[i] else KeepNode(list[i], key))
  }

  /** The original nodes of `list` whose key is not `key`, in order. */
  function Survivors(list: seq<DataNode>, key: string): seq<DataNode> {
    if list == [] then []
    else
      var last := list[|list| - 1];
      Survivors(list[..|list| - 1], key) + (if last.key == key then [] else [last])
  }

  /** How many entries of the list itself are keyed `key`. */
  function Matches(list: seq<DataNode>, key: string): nat {
    if list == [] then 0
    else Matches(list[..|list| - 1], key) + (if list[|list| - 1].key == key then 1 else 0)
  }

  /** Nodes dropped: the whole subtree of each node keyed `key` (not looking below it). */
  function DroppedCount(list: seq<DataNode>, key: string): nat {
    if list == [] then 0
    else DroppedCount(list[..|list| - 1], key) + NodeDroppedCount(list[|list| - 1], key)
  }

  function NodeDroppedCount(n: DataNode, key: string): nat {
    if n.key == key then NodeCount(n)
    else
      match n.children
      case NoChildren | UndefinedChildren => 0
      case Children(cs) => DroppedCount(cs, key)
  }

  /** Kept is Survivors with each survivor's children processed; `list.length - matches` of them. */
  lemma {:induction false} KeptIsSurvivors(list: seq<DataNode>, key: string)
    ensures |Kept(list, key)| == |Survivors(list, key)| == |list| - Matches(list, key)
    ensures forall i :: 0 <= i < |Survivors(list, key)| ==>
              Kept(list, key)[i] == KeepNode(Survivors(list, key)[i], key)
  {
    if list != [] {
      KeptIsSurvivors(list[..|list| - 1], key);
    }
  }

  /**
   * The shape of a removal: one result per survivor, in order; the i-th is
   * keyed by position; name, value, title and isLeaf are the survivor's; and
   * its children are the removal below the survivor's ORIGINAL key.
   */
  lemma RemovalShape(parent: Option<string>, list: seq<DataNode>, key: string)
    ensures |Removal(parent, list, key)| == |Survivors(list, key)| == |list| - Matches(list, key)
    ensures forall i :: 0 <= i < |Survivors(list, key)| ==>
              var r, s := Removal(parent, list, key)[i], Survivors(list, key)[i];
              && r.key == RemovalKey(parent, i)
              && SameEntry(r, s.(key := r.key))
              && (!s.children.Children? ==> r.children == s.children)
              && (s.children.Children? ==>
                    r.children == Children(Removal(Some(s.key), s.children.nodes, key)))
  {
    KeptIsSurvivors(list, key);
  }

  /** Removal drops exactly the subtrees of the nodes keyed `key`. */
  lemma {:induction false} RemovalCount(parent: Option<string>, list: seq<DataNode>, key: string)
    ensures ListCount(Removal(parent, list, key)) + DroppedCount(list, key) == ListCount(list)
  {
    KeptCount(list, key);
    RenumberCount(parent, Kept(list, key));
  }

  lemma {:induction false} RenumberCount(parent: Option<string>, list: seq<DataNode>)
    ensures ListCount(Renumber(parent, list)) == ListCount(list)
  {
    if list != [] {
      var n := |list| - 1;
      RenumberCount(parent, list[..n]);
      assert Renumber(parent, list)[..n] == Renumber(parent, list[..n]);
      match list[n].children
      case NoChildren | UndefinedChildren =>
      case Children(cs) =>
    }
  }

  lemma {:induction false} KeptCount(list: seq<DataNode>, key: string)
    ensures ListCount(Kept(list, key)) + DroppedCount(list, key) == ListCount(list)
  {
    if list != [] {
      var n := |list| - 1;
      var last := list[n];
      KeptCount(list[..n], key);
      if last.key == key {
        assert Kept(list, key) == Kept(list[..n], key);
      } else {
        ListCountConcat(Kept(list[..n], key), [KeepNode(last, key)]);
        assert [KeepNode(last, key)][..0] == [];
        KeepNodeCount(last, key);
      }
    }
  }

  lemma {:induction false} KeepNodeCount(node: DataNode, key: string)
    requires node.key != key
    ensures NodeCount(KeepNode(node, key)) + NodeDroppedCount(node, key) == NodeCount(node)
  {
    match node.children
    case NoChildren | UndefinedChildren =>
    case Children(cs) =>
      KeptCount(cs, key);
      RenumberCount(Some(node.key), Kept(cs, key));
  }

  /** Every node at position depth `d` has a key of level `d`. */
  predicate Levelled(list: seq<DataNode>, d: nat) {
    forall i :: 0 <= i < |list| ==> ParseKey(list[i].key) == d && NodeLevelled(list[i], d)
  }

  predicate NodeLevelled(n: DataNode, d: nat) {
    match n.children
    case NoChildren | UndefinedChildren => true
    case Children(cs) => Levelled(cs, d + 1)
  }

  /** The level `parent` stands for: none is above level 1, `Some(pk)` is one level above its children. */
  predicate ParentOfLevel(parent: Option<string>, d: nat) {
    match parent
    case None => d == 1
    case Some(pk) => ParseKey(pk) + 1 == d
  }

  /**
   * Although descendants keep a stale prefix, every key still has the right
   * number of fields, so levels (and with them the level-4 rules) survive.
   */
  lemma RemovalLevelled(parent: Option<string>, list: seq<DataNode>, d: nat, key: string)
    requires Levelled(list, d) && ParentOfLevel(parent, d)
    ensures Levelled(Removal(parent, list, key), d)
  {
    KeptLevelled(list, d, key);
    RenumberLevelled(parent, Kept(list, key), d);
  }

  lemma RenumberLevelled(parent: Option<string>, list: seq<DataNode>, d: nat)
    requires ParentOfLevel(parent, d)
    requires forall i :: 0 <= i < |list| ==> NodeLevelled(list[i], d)
    ensures Levelled(Renumber(parent, list), d)
  {
    var r := Renumber(parent, list);
    forall i | 0 <= i < |list|
      ensures ParseKey(r[i].key) == d && NodeLevelled(r[i], d)
    {
      match parent
      case None => RootKeyLevel(i);
      case Some(pk) => ExtendDeepens(pk, i);
      match list[i].children
      case NoChildren | UndefinedChildren =>
      case Children(cs) =>
    }
  }

  lemma {:induction false} KeptLevelled(list: seq<DataNode>, d: nat, key: string)
    requires Levelled(list, d)
    ensures forall i :: 0 <= i < |Kept(list, key)| ==> NodeLevelled(Kept(list, key)[i], d)
  {
    if list != [] {
      var n := |list| - 1;
      KeptLevelled(list[..n], d, key);
      if list[n].key != key {
        KeepNodeLevelled(list[n], d, key);
      }
    }
  }

  lemma {:induction false} KeepNodeLevelled(node: DataNode, d: nat, key: string)
    requires ParseKey(node.key) == d && NodeLevelled(node, d)
    ensures NodeLevelled(KeepNode(node, key), d)
  {
    match node.children
    case NoChildren | UndefinedChildren =>
    case Children(cs) =>
      KeptLevelled(cs, d + 1, key);
      RenumberLevelled(Some(node.key), Kept(cs, key), d + 1);
  }

  /** The old root objects now carry the new children lists: the result is their re-keyed copies. */
  lemma {:induction false} MutatedInputAliases(list: seq<DataNode>, key: string)
    ensures Survivors(MutatedInput(list, key), key) == Kept(list, key)
  {
    if list != [] {
      var n := |list| - 1;
      MutatedInputAliases(list[..n], key);
      assert MutatedInput(list, key)[..n] == MutatedInput(list[..n], key);
      match list[n].children
      case NoChildren | UndefinedChildren =>
      case Children(cs) =>
    }
  }

  /**
   * `removeTreeData`: returns the new list and, as `listAfter`, the input
   * list as the in-place reassignment at line 182 leaves it.
   */
  method RemoveTreeData(parent: Option<string>, list: seq<DataNode>, key: string)
    returns (result: seq<DataNode>, listAfter: seq<DataNode>)
    ensures result == Removal(parent, list, key)
    ensures listAfter == MutatedInput(list, key)
    decreases ListCount(list)
  {
    var pushed: seq<DataNode> := [];
    listAfter := list;
    var i := 0;
    while i < |list|
      invariant 0 <= i <= |list| && |listAfter| == |list|
      invariant pushed == Kept(list[..i], key)
      invariant forall k :: 0 <= k < |list| ==>
                  listAfter[k] == if k < i && list[k].key != key then KeepNode(list[k], key) else list[k]
    {
      var node := list[i];
      KeptStep(list, i, key);
      if node.key != key {
        match node.children {
          case Children(cs) =>
            ListCountElement(list, i);
            var sub, _ := RemoveTreeData(Some(node.key), cs, key);
            node := node.(children := Children(sub));
            listAfter := listAfter[i := node];
          case NoChildren | UndefinedChildren =>
        }
        assert node == KeepNode(list[i], key);
        pushed := pushed + [node];
      }
      assert listAfter[i] == if list[i].key != key then KeepNode(list[i], key) else list[i];
      i := i + 1;
    }
    assert list[..|list|] == list;
    result := Renumber(parent, pushed);
  }

  /** One step of the forEach. */
  lemma KeptStep(list: seq<DataNode>, i: nat, key: string)
    requires i < |list|
    ensures Kept(list[..i + 1], key) ==
              Kept(list[..i], key) + (if list[i].key == key then [] else [KeepNode(list[i], key)])
  {
    assert list[..i + 1][..i] == list[..i];
  }

  /** `removeTree` (src/App.tsx:440-447): nothing happens without a selected key. */
  method RemoveTree(treeKey: string, tree: seq<DataNode>)
    returns (newTree: seq<DataNode>, oldTree: seq<DataNode>)
    ensures treeKey == [] ==> newTree == tree && oldTree == tree
    ensures treeKey != [] ==> newTree == Removal(None, tree, treeKey) && oldTree == MutatedInput(tree, treeKey)
  {
    if treeKey == [] {
      return tree, tree;
    }
    newTree, oldTree := RemoveTreeData(None, tree, treeKey);
  }

  // ------------------------------------------------ insert, then remove the new child

  /** The parent as the removal sees it: the roots have no parent object. */
  function ParentOf(parent: string): Option<string> {
    if parent == [] then None else Some(parent)
  }

  /** Every node keyed `key`, at any depth, has `n` children. */
  predicate KidsAt(list: seq<DataNode>, key: string, n: nat) {
    forall i :: 0 <= i < |list| ==> NodeKidsAt(list[i], key, n)
  }

  predicate NodeKidsAt(x: DataNode, key: string, n: nat) {
    && (x.key == key ==> |Kids(x)| == n)
    && match x.children
       case NoChildren | UndefinedChildren => true
       case Children(cs) => KidsAt(cs, key, n)
  }

  /**
   * The forest with the children of every node keyed `key` turned into an
   * array: an absent or undefined `children` becomes `[]`, nothing else changes.
   */
  function Touch(list: seq<DataNode>, key: string): (r: seq<DataNode>)
    ensures |r| == |list|
  {
    seq(|list|, i requires 0 <= i < |list| => TouchNode(list[i], key))
  }

  function TouchNode(x: DataNode, key: string): DataNode {
    if x.key == key then x.(children := Children(Kids(x)))
    else
      match x.children
      case NoChildren | UndefinedChildren => x
      case Children(cs) => x.(children := Children(Touch(cs, key)))
  }

  /** Where the node keyed `key` already has a children array, `Touch` changes nothing. */
  lemma {:induction false} TouchIdentity(list: seq<DataNode>, key: string)
    requires forall x :: InForest(x, list) && x.key == key ==> x.children.Children?
    ensures Touch(list, key) == list
    decreases list, 1
  {
    forall i | 0 <= i < |list|
      ensures TouchNode(list[i], key) == list[i]
    {
      TouchNodeIdentity(list, i, key);
    }
  }

  lemma {:induction false} TouchNodeIdentity(list: seq<DataNode>, i: nat, key: string)
    requires i < |list|
    requires forall x :: InForest(x, list) && x.key == key ==> x.children.Children?
    ensures TouchNode(list[i], key) == list[i]
    decreases list, 0
  {
    var x := list[i];
    assert InSubtree(x, x);
    if x.key != key {
      match x.children
      case NoChildren | UndefinedChildren =>
      case Children(cs) =>
        forall y | InForest(y, cs) && y.key == key
          ensures y.children.Children?
        {
          assert InSubtree(y, x);
        }
        TouchIdentity(cs, key);
    }
  }

  lemma {:induction false} TouchCount(list: seq<DataNode>, key: string)
    ensures ListCount(Touch(list, key)) == ListCount(list)
  {
    if list != [] {
      var m := |list| - 1;
      TouchCount(list[..m], key);
      assert Touch(list, key)[..m] == Touch(list[..m], key);
      TouchNodeCount(list[m], key);
    }
  }

  lemma {:induction false} TouchNodeCount(x: DataNode, key: string)
    ensures NodeCount(TouchNode(x, key)) == NodeCount(x)
  {
    if x.key != key {
      match x.children
      case NoChildren | UndefinedChildren =>
      case Children(cs) => TouchCount(cs, key);
    }
  }

  lemma {:induction false} TouchKeyed(list: seq<DataNode>, parent: string, key: string)
    requires Keyed(list, parent)
    ensures Keyed(Touch(list, key), parent)
  {
    forall i | 0 <= i < |list|
      ensures KeyedNode(TouchNode(list[i], key))
    {
      TouchNodeKeyed(list[i], key);
    }
  }

  lemma {:induction false} TouchNodeKeyed(x: DataNode, key: string)
    requires KeyedNode(x)
    ensures KeyedNode(TouchNode(x, key))
  {
    if x.key != key {
      match x.children
      case NoChildren | UndefinedChildren =>
      case Children(cs) => TouchKeyed(cs, x.key, key);
    }
  }

  /** With no entry keyed `key`, the forEach keeps every node. */
  lemma {:induction false} KeptAll(list: seq<DataNode>, key: string)
    requires forall i :: 0 <= i < |list| ==> list[i].key != key
    ensures |Kept(list, key)| == |list|
    ensures forall i :: 0 <= i < |list| ==> Kept(list, key)[i] == KeepNode(list[i], key)
  {
    if list != [] {
      KeptAll(list[..|list| - 1], key);
    }
  }

  /** Removing a key that no node of a position-keyed forest carries changes nothing. */
  lemma {:induction false} RemovalOfAbsentKey(list: seq<DataNode>, parent: string, key: string)
    requires Keyed(list, parent)
    requires forall x :: InForest(x, list) ==> x.key != key
    ensures Removal(ParentOf(parent), list, key) == list
    decreases list, 1
  {
    forall i | 0 <= i < |list|
      ensures list[i].key != key
    {
      assert InSubtree(list[i], list[i]);
    }
    KeptAll(list, key);
    var r := Removal(ParentOf(parent), list, key);
    forall i | 0 <= i < |list|
      ensures r[i] == list[i]
    {
      KeepAbsentKey(list, i, key);
    }
  }

  lemma {:induction false} KeepAbsentKey(list: seq<DataNode>, i: nat, key: string)
    requires i < |list| && list[i].key != [] && KeyedNode(list[i])
    requires forall x :: InForest(x, list) ==> x.key != key
    ensures KeepNode(list[i], key) == list[i]
    decreases list, 0
  {
    var x := list[i];
    match x.children
    case NoChildren | UndefinedChildren =>
    case Children(cs) =>
      forall y | InForest(y, cs)
        ensures y.key != key
      {
        assert InSubtree(y, x);
      }
      RemovalOfAbsentKey(cs, x.key, key);
  }

  /** Below a node keyed by position, no node carries the next free child key. */
  lemma NextKeyAbsent(list: seq<DataNode>, parent: string)
    requires parent != [] && Keyed(list, parent)
    ensures forall x :: InForest(x, list) ==> x.key != Extend(parent, |list|)
  {
    ForestKeysBelow(list, parent);
    FieldsOfChild(parent, |list|);
    forall x | InForest(x, list)
      ensures x.key != Extend(parent, |list|)
    {
      PreOrderMembers(list, x);
      if x.key == Extend(parent, |list|) {
        assert UnderPosition(x.key, Fields(parent), |list|);
        var i :| 0 <= i < |list| && Fields(x.key)[|Fields(parent)|] == NatToString(i);
        NatToStringInjective(i, |list|);
      }
    }
  }

  lemma {:induction false} AddRemoveLevel(list: seq<DataNode>, parent: string, k: string, n: nat)
    requires k != [] && parent != k
    requires Keyed(list, parent) && KidsAt(list, k, n)
    ensures Removal(ParentOf(parent), AddTreeData(list, k, AppChildFactory(k)), Extend(k, n)) == Touch(list, k)
    decreases list
  {
    var e := Extend(k, n);
    var g := AddTreeData(list, k, AppChildFactory(k));
    SiblingsMissNextKey(list, parent, k, n);
    KeptAll(g, e);
    var r := Removal(ParentOf(parent), g, e);
    forall i | 0 <= i < |list|
      ensures r[i] == Touch(list, k)[i]
    {
      assert r[i] == KeepNode(g[i], e).(key := RemovalKey(ParentOf(parent), i));
      AddRemoveNode(list[i], k, n);
    }
  }

  /** Siblings keyed below a parent other than `k` never carry a child key of `k`. */
  lemma SiblingsMissNextKey(list: seq<DataNode>, parent: string, k: string, n: nat)
    requires parent != k && Keyed(list, parent)
    ensures forall i :: 0 <= i < |list| ==> list[i].key != Extend(k, n)
  {
    forall i | 0 <= i < |list|
      ensures list[i].key != Extend(k, n)
    {
      if parent == [] {
        ExtendIsNotRoot(k, n, i);
      } else if list[i].key == Extend(k, n) {
        ExtendInjective(parent, i, k, n);
      }
    }
  }

  lemma {:induction false} AddRemoveNode(x: DataNode, k: string, n: nat)
    requires k != [] && x.key != [] && x.key != Extend(k, n)
    requires KeyedNode(x) && NodeKidsAt(x, k, n)
    ensures KeepNode(AddNode(x, k, AppChildFactory(k)), Extend(k, n)) == TouchNode(x, k)
    decreases x
  {
    if x.key == k {
      AddRemoveAtKey(x, n);
    } else {
      match x.children
      case NoChildren | UndefinedChildren =>
      case Children(cs) => AddRemoveLevel(cs, x.key, k, n);
    }
  }

  /** At the node itself: the new last child goes, the old ones stay as they were. */
  lemma AddRemoveAtKey(x: DataNode, n: nat)
    requires x.key != [] && KeyedNode(x) && |Kids(x)| == n
    ensures KeepNode(AddNode(x, x.key, AppChildFactory(x.key)), Extend(x.key, n)) == TouchNode(x, x.key)
  {
    var k := x.key;
    var e := Extend(k, n);
    var kids := Kids(x);
    var grown := kids + [AppChildFactory(k)(kids, k)];
    assert AddNode(x, k, AppChildFactory(k)) == x.(children := Children(grown));
    assert grown[..|kids|] == kids && grown[|kids|].key == e;
    assert Kept(grown, e) == Kept(kids, e);
    assert Keyed(kids, k) by {
      match x.children
      case NoChildren | UndefinedChildren =>
      case Children(cs) =>
    }
    NextKeyAbsent(kids, k);
    RemovalOfAbsentKey(kids, k, e);
    assert Renumber(Some(k), Kept(kids, e)) == kids;
  }

  /**
   * Adding a child below the node keyed `k` (which has `n` children) and
   * then removing that new child, keyed `${k}-${n}`, gives the tree back:
   * the same nodes with the same keys, position keying intact. The one
   * trace left is that an absent or undefined `children` at `k` is now `[]`.
   */
  lemma AddThenRemove(tree: seq<DataNode>, k: string, n: nat)
    requires Keyed(tree, []) && k != [] && KidsAt(tree, k, n)
    ensures Removal(None, AddNewTree(k, tree), Extend(k, n)) == Touch(tree, k)
    ensures ListCount(Removal(None, AddNewTree(k, tree), Extend(k, n))) == ListCount(tree)
    ensures Keyed(Removal(None, AddNewTree(k, tree), Extend(k, n)), [])
  {
    AddRemoveLevel(tree, [], k, n);
    TouchCount(tree, k);
    TouchKeyed(tree, [], k);
  }

  // ------------------------------------------------ stale keys and their repair

  /** A root or inner node with exactly one child, which has no children property. */
  predicate OneLeaf(n: DataNode, leaf: DataNode) {
    n.children == Children([leaf]) && leaf.children == NoChildren
  }

  /** A node whose one leaf is keyed from the node's own key survives unchanged. */
  lemma KeepOneLeaf(b: DataNode, leaf: DataNode, key: string)
    requires OneLeaf(b, leaf) && leaf.key == Extend(b.key, 0) && leaf.key != key
    ensures KeepNode(b, key) == b
  {
    assert [leaf][..0] == [];
    assert Kept([leaf], key) == [leaf];
    var r := Renumber(Some(b.key), [leaf]);
    assert r[0] == leaf;
    assert r == [leaf];
  }

  lemma KeptSecond(a: DataNode, b: DataNode, key: string)
    requires a.key == key && b.key != key
    ensures Kept([a, b], key) == [KeepNode(b, key)]
  {
    assert [a, b][..1] == [a];
    assert [a][..0] == [];
    assert Kept([a], key) == [];
  }

  /**
   * Removing the first of two roots keeps the second with its child, whose
   * key was built from the second root's OLD key, and renumbers the root alone.
   */
  lemma DropFirstRoot(a: DataNode, b: DataNode, leaf: DataNode)
    requires a.key != b.key && leaf.key != a.key
    requires OneLeaf(b, leaf) && leaf.key == Extend(b.key, 0)
    ensures Removal(None, [a, b], a.key) == [b.(key := RootKey(0))]
  {
    KeepOneLeaf(b, leaf, a.key);
    KeptSecond(a, b, a.key);
    var r := Renumber(None, [b]);
    assert r[0] == b.(key := RootKey(0));
  }

  /** A key built by `Extend` has a dash; a root key has none. */
  lemma ExtendIsNotRoot(p: string, i: nat, j: nat)
    ensures Extend(p, i) != RootKey(j)
  {
    assert Extend(p, i)[|p|] == Dash;
  }

  /** A single root keyed "0" whose child is not keyed "0-0" breaks position keying. */
  lemma StaleRootNotKeyed(r: DataNode, leaf: DataNode)
    requires OneLeaf(r, leaf) && leaf.key != Extend(r.key, 0)
    ensures !Keyed([r], [])
  {
    var list := [r];
    assert list[0] == r;
    if r.key != [] {
      assert !KeyedNode(r) by {
        var cs := [leaf];
        assert cs[0].key != ChildKey(r.key, 0);
      }
    }
  }

  lemma RootKeysDiffer(i: nat, j: nat)
    requires i != j
    ensures RootKey(i) != RootKey(j)
  {
    if RootKey(i) == RootKey(j) {
      NatToStringInjective(i, j);
    }
  }

  /**
   * Adding a root to a one-root tree and then a first child below that
   * new root "1": the new child is keyed `Extend(RootKey(1), 0)`, and the
   * old root (keyed "0", with no node keyed "1" inside) is untouched.
   */
  lemma GrowSecondRoot(r: DataNode, leaf: DataNode)
    requires r.key == RootKey(0) && OneLeaf(r, leaf)
    requires leaf.key != RootKey(1)
    ensures AddNewTree(RootKey(1), AddNewTree([], [r])) ==
              [r, NewNode(RootKey(1), Children([NewNode(Extend(RootKey(1), 0), NoChildren)]))]
  {
    var k := RootKey(1);
    var rooted := AddNewTree([], [r]);
    assert rooted == [r, NewNode(k, Children([]))];
    RootKeysDiffer(0, 1);
    assert !NodeHasKey(leaf, k);
    assert !HasKey([leaf], k);
    AddUnknownKey([leaf], k, AppChildFactory(k));
    var grown := AddTreeData(rooted, k, AppChildFactory(k));
    assert grown[0] == AddNode(r, k, AppChildFactory(k));
    assert AddNode(r, k, AppChildFactory(k)) == r.(children := Children(AddTreeData([leaf], k, AppChildFactory(k))));
    assert grown[0] == r;
    var n := NewNode(k, Children([]));
    var f := AppChildFactory(k);
    assert grown[1] == AddNode(n, k, f);
    assert f([], k) == NewNode(Extend(k, 0), NoChildren);
    assert Kids(n) + [f(Kids(n), k)] == [NewNode(Extend(k, 0), NoChildren)];
    assert grown[1] == NewNode(k, Children([NewNode(Extend(k, 0), NoChildren)]));
  }

  /** The listing of two roots with one leaf each. */
  lemma PreOrderTwoRoots(a: DataNode, x: DataNode, b: DataNode, y: DataNode)
    requires OneLeaf(a, x) && OneLeaf(b, y)
    ensures PreOrder([a, b]) == [a, x, b, y]
  {
    assert [x][..0] == [] && [y][..0] == [];
    assert PreOrder([x]) == [x] by {
      assert NodePreOrder(x) == [x];
    }
    assert PreOrder([y]) == [y] by {
      assert NodePreOrder(y) == [y];
    }
    assert NodePreOrder(a) == [a, x];
    assert NodePreOrder(b) == [b, y];
    assert [a, b][..1] == [a] && [a][..0] == [];
    assert PreOrder([a]) == [a, x];
  }

  /** The child a new root "1" gets first: the key of root "1"'s old first child. */
  function CollidingKey(): string {
    Extend(RootKey(1), 0)
  }

  /** Two roots, each with one child: `[0 -> [0-0], 1 -> [1-0]]`. */
  function TwoRoots(): seq<DataNode> {
    [NewNode(RootKey(0), Children([NewNode(Extend(RootKey(0), 0), NoChildren)])),
     NewNode(RootKey(1), Children([NewNode(CollidingKey(), NoChildren)]))]
  }

  /** The grown tree: two roots whose only children are both keyed "1-0". */
  function CollidingTree(): seq<DataNode> {
    [TwoRoots()[1].(key := RootKey(0)),
     NewNode(RootKey(1), Children([NewNode(CollidingKey(), NoChildren)]))]
  }

  /**
   * Removing root "0" of `[0 -> [0-0], 1 -> [1-0]]` renumbers root "1" to
   * "0" but leaves its child keyed "1-0", so the result is not keyed by
   * position. Adding a root and then a child below it creates a second node
   * keyed "1-0": two nodes of the grown tree share a key.
   */
  lemma StaleKeysCollide()
    ensures !Keyed(Removal(None, TwoRoots(), RootKey(0)), [])
    ensures AddNewTree(RootKey(1), AddNewTree([], Removal(None, TwoRoots(), RootKey(0)))) == CollidingTree()
    ensures !UniqueKeys(PreOrder(CollidingTree()))
  {
    var a, b := TwoRoots()[0], TwoRoots()[1];
    var x, leaf := Kids(a)[0], Kids(b)[0];
    assert TwoRoots() == [a, b];
    RootKeysDiffer(0, 1);
    ExtendIsNotRoot(RootKey(1), 0, 0);
    ExtendIsNotRoot(RootKey(1), 0, 1);
    DropFirstRoot(a, b, leaf);
    var r := b.(key := RootKey(0));
    assert OneLeaf(r, leaf);
    if leaf.key == Extend(r.key, 0) {
      ExtendInjective(RootKey(1), 0, RootKey(0), 0);
    }
    StaleRootNotKeyed(r, leaf);
    GrowSecondRoot(r, leaf);
    var c := CollidingTree()[1];
    PreOrderTwoRoots(r, leaf, c, Kids(c)[0]);
    var l := PreOrder(CollidingTree());
    assert l[1].key == l[3].key;
  }

  /**
   * Removal as evidently intended: each survivor is keyed by its new
   * position, and its children are re-keyed from that NEW key.
   */
  function FixedRemoval(parent: string, list: seq<DataNode>, key: string): (r: seq<DataNode>)
    ensures |r| == |Survivors(list, key)|
    decreases list
  {
    if list == [] then []
    else
      var n := |list| - 1;
      var front := FixedRemoval(parent, list[..n], key);
      if list[n].key == key then front
      else front + [FixedNode(list[n], ChildKey(parent, |front|), key)]
  }

  function FixedNode(node: DataNode, newKey: string, key: string): (r: DataNode)
    ensures r.key == newKey && SameEntry(r, node.(key := newKey))
    ensures r.children.Children? <==> node.children.Children?
    decreases node
  {
    match node.children
    case NoChildren | UndefinedChildren => node.(key := newKey)
    case Children(cs) => node.(key := newKey, children := Children(FixedRemoval(newKey, cs, key)))
  }

  /** The repaired removal keeps every sibling list keyed by position, whatever the input. */
  lemma {:induction false} FixedRemovalKeyed(parent: string, list: seq<DataNode>, key: string)
    ensures Keyed(FixedRemoval(parent, list, key), parent)
    decreases list
  {
    if list != [] {
      var n := |list| - 1;
      var front := FixedRemoval(parent, list[..n], key);
      FixedRemovalKeyed(parent, list[..n], key);
      if list[n].key != key {
        var x := FixedNode(list[n], ChildKey(parent, |front|), key);
        FixedNodeKeyed(list[n], ChildKey(parent, |front|), key);
        var r := front + [x];
        assert FixedRemoval(parent, list, key) == r;
        forall i | 0 <= i < |r|
          ensures r[i].key == ChildKey(parent, i) && KeyedNode(r[i])
        {
          if i < |front| {
            assert r[i] == front[i];
            assert front[i].key == ChildKey(parent, i) && KeyedNode(front[i]);
          } else {
            assert i == |front| && r[i] == x;
            assert x.key == ChildKey(parent, |front|);
          }
        }
      } else {
        assert FixedRemoval(parent, list, key) == front;
      }
    }
  }

  lemma {:induction false} FixedNodeKeyed(node: DataNode, newKey: string, key: string)
    ensures KeyedNode(FixedNode(node, newKey, key))
    decreases node
  {
    match node.children
    case NoChildren | UndefinedChildren =>
    case Children(cs) =>
      FixedRemovalKeyed(newKey, cs, key);
  }

  /**
   * With the repair, removal followed by any insert through the app keeps
   * every key of the tree unique.
   */
  lemma FixedRemovalUnique(tree: seq<DataNode>, key: string, treeKey: string)
    ensures UniqueKeys(PreOrder(FixedRemoval([], tree, key)))
    ensures UniqueKeys(PreOrder(AddNewTree(treeKey, FixedRemoval([], tree, key))))
  {
    FixedRemovalKeyed([], tree, key);
    KeyedForestUnique(FixedRemoval([], tree, key), []);
    AddNewTreeKeyed(treeKey, FixedRemoval([], tree, key));
    KeyedForestUnique(AddNewTree(treeKey, FixedRemoval([], tree, key)), []);
  }

  /**
   * At the top level the repair agrees with the source: the same survivors,
   * in order, with the same keys; only descendant keys differ.
   */
  lemma {:induction false} FixedRemovalTopLevel(list: seq<DataNode>, key: string)
    ensures |FixedRemoval([], list, key)| == |Removal(None, list, key)|
    ensures forall i :: 0 <= i < |Removal(None, list, key)| ==>
              var f, r := FixedRemoval([], list, key)[i], Removal(None, list, key)[i];
              f.key == r.key && SameEntry(f, r)
  {
    KeptIsSurvivors(list, key);
    FixedRemovalSurvivors([], list, key);
    var r := Removal(None, list, key);
    forall i | 0 <= i < |r|
      ensures FixedRemoval([], list, key)[i].key == r[i].key
    {
      assert RemovalKey(None, i) == ChildKey([], i);
    }
  }

  lemma {:induction false} FixedRemovalSurvivors(parent: string, list: seq<DataNode>, key: string)
    ensures forall i :: 0 <= i < |Survivors(list, key)| ==>
              var f := FixedRemoval(parent, list, key)[i];
              f.key == ChildKey(parent, i) && SameEntry(f, Survivors(list, key)[i].(key := f.key))
    decreases list
  {
    if list != [] {
      var n := |list| - 1;
      FixedRemovalSurvivors(parent, list[..n], key);
      var front, s := FixedRemoval(parent, list[..n], key), Survivors(list[..n], key);
      if list[n].key != key {
        var x := FixedNode(list[n], ChildKey(parent, |front|), key);
        assert FixedRemoval(parent, list, key) == front + [x];
        assert Survivors(list, key) == s + [list[n]];
        forall i | 0 <= i < |s| + 1
          ensures (front + [x])[i].key == ChildKey(parent, i)
          ensures SameEntry((front + [x])[i], (s + [list[n]])[i].(key := (front + [x])[i].key))
        {
          if i < |s| {
            assert (front + [x])[i] == front[i] && (s + [list[n]])[i] == s[i];
          }
        }
      }
    }
  }
}
