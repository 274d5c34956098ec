/**
 * The converter between the edit tree and the radial snapshot (src/App.tsx:272-300):
 * `convertDataNode2SunBurstData` on the way to the chart and to storage,
 * `convertSunBurstData2DataNode` on load, which regenerates every key from
 * the node's position.
 */
module Converter {
  import opened DataModel
  import opened KeyCodec
  import opened TreeStore

  /** `convertDataNode2SunBurstData` (src/App.tsx:272-279). */
  function ToRadial(d: DataNode): SunBurstData {
    SunBurstData(
      d.data.title,
      d.data.value,
      None,
      Some(ParseKey(d.key)),
      match d.children
      case NoChildren | UndefinedChildren => NoRings
      case Children(cs) => Rings(seq(|cs|, i requires 0 <= i < |cs| => ToRadial(cs[i]))))
  }

  /** `treeData.map(convertDataNode2SunBurstData)` (src/App.tsx:348). */
  function ToRadialForest(tree: seq<DataNode>): (r: seq<SunBurstData>)
    ensures |r| == |tree|
  {
    seq(|tree|, i requires 0 <= i < |tree| => ToRadial(tree[i]))
  }

  /** `titleData.value`: at level 4 a truthy (present, non-zero) `price` wins over `value`. */
  function LoadedValue(key: string, s: SunBurstData): real {
    if ParseKey(key) == 4 && s.price.Some? && s.price.value != 0.0 then s.price.value else s.value
  }

  /** `convertSunBurstData2DataNode` (src/App.tsx:281-300), for the `index`-th node below `parentKey`. */
  function ToTree(parentKey: string, index: nat, s: SunBurstData): DataNode
    decreases s
  {
    var key := ChildKey(parentKey, index);
    var v := LoadedValue(key, s);
    DataNode(
      TreeTitle(s.name, v, key),
      NodeData(s.name, v),
      key,
      None,
      match s.children
      case NoRings => UndefinedChildren
      case Rings(cs) => Children(seq(|cs|, i requires 0 <= i < |cs| => ToTree(key, i, cs[i]))))
  }

  /** The load path `data.map((node, index) => convertSunBurstData2DataNode({index, data: node}))` (src/App.tsx:341). */
  function LoadTree(data: seq<SunBurstData>): (r: seq<DataNode>)
    ensures |r| == |data|
  {
    seq(|data|, i requires 0 <= i < |data| => ToTree([], i, data[i]))
  }

  /**
   * An edit-tree node exactly as the loader builds it at key `key`: keyed by
   * position, no isLeaf, a title that shows its own name, value and key, and
   * `children: undefined` where it has no children array.
   */
  predicate Canonical(n: DataNode, key: string) {
    && n.key == key
    && n.isLeaf == None
    && n.title == TreeTitle(n.data.title, n.data.value, key)
    && match n.children
       case NoChildren => false
       case UndefinedChildren => true
       case Children(cs) => forall j :: 0 <= j < |cs| ==> Canonical(cs[j], ChildKey(key, j))
  }

  /** A radial node exactly as the tree-to-radial step writes it at key `key`: no price, level from the key. */
  predicate RadialCanonical(s: SunBurstData, key: string) {
    && s.price == None
    && s.level == Some(ParseKey(key))
    && match s.children
       case NoRings => true
       case Rings(cs) => forall j :: 0 <= j < |cs| ==> RadialCanonical(cs[j], ChildKey(key, j))
  }

  /** Whatever is loaded comes out keyed by position, with titles matching the data. */
  lemma {:induction false} LoadIsCanonical(parentKey: string, index: nat, s: SunBurstData)
    ensures Canonical(ToTree(parentKey, index, s), ChildKey(parentKey, index))
    decreases s
  {
    var key := ChildKey(parentKey, index);
    match s.children
    case NoRings =>
    case Rings(cs) =>
      forall j | 0 <= j < |cs|
        ensures Canonical(ToTree(key, j, cs[j]), ChildKey(key, j))
      {
        LoadIsCanonical(key, j, cs[j]);
      }
  }

  /** A canonical tree written out as levelled, price-free radial data. */
  lemma {:induction false} StoreIsRadialCanonical(n: DataNode, key: string)
    requires Canonical(n, key)
    ensures RadialCanonical(ToRadial(n), key)
  {
    match n.children
    case NoChildren | UndefinedChildren =>
    case Children(cs) =>
      forall j | 0 <= j < |cs|
        ensures RadialCanonical(ToRadial(cs[j]), ChildKey(key, j))
      {
        StoreIsRadialCanonical(cs[j], ChildKey(key, j));
      }
  }

  /**
   * Tree to radial and back is the identity on canonical trees: names,
   * values and shape survive, and the regenerated keys and titles are the
   * ones the tree already had.
   */
  lemma {:induction false} TreeRoundTrip(parentKey: string, index: nat, n: DataNode)
    requires Canonical(n, ChildKey(parentKey, index))
    ensures ToTree(parentKey, index, ToRadial(n)) == n
    decreases n
  {
    var key := ChildKey(parentKey, index);
    match n.children
    case NoChildren | UndefinedChildren =>
    case Children(cs) =>
      var back := ToTree(parentKey, index, ToRadial(n));
      var rs := seq(|cs|, i requires 0 <= i < |cs| => ToRadial(cs[i]));
      assert ToRadial(n).children == Rings(rs);
      forall j | 0 <= j < |cs|
        ensures ToTree(key, j, rs[j]) == cs[j]
      {
        TreeRoundTrip(key, j, cs[j]);
      }
      assert back.children == Children(cs);
  }

  /** Radial to tree and back is the identity on levelled, price-free radial data. */
  lemma {:induction false} RadialRoundTrip(parentKey: string, index: nat, s: SunBurstData)
    requires RadialCanonical(s, ChildKey(parentKey, index))
    ensures ToRadial(ToTree(parentKey, index, s)) == s
    decreases s
  {
    var key := ChildKey(parentKey, index);
    var t := ToTree(parentKey, index, s);
    assert t.key == key && t.data == NodeData(s.name, s.value);
    match s.children
    case NoRings =>
    case Rings(cs) =>
      var ts := seq(|cs|, i requires 0 <= i < |cs| => ToTree(key, i, cs[i]));
      assert t.children == Children(ts);
      forall j | 0 <= j < |cs|
        ensures ToRadial(ts[j]) == cs[j]
      {
        RadialRoundTrip(key, j, cs[j]);
      }
      assert ToRadial(t).children == Rings(cs);
  }

  /** Keys of a canonical node are the position keys at every level. */
  lemma {:induction false} CanonicalKeyed(n: DataNode, key: string)
    requires Canonical(n, key)
    ensures n.key == key && KeyedNode(n)
  {
    match n.children
    case NoChildren | UndefinedChildren =>
    case Children(cs) =>
      forall j | 0 <= j < |cs|
        ensures cs[j].key == ChildKey(key, j) && KeyedNode(cs[j])
      {
        CanonicalKeyed(cs[j], ChildKey(key, j));
      }
  }

  /**
   * A loaded tree is position-keyed, so no two of its nodes share a key,
   * and storing and reloading it changes nothing.
   */
  lemma LoadStoreLoad(data: seq<SunBurstData>)
    ensures Keyed(LoadTree(data), [])
    ensures UniqueKeys(PreOrder(LoadTree(data)))
    ensures LoadTree(ToRadialForest(LoadTree(data))) == LoadTree(data)
  {
    var t := LoadTree(data);
    forall i | 0 <= i < |data|
      ensures t[i].key == ChildKey([], i) && KeyedNode(t[i])
      ensures ToTree([], i, ToRadial(t[i])) == t[i]
    {
      LoadIsCanonical([], i, data[i]);
      CanonicalKeyed(t[i], ChildKey([], i));
      TreeRoundTrip([], i, t[i]);
    }
    KeyedForestUnique(t, []);
  }

  /**
   * On load, a node placed below a level-3 (fund) key shows its truthy price,
   * any other node its value: roots and the nodes of levels 2 and 3 ignore a
   * price, whatever their position.
   */
  lemma LoadedValueChoice(parentKey: string, index: nat, s: SunBurstData)
    ensures ToTree(parentKey, index, s).data.value ==
              if parentKey != [] && ParseKey(parentKey) == 3 && s.price.Some? && s.price.value != 0.0
              then s.price.value else s.value
    ensures parentKey == [] ==> ToTree(parentKey, index, s).data.value == s.value
  {
    ChildKeyLevel(parentKey, index);
  }

  /** Two trees with the same names and values in the same shape, whatever their keys and titles. */
  predicate SameData(a: DataNode, b: DataNode) {
    && a.data == b.data
    && a.children.Children? == b.children.Children?
    && match a.children
       case NoChildren | UndefinedChildren => true
       case Children(cs) =>
         && |cs| == |b.children.nodes|
         && forall j :: 0 <= j < |cs| ==> SameData(cs[j], b.children.nodes[j])
  }

  /**
   * Tree to radial and back keeps names, values and shape for EVERY tree,
   * and gives every node the key of its position, whatever keys and titles
   * it carried before (the stale ones a removal leaves, say).
   */
  lemma {:induction false} RoundTripKeepsData(parentKey: string, index: nat, n: DataNode)
    ensures SameData(ToTree(parentKey, index, ToRadial(n)), n)
    ensures ToTree(parentKey, index, ToRadial(n)).key == ChildKey(parentKey, index)
    decreases n
  {
    var key := ChildKey(parentKey, index);
    var back := ToTree(parentKey, index, ToRadial(n));
    assert back.data == n.data;
    match n.children
    case NoChildren | UndefinedChildren =>
    case Children(cs) =>
      var rs := seq(|cs|, i requires 0 <= i < |cs| => ToRadial(cs[i]));
      assert ToRadial(n).children == Rings(rs);
      var ts := seq(|cs|, i requires 0 <= i < |cs| => ToTree(key, i, rs[i]));
      assert back.children == Children(ts);
      forall j | 0 <= j < |cs|
        ensures SameData(ts[j], cs[j])
      {
        RoundTripKeepsData(key, j, cs[j]);
      }
  }

  /**
   * Storing any tree and loading it again gives a tree with the same names,
   * values and shape, keyed by position and so with unique keys.
   */
  lemma StoreReloadKeepsData(tree: seq<DataNode>)
    ensures |LoadTree(ToRadialForest(tree))| == |tree|
    ensures forall i :: 0 <= i < |tree| ==> SameData(LoadTree(ToRadialForest(tree))[i], tree[i])
    ensures Keyed(LoadTree(ToRadialForest(tree)), [])
    ensures UniqueKeys(PreOrder(LoadTree(ToRadialForest(tree))))
  {
    var r := LoadTree(ToRadialForest(tree));
    forall i | 0 <= i < |tree|
      ensures SameData(r[i], tree[i])
    {
      RoundTripKeepsData([], i, tree[i]);
    }
    LoadStoreLoad(ToRadialForest(tree));
  }
}
