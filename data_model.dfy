/**
 * The two shapes of the allocation tree in src/App.tsx:
 * `DataNode` (the edit tree shown by the tree widget) and `SunBurstData`
 * (the radial snapshot charted and persisted).
 *
 * An optional `children` property of JavaScript is a `ChildList`/`RingList`:
 * `NoChildren` is the property absent, `UndefinedChildren` the property
 * present with the value `undefined` (both falsy, but an object spread copies
 * the second and not the first), and `Children([])` an empty array, which
 * JavaScript treats as present (truthy).
 */
module DataModel {

  datatype Option<T> = None | Some(value: T)

  /**
   * The `title` of a DataNode is a React element `<TreeTitle data={{title, value}} treeKey={key} />`;
   * only its props are kept, its rendering is presentation.
   */
  datatype Title = TreeTitle(text: string, value: real, treeKey: string)

  /** `data: { title, value }`: the name and the number entered for the node. */
  datatype NodeData = NodeData(title: string, value: real)

  datatype DataNode = DataNode(
    title: Title,
    data: NodeData,
    key: string,
    isLeaf: Option<bool>,
    children: ChildList)

  datatype ChildList = NoChildren | UndefinedChildren | Children(nodes: seq<DataNode>)

  /** `SunBurstData`: `price` is present only after the derivation wrote it. */
  datatype SunBurstData = SunBurstData(
    name: string,
    value: real,
    price: Option<real>,
    level: Option<int>,
    children: RingList)

  datatype RingList = NoRings | Rings(nodes: seq<SunBurstData>)

  /** The children of a node, an absent or undefined list read as empty. */
  function Kids(n: DataNode): seq<DataNode> {
    if n.children.Children? then n.children.nodes else []
  }

  function RingsOf(s: SunBurstData): seq<SunBurstData> {
    match s.children
    case NoRings => []
    case Rings(cs) => cs
  }

  /** Number of nodes in a node's subtree, itself included. */
  function NodeCount(n: DataNode): (c: nat)
    ensures c >= 1
  {
    match n.children
    case NoChildren | UndefinedChildren => 1
    case Children(cs) => 1 + ListCount(cs)
  }

  /** Number of nodes in a forest. */
  function ListCount(list: seq<DataNode>): nat {
    if list == [] then 0 else ListCount(list[..|list| - 1]) + NodeCount(list[|list| - 1])
  }

  lemma {:induction false} ListCountConcat(a: seq<DataNode>, b: seq<DataNode>)
    ensures ListCount(a + b) == ListCount(a) + ListCount(b)
  {
    if b != [] {
      ListCountConcat(a, b[..|b| - 1]);
      assert (a + b)[..|a + b| - 1] == a + b[..|b| - 1];
    } else {
      assert a + b == a;
    }
  }

  /** A member of a forest is no bigger than the forest, and its children are strictly smaller. */
  lemma {:induction false} ListCountElement(list: seq<DataNode>, i: nat)
    requires i < |list|
    ensures NodeCount(list[i]) <= ListCount(list)
    ensures ListCount(Kids(list[i])) < ListCount(list)
  {
    if i < |list| - 1 {
      ListCountElement(list[..|list| - 1], i);
    }
  }

  lemma Associative<T>(a: seq<T>, b: seq<T>, c: seq<T>)
    ensures a + b + c == a + (b + c)
  {
  }

  /** `items.forEach(item => result.push(item))`, on a copy of `result`. */
  method PushAll<T>(result: seq<T>, items: seq<T>) returns (out: seq<T>)
    ensures out == result + items
  {
    out := result;
    var j := 0;
    while j < |items|
      invariant 0 <= j <= |items|
      invariant out == result + items[..j]
    {
      assert items[..j + 1] == items[..j] + [items[j]];
      out := out + [items[j]];
      j := j + 1;
    }
    assert items[..|items|] == items;
  }
}
