/**
 * The file tree (`FileItem` in src/components/FileManagerComp/types/index.ts).
 *
 * A node is an object: the widget stamps `parent` back-references and the
 * `editing` flag onto nodes in place, so those two are mutable fields. Every
 * other field is fixed once the caller builds the item. The ghost `height`
 * only serves termination of the recursions over `children`.
 */
module Tree {

  datatype Kind = File | Folder

  class Node {
    const id: string
    const name: string
    const path: string
    const kind: Kind
    const size: int
    /** `modifiedDate`, taken as a number (epoch milliseconds). */
    const modified: int
    /** A missing `children` array is the empty sequence: every traversal treats them alike. */
    const children: seq<Node>
    ghost const height: nat
    var parent: Node?
    var editing: bool

    constructor (id: string, name: string, path: string, kind: Kind, size: int, modified: int, children: seq<Node>)
      ensures this.id == id && this.name == name && this.path == path && this.kind == kind
      ensures this.size == size && this.modified == modified && this.children == children
      ensures parent == null && !editing
      ensures height == Bound(children)
    {
      this.id := id;
      this.name := name;
      this.path := path;
      this.kind := kind;
      this.size := size;
      this.modified := modified;
      this.children := children;
      this.height := Bound(children);
      this.parent := null;
      this.editing := false;
    }
  }

  function Max(a: nat, b: nat): nat { if a < b then b else a }

  /** One more than the greatest height in `arr` (0 for none). */
  ghost function Bound(arr: seq<Node>): nat {
    if arr == [] then 0 else Max(arr[0].height + 1, Bound(arr[1..]))
  }

  /** Every child sits strictly lower than its parent, all the way down: the structure is finite and acyclic. */
  ghost predicate IsTree(n: Node)
    decreases n.height
  {
    forall i :: 0 <= i < |n.children| ==> n.children[i].height < n.height && IsTree(n.children[i])
  }

  ghost predicate IsForest(arr: seq<Node>) {
    forall i :: 0 <= i < |arr| ==> IsTree(arr[i])
  }

  lemma {:induction false} BoundAbove(arr: seq<Node>, i: int)
    requires 0 <= i < |arr|
    ensures arr[i].height < Bound(arr)
  {
    if i > 0 {
      BoundAbove(arr[1..], i - 1);
    }
  }

  lemma {:induction false} BoundBelow(arr: seq<Node>, h: nat)
    requires forall i :: 0 <= i < |arr| ==> arr[i].height < h
    ensures Bound(arr) <= h
  {
    if arr != [] {
      BoundBelow(arr[1..], h);
    }
  }

  lemma ChildrenBelow(n: Node)
    requires IsTree(n)
    ensures Bound(n.children) <= n.height
  {
    BoundBelow(n.children, n.height);
  }

  /** A node built by the constructor over a forest is a tree. */
  lemma NewNodeIsTree(n: Node)
    requires n.height == Bound(n.children) && IsForest(n.children)
    ensures IsTree(n)
  {
    forall i | 0 <= i < |n.children|
      ensures n.children[i].height < n.height
    {
      BoundAbove(n.children, i);
    }
  }

  /** One step of a traversal: the node and the node it was reached from (`null` at the top). */
  datatype Visit = Visit(node: Node, parent: Node?)

  /**
   * Depth-first pre-order over `arr`: each node, then its subtree, then its
   * later siblings. With `foldersOnly` the walk descends only into folders
   * (as `updateRealFiles` does); otherwise into every node that has children
   * (as `deepFind` and `flatRealFiles` do).
   */
  function Walk(arr: seq<Node>, parent: Node?, foldersOnly: bool): seq<Visit>
    requires IsForest(arr)
    decreases Bound(arr), |arr|
  {
    if arr == [] then []
    else
      ChildrenBelow(arr[0]);
      [Visit(arr[0], parent)]
      + (if !foldersOnly || arr[0].kind == Folder then Walk(arr[0].children, arr[0], foldersOnly) else [])
      + Walk(arr[1..], parent, foldersOnly)
  }

  /** The subtree walk below `n`, as `Walk` takes it. */
  function Below(n: Node, foldersOnly: bool): seq<Visit>
    requires IsTree(n)
  {
    if !foldersOnly || n.kind == Folder then Walk(n.children, n, foldersOnly) else []
  }

  /** The nodes a walk reaches. */
  ghost function NodeSet(vs: seq<Visit>): set<Node> {
    if vs == [] then {} else {vs[0].node} + NodeSet(vs[1..])
  }

  lemma {:induction false} InNodeSet(vs: seq<Visit>, n: Node)
    ensures n in NodeSet(vs) <==> exists j :: 0 <= j < |vs| && vs[j].node == n
  {
    if vs != [] {
      InNodeSet(vs[1..], n);
      if n in NodeSet(vs[1..]) {
        var j :| 0 <= j < |vs[1..]| && vs[1..][j].node == n;
        assert vs[j + 1].node == n;
      }
      forall j | 1 <= j < |vs| && vs[j].node == n ensures n in NodeSet(vs[1..]) {
        assert vs[1..][j - 1].node == n;
      }
    }
  }

  /** No node is reached twice: the structure is a tree and not a shared graph. */
  ghost predicate DistinctNodes(vs: seq<Visit>) {
    vs == [] || (vs[0].node !in NodeSet(vs[1..]) && DistinctNodes(vs[1..]))
  }

  /** `DistinctNodes` by position: two different visits reach two different nodes. */
  lemma {:induction false} DistinctAt(vs: seq<Visit>, i: int, j: int)
    requires DistinctNodes(vs) && 0 <= i < j < |vs|
    ensures vs[i].node != vs[j].node
  {
    if i == 0 {
      InNodeSet(vs[1..], vs[j].node);
      assert vs[1..][j - 1] == vs[j];
    } else {
      DistinctAt(vs[1..], i - 1, j - 1);
    }
  }

  lemma ForestAppend(a: seq<Node>, b: seq<Node>)
    requires IsForest(a) && IsForest(b)
    ensures IsForest(a + b)
  {
  }

  lemma {:induction false} WalkAppend(a: seq<Node>, b: seq<Node>, p: Node?, f: bool)
    requires IsForest(a) && IsForest(b)
    ensures IsForest(a + b)
    ensures Walk(a + b, p, f) == Walk(a, p, f) + Walk(b, p, f)
    decreases |a|
  {
    if a == [] {
      assert a + b == b;
    } else {
      assert (a + b)[0] == a[0] && (a + b)[1..] == a[1..] + b;
      WalkCons(a, p, f);
      WalkCons(a + b, p, f);
      WalkAppend(a[1..], b, p, f);
      Associative([Visit(a[0], p)] + Below(a[0], f), Walk(a[1..], p, f), Walk(b, p, f));
    }
  }

  lemma Associative<T>(x: seq<T>, y: seq<T>, z: seq<T>)
    ensures (x + y) + z == x + (y + z)
  {
  }

  lemma TakeOneMore<T>(s: seq<T>, i: int)
    requires 0 <= i < |s|
    ensures s[..i + 1] == s[..i] + [s[i]]
  {
  }

  lemma {:induction false} NodeSetAppend(a: seq<Visit>, b: seq<Visit>)
    ensures NodeSet(a + b) == NodeSet(a) + NodeSet(b)
  {
    if a == [] {
      assert a + b == b;
    } else {
      assert (a + b)[0] == a[0];
      assert (a + b)[1..] == a[1..] + b;
      NodeSetAppend(a[1..], b);
    }
  }

  lemma {:induction false} DistinctAppend(a: seq<Visit>, b: seq<Visit>)
    requires DistinctNodes(a + b)
    ensures DistinctNodes(a) && DistinctNodes(b)
    ensures NodeSet(a) !! NodeSet(b)
  {
    if a == [] {
      assert a + b == b;
    } else {
      assert (a + b)[0] == a[0];
      assert (a + b)[1..] == a[1..] + b;
      DistinctAppend(a[1..], b);
      NodeSetAppend(a[1..], b);
    }
  }

  lemma WalkCons(arr: seq<Node>, p: Node?, f: bool)
    requires IsForest(arr) && arr != []
    ensures IsTree(arr[0]) && IsForest(arr[1..])
    ensures Walk(arr, p, f) == ([Visit(arr[0], p)] + Below(arr[0], f)) + Walk(arr[1..], p, f)
  {
  }

  /** The walk from node `i` on: node `i`, its subtree, then the walk of the nodes after it. */
  lemma {:induction false} WalkFrom(arr: seq<Node>, i: int, p: Node?, f: bool)
    requires IsForest(arr) && 0 <= i < |arr|
    ensures IsForest(arr[i..]) && IsForest(arr[i + 1..]) && IsTree(arr[i]) && IsForest(arr[i].children)
    ensures Walk(arr[i..], p, f) == ([Visit(arr[i], p)] + Below(arr[i], f)) + Walk(arr[i + 1..], p, f)
    ensures Below(arr[i], f) == if !f || arr[i].kind == Folder then Walk(arr[i].children, arr[i], f) else []
  {
    WalkCons(arr[i..], p, f);
    assert arr[i..][0] == arr[i] && arr[i..][1..] == arr[i + 1..];
  }

  /** The visit `v` and the subtree `below` after it reach nodes of the whole walk. */
  lemma {:induction false} Within(done: seq<Visit>, v: Visit, below: seq<Visit>, rest: seq<Visit>)
    ensures v.node in NodeSet(done + (([v] + below) + rest))
    ensures NodeSet(below) <= NodeSet(done + (([v] + below) + rest))
  {
    NodeSetAppend(done, ([v] + below) + rest);
    NodeSetAppend([v] + below, rest);
    NodeSetAppend([v], below);
    assert v.node in NodeSet([v]);
  }
}
