/**
 * The widget's own copy of the tree (src/components/FileManagerComp/index.tsx):
 * `updateRealFiles` hangs the caller's `files` under a fresh root folder and
 * stamps `parent` onto every node it reaches through folders; `flatRealFiles`
 * lists every node of that copy in pre-order.
 */
module RealFiles {
  import opened Tree
  import opened DeepFind

  /** The nodes of a walk, in the order visited. */
  function NodesOf(vs: seq<Visit>): (r: seq<Node>)
    ensures |r| == |vs|
    ensures forall i :: 0 <= i < |vs| ==> r[i] == vs[i].node
  {
    if vs == [] then [] else [vs[0].node] + NodesOf(vs[1..])
  }

  lemma {:induction false} NodesOfAppend(a: seq<Visit>, b: seq<Visit>)
    ensures NodesOf(a + b) == NodesOf(a) + NodesOf(b)
    decreases |a|
  {
    if a == [] {
      assert a + b == b;
    } else {
      assert (a + b)[0] == a[0] && (a + b)[1..] == a[1..] + b;
      NodesOfAppend(a[1..], b);
      Associative([a[0].node], NodesOf(a[1..]), NodesOf(b));
    }
  }

  /** The nodes a walk reaches do not depend on what the top level is said to hang from. */
  lemma {:induction false} WalkNodesIgnoreParent(arr: seq<Node>, p: Node?, q: Node?, f: bool)
    requires IsForest(arr)
    ensures NodesOf(Walk(arr, p, f)) == NodesOf(Walk(arr, q, f))
    decreases |arr|
  {
    if arr != [] {
      WalkNodesIgnoreParent(arr[1..], p, q, f);
      WalkCons(arr, p, f);
      WalkCons(arr, q, f);
      var below := Below(arr[0], f);
      var rp := Walk(arr[1..], p, f);
      var rq := Walk(arr[1..], q, f);
      NodesOfAppend([Visit(arr[0], p)] + below, rp);
      NodesOfAppend([Visit(arr[0], q)] + below, rq);
      NodesOfAppend([Visit(arr[0], p)], below);
      NodesOfAppend([Visit(arr[0], q)], below);
    }
  }

  /** Two walks that reach the same nodes in the same order reach the same set, and repeat a node alike. */
  lemma {:induction false} SameNodes(a: seq<Visit>, b: seq<Visit>)
    requires NodesOf(a) == NodesOf(b)
    ensures NodeSet(a) == NodeSet(b)
    ensures DistinctNodes(a) <==> DistinctNodes(b)
    decreases |a|
  {
    if a != [] {
      assert a[0].node == NodesOf(a)[0] == NodesOf(b)[0] == b[0].node;
      assert NodesOf(a[1..]) == NodesOf(a)[1..] == NodesOf(b)[1..] == NodesOf(b[1..]);
      SameNodes(a[1..], b[1..]);
    }
  }

  /** Below a node, every visit comes from a node: only the top level of a walk from `null` hangs from nothing. */
  lemma {:induction false} WalkParents(arr: seq<Node>, p: Node?, f: bool)
    requires IsForest(arr)
    ensures forall j :: 0 <= j < |Walk(arr, p, f)| ==> Walk(arr, p, f)[j].parent != null || (p == null && Walk(arr, p, f)[j].node in arr)
    decreases Bound(arr), |arr|
  {
    if arr != [] {
      WalkCons(arr, p, f);
      ChildrenBelow(arr[0]);
      BoundAbove(arr, 0);
      WalkParents(arr[0].children, arr[0], f);
      WalkParents(arr[1..], p, f);
      var head := [Visit(arr[0], p)] + Below(arr[0], f);
      var w := Walk(arr, p, f);
      forall j | 0 <= j < |w| ensures w[j].parent != null || (p == null && w[j].node in arr) {
        if j == 0 {
        } else if j < |head| {
          assert w[j] == Below(arr[0], f)[j - 1];
        } else {
          assert w[j] == Walk(arr[1..], p, f)[j - |head|];
        }
      }
    }
  }

  /** The visits `deepMap` writes: `if (parent) item.parent = parent` skips the ones reached from nothing. */
  function Linked(vs: seq<Visit>): (r: seq<Visit>)
    ensures |r| <= |vs|
  {
    if vs == [] then []
    else if vs[0].parent == null then Linked(vs[1..])
    else [vs[0]] + Linked(vs[1..])
  }

  /** A walk whose every visit comes from a node is written out whole. */
  lemma {:induction false} LinkedAll(vs: seq<Visit>)
    requires forall j :: 0 <= j < |vs| ==> vs[j].parent != null
    ensures Linked(vs) == vs
    decreases |vs|
  {
    if vs != [] {
      assert forall j :: 0 <= j < |vs[1..]| ==> vs[1..][j] == vs[j + 1];
      LinkedAll(vs[1..]);
    }
  }

  lemma {:induction false} LinkedAppend(a: seq<Visit>, b: seq<Visit>)
    ensures Linked(a + b) == Linked(a) + Linked(b)
    decreases |a|
  {
    if a == [] {
      assert a + b == b;
    } else {
      assert (a + b)[0] == a[0] && (a + b)[1..] == a[1..] + b;
      LinkedAppend(a[1..], b);
    }
  }

  /**
   * One call of the `arr.map` callback in `deepMap`, on `arr[i]`, after the
   * visits `done`: the `parent` assignment and, for a folder, the recursive
   * `deepMap` over its children. `links` are the links of `links0` with the
   * visits of `done` stamped on, `links'` the same after `stamped`.
   */
  method MapStep(arr: seq<Node>, i: int, parent: Node?, ghost w: seq<Visit>,
                 ghost links0: map<Node, Node?>, ghost done: seq<Visit>, ghost links: map<Node, Node?>)
    returns (ghost stamped: seq<Visit>, ghost links': map<Node, Node?>)
    requires IsForest(arr) && 0 <= i < |arr|
    requires w == done + Walk(arr[i..], parent, true)
    requires links == Stamp(links0, Linked(done))
    requires NodeSet(w) <= links.Keys
    requires Mirrors(links)
    modifies NodeSet(w)`parent
    decreases Bound(arr), 0
    ensures IsForest(arr[i + 1..])
    ensures w == stamped + Walk(arr[i + 1..], parent, true)
    ensures links' == Stamp(links0, Linked(stamped))
    ensures links.Keys <= links'.Keys
    ensures Mirrors(links')
  {
    var item := arr[i];
    WalkFrom(arr, i, parent, true);
    ghost var v := Visit(item, parent);
    ghost var below := Below(item, true);
    ghost var rest := Walk(arr[i + 1..], parent, true);
    Within(done, v, below, rest);
    LinkedAppend(done, [v]);
    links' := links;
    if parent != null {
      links' := SetParent(item, parent, links);
      StampAppend(links0, Linked(done), [v]);
      StampOne(links, v);
      assert [v][1..] == [] && Linked([v]) == [v];
    } else {
      assert Linked([v]) == [] && Linked(done) + [] == Linked(done);
    }
    stamped := done + [v];
    assert links' == Stamp(links0, Linked(stamped));
    if item.kind == Folder {
      ChildrenBelow(item);
      BoundAbove(arr, i);
      ghost var mid := links';
      var mapped;
      mapped, links' := DeepMap(item.children, item, mid);
      StampAppend(links0, Linked(stamped), Linked(below));
      LinkedAppend(stamped, below);
      StampOutside(mid, Linked(below), item);
      assert links' == Stamp(links0, Linked(stamped + below));
    } else {
      assert below == [] && stamped + below == stamped;
    }
    Associative(done, [v], below);
    Associative(done + [v], below, rest);
    Associative(done, [v] + below, rest);
    stamped := stamped + below;
  }

  /**
   * `deepMap(arr, parent)` inside `updateRealFiles`: every node reached
   * through folders gets `parent` set to the node it hangs from, except at a
   * top level reached from nothing; the array that comes back holds the same
   * nodes. `item.children = deepMap(item.children, item)` stores an array
   * with the same nodes, so `children` keeps its value.
   */
  method DeepMap(arr: seq<Node>, parent: Node?, ghost links: map<Node, Node?>)
    returns (mapped: seq<Node>, ghost links': map<Node, Node?>)
    requires IsForest(arr)
    requires NodeSet(Walk(arr, parent, true)) <= links.Keys
    requires Mirrors(links)
    modifies NodeSet(Walk(arr, parent, true))`parent
    decreases Bound(arr), 1
    ensures mapped == arr
    ensures links' == Stamp(links, Linked(Walk(arr, parent, true)))
    ensures Mirrors(links')
  {
    ghost var w := Walk(arr, parent, true);
    ghost var stamped: seq<Visit> := [];
    mapped, links' := [], links;
    var i := 0;
    assert arr[0..] == arr && w == stamped + w;
    while i < |arr|
      invariant 0 <= i <= |arr| && IsForest(arr[i..])
      invariant mapped == arr[..i]
      invariant w == stamped + Walk(arr[i..], parent, true)
      invariant links' == Stamp(links, Linked(stamped))
      invariant links.Keys <= links'.Keys
      invariant Mirrors(links')
    {
      stamped, links' := MapStep(arr, i, parent, w, links, stamped, links');
      mapped := mapped + [arr[i]];
      TakeOneMore(arr, i);
      i := i + 1;
    }
    assert arr[i..] == [] && stamped + [] == stamped;
  }

  /** Every node of the walk below `root` has as `parent` the folder it is reached from. */
  ghost predicate ParentsLinked(files: seq<Node>, root: Node)
    requires IsForest(files)
    reads set j | 0 <= j < |Walk(files, root, true)| :: Walk(files, root, true)[j].node
  {
    forall j :: 0 <= j < |Walk(files, root, true)| ==>
      Walk(files, root, true)[j].node.parent == Walk(files, root, true)[j].parent
  }

  /** Every node a walk reaches is an existing object. */
  lemma {:induction false} WalkAllocated(arr: seq<Node>, p: Node?, f: bool)
    requires IsForest(arr)
    ensures forall n :: n in NodeSet(Walk(arr, p, f)) ==> allocated(n)
    decreases Bound(arr), |arr|
  {
    if arr != [] {
      WalkCons(arr, p, f);
      ChildrenBelow(arr[0]);
      BoundAbove(arr, 0);
      WalkAllocated(arr[0].children, arr[0], f);
      WalkAllocated(arr[1..], p, f);
      NodeSetAppend([Visit(arr[0], p)] + Below(arr[0], f), Walk(arr[1..], p, f));
      NodeSetAppend([Visit(arr[0], p)], Below(arr[0], f));
    }
  }

  /**
   * The walk from a root folder reached from nothing: the root, then the
   * walk of its children, every one of which `deepMap` writes.
   */
  lemma RootWalk(root: Node, files: seq<Node>)
    requires IsTree(root) && root.kind == Folder && root.children == files
    ensures IsForest([root]) && IsForest(files)
    ensures Walk([root], null, true) == [Visit(root, null)] + Walk(files, root, true)
    ensures NodeSet(Walk([root], null, true)) == {root} + NodeSet(Walk(files, null, true))
    ensures NodeSet(Walk(files, root, true)) == NodeSet(Walk(files, null, true))
    ensures Linked(Walk([root], null, true)) == Walk(files, root, true)
    ensures DistinctNodes(Walk(files, null, true)) ==> DistinctNodes(Walk(files, root, true))
  {
    var v := Walk(files, root, true);
    WalkCons([root], null, true);
    assert [root][1..] == [];
    WalkNodesIgnoreParent(files, null, root, true);
    SameNodes(Walk(files, null, true), v);
    NodeSetAppend([Visit(root, null)], v);
    WalkParents(files, root, true);
    LinkedAppend([Visit(root, null)], v);
    assert Linked([Visit(root, null)]) == [];
    LinkedAll(v);
  }

  /**
   * `updateRealFiles(files)`: a fresh root folder (id "0", path "/", size 0,
   * created at `now`) holding `files`, passed through `deepMap` with no
   * parent. When no node is reached twice, every node reached through folders
   * then points to the folder that holds it, and the root to nothing.
   */
  method UpdateRealFiles(files: seq<Node>, now: int) returns (realFiles: seq<Node>)
    requires IsForest(files)
    modifies NodeSet(Walk(files, null, true))`parent
    ensures |realFiles| == 1 && fresh(realFiles[0]) && IsForest(realFiles)
    ensures realFiles[0].id == "0" && realFiles[0].path == "/" && realFiles[0].kind == Folder
    ensures realFiles[0].children == files && realFiles[0].size == 0 && realFiles[0].modified == now
    ensures realFiles[0].parent == null
    ensures DistinctNodes(Walk(files, null, true)) ==> ParentsLinked(files, realFiles[0])
  {
    ghost var before := NodeSet(Walk(files, null, true));
    WalkAllocated(files, null, true);
    var root := new Node("0", "根目录", "/", Folder, 0, now, files);
    NewNodeIsTree(root);
    realFiles := [root];
    ghost var v := Walk(files, root, true);
    RootWalk(root, files);
    ghost var links: map<Node, Node?> := map n: Node | n in NodeSet(Walk(realFiles, null, true)) :: n.parent;
    ghost var links';
    var mapped;
    mapped, links' := DeepMap(realFiles, null, links);
    assert root !in before;
    StampOutside(links, v, root);
    if DistinctNodes(Walk(files, null, true)) {
      forall j | 0 <= j < |v| ensures v[j].node.parent == v[j].parent {
        StampAt(links, v, j);
      }
    }
  }

  /**
   * Every node of a forest, in pre-order, descending into any node with
   * children: the list `flatMap` builds.
   */
  function Flat(arr: seq<Node>): seq<Node>
    requires IsForest(arr)
    decreases Bound(arr), |arr|
  {
    if arr == [] then []
    else
      ChildrenBelow(arr[0]);
      [arr[0]] + Flat(arr[0].children) + Flat(arr[1..])
  }

  /** The flat list is the walk that `deepFind` makes, its nodes only. */
  lemma {:induction false} FlatIsWalk(arr: seq<Node>, p: Node?)
    requires IsForest(arr)
    ensures Flat(arr) == NodesOf(Walk(arr, p, false))
    decreases Bound(arr), |arr|
  {
    if arr != [] {
      WalkCons(arr, p, false);
      ChildrenBelow(arr[0]);
      BoundAbove(arr, 0);
      FlatIsWalk(arr[0].children, arr[0]);
      FlatIsWalk(arr[1..], p);
      var below := Walk(arr[0].children, arr[0], false);
      NodesOfAppend([Visit(arr[0], p)] + below, Walk(arr[1..], p, false));
      NodesOfAppend([Visit(arr[0], p)], below);
    }
  }

  /** With no node reached twice, the flat list holds each node of the tree exactly once. */
  lemma FlatDistinct(arr: seq<Node>)
    requires IsForest(arr) && DistinctNodes(Walk(arr, null, false))
    ensures forall i, j :: 0 <= i < j < |Flat(arr)| ==> Flat(arr)[i] != Flat(arr)[j]
    ensures forall n :: n in NodeSet(Walk(arr, null, false)) ==> n in Flat(arr)
  {
    var w := Walk(arr, null, false);
    FlatIsWalk(arr, null);
    forall i, j | 0 <= i < j < |Flat(arr)| ensures Flat(arr)[i] != Flat(arr)[j] {
      DistinctAt(w, i, j);
    }
    forall n | n in NodeSet(w) ensures n in Flat(arr) {
      InNodeSet(w, n);
    }
  }

  /** The flat list from node `i` on. */
  lemma FlatFrom(arr: seq<Node>, i: int)
    requires IsForest(arr) && 0 <= i < |arr|
    ensures IsForest(arr[i + 1..]) && IsForest(arr[i].children)
    ensures Flat(arr[i..]) == ([arr[i]] + Flat(arr[i].children)) + Flat(arr[i + 1..])
  {
    assert arr[i..][0] == arr[i] && arr[i..][1..] == arr[i + 1..];
  }

  /** `flatMap(arr)`: appends the flat list of `arr` to `result`, one push at a time. */
  method FlatMap(arr: seq<Node>, result: seq<Node>) returns (result': seq<Node>)
    requires IsForest(arr)
    decreases Bound(arr)
    ensures result' == result + Flat(arr)
  {
    result' := result;
    var i := 0;
    assert arr[0..] == arr;
    while i < |arr|
      invariant 0 <= i <= |arr| && IsForest(arr[i..])
      invariant result + Flat(arr) == result' + Flat(arr[i..])
    {
      var file := arr[i];
      FlatFrom(arr, i);
      ghost var sub := Flat(file.children);
      ghost var rest := Flat(arr[i + 1..]);
      result' := result' + [file];
      ChildrenBelow(file);
      BoundAbove(arr, i);
      ghost var pushed := result';
      result' := FlatMap(file.children, result');
      Associative(pushed, sub, rest);
      Associative(pushed[..|pushed| - 1], [file], sub + rest);
      Associative([file], sub, rest);
      assert pushed == pushed[..|pushed| - 1] + [file];
      i := i + 1;
    }
    assert arr[i..] == [] && result' + [] == result';
  }

  /** `flatRealFiles`: every node of `realFiles`, in the order `deepFind` visits them. */
  method FlatRealFiles(realFiles: seq<Node>) returns (flat: seq<Node>)
    requires IsForest(realFiles)
    ensures flat == Flat(realFiles)
    ensures flat == NodesOf(Walk(realFiles, null, false))
  {
    flat := FlatMap(realFiles, []);
    FlatIsWalk(realFiles, null);
  }
}
