/**
 * `deepFind` (src/utils/deepFind.ts): a depth-first pre-order search for the
 * first node that satisfies a callback, which is handed each node together
 * with the node it hangs from. The search stops at the first match, and with
 * `structure` set it stamps `parent` onto every node it visits.
 */
module DeepFind {
  import opened Tree

  /** The argument as JavaScript sees it: an array of nodes or anything else. */
  datatype Origin = ArrayOrigin(items: seq<Node>) | OtherOrigin

  /** `deepFind` either throws ("please pass an array") or returns a node or `undefined`. */
  datatype FindOutcome = Threw | Returned(found: Node?)

  /**
   * The position of the first visit that satisfies `pred`, or `|vs|` when
   * none does.
   */
  function FirstMatch(vs: seq<Visit>, pred: (Node, Node?) -> bool): (k: nat)
    ensures k <= |vs|
  {
    if vs == [] then 0
    else if pred(vs[0].node, vs[0].parent) then 0
    else 1 + FirstMatch(vs[1..], pred)
  }

  /** `FirstMatch` is the first match: every earlier visit is rejected and the one at `k`, if any, accepted. */
  lemma {:induction false} FirstMatchIsFirst(vs: seq<Visit>, pred: (Node, Node?) -> bool)
    ensures forall j :: 0 <= j < FirstMatch(vs, pred) ==> !pred(vs[j].node, vs[j].parent)
    ensures FirstMatch(vs, pred) < |vs| ==> pred(vs[FirstMatch(vs, pred)].node, vs[FirstMatch(vs, pred)].parent)
  {
    if vs != [] && !pred(vs[0].node, vs[0].parent) {
      FirstMatchIsFirst(vs[1..], pred);
      forall j | 1 <= j < FirstMatch(vs, pred) ensures !pred(vs[j].node, vs[j].parent) {
        assert vs[j] == vs[1..][j - 1];
      }
    }
  }

  /** The node the search returns: the first match, or `null` (JavaScript's `undefined`). */
  function Found(vs: seq<Visit>, pred: (Node, Node?) -> bool): Node? {
    var k := FirstMatch(vs, pred);
    if k < |vs| then vs[k].node else null
  }

  /** The visits the search makes, i.e. the callback invocations: up to and including the first match. */
  function Visited(vs: seq<Visit>, pred: (Node, Node?) -> bool): (r: seq<Visit>)
    ensures r <= vs
  {
    var k := FirstMatch(vs, pred);
    if k < |vs| then vs[..k + 1] else vs
  }

  /** Searching a concatenation searches the second part only when the first has no match. */
  lemma {:induction false} FirstMatchAppend(a: seq<Visit>, b: seq<Visit>, pred: (Node, Node?) -> bool)
    ensures FirstMatch(a + b, pred) == if FirstMatch(a, pred) < |a| then FirstMatch(a, pred) else |a| + FirstMatch(b, pred)
  {
    if a != [] {
      assert (a + b)[0] == a[0];
      assert (a + b)[1..] == a[1..] + b;
      FirstMatchAppend(a[1..], b, pred);
    } else {
      assert a + b == b;
    }
  }

  lemma {:induction false} FoundAppend(a: seq<Visit>, b: seq<Visit>, pred: (Node, Node?) -> bool)
    ensures Found(a + b, pred) == if Found(a, pred) != null then Found(a, pred) else Found(b, pred)
    ensures Visited(a + b, pred) == if Found(a, pred) != null then Visited(a, pred) else a + Visited(b, pred)
  {
    FirstMatchAppend(a, b, pred);
    var k := FirstMatch(a, pred);
    if k < |a| {
      assert (a + b)[..k + 1] == a[..k + 1];
    } else {
      var m := FirstMatch(b, pred);
      if m < |b| {
        assert (a + b)[..|a| + m + 1] == a + b[..m + 1];
      }
    }
  }

  /** A matching visit after a stretch without a match ends the search there. */
  lemma {:induction false} SearchHit(done: seq<Visit>, v: Visit, below: seq<Visit>, pred: (Node, Node?) -> bool)
    requires Found(done, pred) == null && pred(v.node, v.parent)
    ensures Found(done + ([v] + below), pred) == v.node
    ensures Visited(done + ([v] + below), pred) == done + [v]
  {
    FoundAppend(done, [v] + below, pred);
    assert ([v] + below)[..1] == [v];
  }

  /** The visits the search does not make: everything after the first match. */
  function Remaining(vs: seq<Visit>, pred: (Node, Node?) -> bool): (r: seq<Visit>)
    ensures Visited(vs, pred) + r == vs
  {
    vs[|Visited(vs, pred)|..]
  }

  /** A visit that does not match hands the search on to what follows it. */
  lemma {:induction false} SearchMiss(done: seq<Visit>, v: Visit, below: seq<Visit>, pred: (Node, Node?) -> bool)
    requires Found(done, pred) == null && !pred(v.node, v.parent)
    ensures Found(done + ([v] + below), pred) == Found(below, pred)
    ensures Visited(done + ([v] + below), pred) == (done + [v]) + Visited(below, pred)
  {
    SingleMiss(v, pred);
    FoundAppend([v], below, pred);
    FoundAppend(done, [v] + below, pred);
    assert done + ([v] + Visited(below, pred)) == (done + [v]) + Visited(below, pred);
  }

  lemma SingleMiss(v: Visit, pred: (Node, Node?) -> bool)
    requires !pred(v.node, v.parent)
    ensures Found([v], pred) == null && Visited([v], pred) == [v]
  {
    assert FirstMatch([v], pred) == 1 + FirstMatch([], pred);
  }

  /**
   * A visit that matches, after a stretch `done` without one, ends the search
   * there: everything after it stays unvisited.
   */
  lemma {:induction false} Hit(done: seq<Visit>, v: Visit, below: seq<Visit>, rest: seq<Visit>, pred: (Node, Node?) -> bool)
    requires Found(done, pred) == null && pred(v.node, v.parent)
    ensures Found(done + (([v] + below) + rest), pred) == v.node
    ensures Visited(done + (([v] + below) + rest), pred) == done + [v]
    ensures Remaining(done + (([v] + below) + rest), pred) == below + rest
  {
    var whole := done + (([v] + below) + rest);
    assert whole == (done + ([v] + below)) + rest;
    SearchHit(done, v, below, pred);
    FoundAppend(done + ([v] + below), rest, pred);
    assert whole == (done + [v]) + (below + rest);
  }

  /** A visit that does not match, followed by a subtree that holds a match, ends the search inside that subtree. */
  lemma {:induction false} MissThenHit(done: seq<Visit>, v: Visit, below: seq<Visit>, rest: seq<Visit>, pred: (Node, Node?) -> bool)
    requires Found(done, pred) == null && !pred(v.node, v.parent) && Found(below, pred) != null
    ensures Found(done + (([v] + below) + rest), pred) == Found(below, pred)
    ensures Visited(done + (([v] + below) + rest), pred) == (done + [v]) + Visited(below, pred)
    ensures Remaining(done + (([v] + below) + rest), pred) == Remaining(below, pred) + rest
  {
    var vb := Visited(below, pred);
    var rb := Remaining(below, pred);
    Regroup(done, v, below, rest, vb, rb);
    SearchMiss(done, v, below, pred);
    HitStays(done + ([v] + below), rest, pred);
    RemainingAfter(done + (([v] + below) + rest), (done + [v]) + vb, rb + rest, pred);
  }

  lemma Regroup(done: seq<Visit>, v: Visit, below: seq<Visit>, rest: seq<Visit>, vb: seq<Visit>, rb: seq<Visit>)
    requires below == vb + rb
    ensures done + (([v] + below) + rest) == (done + ([v] + below)) + rest
    ensures done + (([v] + below) + rest) == ((done + [v]) + vb) + (rb + rest)
  {
  }

  /** Once a stretch holds a match, whatever follows it is never searched. */
  lemma HitStays(front: seq<Visit>, rest: seq<Visit>, pred: (Node, Node?) -> bool)
    requires Found(front, pred) != null
    ensures Found(front + rest, pred) == Found(front, pred)
    ensures Visited(front + rest, pred) == Visited(front, pred)
  {
    FoundAppend(front, rest, pred);
  }

  lemma {:induction false} RemainingAfter(vs: seq<Visit>, a: seq<Visit>, b: seq<Visit>, pred: (Node, Node?) -> bool)
    requires vs == a + b && Visited(vs, pred) == a
    ensures Remaining(vs, pred) == b
  {
  }

  /** A visit that does not match, followed by a subtree without a match, leaves the search going. */
  lemma {:induction false} MissMiss(done: seq<Visit>, v: Visit, below: seq<Visit>, rest: seq<Visit>, pred: (Node, Node?) -> bool)
    requires Found(done, pred) == null && !pred(v.node, v.parent) && Found(below, pred) == null
    ensures Found((done + [v]) + below, pred) == null
    ensures Visited(below, pred) == below
    ensures done + (([v] + below) + rest) == ((done + [v]) + below) + rest
  {
    SearchMiss(done, v, below, pred);
    assert done + ([v] + below) == (done + [v]) + below;
  }

  /**
   * The `parent` links after stamping each visit of `vs` in turn onto the
   * links `links`: each visited node now points to the node it was reached from.
   */
  ghost function Stamp(links: map<Node, Node?>, vs: seq<Visit>): map<Node, Node?>
    decreases |vs|
  {
    if vs == [] then links else Stamp(links[vs[0].node := vs[0].parent], vs[1..])
  }

  lemma {:induction false} StampAppend(links: map<Node, Node?>, a: seq<Visit>, b: seq<Visit>)
    ensures Stamp(links, a + b) == Stamp(Stamp(links, a), b)
    decreases |a|
  {
    if a == [] {
      assert a + b == b;
    } else {
      assert (a + b)[0] == a[0];
      assert (a + b)[1..] == a[1..] + b;
      StampAppend(links[a[0].node := a[0].parent], a[1..], b);
    }
  }

  lemma StampOne(links: map<Node, Node?>, v: Visit)
    ensures Stamp(links, [v]) == links[v.node := v.parent]
  {
    assert [v][1..] == [];
  }

  /** Stamping adds the visited nodes and keeps every other link. */
  lemma {:induction false} StampOutside(links: map<Node, Node?>, vs: seq<Visit>, n: Node)
    ensures links.Keys <= Stamp(links, vs).Keys
    ensures n !in NodeSet(vs) && n in links ==> Stamp(links, vs)[n] == links[n]
    decreases |vs|
  {
    if vs != [] {
      StampOutside(links[vs[0].node := vs[0].parent], vs[1..], n);
    }
  }

  /** With no node visited twice, the `j`-th visited node ends up pointing to the node it was reached from. */
  lemma {:induction false} StampAt(links: map<Node, Node?>, vs: seq<Visit>, j: int)
    requires DistinctNodes(vs) && 0 <= j < |vs|
    ensures vs[j].node in Stamp(links, vs) && Stamp(links, vs)[vs[j].node] == vs[j].parent
    decreases |vs|
  {
    var next := links[vs[0].node := vs[0].parent];
    if j == 0 {
      StampOutside(next, vs[1..], vs[0].node);
    } else {
      assert vs[1..][j - 1] == vs[j];
      StampAt(next, vs[1..], j - 1);
    }
  }

  /** Position `j` of a concatenation, in the part that holds it. */
  lemma {:induction false} PartAt(a: seq<Visit>, b: seq<Visit>, c: seq<Visit>, j: int)
    requires a + b == c && 0 <= j < |c|
    ensures j < |a| ==> c[j] == a[j]
    ensures |a| <= j ==> c[j] == b[j - |a|]
  {
  }

  /** The ghost map `links` records the current `parent` field of each node it holds. */
  ghost predicate Mirrors(links: map<Node, Node?>)
    reads links.Keys
  {
    forall n :: n in links ==> n.parent == links[n]
  }

  /** `item.parent = parent`, with the ghost record of the links kept in step. */
  method SetParent(item: Node, parent: Node?, ghost links: map<Node, Node?>) returns (ghost links': map<Node, Node?>)
    requires item in links && Mirrors(links)
    modifies item`parent
    ensures item.parent == parent
    ensures links' == links[item := parent] && Mirrors(links')
  {
    item.parent := parent;
    links' := links[item := parent];
  }

  /**
   * One turn of the loop in `core` on `arr[i]`, after the visits `done`
   * found no match: the callback, the `parent` assignment, and on a miss the
   * descent into the children. `links0` are the links before the loop, so
   * `links` and `links'` are those links with `done` and with `calls`
   * stamped on.
   */
  method Step(arr: seq<Node>, i: int, parent: Node?, pred: (Node, Node?) -> bool, structure: bool,
              ghost w: seq<Visit>, ghost links0: map<Node, Node?>, ghost done: seq<Visit>, ghost links: map<Node, Node?>)
    returns (found: Node?, ghost calls: seq<Visit>, ghost links': map<Node, Node?>)
    requires IsForest(arr) && 0 <= i < |arr|
    requires w == done + Walk(arr[i..], parent, false)
    requires Found(done, pred) == null
    requires links == if structure then Stamp(links0, done) else links0
    requires NodeSet(w) <= links.Keys
    requires Mirrors(links)
    modifies (if structure then NodeSet(w) else {})`parent
    decreases Bound(arr), 0
    ensures IsForest(arr[i + 1..])
    ensures found != null ==> found == Found(w, pred) && calls == Visited(w, pred)
    ensures found == null ==> Found(calls, pred) == null && w == calls + Walk(arr[i + 1..], parent, false)
    ensures links' == if structure then Stamp(links0, calls) else links0
    ensures links.Keys <= links'.Keys
    ensures Mirrors(links')
  {
    var item := arr[i];
    WalkFrom(arr, i, parent, false);
    ghost var v := Visit(item, parent);
    ghost var below := Walk(item.children, item, false);
    ghost var rest := Walk(arr[i + 1..], parent, false);
    Within(done, v, below, rest);
    var condition := pred(item, parent);
    calls, links' := done + [v], links;
    if structure {
      links' := SetParent(item, parent, links);
      StampAppend(links0, done, [v]);
      StampOne(links, v);
    }
    if condition {
      Hit(done, v, below, rest, pred);
      return item, calls, links';
    }
    ChildrenBelow(item);
    BoundAbove(arr, i);
    ghost var mid := links';
    ghost var subCalls;
    found, subCalls, links' := Core(item.children, item, pred, structure, mid);
    StampAppend(links0, done + [v], subCalls);
    StampOutside(mid, subCalls, item);
    calls := calls + subCalls;
    if found != null {
      MissThenHit(done, v, below, rest, pred);
    } else {
      MissMiss(done, v, below, rest, pred);
    }
  }

  /**
   * The inner `core(arr, parent)` of deepFind.ts:14-25, together with the
   * `result` variable it captures. `calls` records the callback invocations.
   * The ghost map `links` stands for the `parent` field of every node it
   * holds, and `links'` for those fields afterwards: with `structure`, each
   * visited node has been stamped with the node it was reached from, and no
   * other node has changed.
   */
  method Core(arr: seq<Node>, parent: Node?, pred: (Node, Node?) -> bool, structure: bool, ghost links: map<Node, Node?>)
    returns (found: Node?, ghost calls: seq<Visit>, ghost links': map<Node, Node?>)
    requires IsForest(arr)
    requires NodeSet(Walk(arr, parent, false)) <= links.Keys
    requires Mirrors(links)
    modifies (if structure then NodeSet(Walk(arr, parent, false)) else {})`parent
    decreases Bound(arr), 1
    ensures found == Found(Walk(arr, parent, false), pred)
    ensures calls == Visited(Walk(arr, parent, false), pred)
    ensures links' == if structure then Stamp(links, calls) else links
    ensures Mirrors(links')
  {
    ghost var w := Walk(arr, parent, false);
    found, calls, links' := null, [], links;
    var i := 0;
    assert arr[0..] == arr && w == calls + w;
    while i < |arr|
      invariant 0 <= i <= |arr| && IsForest(arr[i..])
      invariant w == calls + Walk(arr[i..], parent, false)
      invariant found == null && Found(calls, pred) == null
      invariant links' == if structure then Stamp(links, calls) else links
      invariant links.Keys <= links'.Keys
      invariant Mirrors(links')
    {
      var sub;
      sub, calls, links' := Step(arr, i, parent, pred, structure, w, links, calls, links');
      if sub != null {
        found := sub;
        return;
      }
      i := i + 1;
    }
    assert arr[i..] == [] && calls + [] == calls;
  }

  /**
   * `deepFind(originArr, callback, { structure })`. A non-array argument
   * throws; otherwise the result is the first node in pre-order that the
   * callback accepts, the callback has been called exactly on the visits up
   * to that node, and with `structure` each of those nodes now points to the
   * node it hangs from. Every later node keeps its `parent`.
   */
  method Search(origin: Origin, pred: (Node, Node?) -> bool, structure: bool)
    returns (r: FindOutcome, ghost calls: seq<Visit>)
    requires origin.ArrayOrigin? ==> IsForest(origin.items)
    modifies (if origin.ArrayOrigin? && structure then NodeSet(Walk(origin.items, null, false)) else {})`parent
    ensures r.Threw? <==> origin.OtherOrigin?
    ensures origin.ArrayOrigin? ==> r == Returned(Found(Walk(origin.items, null, false), pred))
    ensures origin.ArrayOrigin? ==> calls == Visited(Walk(origin.items, null, false), pred)
    ensures origin.ArrayOrigin? && structure && DistinctNodes(Walk(origin.items, null, false)) ==>
      forall j :: 0 <= j < |Walk(origin.items, null, false)| ==>
        Walk(origin.items, null, false)[j].node.parent ==
          if j < |calls| then Walk(origin.items, null, false)[j].parent
          else old(Walk(origin.items, null, false)[j].node.parent)
  {
    if origin.OtherOrigin? {
      return Threw, [];
    }
    ghost var w := Walk(origin.items, null, false);
    ghost var links: map<Node, Node?> := map n: Node | n in NodeSet(w) :: n.parent;
    ghost var initial := map j | 0 <= j < |w| :: w[j].node.parent;
    forall j | 0 <= j < |w| ensures w[j].node in links && links[w[j].node] == initial[j] {
      InNodeSet(w, w[j].node);
    }
    var found;
    ghost var links';
    found, calls, links' := Core(origin.items, null, pred, structure, links);
    r := Returned(found);
    if structure && DistinctNodes(w) {
      ghost var remaining := Remaining(w, pred);
      DistinctAppend(calls, remaining);
      forall j | 0 <= j < |w|
        ensures w[j].node.parent == if j < |calls| then w[j].parent else initial[j]
      {
        StampOutside(links, calls, w[j].node);
        PartAt(calls, remaining, w, j);
        if j < |calls| {
          StampAt(links, calls, j);
        } else {
          InNodeSet(remaining, w[j].node);
        }
      }
    }
  }
}
