/**
 * The navigation history of src/components/FileManagerComp/index.tsx: a
 * stack of entries and a current entry, which is found in the stack by its
 * id (`getHistoryIndex`). Every entry gets a fresh random id when it is made.
 */
module History {
  import opened Tree
  import opened Lists

  /** `HistoryProp`: the path shown, a fresh id, and the node navigated to. */
  datatype HistoryEntry = HistoryEntry(path: string, id: string, record: Node)

  function Ids(stack: seq<HistoryEntry>): (r: seq<string>)
    ensures |r| == |stack|
    ensures forall i :: 0 <= i < |stack| ==> r[i] == stack[i].id
  {
    if stack == [] then [] else [stack[0].id] + Ids(stack[1..])
  }

  /** No two entries share an id, which holds because every id is freshly drawn. */
  predicate DistinctIds(stack: seq<HistoryEntry>) {
    forall i, j :: 0 <= i < j < |stack| ==> stack[i].id != stack[j].id
  }

  /** `getHistoryIndex()`: `historyStack.map(item => item.id).indexOf(currentHistory.id)`. */
  function HistoryIndex(stack: seq<HistoryEntry>, current: HistoryEntry): (r: int)
    ensures -1 <= r < |stack|
    ensures r == -1 <==> forall i :: 0 <= i < |stack| ==> stack[i].id != current.id
    ensures 0 <= r ==> stack[r].id == current.id
  {
    var r := IndexOf(Ids(stack), current.id);
    if r == -1 then
      assert forall i :: 0 <= i < |stack| ==> Ids(stack)[i] in Ids(stack);
      r
    else r
  }

  /** With distinct ids, an entry of the stack is found at its own position. */
  lemma HistoryIndexAt(stack: seq<HistoryEntry>, k: int)
    requires DistinctIds(stack) && 0 <= k < |stack|
    ensures HistoryIndex(stack, stack[k]) == k
  {
    var ids := Ids(stack);
    IndexOfAt(ids, k);
  }

  /** The state the history handlers keep: ids distinct and the current entry in the stack. */
  predicate Consistent(stack: seq<HistoryEntry>, current: HistoryEntry) {
    DistinctIds(stack) && current in stack
  }

  /** Under that state, `getHistoryIndex` finds the current entry itself. */
  lemma CurrentFound(stack: seq<HistoryEntry>, current: HistoryEntry)
    requires Consistent(stack, current)
    ensures 0 <= HistoryIndex(stack, current) && stack[HistoryIndex(stack, current)] == current
  {
    var k :| 0 <= k < |stack| && stack[k] == current;
    HistoryIndexAt(stack, k);
  }

  /** `canGoBack`: the stack is not empty and the current entry is past its start. */
  function CanGoBack(stack: seq<HistoryEntry>, current: HistoryEntry): (r: bool)
    ensures r ==> 0 < HistoryIndex(stack, current) && stack[HistoryIndex(stack, current) - 1].id != current.id
  {
    |stack| > 0 && HistoryIndex(stack, current) > 0
  }

  /** `canGoForward`: the stack is not empty and the current entry is before its end. */
  function CanGoForward(stack: seq<HistoryEntry>, current: HistoryEntry): (r: bool)
    ensures r ==> HistoryIndex(stack, current) + 1 < |stack|
  {
    |stack| > 0 && HistoryIndex(stack, current) < |stack| - 1
  }

  /**
   * When the current entry is in the stack, Back is offered exactly when an
   * entry precedes it and Forward exactly when one follows it; a stack of one
   * entry offers neither.
   */
  lemma GuardsMatchNeighbours(stack: seq<HistoryEntry>, current: HistoryEntry)
    requires Consistent(stack, current)
    ensures CanGoBack(stack, current) <==> HistoryIndex(stack, current) - 1 >= 0
    ensures CanGoForward(stack, current) <==> HistoryIndex(stack, current) + 1 < |stack|
    ensures |stack| == 1 ==> !CanGoBack(stack, current) && !CanGoForward(stack, current)
  {
    CurrentFound(stack, current);
  }

  /** Appending an entry with a fresh id keeps the ids distinct. */
  lemma AppendFresh(stack: seq<HistoryEntry>, e: HistoryEntry)
    requires DistinctIds(stack) && e.id !in Ids(stack)
    ensures DistinctIds(stack + [e])
  {
    forall i | 0 <= i < |stack| ensures stack[i].id != e.id {
      assert Ids(stack)[i] == stack[i].id;
    }
  }

  /** A prefix of a stack with distinct ids keeps them distinct. */
  lemma PrefixDistinct(stack: seq<HistoryEntry>, n: int)
    requires DistinctIds(stack) && 0 <= n <= |stack|
    ensures DistinctIds(stack[..n])
    ensures forall i :: 0 <= i < n ==> stack[..n][i].id in Ids(stack)
  {
    forall i | 0 <= i < n ensures stack[..n][i].id in Ids(stack) {
      assert Ids(stack)[i] == stack[i].id;
    }
  }

  /**
   * A double-click navigation keeps the stack up to the current entry and
   * puts a fresh entry after it: the new entry is last, so nothing lies
   * ahead, and Back leads to the entry that was current before.
   */
  lemma BranchFromCurrent(stack: seq<HistoryEntry>, current: HistoryEntry, e: HistoryEntry)
    requires Consistent(stack, current) && e.id !in Ids(stack)
    ensures Consistent(stack[..HistoryIndex(stack, current) + 1] + [e], e)
    ensures HistoryIndex(stack[..HistoryIndex(stack, current) + 1] + [e], e) == HistoryIndex(stack, current) + 1
    ensures !CanGoForward(stack[..HistoryIndex(stack, current) + 1] + [e], e)
    ensures CanGoBack(stack[..HistoryIndex(stack, current) + 1] + [e], e)
    ensures (stack[..HistoryIndex(stack, current) + 1] + [e])[HistoryIndex(stack, current)] == current
  {
    var k := HistoryIndex(stack, current);
    CurrentFound(stack, current);
    var s := stack[..k + 1] + [e];
    PrefixDistinct(stack, k + 1);
    var front := stack[..k + 1];
    assert e.id !in Ids(front) by {
      forall i | 0 <= i < |front| ensures Ids(front)[i] != e.id {
        assert Ids(stack)[i] == stack[i].id;
      }
    }
    AppendFresh(front, e);
    assert s[k + 1] == e;
    HistoryIndexAt(s, k + 1);
  }

  /**
   * A tool-bar navigation appends a fresh entry at the very end without
   * cutting the stack: the new entry is last, and Back then leads to the old
   * last entry, which is not the old current entry when that one was not last.
   */
  lemma AppendAtEnd(stack: seq<HistoryEntry>, current: HistoryEntry, e: HistoryEntry)
    requires Consistent(stack, current) && e.id !in Ids(stack)
    ensures Consistent(stack + [e], e)
    ensures HistoryIndex(stack + [e], e) == |stack|
    ensures !CanGoForward(stack + [e], e) && CanGoBack(stack + [e], e)
    ensures (stack + [e])[|stack| - 1] == stack[|stack| - 1]
    ensures HistoryIndex(stack, current) < |stack| - 1 ==> stack[|stack| - 1] != current
  {
    CurrentFound(stack, current);
    AppendFresh(stack, e);
    assert (stack + [e])[|stack|] == e;
    HistoryIndexAt(stack + [e], |stack|);
    if HistoryIndex(stack, current) < |stack| - 1 {
      HistoryIndexAt(stack, |stack| - 1);
    }
  }

  /** Back moves the current entry one place towards the start; Forward from there returns to it. */
  lemma BackThenForward(stack: seq<HistoryEntry>, current: HistoryEntry)
    requires Consistent(stack, current) && CanGoBack(stack, current)
    ensures Consistent(stack, stack[HistoryIndex(stack, current) - 1])
    ensures HistoryIndex(stack, stack[HistoryIndex(stack, current) - 1]) == HistoryIndex(stack, current) - 1
    ensures CanGoForward(stack, stack[HistoryIndex(stack, current) - 1])
    ensures stack[HistoryIndex(stack, stack[HistoryIndex(stack, current) - 1]) + 1] == current
  {
    var k := HistoryIndex(stack, current);
    CurrentFound(stack, current);
    HistoryIndexAt(stack, k - 1);
  }

  /** Forward moves the current entry one place towards the end; Back from there returns to it. */
  lemma ForwardThenBack(stack: seq<HistoryEntry>, current: HistoryEntry)
    requires Consistent(stack, current) && CanGoForward(stack, current)
    ensures Consistent(stack, stack[HistoryIndex(stack, current) + 1])
    ensures HistoryIndex(stack, stack[HistoryIndex(stack, current) + 1]) == HistoryIndex(stack, current) + 1
    ensures CanGoBack(stack, stack[HistoryIndex(stack, current) + 1])
    ensures stack[HistoryIndex(stack, stack[HistoryIndex(stack, current) + 1]) - 1] == current
  {
    var k := HistoryIndex(stack, current);
    CurrentFound(stack, current);
    HistoryIndexAt(stack, k + 1);
  }
}
