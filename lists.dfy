/**
 * The array operations the widget leans on, over Dafny sequences:
 * `indexOf`/`findIndex` by equality and `filter(x => x !== y)`.
 */
module Lists {

  /** `s.indexOf(x)` (equally `s.findIndex(y => y === x)`): the first position of `x`, or -1. */
  function IndexOf<T(==)>(s: seq<T>, x: T): (r: int)
    ensures -1 <= r < |s|
    ensures r == -1 <==> x !in s
    ensures 0 <= r ==> s[r] == x && x !in s[..r]
  {
    if s == [] then -1
    else if s[0] == x then 0
    else
      var k := IndexOf(s[1..], x);
      if k == -1 then -1
      else
        assert s[..k + 1] == [s[0]] + s[1..][..k];
        k + 1
  }

  /** `s.filter(y => y !== x)`: every occurrence of `x` dropped, the rest kept in order. */
  function Remove<T(==)>(s: seq<T>, x: T): (r: seq<T>)
    ensures forall i :: 0 <= i < |r| ==> r[i] in s && r[i] != x
    ensures forall i :: 0 <= i < |s| && s[i] != x ==> s[i] in r
    ensures |r| <= |s|
    ensures x !in s ==> r == s
  {
    if s == [] then []
    else if s[0] == x then Remove(s[1..], x)
    else
      assert s == [s[0]] + s[1..];
      [s[0]] + Remove(s[1..], x)
  }

  /**
   * `Array.from(new Set(s))`: every item once, in the order of its first
   * occurrence in `s`.
   */
  function Dedup<T(==)>(s: seq<T>): (r: seq<T>)
    ensures forall i :: 0 <= i < |r| ==> r[i] in s
    ensures forall i :: 0 <= i < |s| ==> s[i] in r
    ensures forall i, j :: 0 <= i < j < |r| ==> r[i] != r[j]
    ensures forall i, j :: 0 <= i < j < |r| ==> IndexOf(s, r[i]) < IndexOf(s, r[j])
  {
    if s == [] then []
    else
      var init, last := s[..|s| - 1], s[|s| - 1];
      var d := Dedup(init);
      assert s == init + [last];
      forall x | x in init ensures IndexOf(s, x) == IndexOf(init, x) < |init| {
        IndexOfPrefix(init, [last], x);
      }
      if last in d then d
      else
        assert last !in init;
        assert IndexOf(s, last) == |init| by {
          assert s[..|init|] == init;
          IndexOfAt(s, |init|);
        }
        d + [last]
  }

  /** An item of `p` is found in `p + q` where it is found in `p`. */
  lemma IndexOfPrefix<T>(p: seq<T>, q: seq<T>, x: T)
    requires x in p
    ensures IndexOf(p + q, x) == IndexOf(p, x)
  {
    var k := IndexOf(p, x);
    assert (p + q)[..k] == p[..k];
    IndexOfAt(p + q, k);
  }

  /** Removing from a concatenation removes from each part: the kept items stay in their order. */
  lemma {:induction false} RemoveAppend<T>(a: seq<T>, b: seq<T>, x: T)
    ensures Remove(a + b, x) == Remove(a, x) + Remove(b, x)
  {
    if a == [] {
      assert a + b == b;
    } else {
      assert (a + b)[0] == a[0] && (a + b)[1..] == a[1..] + b;
      RemoveAppend(a[1..], b, x);
      if a[0] != x {
        assert [a[0]] + (Remove(a[1..], x) + Remove(b, x)) == ([a[0]] + Remove(a[1..], x)) + Remove(b, x);
      }
    }
  }

  /** On one item, `Remove` keeps it exactly when it is not `x`. */
  lemma RemoveOne<T>(y: T, x: T)
    ensures Remove([y], x) == if y == x then [] else [y]
  {
    assert [y][1..] == [];
  }

  /** A position that holds the first occurrence of its item is the one `IndexOf` finds. */
  lemma IndexOfAt<T>(s: seq<T>, i: int)
    requires 0 <= i < |s| && s[i] !in s[..i]
    ensures IndexOf(s, s[i]) == i
  {
    var r := IndexOf(s, s[i]);
    if r < i {
      assert false;
    }
  }
}
