/**
 * `sortFiles`, written out twice in the widget
 * (src/components/FileManagerComp/FileList/index.tsx:59-102 and
 * src/components/FileManagerComp/index.tsx:151-197): folders first, then the
 * other items, each group sorted by the configured field and direction.
 */
module Sorting {
  import opened Strings
  import opened Tree

  datatype Field = Name | Type | Size | ModifiedDate
  datatype Direction = Asc | Desc

  /** `SortConfig` of src/components/FileManagerComp/types/index.ts. */
  datatype SortConfig = SortConfig(field: Field, direction: Direction)

  /** `x * direction`, where `direction` is 1 for ascending and -1 otherwise. */
  function Directed(x: int, d: Direction): int {
    if d == Asc then x else -x
  }

  /** `ext`: the lowercased text after the last dot; `|| ""` changes nothing, the text is already a string. */
  function Ext(name: string): (r: string)
    ensures |r| <= |name|
    ensures forall i :: 0 <= i < |r| ==> r[i] != '.' && !('A' <= r[i] <= 'Z')
  {
    Lower(AfterLastDot(name))
  }

  /** `compareItems`: negative, zero or positive as `a` goes before, level with or after `b`. */
  function Compare(cfg: SortConfig, a: Node, b: Node): int {
    var d := cfg.direction;
    match cfg.field
    case Name => Directed(StrCmp(a.name, b.name), d)
    case Type =>
      if Ext(a.name) == Ext(b.name) then Directed(StrCmp(a.name, b.name), d)
      else Directed(StrCmp(Ext(a.name), Ext(b.name)), d)
    case Size =>
      if a.size == b.size then StrCmp(a.name, b.name)
      else Directed(a.size - b.size, d)
    case ModifiedDate =>
      if a.modified == b.modified then StrCmp(a.name, b.name)
      else Directed(a.modified - b.modified, d)
  }
  /**
   * `compareItems` calls two items level exactly when they have the same
   * name and, when sorting by size or date, the same size or date.
   */
  lemma CompareZero(cfg: SortConfig, a: Node, b: Node)
    ensures Compare(cfg, a, b) == 0 <==>
      a.name == b.name &&
      (cfg.field == Size ==> a.size == b.size) &&
      (cfg.field == ModifiedDate ==> a.modified == b.modified)
  {
    StrCmpZero(a.name, b.name);
    match cfg.field
    case Name =>
    case Type =>
      if Ext(a.name) != Ext(b.name) {
        StrCmpZero(Ext(a.name), Ext(b.name));
        assert a.name != b.name;
      }
    case Size =>
    case ModifiedDate =>
  }


  /** For `name` and `type` the whole comparison follows the direction: descending is ascending reversed. */
  lemma NameAndTypeFollowDirection(field: Field, a: Node, b: Node)
    requires field == Name || field == Type
    ensures Compare(SortConfig(field, Desc), a, b) == -Compare(SortConfig(field, Asc), a, b)
  {
  }

  /**
   * For `size` and `modifiedDate`, equal keys fall back to the names in
   * ascending order, whatever the direction.
   */
  lemma EqualKeysTieOnNameAscending(field: Field, d: Direction, a: Node, b: Node)
    requires field == Size || field == ModifiedDate
    requires if field == Size then a.size == b.size else a.modified == b.modified
    ensures Compare(SortConfig(field, d), a, b) == StrCmp(a.name, b.name)
  {
  }

  /** Swapping the operands negates the comparison. */
  lemma CompareAntisymmetric(cfg: SortConfig, a: Node, b: Node)
    ensures Compare(cfg, a, b) == -Compare(cfg, b, a)
  {
    StrCmpAntisymmetric(a.name, b.name);
    if cfg.field == Type {
      TypeAntisymmetric(cfg.direction, Ext(a.name), Ext(b.name), a.name, b.name);
    }
  }

  lemma TypeAntisymmetric(d: Direction, ea: string, eb: string, na: string, nb: string)
    requires StrCmp(na, nb) == -StrCmp(nb, na)
    ensures (if ea == eb then Directed(StrCmp(na, nb), d) else Directed(StrCmp(ea, eb), d))
      == -(if eb == ea then Directed(StrCmp(nb, na), d) else Directed(StrCmp(eb, ea), d))
  {
    StrCmpAntisymmetric(ea, eb);
  }

  /** `StrCmp` scaled by a direction is transitive. */
  lemma StrCmpDirTransitive(x: string, y: string, z: string, d: Direction)
    requires Directed(StrCmp(x, y), d) <= 0 && Directed(StrCmp(y, z), d) <= 0
    ensures Directed(StrCmp(x, z), d) <= 0
  {
    if d == Asc {
      StrCmpTransitive(x, y, z);
    } else {
      StrCmpAntisymmetric(x, y);
      StrCmpAntisymmetric(y, z);
      StrCmpAntisymmetric(x, z);
      StrCmpTransitive(z, y, x);
    }
  }

  /** Two different strings never compare level. */
  lemma StrCmpDirStrict(x: string, y: string, d: Direction)
    requires x != y && Directed(StrCmp(x, y), d) <= 0
    ensures Directed(StrCmp(x, y), d) < 0
  {
    StrCmpZero(x, y);
  }

  /** Transitivity for `type`: extensions first, names among equal extensions. */
  lemma TypeTransitive(cfg: SortConfig, a: Node, b: Node, c: Node)
    requires cfg.field == Type
    requires Compare(cfg, a, b) <= 0 && Compare(cfg, b, c) <= 0
    ensures Compare(cfg, a, c) <= 0
  {
    var dir := cfg.direction;
    var ea, eb, ec := Ext(a.name), Ext(b.name), Ext(c.name);
    if ea == eb && eb == ec {
      StrCmpDirTransitive(a.name, b.name, c.name, dir);
    } else if ea == eb {
      assert Compare(cfg, a, c) == Directed(StrCmp(eb, ec), dir);
    } else if eb == ec {
      assert Compare(cfg, a, c) == Directed(StrCmp(ea, eb), dir);
    } else {
      StrCmpDirStrict(ea, eb, dir);
      StrCmpDirTransitive(ea, eb, ec, dir);
      if ea == ec {
        StrCmpAntisymmetric(ea, eb);
        assert false;
      }
    }
  }

  /** Transitivity for a numeric key with names breaking ties in ascending order. */
  lemma KeyThenNameTransitive(ka: int, kb: int, kc: int, na: string, nb: string, nc: string, d: Direction)
    requires (if ka == kb then StrCmp(na, nb) else Directed(ka - kb, d)) <= 0
    requires (if kb == kc then StrCmp(nb, nc) else Directed(kb - kc, d)) <= 0
    ensures (if ka == kc then StrCmp(na, nc) else Directed(ka - kc, d)) <= 0
  {
    if ka == kb && kb == kc {
      StrCmpTransitive(na, nb, nc);
    } else if ka == kc {
      assert false;
    }
  }

  /** The comparison is a total preorder, so sorting by it is well defined. */
  lemma CompareTransitive(cfg: SortConfig, a: Node, b: Node, c: Node)
    requires Compare(cfg, a, b) <= 0 && Compare(cfg, b, c) <= 0
    ensures Compare(cfg, a, c) <= 0
  {
    var dir := cfg.direction;
    match cfg.field
    case Name => StrCmpDirTransitive(a.name, b.name, c.name, dir);
    case Type => TypeTransitive(cfg, a, b, c);
    case Size => KeyThenNameTransitive(a.size, b.size, c.size, a.name, b.name, c.name, dir);
    case ModifiedDate => KeyThenNameTransitive(a.modified, b.modified, c.modified, a.name, b.name, c.name, dir);
  }

  /** On the items of `dom` the comparator orders consistently: swapping negates, and "not after" is transitive. */
  ghost predicate TotalPreorder(cmp: (Node, Node) -> int, dom: multiset<Node>) {
    (forall a, b :: a in dom && b in dom ==> cmp(a, b) == -cmp(b, a)) &&
    (forall a, b, c :: a in dom && b in dom && c in dom && cmp(a, b) <= 0 && cmp(b, c) <= 0 ==> cmp(a, c) <= 0)
  }

  /** `compareItems` as the function handed to `sort`. */
  function Comparator(cfg: SortConfig): (Node, Node) -> int {
    (a: Node, b: Node) => Compare(cfg, a, b)
  }

  /** `compareItems` under any configuration is such a comparator on any items. */
  lemma CompareIsTotalPreorder(cfg: SortConfig, dom: multiset<Node>)
    ensures TotalPreorder(Comparator(cfg), dom)
  {
    var cmp := Comparator(cfg);
    forall a, b | a in dom && b in dom ensures cmp(a, b) == -cmp(b, a) {
      CompareAntisymmetric(cfg, a, b);
    }
    forall a, b, c | a in dom && b in dom && c in dom && cmp(a, b) <= 0 && cmp(b, c) <= 0
      ensures cmp(a, c) <= 0
    {
      CompareTransitive(cfg, a, b, c);
    }
  }

  /** Every item goes no later than every item after it. */
  ghost predicate Sorted(cmp: (Node, Node) -> int, s: seq<Node>) {
    forall i, j :: 0 <= i < j < |s| ==> cmp(s[i], s[j]) <= 0
  }

  /**
   * Insert `x` into a sorted sequence after every item that does not go
   * after it, which keeps items that compare level in their original order.
   */
  function Insert(cmp: (Node, Node) -> int, x: Node, s: seq<Node>): (r: seq<Node>)
    ensures multiset(r) == multiset(s) + multiset{x}
  {
    if s == [] then [x]
    else if cmp(s[0], x) > 0 then [x] + s
    else
      assert s == [s[0]] + s[1..];
      [s[0]] + Insert(cmp, x, s[1..])
  }

  lemma {:induction false} InsertSorted(cmp: (Node, Node) -> int, x: Node, s: seq<Node>)
    requires TotalPreorder(cmp, multiset(s) + multiset{x}) && Sorted(cmp, s)
    ensures Sorted(cmp, Insert(cmp, x, s))
  {
    if s == [] {
    } else if cmp(s[0], x) > 0 {
      InsertInFront(cmp, x, s);
    } else {
      TailPreorder(cmp, x, s);
      InsertSorted(cmp, x, s[1..]);
      HeadBeforeInsert(cmp, x, s);
      ConsSorted(cmp, s[0], Insert(cmp, x, s[1..]));
      assert Insert(cmp, x, s) == [s[0]] + Insert(cmp, x, s[1..]);
    }
  }

  lemma TailPreorder(cmp: (Node, Node) -> int, x: Node, s: seq<Node>)
    requires TotalPreorder(cmp, multiset(s) + multiset{x}) && Sorted(cmp, s) && s != []
    ensures TotalPreorder(cmp, multiset(s[1..]) + multiset{x}) && Sorted(cmp, s[1..])
  {
    assert s == [s[0]] + s[1..];
    PreorderOnLess(cmp, multiset(s) + multiset{x}, multiset(s[1..]) + multiset{x});
  }

  /** An item that the head goes after goes before everything. */
  lemma InsertInFront(cmp: (Node, Node) -> int, x: Node, s: seq<Node>)
    requires TotalPreorder(cmp, multiset(s) + multiset{x}) && Sorted(cmp, s)
    requires s != [] && cmp(s[0], x) > 0
    ensures Sorted(cmp, [x] + s)
  {
    assert s[0] in multiset(s);
    forall k | 0 <= k < |s| ensures cmp(x, s[k]) <= 0 {
      assert s[k] in multiset(s);
    }
    ConsSorted(cmp, x, s);
  }

  /** A sorted sequence stays sorted behind an item that goes no later than any of it. */
  lemma ConsSorted(cmp: (Node, Node) -> int, h: Node, t: seq<Node>)
    requires Sorted(cmp, t)
    requires forall k :: 0 <= k < |t| ==> cmp(h, t[k]) <= 0
    ensures Sorted(cmp, [h] + t)
  {
    var r := [h] + t;
    forall i, j | 0 <= i < j < |r| ensures cmp(r[i], r[j]) <= 0 {
      assert r[j] == t[j - 1];
      if i > 0 {
        assert r[i] == t[i - 1];
      }
    }
  }

  /** The head of a sorted sequence goes no later than anything inserted behind it that it does not go after. */
  lemma HeadBeforeInsert(cmp: (Node, Node) -> int, x: Node, s: seq<Node>)
    requires Sorted(cmp, s) && s != [] && cmp(s[0], x) <= 0
    ensures forall k :: 0 <= k < |Insert(cmp, x, s[1..])| ==> cmp(s[0], Insert(cmp, x, s[1..])[k]) <= 0
  {
    var t := Insert(cmp, x, s[1..]);
    forall k | 0 <= k < |t| ensures cmp(s[0], t[k]) <= 0 {
      assert t[k] in multiset(t);
      if t[k] != x {
        assert t[k] in multiset(s[1..]);
        var m :| 0 <= m < |s[1..]| && s[1..][m] == t[k];
        assert s[m + 1] == t[k];
      }
    }
  }

  lemma InsertKeepsOrder(cmp: (Node, Node) -> int, x: Node, s: seq<Node>)
    ensures TotalPreorder(cmp, multiset(s) + multiset{x}) && Sorted(cmp, s) ==> Sorted(cmp, Insert(cmp, x, s))
  {
    if TotalPreorder(cmp, multiset(s) + multiset{x}) && Sorted(cmp, s) {
      InsertSorted(cmp, x, s);
    }
  }

  lemma PreorderOnLessIf(cmp: (Node, Node) -> int, big: multiset<Node>, small: multiset<Node>)
    requires small <= big
    ensures TotalPreorder(cmp, big) ==> TotalPreorder(cmp, small)
  {
  }

  /** Consistency on some items carries over to fewer items. */
  lemma PreorderOnLess(cmp: (Node, Node) -> int, big: multiset<Node>, small: multiset<Node>)
    requires TotalPreorder(cmp, big) && small <= big
    ensures TotalPreorder(cmp, small)
  {
  }

  /**
   * `[...group].sort(compareItems)`: an insertion sort, standing in for the
   * engine's stable sort. It rearranges the items, and orders them whenever
   * the comparator is consistent.
   */
  function Sort(cmp: (Node, Node) -> int, s: seq<Node>): (r: seq<Node>)
    ensures multiset(r) == multiset(s)
    ensures TotalPreorder(cmp, multiset(s)) ==> Sorted(cmp, r)
  {
    if s == [] then []
    else
      var init := s[..|s| - 1];
      assert s == init + [s[|s| - 1]];
      var sorted := Sort(cmp, init);
      PreorderOnLessIf(cmp, multiset(s), multiset(init));
      InsertKeepsOrder(cmp, s[|s| - 1], sorted);
      Insert(cmp, s[|s| - 1], sorted)
  }

  /** `files.filter((file) => file.type === "folder")`. */
  function Folders(s: seq<Node>): (r: seq<Node>)
    ensures forall i :: 0 <= i < |r| ==> r[i].kind == Folder
  {
    if s == [] then []
    else (if s[0].kind == Folder then [s[0]] else []) + Folders(s[1..])
  }

  /** `files.filter((file) => file.type !== "folder")`. */
  function NonFolders(s: seq<Node>): (r: seq<Node>)
    ensures forall i :: 0 <= i < |r| ==> r[i].kind != Folder
  {
    if s == [] then []
    else (if s[0].kind != Folder then [s[0]] else []) + NonFolders(s[1..])
  }

  /** The two filters split the items between them, each item to exactly one side. */
  lemma {:induction false} SplitByKind(s: seq<Node>)
    ensures multiset(Folders(s)) + multiset(NonFolders(s)) == multiset(s)
  {
    if s != [] {
      SplitByKind(s[1..]);
      assert s == [s[0]] + s[1..];
    }
  }

  /** Every item of a sorted group is a member of the group. */
  lemma SortedMembers(cmp: (Node, Node) -> int, s: seq<Node>, i: int)
    requires 0 <= i < |Sort(cmp, s)|
    ensures Sort(cmp, s)[i] in s
  {
    assert Sort(cmp, s)[i] in multiset(Sort(cmp, s));
  }

  /** Two sorted groups, folders then the rest, joined. */
  lemma JoinGroups(cfg: SortConfig, folders: seq<Node>, others: seq<Node>)
    requires forall i :: 0 <= i < |folders| ==> folders[i].kind == Folder
    requires forall i :: 0 <= i < |others| ==> others[i].kind != Folder
    requires Sorted(Comparator(cfg), folders) && Sorted(Comparator(cfg), others)
    ensures forall i, j :: 0 <= i < j < |folders + others| && (folders + others)[j].kind == Folder ==> (folders + others)[i].kind == Folder
    ensures forall i, j :: 0 <= i < j < |folders + others| && ((folders + others)[i].kind == Folder <==> (folders + others)[j].kind == Folder) ==>
      Compare(cfg, (folders + others)[i], (folders + others)[j]) <= 0
  {
    var r := folders + others;
    var n := |folders|;
    forall i, j | 0 <= i < j < |r| && (r[i].kind == Folder <==> r[j].kind == Folder)
      ensures Compare(cfg, r[i], r[j]) <= 0
    {
      if j < n {
        assert Comparator(cfg)(folders[i], folders[j]) <= 0;
      } else {
        assert i >= n;
        assert Comparator(cfg)(others[i - n], others[j - n]) <= 0;
      }
    }
  }

  /** The items of a sorted group keep their kind. */
  lemma SortKeepsKind(cfg: SortConfig, s: seq<Node>, folder: bool)
    requires forall i :: 0 <= i < |s| ==> (s[i].kind == Folder <==> folder)
    ensures forall i :: 0 <= i < |Sort(Comparator(cfg), s)| ==> (Sort(Comparator(cfg), s)[i].kind == Folder <==> folder)
  {
    forall i | 0 <= i < |Sort(Comparator(cfg), s)| ensures Sort(Comparator(cfg), s)[i].kind == Folder <==> folder {
      SortedMembers(Comparator(cfg), s, i);
    }
  }

  /** `sortFiles(files)`: the sorted folders followed by the sorted other items. */
  function SortFiles(cfg: SortConfig, files: seq<Node>): (r: seq<Node>)
    ensures multiset(r) == multiset(files)
    ensures forall i, j :: 0 <= i < j < |r| && r[j].kind == Folder ==> r[i].kind == Folder
    ensures forall i, j :: 0 <= i < j < |r| && (r[i].kind == Folder <==> r[j].kind == Folder) ==> Compare(cfg, r[i], r[j]) <= 0
  {
    var folders := Sort(Comparator(cfg), Folders(files));
    var others := Sort(Comparator(cfg), NonFolders(files));
    SplitByKind(files);
    CompareIsTotalPreorder(cfg, multiset(Folders(files)));
    CompareIsTotalPreorder(cfg, multiset(NonFolders(files)));
    SortKeepsKind(cfg, Folders(files), true);
    SortKeepsKind(cfg, NonFolders(files), false);
    JoinGroups(cfg, folders, others);
    folders + others
  }
}
