/** The directory scanner of src/scanning.rs: a directory listing, given as an
    input tree of entries, folded into a weighted `Node` tree. */
module Scanning {
  import opened Wrappers

  /** What `symlink_metadata` reports for one directory entry: a directory
      with its own listing, a regular file with its `st_size`, or anything
      else (symbolic links, sockets, devices, ...). */
  datatype Entry =
    | Dir(path: string, entries: seq<Entry>)
    | File(path: string, stSize: nat)
    | Other(path: string)

  /** A scanned node. `Leaf` is a node whose `children` is `None`,
      `Internal` one whose `children` is `Some(children)`. */
  datatype Node =
    | Leaf(size: nat, path: string)
    | Internal(size: nat, path: string, children: seq<Node>)

  datatype Ordering = Less | Equal | Greater

  /** `Node::eq`: nodes are equal when their sizes are. */
  predicate NodeEq(a: Node, b: Node) {
    a.size == b.size
  }

  /** `Node::cmp`, consistent with `Node::eq`. */
  function Cmp(a: Node, b: Node): (o: Ordering)
    ensures o == Equal <==> NodeEq(a, b)
    ensures o == Less <==> a.size < b.size
  {
    if a.size < b.size then Less else if a.size == b.size then Equal else Greater
  }

  /** `Node::partial_cmp`: always defined, and agrees with `cmp`. */
  function PartialCmp(a: Node, b: Node): (o: Option<Ordering>)
    ensures o == Some(Cmp(a, b))
  {
    Some(if a.size < b.size then Less else if a.size == b.size then Equal else Greater)
  }

  /** Comparison and equality look at nothing but the sizes. */
  lemma OrderBySizeOnly(a: Node, b: Node, a': Node, b': Node)
    requires a.size == a'.size && b.size == b'.size
    ensures Cmp(a, b) == Cmp(a', b') && NodeEq(a, b) == NodeEq(a', b')
    ensures PartialCmp(a, b) == PartialCmp(a', b')
  {
  }

  function SumSizes(ns: seq<Node>): nat {
    if ns == [] then 0 else ns[0].size + SumSizes(ns[1..])
  }

  lemma {:induction false} SumSizesAppend(a: seq<Node>, b: seq<Node>)
    ensures SumSizes(a + b) == SumSizes(a) + SumSizes(b)
  {
    if a == [] {
      assert a + b == b;
    } else {
      assert (a + b)[1..] == a[1..] + b;
      SumSizesAppend(a[1..], b);
    }
  }

  // ----- `children.sort()` (stable, ascending by `cmp`) and `children.reverse()`

  /** Inserts `x` before the first element that is not smaller than it. */
  function Insert(x: Node, t: seq<Node>): seq<Node> {
    if t == [] || Cmp(x, t[0]) != Greater then [x] + t else [t[0]] + Insert(x, t[1..])
  }

  /** A stable ascending sort by `cmp` (insertion sort). */
  function SortAscending(s: seq<Node>): seq<Node> {
    if s == [] then [] else Insert(s[0], SortAscending(s[1..]))
  }

  function Reverse(s: seq<Node>): seq<Node> {
    if s == [] then [] else Reverse(s[1..]) + [s[0]]
  }

  /** The order `visit_dirs` leaves a directory's children in. */
  function OrderChildren(s: seq<Node>): seq<Node> {
    Reverse(SortAscending(s))
  }

  predicate Ascending(s: seq<Node>) {
    forall i, j :: 0 <= i < j < |s| ==> s[i].size <= s[j].size
  }

  predicate NonIncreasing(s: seq<Node>) {
    forall i, j :: 0 <= i < j < |s| ==> s[i].size >= s[j].size
  }

  /** The nodes of `s` of size `k`, in order. */
  function WithSize(s: seq<Node>, k: nat): seq<Node> {
    if s == [] then [] else (if s[0].size == k then [s[0]] else []) + WithSize(s[1..], k)
  }

  lemma {:induction false} InsertMultiset(x: Node, t: seq<Node>)
    ensures multiset(Insert(x, t)) == multiset([x] + t)
    ensures SumSizes(Insert(x, t)) == x.size + SumSizes(t)
  {
    if t != [] && Cmp(x, t[0]) == Greater {
      InsertMultiset(x, t[1..]);
      assert t == [t[0]] + t[1..];
      assert ([t[0]] + Insert(x, t[1..]))[1..] == Insert(x, t[1..]);
    }
  }

  lemma {:induction false} InsertAscending(x: Node, t: seq<Node>)
    requires Ascending(t)
    ensures Ascending(Insert(x, t))
  {
    if t != [] && Cmp(x, t[0]) == Greater {
      var r := Insert(x, t[1..]);
      InsertAscending(x, t[1..]);
      InsertMultiset(x, t[1..]);
      var u := [t[0]] + r;
      forall i, j | 0 <= i < j < |u| ensures u[i].size <= u[j].size {
        if i == 0 {
          assert u[j] in multiset([x] + t[1..]);
        }
      }
    }
  }

  lemma {:induction false} InsertWithSize(x: Node, t: seq<Node>, k: nat)
    requires Ascending(t)
    ensures WithSize(Insert(x, t), k) == WithSize([x] + t, k)
  {
    assert ([x] + t)[1..] == t;
    if t != [] && Cmp(x, t[0]) == Greater {
      var r := Insert(x, t[1..]);
      InsertWithSize(x, t[1..], k);
      assert ([t[0]] + r)[1..] == r;
      assert ([x] + t[1..])[1..] == t[1..];
      if x.size == k {
        // t[0], which precedes x's slot, is smaller than x
        assert t[0].size < k;
      }
    }
  }

  lemma {:induction false} SortFacts(s: seq<Node>)
    ensures Ascending(SortAscending(s))
    ensures multiset(SortAscending(s)) == multiset(s)
    ensures SumSizes(SortAscending(s)) == SumSizes(s)
    ensures forall k :: WithSize(SortAscending(s), k) == WithSize(s, k)
  {
    if s != [] {
      var rest := SortAscending(s[1..]);
      SortFacts(s[1..]);
      InsertAscending(s[0], rest);
      InsertMultiset(s[0], rest);
      assert s == [s[0]] + s[1..];
      forall k ensures WithSize(SortAscending(s), k) == WithSize(s, k) {
        InsertWithSize(s[0], rest, k);
        assert ([s[0]] + rest)[1..] == rest;
      }
    }
  }

  lemma {:induction false} WithSizeAppend(a: seq<Node>, b: seq<Node>, k: nat)
    ensures WithSize(a + b, k) == WithSize(a, k) + WithSize(b, k)
  {
    if a == [] {
      assert a + b == b;
    } else {
      assert (a + b)[1..] == a[1..] + b;
      WithSizeAppend(a[1..], b, k);
    }
  }

  lemma {:induction false} ReverseFacts(s: seq<Node>)
    ensures |Reverse(s)| == |s|
    ensures forall i :: 0 <= i < |s| ==> Reverse(s)[i] == s[|s| - 1 - i]
    ensures multiset(Reverse(s)) == multiset(s)
    ensures SumSizes(Reverse(s)) == SumSizes(s)
  {
    if s != [] {
      ReverseFacts(s[1..]);
      assert s == [s[0]] + s[1..];
      SumSizesAppend(Reverse(s[1..]), [s[0]]);
    }
  }

  lemma {:induction false} ReverseWithSize(s: seq<Node>, k: nat)
    ensures WithSize(Reverse(s), k) == Reverse(WithSize(s, k))
  {
    if s != [] {
      ReverseWithSize(s[1..], k);
      WithSizeAppend(Reverse(s[1..]), [s[0]], k);
      if s[0].size == k {
        assert WithSize(s, k) == [s[0]] + WithSize(s[1..], k);
        assert ([s[0]] + WithSize(s[1..], k))[1..] == WithSize(s[1..], k);
      } else {
        assert WithSize(s, k) == WithSize(s[1..], k);
      }
    }
  }

  /** After `sort` then `reverse` the children are non-increasing by size, a
      permutation of the input with the same total size, and nodes of equal
      size appear in the reverse of their enumeration order. */
  lemma OrderChildrenFacts(s: seq<Node>)
    ensures NonIncreasing(OrderChildren(s))
    ensures multiset(OrderChildren(s)) == multiset(s)
    ensures SumSizes(OrderChildren(s)) == SumSizes(s)
    ensures forall k :: WithSize(OrderChildren(s), k) == Reverse(WithSize(s, k))
  {
    var sorted := SortAscending(s);
    SortFacts(s);
    ReverseFacts(sorted);
    forall k ensures WithSize(OrderChildren(s), k) == Reverse(WithSize(s, k)) {
      ReverseWithSize(sorted, k);
    }
  }

  // ----- `visit_dirs`

  /** A zero-byte regular file is counted as one byte. */
  function Promote(stSize: nat): (size: nat)
    ensures size >= 1
    ensures stSize > 0 ==> size == stSize
    ensures stSize == 0 ==> size == 1
  {
    if stSize == 0 then 1 else stSize
  }

  /** The nodes `visit_dirs` pushes for a listing, in enumeration order. */
  function KeptNodes(es: seq<Entry>): seq<Node>
    decreases es, 0
  {
    if es == [] then [] else KeptNodes(es[..|es| - 1]) + Keep(es[|es| - 1])
  }

  /** What one entry contributes: its subtree, a leaf, or nothing. */
  function Keep(e: Entry): seq<Node>
    decreases e
  {
    match e
    case Dir(p, sub) => [DirNode(p, sub)]
    case File(p, st) => [Leaf(Promote(st), p)]
    case Other(_) => []
  }

  /** The node for a directory at `path` whose listing is `es`. */
  function DirNode(path: string, es: seq<Entry>): Node
    decreases es, 1
  {
    var kept := KeptNodes(es);
    var children := OrderChildren(kept);
    if |children| > 0 then Internal(SumSizes(kept), path, children) else Leaf(SumSizes(kept), path)
  }

  /** `visit_dirs(dir)`: panics unless `dir` is a directory. */
  function TreeOf(e: Entry): (r: Result<Node>)
    ensures r.Panic? <==> !e.Dir?
  {
    if e.Dir? then Ok(DirNode(e.path, e.entries)) else Panic
  }

  /** The loop of `visit_dirs`: accumulate `size` and push `children` in
      enumeration order, recursing into subdirectories; then sort and reverse. */
  method VisitDirs(e: Entry) returns (r: Result<Node>)
    ensures r == TreeOf(e)
    decreases e
  {
    if !e.Dir? {
      return Panic;
    }
    var es := e.entries;
    var size: nat := 0;
    var children: seq<Node> := [];
    var i := 0;
    while i < |es|
      invariant 0 <= i <= |es|
      invariant children == KeptNodes(es[..i])
      invariant size == SumSizes(children)
    {
      var entry := es[i];
      assert es[..i + 1][..i] == es[..i];
      match entry {
        case Dir(_, _) =>
          var res := VisitDirs(entry);
          SumSizesAppend(children, [res.value]);
          size := size + res.value.size;
          children := children + [res.value];
        case File(p, st) =>
          var filesize := st;
          if filesize == 0 {
            filesize := 1;
          }
          SumSizesAppend(children, [Leaf(filesize, p)]);
          size := size + filesize;
          children := children + [Leaf(filesize, p)];
        case Other(_) =>
      }
      i := i + 1;
    }
    assert es[..i] == es;
    children := SortAscending(children);
    children := Reverse(children);
    r := Ok(if |children| > 0 then Internal(size, e.path, children) else Leaf(size, e.path));
  }

  /** `scan(path)`: `visit_dirs`, then `unwrap` of the root's children, which
      panics when the root directory kept no entry. */
  method Scan(e: Entry) returns (r: Result<Node>)
    ensures r.Ok? <==> e.Dir? && exists i :: 0 <= i < |e.entries| && !e.entries[i].Other?
    ensures r.Ok? ==> r.value.Internal? && r.value == TreeOf(e).value
  {
    r := VisitDirs(e);
    if r.Ok? {
      DirNodeEmpty(e.path, e.entries);
      if r.value.Leaf? {
        r := Panic;
      }
    }
  }

  // ----- Invariants of scanned trees

  /** Every internal node's size is the sum of its children's sizes. */
  predicate Aggregated(n: Node)
    decreases n
  {
    n.Internal? ==>
      n.size == SumSizes(n.children) &&
      forall i | 0 <= i < |n.children| :: Aggregated(n.children[i])
  }

  /** Every `Some` children list is non-empty and non-increasing by size. */
  predicate Ordered(n: Node)
    decreases n
  {
    n.Internal? ==>
      |n.children| > 0 && NonIncreasing(n.children) &&
      forall i | 0 <= i < |n.children| :: Ordered(n.children[i])
  }

  /** Every node has a positive size. */
  predicate Positive(n: Node)
    decreases n
  {
    n.size > 0 &&
    (n.Internal? ==> forall i | 0 <= i < |n.children| :: Positive(n.children[i]))
  }

  /** A regular file lies somewhere beneath `e` (or is `e`). */
  predicate HasFile(e: Entry)
    decreases e
  {
    match e
    case File(_, _) => true
    case Other(_) => false
    case Dir(_, es) => exists i | 0 <= i < |es| :: HasFile(es[i])
  }

  /** Every directory beneath `e` (and `e` itself) holds a regular file somewhere. */
  predicate NoEmptyDirs(e: Entry)
    decreases e
  {
    e.Dir? ==> HasFile(e) && forall i | 0 <= i < |e.entries| :: NoEmptyDirs(e.entries[i])
  }

  function ChildrenOf(n: Node): seq<Node> {
    if n.Internal? then n.children else []
  }

  lemma {:induction false} KeptNodesAppend(a: seq<Entry>, b: seq<Entry>)
    ensures KeptNodes(a + b) == KeptNodes(a) + KeptNodes(b)
    decreases |b|
  {
    if b == [] {
      assert a + b == a;
    } else {
      var b' := b[..|b| - 1];
      assert (a + b)[..|a + b| - 1] == a + b';
      assert (a + b)[|a + b| - 1] == b[|b| - 1];
      KeptNodesAppend(a, b');
    }
  }

  /** Entries that are neither directories nor regular files change nothing:
      dropping one from the listing gives the same node. */
  lemma OtherEntryIgnored(path: string, es: seq<Entry>, i: nat)
    requires i < |es| && es[i].Other?
    ensures DirNode(path, es) == DirNode(path, es[..i] + es[i + 1..])
  {
    var pre, post := es[..i], es[i + 1..];
    assert es == pre + [es[i]] + post;
    KeptNodesAppend(pre + [es[i]], post);
    KeptNodesAppend(pre, [es[i]]);
    KeptNodesAppend(pre, post);
    assert KeptNodes([es[i]]) == KeptNodes([]) + Keep(es[i]);
    assert KeptNodes(es) == KeptNodes(pre + post);
  }

  lemma {:induction false} KeptNodesMembers(es: seq<Entry>)
    ensures forall n :: n in KeptNodes(es) <==> exists i :: 0 <= i < |es| && Keep(es[i]) == [n]
  {
    if es != [] {
      var front := es[..|es| - 1];
      KeptNodesMembers(front);
      forall n ensures n in KeptNodes(es) <==> exists i :: 0 <= i < |es| && Keep(es[i]) == [n] {
        if n in KeptNodes(es) {
          if n in KeptNodes(front) {
            var i :| 0 <= i < |front| && Keep(front[i]) == [n];
            assert Keep(es[i]) == [n];
          } else {
            assert Keep(es[|es| - 1]) == [n];
          }
        }
        if exists i :: 0 <= i < |es| && Keep(es[i]) == [n] {
          var i :| 0 <= i < |es| && Keep(es[i]) == [n];
          if i < |es| - 1 {
            assert Keep(front[i]) == [n];
          }
        }
      }
    }
  }

  /** The children of a directory's node are exactly the nodes its entries
      produce: a subtree per subdirectory, a leaf per regular file. */
  lemma DirChildren(path: string, es: seq<Entry>)
    ensures forall c :: c in ChildrenOf(DirNode(path, es)) <==> exists i :: 0 <= i < |es| && Keep(es[i]) == [c]
  {
    var kept := KeptNodes(es);
    OrderChildrenFacts(kept);
    KeptNodesMembers(es);
    forall c ensures c in ChildrenOf(DirNode(path, es)) <==> c in kept {
      assert c in OrderChildren(kept) <==> c in multiset(OrderChildren(kept));
    }
  }

  /** A regular file becomes a childless leaf of its directory with size at
      least 1; a zero-byte file gets size 1. */
  lemma FileBecomesLeaf(path: string, es: seq<Entry>, i: nat)
    requires i < |es| && es[i].File?
    ensures DirNode(path, es).Internal?
    ensures Leaf(Promote(es[i].stSize), es[i].path) in DirNode(path, es).children
    ensures Promote(es[i].stSize) >= 1 && (es[i].stSize == 0 ==> Promote(es[i].stSize) == 1)
  {
    DirChildren(path, es);
    assert Keep(es[i]) == [Leaf(Promote(es[i].stSize), es[i].path)];
  }

  /** A directory with no kept entry becomes a leaf of size 0; otherwise its
      node has a non-empty children list. */
  lemma DirNodeEmpty(path: string, es: seq<Entry>)
    ensures DirNode(path, es).Leaf? <==> forall i :: 0 <= i < |es| ==> es[i].Other?
    ensures DirNode(path, es).Leaf? ==> DirNode(path, es) == Leaf(0, path)
  {
    var kept := KeptNodes(es);
    OrderChildrenFacts(kept);
    KeptNodesMembers(es);
    if kept != [] {
      assert kept[0] in kept;
    }
    forall i | 0 <= i < |es| && !es[i].Other? ensures Keep(es[i])[0] in kept {
      assert Keep(es[i]) == [Keep(es[i])[0]];
    }
    assert |OrderChildren(kept)| == |multiset(kept)|;
  }

  lemma {:induction false} DirNodeScanned(path: string, es: seq<Entry>)
    ensures Aggregated(DirNode(path, es)) && Ordered(DirNode(path, es))
    decreases es, 1
  {
    var kept := KeptNodes(es);
    KeptScanned(es);
    OrderChildrenFacts(kept);
    var n := DirNode(path, es);
    if n.Internal? {
      forall i | 0 <= i < |n.children| ensures Aggregated(n.children[i]) && Ordered(n.children[i]) {
        assert n.children[i] in multiset(kept);
      }
    }
  }

  lemma {:induction false} KeptScanned(es: seq<Entry>)
    ensures forall n <- KeptNodes(es) :: Aggregated(n) && Ordered(n)
    decreases es, 0
  {
    if es != [] {
      KeptScanned(es[..|es| - 1]);
      var e := es[|es| - 1];
      if e.Dir? {
        DirNodeScanned(e.path, e.entries);
      }
    }
  }

  /** Every scanned tree is aggregated (an internal node's size is the sum of
      its children's) and ordered (children non-empty and non-increasing). */
  lemma TreeOfScanned(e: Entry)
    requires e.Dir?
    ensures Aggregated(TreeOf(e).value) && Ordered(TreeOf(e).value)
  {
    DirNodeScanned(e.path, e.entries);
  }

  lemma {:induction false} SumSizesPositive(ns: seq<Node>)
    ensures SumSizes(ns) > 0 <==> exists i :: 0 <= i < |ns| && ns[i].size > 0
  {
    if ns != [] {
      SumSizesPositive(ns[1..]);
      if exists i :: 0 <= i < |ns[1..]| && ns[1..][i].size > 0 {
        var i :| 0 <= i < |ns[1..]| && ns[1..][i].size > 0;
        assert ns[i + 1].size > 0;
      }
      if exists i :: 0 <= i < |ns| && ns[i].size > 0 {
        var i :| 0 <= i < |ns| && ns[i].size > 0;
        if i > 0 {
          assert ns[1..][i - 1].size > 0;
        }
      }
    }
  }

  /** A directory's size is positive exactly when a regular file lies beneath it. */
  lemma {:induction false} DirNodeSizePositive(path: string, es: seq<Entry>)
    ensures DirNode(path, es).size > 0 <==> HasFile(Dir(path, es))
    decreases es, 1
  {
    var kept := KeptNodes(es);
    KeptNodesMembers(es);
    SumSizesPositive(kept);
    if DirNode(path, es).size > 0 {
      var j :| 0 <= j < |kept| && kept[j].size > 0;
      assert kept[j] in kept;
      var i :| 0 <= i < |es| && Keep(es[i]) == [kept[j]];
      if es[i].Dir? {
        DirNodeSizePositive(es[i].path, es[i].entries);
      }
      assert HasFile(es[i]);
    }
    if HasFile(Dir(path, es)) {
      var i :| 0 <= i < |es| && HasFile(es[i]);
      if es[i].Dir? {
        DirNodeSizePositive(es[i].path, es[i].entries);
      }
      var c := Keep(es[i])[0];
      assert Keep(es[i]) == [c];
      assert c in kept;
      var j :| 0 <= j < |kept| && kept[j] == c;
    }
  }

  lemma {:induction false} DirNodePositive(path: string, es: seq<Entry>)
    requires NoEmptyDirs(Dir(path, es))
    ensures Positive(DirNode(path, es))
    decreases es, 1
  {
    DirNodeSizePositive(path, es);
    var kept := KeptNodes(es);
    KeptNodesMembers(es);
    OrderChildrenFacts(kept);
    var n := DirNode(path, es);
    if n.Internal? {
      forall k | 0 <= k < |n.children| ensures Positive(n.children[k]) {
        var c := n.children[k];
        assert c in multiset(kept);
        var i :| 0 <= i < |es| && Keep(es[i]) == [c];
        if es[i].Dir? {
          DirNodePositive(es[i].path, es[i].entries);
        }
      }
    }
  }

  /** With no empty directory anywhere beneath it, a scanned tree has only
      positive sizes. */
  lemma TreeOfPositive(e: Entry)
    requires e.Dir? && NoEmptyDirs(e)
    ensures Positive(TreeOf(e).value)
  {
    DirNodePositive(e.path, e.entries);
  }

  /** Equal-size children end up in the reverse of their enumeration order. */
  lemma DirChildrenTies(path: string, es: seq<Entry>, k: nat)
    ensures WithSize(ChildrenOf(DirNode(path, es)), k) == Reverse(WithSize(KeptNodes(es), k))
  {
    var kept := KeptNodes(es);
    OrderChildrenFacts(kept);
    if DirNode(path, es).Leaf? {
      assert kept == [] by {
        assert |OrderChildren(kept)| == |multiset(kept)|;
      }
    }
  }

  /** A directory holding a 0-byte and a 10-byte file: size 11, two leaves. */
  lemma ScanTwoFiles()
    ensures TreeOf(Dir("d", [File("d/a", 0), File("d/b", 10)])) ==
      Ok(Internal(11, "d", [Leaf(10, "d/b"), Leaf(1, "d/a")]))
  {
    var es := [File("d/a", 0), File("d/b", 10)];
    KeptTwoFiles(es);
    OrderTwoLeaves();
  }

  lemma KeptTwoFiles(es: seq<Entry>)
    requires es == [File("d/a", 0), File("d/b", 10)]
    ensures KeptNodes(es) == [Leaf(1, "d/a"), Leaf(10, "d/b")]
  {
    assert es[..1] == [File("d/a", 0)];
    assert KeptNodes(es[..1]) == [Leaf(1, "d/a")];
  }

  lemma OrderTwoLeaves()
    ensures OrderChildren([Leaf(1, "d/a"), Leaf(10, "d/b")]) == [Leaf(10, "d/b"), Leaf(1, "d/a")]
  {
    assert SortAscending([Leaf(10, "d/b")]) == [Leaf(10, "d/b")];
    assert SortAscending([Leaf(1, "d/a"), Leaf(10, "d/b")]) == Insert(Leaf(1, "d/a"), [Leaf(10, "d/b")]);
    assert SortAscending([Leaf(1, "d/a"), Leaf(10, "d/b")]) == [Leaf(1, "d/a"), Leaf(10, "d/b")];
    assert Reverse([Leaf(10, "d/b")]) == [Leaf(10, "d/b")];
  }
}
