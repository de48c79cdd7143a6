/** The slice-and-dice layout of src/widgets/boxes.rs: `Boxes::foo_rect`, the
    `FileBox` records it produces, and the widget's relayout on resize and on
    a data change. */
module BoxesLayout {
  import opened Wrappers
  import opened Geometry
  import opened Scanning

  /** One laid-out leaf: its path and size, copied from the node, and the
      rectangle it was given. */
  datatype FileBox = FileBox(path: string, size: nat, rect: Region)

  /** What `foo_rect(n, bounds)` appends: one box per leaf, or a panic from
      `divide_rect`. */
  function Layout(n: Node, bounds: Region): Result<seq<FileBox>>
    decreases n
  {
    match n
    case Leaf(size, path) => Ok([FileBox(path, size, bounds)])
    case Internal(size, _, cs) => LayoutRow(cs, size, bounds)
  }

  /** The `for` loop of `foo_rect` from some child on: the child takes the
      fraction `c.size / remaining` of `area`, then the rest of the row is laid
      out in what is left. */
  function LayoutRow(cs: seq<Node>, remaining: nat, area: Region): Result<seq<FileBox>>
    decreases cs
  {
    if cs == [] then Ok([])
    else
      var c := cs[0];
      match DivideRect(area, Quotient(c.size, remaining))
      case Panic => Panic
      case Ok(halves) =>
        match Layout(c, halves.0)
        case Panic => Panic
        case Ok(first) =>
          match LayoutRow(cs[1..], remaining - c.size, halves.1)
          case Panic => Panic
          case Ok(rest) => Ok(first + rest)
  }

  /** `prefix` followed by the boxes of `r`, or a panic. */
  function Prepend(prefix: seq<FileBox>, r: Result<seq<FileBox>>): Result<seq<FileBox>> {
    if r.Ok? then Ok(prefix + r.value) else Panic
  }

  /** The leaves beneath `n` in depth-first child order. */
  function Leaves(n: Node): seq<Node>
    decreases n
  {
    match n
    case Leaf(_, _) => [n]
    case Internal(_, _, cs) => LeavesOf(cs)
  }

  function LeavesOf(cs: seq<Node>): seq<Node>
    decreases cs
  {
    if cs == [] then [] else Leaves(cs[0]) + LeavesOf(cs[1..])
  }

  /** Box `i` carries the path and size of leaf `i`. */
  predicate Describes(boxes: seq<FileBox>, leaves: seq<Node>) {
    |boxes| == |leaves| &&
    forall i :: 0 <= i < |boxes| ==> boxes[i].path == leaves[i].path && boxes[i].size == leaves[i].size
  }

  lemma DescribesAppend(a: seq<FileBox>, x: seq<Node>, b: seq<FileBox>, y: seq<Node>)
    requires Describes(a, x) && Describes(b, y)
    ensures Describes(a + b, x + y)
  {
    forall i | 0 <= i < |a + b|
      ensures (a + b)[i].path == (x + y)[i].path && (a + b)[i].size == (x + y)[i].size
    {
      if i >= |a| {
        assert (a + b)[i] == b[i - |a|] && (x + y)[i] == y[i - |a|];
      }
    }
  }

  // ----- One box per leaf, in depth-first order

  /** `foo_rect` appends exactly one box per leaf beneath the root, in
      depth-first child order, copying each leaf's path and size. */
  lemma {:induction false} LayoutLeaves(n: Node, bounds: Region)
    requires Layout(n, bounds).Ok?
    ensures Describes(Layout(n, bounds).value, Leaves(n))
    decreases n
  {
    if n.Internal? {
      LayoutRowLeaves(n.children, n.size, bounds);
    }
  }

  lemma {:induction false} LayoutRowLeaves(cs: seq<Node>, remaining: nat, area: Region)
    requires LayoutRow(cs, remaining, area).Ok?
    ensures Describes(LayoutRow(cs, remaining, area).value, LeavesOf(cs))
    decreases cs
  {
    if cs != [] {
      var c := cs[0];
      var halves := DivideRect(area, Quotient(c.size, remaining)).value;
      LayoutLeaves(c, halves.0);
      LayoutRowLeaves(cs[1..], remaining - c.size, halves.1);
      DescribesAppend(Layout(c, halves.0).value, Leaves(c),
                      LayoutRow(cs[1..], remaining - c.size, halves.1).value, LeavesOf(cs[1..]));
    }
  }

  // ----- Containment and non-overlap

  /** Every box with numeric coordinates is a well-formed rectangle inside `outer`. */
  predicate AllWithin(boxes: seq<FileBox>, outer: Rect) {
    forall i :: 0 <= i < |boxes| && boxes[i].rect.Finite? ==>
      boxes[i].rect.rect.WellFormed() && boxes[i].rect.rect.Within(outer)
  }

  /** No two boxes with numeric coordinates overlap. */
  predicate PairwiseDisjoint(boxes: seq<FileBox>) {
    forall i, j :: 0 <= i < j < |boxes| && boxes[i].rect.Finite? && boxes[j].rect.Finite? ==>
      Disjoint(boxes[i].rect.rect, boxes[j].rect.rect)
  }

  /** Every box is NaN-bearing. */
  predicate AllNaN(boxes: seq<FileBox>) {
    forall i :: 0 <= i < |boxes| ==> boxes[i].rect.NaNRegion?
  }

  lemma DisjointWithin(a: Rect, b: Rect, l: Rect, r: Rect)
    requires a.Within(l) && b.Within(r) && Disjoint(l, r)
    ensures Disjoint(a, b)
  {
  }

  /** Within a well-formed area, every numbered box of a row lies inside it and
      no two overlap. */
  lemma {:induction false} LayoutRowGeometry(cs: seq<Node>, remaining: nat, area: Rect)
    requires area.WellFormed() && LayoutRow(cs, remaining, Finite(area)).Ok?
    ensures AllWithin(LayoutRow(cs, remaining, Finite(area)).value, area)
    ensures PairwiseDisjoint(LayoutRow(cs, remaining, Finite(area)).value)
    decreases cs
  {
    if cs != [] {
      var c := cs[0];
      var ratio := Quotient(c.size, remaining);
      var halves := DivideRect(Finite(area), ratio).value;
      var first := Layout(c, halves.0).value;
      var rest := LayoutRow(cs[1..], remaining - c.size, halves.1).value;
      var all := first + rest;
      assert LayoutRow(cs, remaining, Finite(area)).value == all;
      if ratio.NaN? {
        LayoutNaN(c);
        LayoutRowNaN(cs[1..], remaining - c.size);
        assert AllNaN(all) by {
          forall i | 0 <= i < |all| ensures all[i].rect.NaNRegion? {
            if i >= |first| { assert all[i] == rest[i - |first|]; }
          }
        }
      } else {
        var l, r := Split(area, ratio.q).0, Split(area, ratio.q).1;
        SplitWithin(area, ratio.q);
        LayoutGeometry(c, l);
        LayoutRowGeometry(cs[1..], remaining - c.size, r);
        forall i | 0 <= i < |all| && all[i].rect.Finite?
          ensures all[i].rect.rect.WellFormed() && all[i].rect.rect.Within(area)
        {
          if i >= |first| { assert all[i] == rest[i - |first|]; }
        }
        forall i, j | 0 <= i < j < |all| && all[i].rect.Finite? && all[j].rect.Finite?
          ensures Disjoint(all[i].rect.rect, all[j].rect.rect)
        {
          if j < |first| {
          } else if i >= |first| {
            assert all[i] == rest[i - |first|] && all[j] == rest[j - |first|];
          } else {
            assert all[j] == rest[j - |first|];
            DisjointWithin(all[i].rect.rect, all[j].rect.rect, l, r);
          }
        }
      }
    }
  }

  /** Every box `foo_rect` produces inside well-formed `bounds` lies within
      `bounds`, and no two of them overlap. */
  lemma {:induction false} LayoutGeometry(n: Node, bounds: Rect)
    requires bounds.WellFormed() && Layout(n, Finite(bounds)).Ok?
    ensures AllWithin(Layout(n, Finite(bounds)).value, bounds)
    ensures PairwiseDisjoint(Layout(n, Finite(bounds)).value)
    decreases n
  {
    if n.Internal? {
      LayoutRowGeometry(n.children, n.size, bounds);
    }
  }

  /** A NaN-bearing area stays NaN-bearing all the way down. */
  lemma {:induction false} LayoutNaN(n: Node)
    ensures Layout(n, NaNRegion).Ok? ==> AllNaN(Layout(n, NaNRegion).value)
    decreases n
  {
    if n.Internal? {
      LayoutRowNaN(n.children, n.size);
    }
  }

  lemma {:induction false} LayoutRowNaN(cs: seq<Node>, remaining: nat)
    ensures LayoutRow(cs, remaining, NaNRegion).Ok? ==> AllNaN(LayoutRow(cs, remaining, NaNRegion).value)
    decreases cs
  {
    if cs != [] && LayoutRow(cs, remaining, NaNRegion).Ok? {
      var c := cs[0];
      LayoutNaN(c);
      LayoutRowNaN(cs[1..], remaining - c.size);
      var first := Layout(c, NaNRegion).value;
      var rest := LayoutRow(cs[1..], remaining - c.size, NaNRegion).value;
      var all := first + rest;
      forall i | 0 <= i < |all| ensures all[i].rect.NaNRegion? {
        if i >= |first| { assert all[i] == rest[i - |first|]; }
      }
    }
  }

  // ----- No panic, no NaN, and area proportional to size

  /** On a tree whose sizes aggregate, every ratio is in [0,1] or NaN, so
      `divide_rect` never panics. */
  lemma {:induction false} LayoutTotal(n: Node, bounds: Region)
    requires Aggregated(n)
    ensures Layout(n, bounds).Ok?
    decreases n
  {
    if n.Internal? {
      LayoutRowTotal(n.children, bounds);
    }
  }

  lemma {:induction false} LayoutRowTotal(cs: seq<Node>, area: Region)
    requires forall i :: 0 <= i < |cs| ==> Aggregated(cs[i])
    ensures LayoutRow(cs, SumSizes(cs), area).Ok?
    decreases cs
  {
    if cs != [] {
      var c := cs[0];
      var remaining := SumSizes(cs);
      var halves := DivideRect(area, Quotient(c.size, remaining)).value;
      LayoutTotal(c, halves.0);
      assert remaining - c.size == SumSizes(cs[1..]);
      LayoutRowTotal(cs[1..], halves.1);
    }
  }

  /** With positive sizes that aggregate, every remaining size is positive,
      so no rectangle picks up a NaN coordinate. */
  lemma {:induction false} LayoutFinite(n: Node, bounds: Rect)
    requires Aggregated(n) && Positive(n)
    ensures Layout(n, Finite(bounds)).Ok?
    ensures forall i :: 0 <= i < |Layout(n, Finite(bounds)).value| ==>
      Layout(n, Finite(bounds)).value[i].rect.Finite?
    decreases n
  {
    LayoutTotal(n, Finite(bounds));
    if n.Internal? {
      LayoutRowFinite(n.children, bounds);
    }
  }

  lemma {:induction false} LayoutRowFinite(cs: seq<Node>, area: Rect)
    requires forall i :: 0 <= i < |cs| ==> Aggregated(cs[i]) && Positive(cs[i])
    ensures LayoutRow(cs, SumSizes(cs), Finite(area)).Ok?
    ensures forall i :: 0 <= i < |LayoutRow(cs, SumSizes(cs), Finite(area)).value| ==>
      LayoutRow(cs, SumSizes(cs), Finite(area)).value[i].rect.Finite?
    decreases cs
  {
    LayoutRowTotal(cs, Finite(area));
    if cs != [] {
      var c := cs[0];
      var remaining := SumSizes(cs);
      var ratio := Quotient(c.size, remaining);
      assert ratio.Real?;
      var l, r := Split(area, ratio.q).0, Split(area, ratio.q).1;
      LayoutFinite(c, l);
      assert remaining - c.size == SumSizes(cs[1..]);
      LayoutRowFinite(cs[1..], r);
      var first := Layout(c, Finite(l)).value;
      var rest := LayoutRow(cs[1..], SumSizes(cs[1..]), Finite(r)).value;
      var all := first + rest;
      forall i | 0 <= i < |all| ensures all[i].rect.Finite? {
        if i >= |first| { assert all[i] == rest[i - |first|]; }
      }
    }
  }

  /** Each box's area, scaled by `total`, is `area` scaled by its size. */
  predicate Proportional(boxes: seq<FileBox>, total: nat, area: real) {
    forall i :: 0 <= i < |boxes| ==>
      boxes[i].rect.Finite? && boxes[i].rect.rect.Area() * (total as real) == area * (boxes[i].size as real)
  }

  /** Moving from a slice holding `part` of `whole` to the whole: if
      `a * part == (q * A) * s` with `q * whole == part`, then `a * whole == A * s`. */
  lemma Rescale(a: real, part: real, whole: real, q: real, area: real, s: real)
    requires part > 0.0 && q * whole == part && a * part == (q * area) * s
    ensures a * whole == area * s
  {
    calc {
      part * (a * whole);
      (a * part) * whole;
      (q * area) * s * whole;
      (q * whole) * (area * s);
      part * (area * s);
    }
  }

  lemma RescaleAll(boxes: seq<FileBox>, part: nat, whole: nat, q: real, area: real)
    requires part > 0 && q * (whole as real) == part as real
    requires Proportional(boxes, part, q * area)
    ensures Proportional(boxes, whole, area)
  {
    forall i | 0 <= i < |boxes|
      ensures boxes[i].rect.rect.Area() * (whole as real) == area * (boxes[i].size as real)
    {
      Rescale(boxes[i].rect.rect.Area(), part as real, whole as real, q, area, boxes[i].size as real);
    }
  }

  lemma ProportionalAppend(a: seq<FileBox>, b: seq<FileBox>, total: nat, area: real)
    requires Proportional(a, total, area) && Proportional(b, total, area)
    ensures Proportional(a + b, total, area)
  {
    forall i | |a| <= i < |a + b| ensures (a + b)[i] == b[i - |a|] {
    }
  }

  /** One step of the row: the first child's boxes, proportional within its
      slice, and the rest's, proportional within what is left, are together
      proportional within the whole area. */
  lemma RowStepArea(first: seq<FileBox>, rest: seq<FileBox>, c: nat, others: nat, remaining: nat,
                    q: real, area: real, leftArea: real, rightArea: real)
    requires 0 < c && remaining == c + others && q * (remaining as real) == c as real
    requires leftArea == q * area && rightArea == (1.0 - q) * area
    requires Proportional(first, c, leftArea)
    requires rest != [] ==> others > 0
    requires Proportional(rest, others, rightArea)
    ensures Proportional(first + rest, remaining, area)
  {
    RescaleAll(first, c, remaining, q, area);
    if rest != [] {
      var q' := 1.0 - q;
      assert q' * (remaining as real) == others as real;
      RescaleAll(rest, others, remaining, q', area);
    }
    ProportionalAppend(first, rest, remaining, area);
  }

  /** The ratio of a positive size to a remaining size no smaller than it. */
  function ShareOf(n: nat, d: nat): (q: real)
    requires 0 < n <= d
    ensures Quotient(n, d) == Real(q) && q * (d as real) == n as real
  {
    Quotient(n, d).q
  }

  /** Both layouts, one after the other, or a panic if either panics. */
  function Concat(a: Result<seq<FileBox>>, b: Result<seq<FileBox>>): Result<seq<FileBox>> {
    if a.Ok? && b.Ok? then Ok(a.value + b.value) else Panic
  }

  /** The two halves the first child of a row of positive sizes cuts the
      area into: its share of the remaining size, and what is left. */
  function Halves(cs: seq<Node>, area: Rect): (Rect, Rect)
    requires cs != [] && cs[0].size > 0
  {
    var q := ShareOf(cs[0].size, SumSizes(cs));
    Split(area, q)
  }

  /** How a row's layout is made of its first child's and the rest's. */
  lemma RowLayout(cs: seq<Node>, area: Rect)
    requires cs != [] && cs[0].size > 0
    ensures SumSizes(cs) == cs[0].size + SumSizes(cs[1..])
    ensures LayoutRow(cs, SumSizes(cs), Finite(area)) ==
      Concat(Layout(cs[0], Finite(Halves(cs, area).0)),
             LayoutRow(cs[1..], SumSizes(cs[1..]), Finite(Halves(cs, area).1)))
  {
    var q := ShareOf(cs[0].size, SumSizes(cs));
  }

  /** The first half's area is the first child's share of the area. */
  lemma LeftHalfArea(cs: seq<Node>, area: Rect)
    requires cs != [] && cs[0].size > 0
    ensures Halves(cs, area).0.Area() == ShareOf(cs[0].size, SumSizes(cs)) * area.Area()
  {
    var q := ShareOf(cs[0].size, SumSizes(cs));
    assert Halves(cs, area) == Split(area, q);
    SplitArea(area, q);
  }

  /** The second half's area is what is left. */
  lemma RightHalfArea(cs: seq<Node>, area: Rect)
    requires cs != [] && cs[0].size > 0
    ensures Halves(cs, area).1.Area() == (1.0 - ShareOf(cs[0].size, SumSizes(cs))) * area.Area()
  {
    var q := ShareOf(cs[0].size, SumSizes(cs));
    assert Halves(cs, area) == Split(area, q);
    SplitArea(area, q);
  }

  /** The area step of a row: boxes proportional within the two halves of an
      area `whole`, cut at the first child's share, are together proportional
      within `whole`. */
  lemma RowShareStep(cs: seq<Node>, whole: real, left: real, right: real,
                     first: seq<FileBox>, others: seq<FileBox>)
    requires cs != [] && cs[0].size > 0
    requires left == ShareOf(cs[0].size, SumSizes(cs)) * whole
    requires right == (1.0 - ShareOf(cs[0].size, SumSizes(cs))) * whole
    requires Proportional(first, cs[0].size, left)
    requires others != [] ==> SumSizes(cs[1..]) > 0
    requires Proportional(others, SumSizes(cs[1..]), right)
    ensures Proportional(first + others, SumSizes(cs), whole)
  {
    RowStepArea(first, others, cs[0].size, SumSizes(cs[1..]), SumSizes(cs), ShareOf(cs[0].size, SumSizes(cs)),
                whole, left, right);
  }

  /** The same step stated on the halves of a rectangle. */
  lemma RowAreaStep(cs: seq<Node>, area: Rect, first: seq<FileBox>, others: seq<FileBox>)
    requires cs != [] && cs[0].size > 0
    requires Proportional(first, cs[0].size, Halves(cs, area).0.Area())
    requires others != [] ==> SumSizes(cs[1..]) > 0
    requires Proportional(others, SumSizes(cs[1..]), Halves(cs, area).1.Area())
    ensures Proportional(first + others, SumSizes(cs), area.Area())
  {
    LeftHalfArea(cs, area);
    RightHalfArea(cs, area);
    RowShareStep(cs, area.Area(), Halves(cs, area).0.Area(), Halves(cs, area).1.Area(), first, others);
  }

  lemma ConcatProportional(whole: Result<seq<FileBox>>, a: Result<seq<FileBox>>, b: Result<seq<FileBox>>,
                           total: nat, area: real)
    requires whole == Concat(a, b) && a.Ok? && b.Ok?
    requires Proportional(a.value + b.value, total, area)
    ensures whole.Ok? && Proportional(whole.value, total, area)
  {
  }

  lemma {:induction false} LayoutRowArea(cs: seq<Node>, area: Rect)
    requires forall i :: 0 <= i < |cs| ==> Aggregated(cs[i]) && Positive(cs[i])
    ensures LayoutRow(cs, SumSizes(cs), Finite(area)).Ok?
    ensures Proportional(LayoutRow(cs, SumSizes(cs), Finite(area)).value, SumSizes(cs), area.Area())
    decreases cs
  {
    if cs != [] {
      assert Positive(cs[0]);
      var rest := cs[1..];
      assert forall i :: 0 <= i < |rest| ==> Aggregated(rest[i]) && Positive(rest[i]);
      LayoutArea(cs[0], Halves(cs, area).0);
      LayoutRowArea(rest, Halves(cs, area).1);
      if rest != [] {
        assert Positive(rest[0]);
        SumSizesPositive(rest);
      }
      var first := Layout(cs[0], Finite(Halves(cs, area).0));
      var others := LayoutRow(rest, SumSizes(rest), Finite(Halves(cs, area).1));
      if rest == [] {
        assert others == Ok([]);
      }
      RowAreaStep(cs, area, first.value, others.value);
      RowLayout(cs, area);
      ConcatProportional(LayoutRow(cs, SumSizes(cs), Finite(area)), first, others, SumSizes(cs), area.Area());
    }
  }

  /** With positive sizes that aggregate, each box's area is the bounds' area
      times the leaf's share `leaf.size / root.size`. */
  lemma {:induction false} LayoutArea(n: Node, bounds: Rect)
    requires Aggregated(n) && Positive(n)
    ensures Layout(n, Finite(bounds)).Ok?
    ensures Proportional(Layout(n, Finite(bounds)).value, n.size, bounds.Area())
    decreases n
  {
    LayoutTotal(n, Finite(bounds));
    if n.Internal? {
      LayoutRowArea(n.children, bounds);
    }
  }

  // ----- The boxes tile the bounds

  /** The summed area of the boxes with numeric coordinates. */
  function TotalArea(boxes: seq<FileBox>): real
    decreases |boxes|
  {
    if boxes == [] then 0.0
    else (if boxes[0].rect.Finite? then boxes[0].rect.rect.Area() else 0.0) + TotalArea(boxes[1..])
  }

  lemma {:induction false} LeavesSum(n: Node)
    requires Aggregated(n)
    ensures SumSizes(Leaves(n)) == n.size
    decreases n
  {
    if n.Internal? {
      LeavesOfSum(n.children);
    }
  }

  lemma {:induction false} LeavesOfSum(cs: seq<Node>)
    requires forall i :: 0 <= i < |cs| ==> Aggregated(cs[i])
    ensures SumSizes(LeavesOf(cs)) == SumSizes(cs)
    decreases cs
  {
    if cs != [] {
      assert Aggregated(cs[0]);
      LeavesSum(cs[0]);
      assert forall i :: 0 <= i < |cs[1..]| ==> Aggregated(cs[1..][i]);
      LeavesOfSum(cs[1..]);
      SumSizesAppend(Leaves(cs[0]), LeavesOf(cs[1..]));
    }
  }

  lemma ProportionalTail(boxes: seq<FileBox>, total: nat, area: real)
    requires boxes != [] && Proportional(boxes, total, area)
    ensures Proportional(boxes[1..], total, area)
  {
    forall i | 0 <= i < |boxes[1..]|
      ensures boxes[1..][i].rect.Finite? &&
        boxes[1..][i].rect.rect.Area() * (total as real) == area * (boxes[1..][i].size as real)
    {
      assert boxes[1..][i] == boxes[i + 1];
    }
  }

  lemma DescribesTail(boxes: seq<FileBox>, leaves: seq<Node>)
    requires boxes != [] && Describes(boxes, leaves)
    ensures Describes(boxes[1..], leaves[1..])
  {
    forall i | 0 <= i < |boxes[1..]|
      ensures boxes[1..][i].path == leaves[1..][i].path && boxes[1..][i].size == leaves[1..][i].size
    {
      assert boxes[1..][i] == boxes[i + 1] && leaves[1..][i] == leaves[i + 1];
    }
  }

  /** `(a0 + r) * t == area * (s0 + sr)` from the two parts. */
  lemma AddShares(a0: real, r: real, t: real, area: real, s0: real, sr: real)
    requires a0 * t == area * s0 && r * t == area * sr
    ensures (a0 + r) * t == area * (s0 + sr)
  {
  }

  /** Proportional boxes describing `leaves` have, scaled by `total`, the
      area `area` scaled by the leaves' summed size. */
  lemma {:induction false} ProportionalTotal(boxes: seq<FileBox>, leaves: seq<Node>, total: nat, area: real)
    requires Proportional(boxes, total, area) && Describes(boxes, leaves)
    ensures TotalArea(boxes) * (total as real) == area * (SumSizes(leaves) as real)
    decreases |boxes|
  {
    if boxes != [] {
      ProportionalTail(boxes, total, area);
      DescribesTail(boxes, leaves);
      ProportionalTotal(boxes[1..], leaves[1..], total, area);
      assert boxes[0].size == leaves[0].size;
      AddShares(boxes[0].rect.rect.Area(), TotalArea(boxes[1..]), total as real, area,
                leaves[0].size as real, SumSizes(leaves[1..]) as real);
    }
  }

  /** Cancelling a positive factor. */
  lemma Cancel(x: real, y: real, s: real)
    requires s > 0.0 && x * s == y * s
    ensures x == y
  {
    assert x == (x * s) / s;
    assert y == (y * s) / s;
  }

  /** With positive sizes that aggregate, the boxes' areas add up to the area
      of the bounds: together with `LayoutGeometry` (inside, no overlap), the
      boxes tile the bounds. */
  lemma LayoutCoversBounds(n: Node, bounds: Rect)
    requires Aggregated(n) && Positive(n)
    ensures Layout(n, Finite(bounds)).Ok?
    ensures TotalArea(Layout(n, Finite(bounds)).value) == bounds.Area()
  {
    LayoutArea(n, bounds);
    LayoutLeaves(n, Finite(bounds));
    LeavesSum(n);
    SharesCover(Layout(n, Finite(bounds)).value, Leaves(n), n.size, bounds.Area());
  }

  /** Boxes proportional to the sizes of leaves that add up to `total` cover
      exactly `area`. */
  lemma SharesCover(boxes: seq<FileBox>, leaves: seq<Node>, total: nat, area: real)
    requires Proportional(boxes, total, area) && Describes(boxes, leaves)
    requires SumSizes(leaves) == total && total > 0
    ensures TotalArea(boxes) == area
  {
    ProportionalTotal(boxes, leaves, total, area);
    Cancel(TotalArea(boxes), area, total as real);
  }

  // ----- Particular rows

  /** The last child of a row is divided off with ratio 1: it gets the whole of
      the remaining area, and what is left over has area 0. */
  lemma LastChildTakesRest(cs: seq<Node>, area: Rect)
    requires |cs| == 1 && cs[0].size > 0
    ensures Quotient(cs[0].size, SumSizes(cs)) == Real(1.0)
    ensures Halves(cs, area).0 == area && Halves(cs, area).1.Area() == 0.0
    ensures LayoutRow(cs, SumSizes(cs), Finite(area)) == Layout(cs[0], Finite(area))
  {
    assert cs[1..] == [];
    assert SumSizes(cs) == cs[0].size;
    var q := ShareOf(cs[0].size, SumSizes(cs));
    Cancel(q, 1.0, cs[0].size as real);
    SplitWhole(area);
    RowLayout(cs, area);
    var first := Layout(cs[0], Finite(area));
    if first.Ok? { assert first.value + [] == first.value; }
  }

  /** Children whose sizes sum to zero, reached with nothing remaining, get
      NaN-bearing boxes: `0 / 0` is NaN and passes the ratio test. */
  lemma {:induction false} ZeroRowNaN(cs: seq<Node>, area: Region)
    requires forall i :: 0 <= i < |cs| ==> Aggregated(cs[i])
    requires SumSizes(cs) == 0
    ensures LayoutRow(cs, 0, area).Ok?
    ensures AllNaN(LayoutRow(cs, 0, area).value)
    decreases cs
  {
    if cs != [] {
      var c := cs[0];
      assert Quotient(c.size, 0) == NaN;
      LayoutTotal(c, NaNRegion);
      LayoutNaN(c);
      assert forall i :: 0 <= i < |cs[1..]| ==> Aggregated(cs[1..][i]);
      ZeroRowNaN(cs[1..], NaNRegion);
      var first := Layout(c, NaNRegion).value;
      var rest := LayoutRow(cs[1..], 0, NaNRegion).value;
      var all := first + rest;
      assert LayoutRow(cs, 0, area).value == all;
      forall i | 0 <= i < |all| ensures all[i].rect.NaNRegion? {
        if i >= |first| { assert all[i] == rest[i - |first|]; }
      }
    }
  }

  /** A directory holding one file and one empty directory: the file fills
      the bounds and the empty directory, last in the row with nothing left
      to share, gets a NaN-bearing box. */
  lemma EmptyDirGetsNaN(bounds: Rect)
    ensures Layout(Internal(10, "d", [Leaf(10, "d/f"), Leaf(0, "d/e")]), Finite(bounds)) ==
      Ok([FileBox("d/f", 10, Finite(bounds)), FileBox("d/e", 0, NaNRegion)])
  {
    var cs := [Leaf(10, "d/f"), Leaf(0, "d/e")];
    var q := ShareOf(10, 10);
    Cancel(q, 1.0, 10.0);
    SplitWhole(bounds);
    var r := Split(bounds, 1.0).1;
    assert cs[1..] == [Leaf(0, "d/e")];
    assert DivideRect(Finite(bounds), Quotient(cs[0].size, 10)) == Ok((Finite(bounds), Finite(r)));
    EmptyLastGetsNaN(r);
    var first := Layout(cs[0], Finite(bounds));
    assert first == Ok([FileBox("d/f", 10, Finite(bounds))]);
    var more := LayoutRow(cs[1..], 10 - cs[0].size, Finite(r));
    assert more == Ok([FileBox("d/e", 0, NaNRegion)]);
    assert LayoutRow(cs, 10, Finite(bounds)) == Ok(first.value + more.value);
    assert first.value + more.value == [FileBox("d/f", 10, Finite(bounds)), FileBox("d/e", 0, NaNRegion)];
    assert Layout(Internal(10, "d", cs), Finite(bounds)) == LayoutRow(cs, 10, Finite(bounds));
  }

  /** The empty directory reached with nothing remaining: `0 / 0` is NaN. */
  lemma EmptyLastGetsNaN(r: Rect)
    ensures LayoutRow([Leaf(0, "d/e")], 0, Finite(r)) == Ok([FileBox("d/e", 0, NaNRegion)])
  {
    var rest := [Leaf(0, "d/e")];
    assert rest[1..] == [];
    var d := DivideRect(Finite(r), Quotient(rest[0].size, 0));
    assert d == Ok((NaNRegion, NaNRegion));
    var first := Layout(rest[0], d.value.0);
    assert first == Ok([FileBox("d/e", 0, NaNRegion)]);
    var more := LayoutRow(rest[1..], 0 - rest[0].size, d.value.1);
    assert more == Ok([]);
    assert first.value + more.value == [FileBox("d/e", 0, NaNRegion)];
  }

  // ----- Scanned trees

  /** A scanned directory is laid out without a panic. */
  lemma ScannedLayoutTotal(e: Entry, bounds: Region)
    requires e.Dir?
    ensures Layout(TreeOf(e).value, bounds).Ok?
  {
    TreeOfScanned(e);
    LayoutTotal(TreeOf(e).value, bounds);
  }

  /** A scanned directory with no empty directory beneath it is tiled: every
      box is numeric, inside the bounds, disjoint from the others, its area is
      the bounds' area times its share of the total, and the areas add up. */
  lemma ScannedLayoutTiles(e: Entry, bounds: Rect)
    requires e.Dir? && NoEmptyDirs(e) && bounds.WellFormed()
    ensures Layout(TreeOf(e).value, Finite(bounds)).Ok?
    ensures Proportional(Layout(TreeOf(e).value, Finite(bounds)).value, TreeOf(e).value.size, bounds.Area())
    ensures AllWithin(Layout(TreeOf(e).value, Finite(bounds)).value, bounds)
    ensures PairwiseDisjoint(Layout(TreeOf(e).value, Finite(bounds)).value)
    ensures TotalArea(Layout(TreeOf(e).value, Finite(bounds)).value) == bounds.Area()
  {
    var n := TreeOf(e).value;
    TreeOfScanned(e);
    TreeOfPositive(e);
    LayoutArea(n, bounds);
    LayoutGeometry(n, bounds);
    LayoutCoversBounds(n, bounds);
  }
}
