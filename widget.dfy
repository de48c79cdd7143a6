/** The `Boxes` widget of src/widgets/boxes.rs: its boxes and cached picture,
    `foo_rect` appending to the boxes, and the `lifecycle` (resize), `update`
    (new data) and `paint` handlers. The state changes are specified by
    functions on a value `View` of the widget's two fields. */
module Widget {
  import opened Wrappers
  import opened Geometry
  import opened Scanning
  import opened BoxesLayout

  /** A druid `Size`. */
  datatype Size = Size(width: real, height: real)

  /** `size.to_rect()`: the rectangle of that size at the origin. */
  function SizeRect(size: Size): Rect {
    Rect(0.0, 0.0, size.width, size.height)
  }

  /** The boxes the widget should hold for the data's node at a size: none
      without a node, the node's layout over the whole widget with one. */
  function Relayout(node: Option<Node>, size: Size): Result<seq<FileBox>> {
    match node
    case None => Ok([])
    case Some(n) => Layout(n, Finite(SizeRect(size)))
  }

  /** The widget's fields as a value: the boxes, and the cached picture,
      represented by the boxes it was painted from (`None`: no cached picture). */
  datatype View = View(boxes: seq<FileBox>, image: Option<seq<FileBox>>)

  /** The cached picture, if there is one, shows the current boxes. */
  predicate Current(v: View) {
    v.image.Some? ==> v.image.value == v.boxes
  }

  /** `lifecycle` on `LifeCycle::Size`: with a node, drop the cached picture
      and lay the node out afresh at the new size; without one, nothing. */
  function Resized(v: View, node: Option<Node>, size: Size): Result<View> {
    match node
    case None => Ok(v)
    case Some(n) =>
      match Layout(n, Finite(SizeRect(size)))
      case Panic => Panic
      case Ok(boxes) => Ok(View(boxes, None))
  }

  /** `paint`: draw the cached picture if there is one; otherwise paint the
      boxes and cache the result. The first component is what is shown. */
  function Painted(v: View): (seq<FileBox>, View) {
    match v.image
    case Some(picture) => (picture, v)
    case None => (v.boxes, View(v.boxes, Some(v.boxes)))
  }

  /** `old_data.node != data.node` as the source evaluates it: `Option`'s
      equality over `Node`'s, which compares sizes only. */
  predicate NodeChangedAsWritten(oldNode: Option<Node>, node: Option<Node>) {
    match (oldNode, node)
    case (None, None) => false
    case (Some(a), Some(b)) => !NodeEq(a, b)
    case _ => true
  }

  /** `update` as written: on a change by the test above, clear the boxes and
      lay out the new node, if any, at the current size; the cached picture
      is left as it was. */
  function UpdatedAsWritten(v: View, oldNode: Option<Node>, node: Option<Node>, size: Size): Result<View> {
    if !NodeChangedAsWritten(oldNode, node) then Ok(v)
    else
      match Relayout(node, size)
      case Panic => Panic
      case Ok(boxes) => Ok(View(boxes, v.image))
  }

  /** `update` as evidently intended: relayout whenever the tree differs, and
      drop the cached picture along with the old boxes, as `lifecycle` does. */
  function Updated(v: View, oldNode: Option<Node>, node: Option<Node>, size: Size): Result<View> {
    if oldNode == node then Ok(v)
    else
      match Relayout(node, size)
      case Panic => Panic
      case Ok(boxes) => Ok(View(boxes, None))
  }

  // ----- The handlers, one call at a time

  /** A resize with a node holds exactly that node's layout at the new size and
      no cached picture; it panics exactly when the layout does. */
  lemma ResizedLaysOut(v: View, node: Option<Node>, size: Size)
    ensures node.None? ==> Resized(v, node, size) == Ok(v)
    ensures node.Some? ==> (Resized(v, node, size).Ok? <==> Relayout(node, size).Ok?)
    ensures node.Some? && Resized(v, node, size).Ok? ==>
      Resized(v, node, size).value.boxes == Relayout(node, size).value &&
      Current(Resized(v, node, size).value)
  {
  }

  /** Painting a current view shows its boxes and leaves it current; painting
      again shows the same picture. */
  lemma PaintedShowsBoxes(v: View)
    requires Current(v)
    ensures Painted(v).0 == v.boxes
    ensures Current(Painted(v).1) && Painted(v).1.boxes == v.boxes
    ensures Painted(Painted(v).1) == (Painted(v).0, Painted(v).1)
  {
  }

  /** After the intended update the boxes are the new data's layout and the
      view is current, whatever it was before; an unchanged tree leaves the
      view alone. */
  lemma UpdatedLaysOut(v: View, oldNode: Option<Node>, node: Option<Node>, size: Size)
    ensures oldNode == node ==> Updated(v, oldNode, node, size) == Ok(v)
    ensures oldNode != node ==>
      (Updated(v, oldNode, node, size).Ok? <==> Relayout(node, size).Ok?)
    ensures oldNode != node && Updated(v, oldNode, node, size).Ok? ==>
      Updated(v, oldNode, node, size).value.boxes == Relayout(node, size).value &&
      Current(Updated(v, oldNode, node, size).value)
  {
  }

  // ----- Sessions: the handlers in any order

  /** What druid delivers to the widget: a new size, new data, a repaint. */
  datatype Event = Resize(size: Size) | NewData(node: Option<Node>) | Repaint

  /** The widget's view together with the data and size it was last told of. */
  datatype Session = Session(view: View, node: Option<Node>, size: Size)

  /** The widget as built by `build_root`, before any event. */
  function Start(node: Option<Node>, size: Size): Session {
    Session(View([], None), node, size)
  }

  /** The widget is in step with the data: its picture, if any, shows its
      boxes, and its boxes are the layout of the data at the current size. */
  predicate Tracks(s: Session) {
    Current(s.view) && Relayout(s.node, s.size) == Ok(s.view.boxes)
  }

  function Step(s: Session, e: Event): Result<Session> {
    match e
    case Resize(size) =>
      (match Resized(s.view, s.node, size)
       case Panic => Panic
       case Ok(v) => Ok(Session(v, s.node, size)))
    case NewData(node) =>
      (match Updated(s.view, s.node, node, s.size)
       case Panic => Panic
       case Ok(v) => Ok(Session(v, node, s.size)))
    case Repaint => Ok(Session(Painted(s.view).1, s.node, s.size))
  }

  function StepAsWritten(s: Session, e: Event): Result<Session> {
    match e
    case NewData(node) =>
      (match UpdatedAsWritten(s.view, s.node, node, s.size)
       case Panic => Panic
       case Ok(v) => Ok(Session(v, node, s.size)))
    case _ => Step(s, e)
  }

  function Run(s: Session, es: seq<Event>): Result<Session>
    decreases |es|
  {
    if es == [] then Ok(s)
    else
      match Step(s, es[0])
      case Panic => Panic
      case Ok(s') => Run(s', es[1..])
  }

  function RunAsWritten(s: Session, es: seq<Event>): Result<Session>
    decreases |es|
  {
    if es == [] then Ok(s)
    else
      match StepAsWritten(s, es[0])
      case Panic => Panic
      case Ok(s') => RunAsWritten(s', es[1..])
  }

  /** A widget built without a node is in step with its (empty) data. */
  lemma StartTracks(size: Size)
    ensures Tracks(Start(None, size))
  {
  }

  /** Each handler keeps the widget in step with the data. */
  lemma StepTracks(s: Session, e: Event)
    requires Tracks(s) && Step(s, e).Ok?
    ensures Tracks(Step(s, e).value)
  {
    match e
    case Resize(size) => ResizedLaysOut(s.view, s.node, size);
    case NewData(node) => UpdatedLaysOut(s.view, s.node, node, s.size);
    case Repaint => PaintedShowsBoxes(s.view);
  }

  /** Any run of events that does not panic keeps the widget in step. */
  lemma {:induction false} RunTracks(s: Session, es: seq<Event>)
    requires Tracks(s) && Run(s, es).Ok?
    ensures Tracks(Run(s, es).value)
    decreases |es|
  {
    if es != [] {
      StepTracks(s, es[0]);
      RunTracks(Step(s, es[0]).value, es[1..]);
    }
  }

  /** In step, a repaint shows exactly the data's layout at the current size. */
  lemma RepaintShowsData(s: Session)
    requires Tracks(s)
    ensures Relayout(s.node, s.size).Ok? && Painted(s.view).0 == Relayout(s.node, s.size).value
  {
    PaintedShowsBoxes(s.view);
  }

  // ----- What the update as written gets wrong

  /** The tree `visit_dirs` returns for a directory `d` holding one 5-byte
      regular file at `path`. */
  function OneFileTree(path: string): Node {
    Internal(5, "d", [Leaf(5, path)])
  }

  /** Scanning that directory gives that tree, and its layout is one box
      covering the whole bounds. */
  lemma OneFileScanned(path: string, r: Rect)
    ensures TreeOf(Dir("d", [File(path, 5)])) == Ok(OneFileTree(path))
    ensures Layout(OneFileTree(path), Finite(r)) == Ok([FileBox(path, 5, Finite(r))])
  {
    var es := [File(path, 5)];
    assert es[..0] == [];
    assert KeptNodes(es) == [Leaf(5, path)];
    assert SumSizes([Leaf(5, path)]) == 5;
    var one := [Leaf(5, path)];
    assert one[1..] == [];
    assert SortAscending(one) == Insert(one[0], []) == one;
    assert Reverse(one) == Reverse(one[1..]) + [one[0]] == one;
    assert OrderChildren(one) == one;
    LastChildTakesRest([Leaf(5, path)], r);
  }

  /** The first scan after starting without a node: the window's first paint
      caches the empty picture, the update lays out the scanned tree, and the
      next paint still shows the empty picture instead of its one box. */
  lemma StalePictureAsWritten(size: Size)
    ensures TreeOf(Dir("d", [File("d/a", 5)])) == Ok(OneFileTree("d/a"))
    ensures RunAsWritten(Start(None, size), [Repaint, NewData(Some(OneFileTree("d/a")))]).Ok?
    ensures Painted(RunAsWritten(Start(None, size), [Repaint, NewData(Some(OneFileTree("d/a")))]).value.view).0 == []
    ensures Relayout(Some(OneFileTree("d/a")), size) == Ok([FileBox("d/a", 5, Finite(SizeRect(size)))])
  {
    OneFileScanned("d/a", SizeRect(size));
    var es := [Repaint, NewData(Some(OneFileTree("d/a")))];
    var s1 := Session(View([], Some([])), None, size);
    assert StepAsWritten(Start(None, size), es[0]) == Ok(s1);
    var s2 := Session(View([FileBox("d/a", 5, Finite(SizeRect(size)))], Some([])), Some(OneFileTree("d/a")), size);
    assert StepAsWritten(s1, es[1]) == Ok(s2);
    assert es[1..][1..] == [];
    assert RunAsWritten(s1, es[1..]) == Ok(s2);
  }

  /** The intended update on the same events shows the scanned tree's box. */
  lemma FreshPictureIntended(size: Size)
    ensures Run(Start(None, size), [Repaint, NewData(Some(OneFileTree("d/a")))]).Ok?
    ensures Painted(Run(Start(None, size), [Repaint, NewData(Some(OneFileTree("d/a")))]).value.view).0 ==
      [FileBox("d/a", 5, Finite(SizeRect(size)))]
  {
    OneFileScanned("d/a", SizeRect(size));
    var es := [Repaint, NewData(Some(OneFileTree("d/a")))];
    var s1 := Session(View([], Some([])), None, size);
    assert Step(Start(None, size), es[0]) == Ok(s1);
    var s2 := Session(View([FileBox("d/a", 5, Finite(SizeRect(size)))], None), Some(OneFileTree("d/a")), size);
    assert Step(s1, es[1]) == Ok(s2);
    assert es[1..][1..] == [];
    assert Run(s1, es[1..]) == Ok(s2);
  }

  /** A newly scanned tree of the same total size passes the size-only test as
      unchanged, so the boxes keep describing the old tree. */
  lemma StaleBoxesAsWritten(size: Size)
    ensures TreeOf(Dir("d", [File("d/a", 5)])) == Ok(OneFileTree("d/a"))
    ensures TreeOf(Dir("d", [File("d/b", 5)])) == Ok(OneFileTree("d/b"))
    ensures !NodeChangedAsWritten(Some(OneFileTree("d/a")), Some(OneFileTree("d/b")))
    ensures Tracks(Session(View([FileBox("d/a", 5, Finite(SizeRect(size)))], None), Some(OneFileTree("d/a")), size))
    ensures StepAsWritten(Session(View([FileBox("d/a", 5, Finite(SizeRect(size)))], None), Some(OneFileTree("d/a")), size),
                          NewData(Some(OneFileTree("d/b")))) ==
      Ok(Session(View([FileBox("d/a", 5, Finite(SizeRect(size)))], None), Some(OneFileTree("d/b")), size))
    ensures !Tracks(Session(View([FileBox("d/a", 5, Finite(SizeRect(size)))], None), Some(OneFileTree("d/b")), size))
  {
    OneFileScanned("d/a", SizeRect(size));
    OneFileScanned("d/b", SizeRect(size));
    assert [FileBox("d/a", 5, Finite(SizeRect(size)))][0].path == "d/a";
    assert [FileBox("d/b", 5, Finite(SizeRect(size)))][0].path == "d/b";
  }

  // ----- One pass of `foo_rect`'s loop, as facts about `LayoutRow`

  /** Before the first child: nothing appended, the whole row ahead. */
  lemma RowStart(boxes: seq<FileBox>, root: Node, bounds: Region)
    requires root.Internal?
    ensures Layout(root, bounds) ==
      Prepend(boxes[|boxes|..], LayoutRow(root.children[0..], root.size, bounds))
  {
    assert root.children[0..] == root.children;
    assert boxes[|boxes|..] == [];
    var whole := LayoutRow(root.children, root.size, bounds);
    assert whole.Ok? ==> [] + whole.value == whole.value;
  }

  /** A child that cannot be divided off, or whose own layout panics, makes the
      rest of the row panic. */
  lemma RowPanics(cs: seq<Node>, remaining: nat, area: Region)
    requires cs != []
    requires DivideRect(area, Quotient(cs[0].size, remaining)).Panic? ||
      Layout(cs[0], DivideRect(area, Quotient(cs[0].size, remaining)).value.0).Panic?
    ensures LayoutRow(cs, remaining, area).Panic?
  {
  }

  /** Dividing off the first child leaves its size within `remaining` and moves
      its boxes from the row to the prefix. */
  lemma RowStep(prefix: seq<FileBox>, cs: seq<Node>, remaining: nat, area: Region)
    requires cs != [] && DivideRect(area, Quotient(cs[0].size, remaining)).Ok?
    requires Layout(cs[0], DivideRect(area, Quotient(cs[0].size, remaining)).value.0).Ok?
    ensures cs[0].size <= remaining
    ensures Prepend(prefix, LayoutRow(cs, remaining, area)) ==
      Prepend(prefix + Layout(cs[0], DivideRect(area, Quotient(cs[0].size, remaining)).value.0).value,
              LayoutRow(cs[1..], remaining - cs[0].size, DivideRect(area, Quotient(cs[0].size, remaining)).value.1))
  {
    var halves := DivideRect(area, Quotient(cs[0].size, remaining)).value;
    var first := Layout(cs[0], halves.0).value;
    var rest := LayoutRow(cs[1..], remaining - cs[0].size, halves.1);
    if rest.Ok? {
      assert prefix + (first + rest.value) == (prefix + first) + rest.value;
    }
  }

  /** With the row used up, the boxes are the old ones followed by the layout. */
  lemma RowEnd(start: seq<FileBox>, boxes: seq<FileBox>, whole: Result<seq<FileBox>>,
               cs: seq<Node>, remaining: nat, area: Region)
    requires start <= boxes && cs == []
    requires whole == Prepend(boxes[|start|..], LayoutRow(cs, remaining, area))
    ensures whole.Ok? && boxes == start + whole.value
  {
    assert boxes == start + boxes[|start|..];
  }

  // ----- The widget as a mutable object

  class Boxes {
    var boxes: seq<FileBox>
    var cachedImage: Option<seq<FileBox>>

    function State(): View
      reads this
    {
      View(boxes, cachedImage)
    }

    /** `Boxes { boxes: vec![], cached_image: None }` in `build_root`. */
    constructor ()
      ensures boxes == [] && cachedImage == None
    {
      boxes := [];
      cachedImage := None;
    }

    /** `foo_rect(root, bounds)`: appends the boxes of the layout of `root`
        in `bounds`; `ok` is false where the source panics. */
    method FooRect(root: Node, bounds: Region) returns (ok: bool)
      modifies this`boxes
      ensures ok == Layout(root, bounds).Ok?
      ensures ok ==> boxes == old(boxes) + Layout(root, bounds).value
      decreases root
    {
      match root
      case Leaf(size, path) =>
        boxes := boxes + [FileBox(path, size, bounds)];
        ok := true;
      case Internal(size, _, children) =>
        var remaining: nat := size;
        var area := bounds;
        var i := 0;
        RowStart(boxes, root, bounds);
        while i < |children|
          invariant 0 <= i <= |children|
          invariant old(boxes) <= boxes
          invariant Layout(root, bounds) ==
            Prepend(boxes[|old(boxes)|..], LayoutRow(children[i..], remaining, area))
        {
          var c := children[i];
          var divided := DivideRect(area, Quotient(c.size, remaining));
          if divided.Panic? {
            RowPanics(children[i..], remaining, area);
            return false;
          }
          var before := boxes;
          var done := FooRect(c, divided.value.0);
          if !done {
            RowPanics(children[i..], remaining, area);
            return false;
          }
          RowStep(before[|old(boxes)|..], children[i..], remaining, area);
          assert boxes[|old(boxes)|..] == before[|old(boxes)|..] + Layout(c, divided.value.0).value;
          assert children[i..][1..] == children[i + 1..];
          area := divided.value.1;
          remaining := remaining - c.size;
          i := i + 1;
        }
        RowEnd(old(boxes), boxes, Layout(root, bounds), children[i..], remaining, area);
        ok := true;
    }

    /** `lifecycle` on `LifeCycle::Size(size)` with the data's node. */
    method OnSize(node: Option<Node>, size: Size) returns (ok: bool)
      modifies this
      ensures ok == Resized(old(State()), node, size).Ok?
      ensures ok ==> State() == Resized(old(State()), node, size).value
    {
      ok := true;
      if node.Some? {
        cachedImage := None;
        boxes := [];
        ok := FooRect(node.value, Finite(SizeRect(size)));
      }
    }

    /** `update(old_data, data)` at the widget's current size, with the
        corrected change test and the cached picture dropped. */
    method Update(oldNode: Option<Node>, node: Option<Node>, size: Size) returns (ok: bool)
      modifies this
      ensures ok == Updated(old(State()), oldNode, node, size).Ok?
      ensures ok ==> State() == Updated(old(State()), oldNode, node, size).value
    {
      ok := true;
      if oldNode != node {
        boxes := [];
        cachedImage := None;
        if node.Some? {
          ok := FooRect(node.value, Finite(SizeRect(size)));
        }
      }
    }

    /** `paint`: returns what is shown. */
    method Paint() returns (shown: seq<FileBox>)
      modifies this`cachedImage
      ensures (shown, State()) == Painted(old(State()))
    {
      if cachedImage.Some? {
        shown := cachedImage.value;
      } else {
        shown := boxes;
        cachedImage := Some(boxes);
      }
    }
  }
}
