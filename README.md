# Bellavista treemap core in Dafny

Bellavista shows disk usage as a treemap. It does this in two steps:

- It scans a directory into a tree of `Node`s. Each `Node` is weighted by its byte size. Symbolic links and other special entries are dropped.
- It lays the tree out as a slice-and-dice treemap. Each child is cut off the remaining area of its parent. Its share is its size over the size that remains. The cut runs along x when the area is not too tall (height/width < 1.2) and along y otherwise.

The widget keeps two things: the boxes of the current layout and a cached picture of them. It rebuilds the boxes when it is resized and when the data changes.

The project has five modules:

- `Wrappers` (`wrappers.dfy`): `Option` and a `Result` whose error case is a panic.
- `Geometry` (`geometry.dfy`): `Rect`, and `divide_rect` over exact reals. Three things an f64 computation can produce are written out explicitly:
  - `Ratio` is the value of `c.size as f64 / remaining as f64`: a real, NaN (for 0/0) or +infinity.
  - `Region` is a rectangle whose coordinates are all numbers, or one with a NaN coordinate.
  - `CutsAlongX` is the f64 test `height / width < 1.2`, including a zero width.
- `Scanning` (`scanning.dfy`): the directory listing as an input tree of `Entry` values (`Dir`, `File` with its `st_size`, `Other`), `Node` with its size-only ordering, `visit_dirs` as a looping method proved equal to a functional specification, and `scan`.
- `BoxesLayout` (`boxes.dfy`): the layout `foo_rect` computes, as the function `Layout`, and what is proved about it:
  - one box per leaf, in depth-first order;
  - containment and pairwise disjointness;
  - every box's area is proportional to its leaf's size, and the areas add up to the bounds;
  - NaN boxes for children reached when no size remains (`ZeroRowNaN`), such as a trailing empty directory. A size-0 child reached while some size remains gets ratio 0 and a finite box of zero area instead;
  - totality on aggregated trees.
- `Widget` (`widget.dfy`): the `Boxes` widget as a class whose fields are `boxes` and `cachedImage`:
  - `foo_rect` is a looping method proved against `Layout`;
  - the `lifecycle`, `update` and `paint` handlers are proved against functions on a value `View` of those two fields;
  - `Session` runs the handlers in any order of resize, new-data and repaint events.

Four points about the code are easy to get wrong:

- The layout is slice-and-dice, not squarified. No row-building or aspect-ratio minimisation exists in the code.
- The layout is not total. It panics when a node's size is smaller than the sum of its children's sizes.
- An empty directory is a size-0 leaf. Where one is reached with no size remaining, as at the end of a row, it gets a NaN rectangle, not a rectangle of zero area.
- `scan` panics on a root directory with no kept entries. It does not return an empty tree.

## Model

| member | source | states |
|---|---|---|
| Geometry.Quotient | src/widgets/boxes.rs:101 | The f64 division `c.size / remaining_size` is NaN exactly for 0/0 and +infinity exactly for n/0 with n > 0. Otherwise it is the non-negative real n/d, which is at most 1 exactly when n <= d. |
| Geometry.CutsAlongXIsAspectTest | src/widgets/boxes.rs:57-58 | For a non-zero width, the division-free cut test agrees with `height / width < 1.2`. |
| Geometry.CutsAlongX | src/widgets/boxes.rs:57-58 | Definition: the f64 test `height / width < 1.2` without the division. For a positive width it is `height < 1.2·width`, and for a negative width it is `height > 1.2·width`. For a zero width it holds only when the height is negative, which is the −infinity case; +infinity and NaN compare false. |
| Geometry.Split | src/widgets/boxes.rs:58-90 | Below the threshold both halves keep `y0` and `y1`, and the cut is at `x0 + width*ratio`. Otherwise both halves keep `x0` and `x1`, and the cut is at `y0 + height*ratio`. The two halves always share the cut line. |
| Geometry.DivideRect | src/widgets/boxes.rs:52-55 | Panics exactly for +infinity or a ratio outside [0,1]. A NaN ratio passes the range check and gives two NaN rectangles. An accepted real ratio gives the two halves of `Split`. |
| Geometry.SplitArea | src/widgets/boxes.rs:59-87 | The halves have areas ratio·A and (1 − ratio)·A, where A is the source area. |
| Geometry.SplitWithin | src/widgets/boxes.rs:59-87 | For a ratio in [0,1], both halves of a well-formed source are well-formed, lie inside it and do not overlap. |
| Geometry.SplitWhole | src/widgets/boxes.rs:59-71 | Ratio 1 hands the whole source to the first half and leaves an area of 0 for the second. |
| Geometry.DivideSquare | src/widgets/boxes.rs:229-257 | The 100×100 source with ratio 0.3 is cut at x = 30, with the halves the test expects. |
| Geometry.DivideTall | src/widgets/boxes.rs:259-288 | The 100×200 source with ratio 0.3 is cut at y = 60, with the halves the test expects. |
| Scanning.Cmp | src/scanning.rs:32-36 | `cmp` is `Equal` exactly when the nodes are equal by `eq`, and `Less` exactly when the left size is smaller. |
| Scanning.PartialCmp | src/scanning.rs:38-42 | `partial_cmp` is always `Some(cmp)`. |
| Scanning.NodeEq | src/scanning.rs:44-48 | Definition: two nodes are equal when their sizes are, whatever their paths and children. |
| Scanning.OrderBySizeOnly | src/scanning.rs:32-50 | Comparison and equality depend on the sizes alone: nodes with the same sizes compare identically whatever their paths and children. |
| Scanning.SumSizesAppend | src/scanning.rs:57-88 | The running sum of sizes over a concatenation is the sum of the two parts. |
| Scanning.Insert | src/scanning.rs:90 | Definition: insert a node before the first element it is not greater than, by `cmp`. This is one step of a stable ascending sort. |
| Scanning.SortAscending | src/scanning.rs:90 | Definition: `children.sort()` as insertion sort by `cmp`, inserting from the back of the list forwards. |
| Scanning.Reverse | src/scanning.rs:91 | Definition: `children.reverse()`, so the last element comes first. |
| Scanning.OrderChildren | src/scanning.rs:90-91 | Definition: sort ascending, then reverse. |
| Scanning.SortFacts | src/scanning.rs:90 | The sort is ascending and a permutation, and it keeps the total size. It is stable: the nodes of each size stay in their original order. |
| Scanning.ReverseFacts | src/scanning.rs:91 | `reverse` puts element i at position n − 1 − i and is a permutation that keeps the total size. |
| Scanning.OrderChildrenFacts | src/scanning.rs:90-91 | Sorting then reversing gives a non-increasing permutation with the same total size. Nodes of equal size come out in reverse enumeration order. |
| Scanning.Promote | src/scanning.rs:72-77 | A file's size is at least 1. It is `st_size` unless that is 0, which becomes 1. |
| Scanning.KeptNodes | src/scanning.rs:60-88 | Definition: the nodes the loop pushes for a listing, in enumeration order: each entry's contribution in turn. |
| Scanning.Keep | src/scanning.rs:67-87 | Definition: a subdirectory contributes its recursively scanned node, and a regular file a leaf of its promoted size. Anything else contributes nothing. |
| Scanning.DirNode | src/scanning.rs:57-101 | Definition: a directory's node. Its size is the sum of the kept nodes' sizes and its children are the kept nodes sorted then reversed. It is `Some` children when that list is non-empty, and a leaf (`None`) otherwise. |
| Scanning.TreeOf | src/scanning.rs:52-55 | `visit_dirs` panics exactly when its argument is not a directory. |
| Scanning.VisitDirs | src/scanning.rs:52-102 | The loop, followed by the sort and the reverse, computes exactly the functional specification `TreeOf`. |
| Scanning.Scan | src/scanning.rs:104-114 | `scan` succeeds exactly when the root is a directory with at least one directory or regular-file entry. It then returns the scanned tree, which has `Some` children. |
| Scanning.KeptNodesAppend | src/scanning.rs:60-88 | The nodes pushed for two consecutive parts of a listing are those of the first part followed by those of the second. |
| Scanning.OtherEntryIgnored | src/scanning.rs:85-87 | An entry that is neither a directory nor a regular file changes nothing: removing it from the listing gives the same node. |
| Scanning.KeptNodesMembers | src/scanning.rs:60-88 | A node is pushed exactly when some entry of the listing produces it. |
| Scanning.DirChildren | src/scanning.rs:60-101 | A directory's children are exactly the nodes its directory and regular-file entries produce. |
| Scanning.FileBecomesLeaf | src/scanning.rs:71-84 | Every regular file becomes a leaf child of its directory with its promoted size, which is at least 1. It is 1 for an empty file. |
| Scanning.DirNodeEmpty | src/scanning.rs:93-101 | A directory becomes a leaf exactly when it keeps no entry, and that leaf has size 0. So `Some` children are never empty. |
| Scanning.DirNodeScanned | src/scanning.rs:57-101 | Every node of a scanned directory has a size equal to the sum of its children's sizes. Every `Some` children list is non-empty and non-increasing. |
| Scanning.KeptScanned | src/scanning.rs:60-88 | Every pushed node is aggregated and ordered in that sense. |
| Scanning.TreeOfScanned | src/scanning.rs:52-102 | The tree `visit_dirs` returns for a directory is aggregated and ordered. |
| Scanning.SumSizesPositive | src/scanning.rs:57-88 | A sum of sizes is positive exactly when some node's size is. |
| Scanning.DirNodeSizePositive | src/scanning.rs:57-101 | A directory's size is positive exactly when a regular file lies somewhere beneath it. |
| Scanning.DirNodePositive | src/scanning.rs:57-101 | If every directory beneath holds a file, every node of the scanned tree has a positive size. |
| Scanning.TreeOfPositive | src/scanning.rs:52-102 | The same for the tree `visit_dirs` returns. |
| Scanning.DirChildrenTies | src/scanning.rs:90-91 | Among a directory's children, those of any one size appear in the reverse of their enumeration order. |
| Scanning.ScanTwoFiles | src/scanning.rs:57-101 | A directory holding an empty file `a` and a 10-byte file `b` scans to a size-11 node with children `b` (10) then `a` (1). |
| Scanning.KeptTwoFiles | src/scanning.rs:71-84 | The two files of that directory are pushed as leaves of sizes 1 and 10, in enumeration order. |
| Scanning.OrderTwoLeaves | src/scanning.rs:90-91 | Sorting then reversing those two leaves puts the larger first. |
| BoxesLayout.DescribesAppend | src/widgets/boxes.rs:100-106 | Boxes appended for consecutive children describe the leaves of those children in order. |
| BoxesLayout.Layout | src/widgets/boxes.rs:95-116 | Definition: the boxes `foo_rect` appends. A leaf gives one box with its path, size and the bounds. An internal node gives the layout of its children's loop, starting from the node's own size and the whole bounds. |
| BoxesLayout.LayoutRow | src/widgets/boxes.rs:98-106 | Definition: the children's loop from some child on. The child's ratio is its size over the remaining size, and `divide_rect` cuts the child's slice from the remaining area. The child is laid out in its slice, and the rest of the row in what is left, with the child's size taken off the remaining size. A panic at any step is a panic of the whole. |
| BoxesLayout.LayoutLeaves | src/widgets/boxes.rs:95-116 | A layout that does not panic has exactly one box per leaf beneath the root, in depth-first child order. Each box carries its leaf's path and size. |
| BoxesLayout.LayoutRowLeaves | src/widgets/boxes.rs:100-106 | The same for the children's loop from any child on. |
| BoxesLayout.DisjointWithin | src/widgets/boxes.rs:102-104 | Rectangles inside two non-overlapping halves do not overlap. |
| BoxesLayout.LayoutGeometry | src/widgets/boxes.rs:95-116 | In well-formed bounds, every box of a layout that does not panic lies within the bounds, and no two boxes overlap. |
| BoxesLayout.LayoutRowGeometry | src/widgets/boxes.rs:98-106 | The same for the loop over the children, within the remaining area. |
| BoxesLayout.LayoutNaN | src/widgets/boxes.rs:52-116 | Everything laid out in a NaN rectangle gets a NaN rectangle. |
| BoxesLayout.LayoutRowNaN | src/widgets/boxes.rs:98-106 | The same for the loop over the children. |
| BoxesLayout.LayoutTotal | src/widgets/boxes.rs:95-116 | If every node's size is the sum of its children's sizes, each ratio is NaN or in [0,1]. So `divide_rect` never panics, whatever the bounds. |
| BoxesLayout.LayoutRowTotal | src/widgets/boxes.rs:98-106 | The same for a loop that starts with the children's total as the remaining size. |
| BoxesLayout.LayoutFinite | src/widgets/boxes.rs:95-116 | For an aggregated tree with positive sizes and finite bounds, every box is finite. |
| BoxesLayout.LayoutRowFinite | src/widgets/boxes.rs:98-106 | The same for the loop over the children. |
| BoxesLayout.Rescale | src/widgets/boxes.rs:101-102 | A real-arithmetic proof step of `LayoutArea`: an area proportional within a slice of share q is proportional within the whole. |
| BoxesLayout.RescaleAll | src/widgets/boxes.rs:101-103 | The same for every box laid out in one child's slice. |
| BoxesLayout.ProportionalAppend | src/widgets/boxes.rs:100-106 | Boxes proportional to the same total stay proportional when concatenated. |
| BoxesLayout.RowStepArea | src/widgets/boxes.rs:100-106 | One step of the loop keeps every box's area proportional to its size over the remaining size. This holds for the child's slice and for what is left. |
| BoxesLayout.ShareOf | src/widgets/boxes.rs:101 | For 0 < n <= d the quotient is a real share q with q·d = n. |
| BoxesLayout.RowLayout | src/widgets/boxes.rs:100-106 | One pass of the loop: the first child is laid out in its slice, and the rest of the row in what remains, with the remaining size reduced by the child's size. |
| BoxesLayout.LeftHalfArea | src/widgets/boxes.rs:101-103 | A child's slice has area share·A. |
| BoxesLayout.RightHalfArea | src/widgets/boxes.rs:101-104 | What remains after the slice has area (1 − share)·A. |
| BoxesLayout.RowShareStep | src/widgets/boxes.rs:100-106 | Proportional boxes in the slice and in the remaining area give proportional boxes for the whole row. |
| BoxesLayout.RowAreaStep | src/widgets/boxes.rs:100-106 | The same, stated with the areas of the two halves. |
| BoxesLayout.ConcatProportional | src/widgets/boxes.rs:100-106 | Proportionality carries through the concatenation of the two parts of a row. |
| BoxesLayout.LayoutArea | src/widgets/boxes.rs:95-116 | For an aggregated tree with positive sizes, every box has area bounds.area × leaf.size / root.size. |
| BoxesLayout.LayoutRowArea | src/widgets/boxes.rs:98-106 | The same for the loop over the children, relative to their total size. |
| BoxesLayout.LeavesSum | src/widgets/boxes.rs:95-116 | In an aggregated tree the leaves' sizes add up to the root's size. |
| BoxesLayout.LeavesOfSum | src/widgets/boxes.rs:100-106 | The same for the leaves of a list of children. |
| BoxesLayout.ProportionalTail | src/widgets/boxes.rs:100-106 | Dropping the first box keeps the others proportional. |
| BoxesLayout.DescribesTail | src/widgets/boxes.rs:100-106 | Dropping the first box and the first leaf keeps the description. |
| BoxesLayout.AddShares | src/widgets/boxes.rs:100-106 | A real-arithmetic proof step of `ProportionalTotal`: two areas proportional to two sizes add up to an area proportional to the sum of the sizes. |
| BoxesLayout.ProportionalTotal | src/widgets/boxes.rs:95-116 | The boxes' areas add up to area × (sum of leaf sizes) / total. |
| BoxesLayout.Cancel | src/widgets/boxes.rs:101 | A real-arithmetic proof step of `SharesCover`, `LastChildTakesRest` and `EmptyDirGetsNaN`: equal multiples of a positive size are equal. |
| BoxesLayout.LayoutCoversBounds | src/widgets/boxes.rs:95-116 | For an aggregated tree with positive sizes, the boxes' areas add up to the area of the bounds. |
| BoxesLayout.SharesCover | src/widgets/boxes.rs:95-116 | Proportional boxes whose leaves make up the whole total cover the whole area. |
| BoxesLayout.LastChildTakesRest | src/widgets/boxes.rs:100-105 | A row's final child, reached with the remaining size equal to its own size, gets ratio 1 and all of the remaining area. What is left has area 0. In a row started at its children's total, the remaining size on reaching a child is the sum of that child's size and the sizes after it (`RowLayout`). So the last child is always reached this way. |
| BoxesLayout.ZeroRowNaN | src/widgets/boxes.rs:101-103 | Children laid out when the remaining size is already 0 get ratio 0/0 = NaN, which passes the range check. So the layout does not panic, and every box it gives them is a NaN rectangle. |
| BoxesLayout.EmptyDirGetsNaN | src/widgets/boxes.rs:101-113 | A directory holding a 10-byte file and an empty subdirectory: the file gets the whole bounds, and the empty subdirectory gets a NaN box. |
| BoxesLayout.EmptyLastGetsNaN | src/widgets/boxes.rs:101-113 | A size-0 child reached with 0 remaining gets a NaN box. |
| BoxesLayout.ScannedLayoutTotal | src/widgets/boxes.rs:95-116 | Laying out any tree `visit_dirs` returns never panics. |
| BoxesLayout.ScannedLayoutTiles | src/widgets/boxes.rs:95-116 | If no directory beneath the scanned root is empty, its layout in well-formed bounds gives finite, proportional, non-overlapping boxes inside the bounds. Their areas add up to the bounds' area. |
| Widget.Relayout | src/widgets/boxes.rs:172-176 | Definition: the boxes rebuilt from empty for the data's node at a size. There are none without a node. With a node, they are the node's layout in the rectangle of that size at the origin. |
| Widget.Resized | src/widgets/boxes.rs:156-161 | Definition: the resize handler. With a node it drops the cached picture and sets the boxes to the node's layout at the new size. Without a node the fields stay as they were. |
| Widget.Painted | src/widgets/boxes.rs:196-213 | Definition: the paint handler. It shows the cached picture if there is one. Otherwise it shows the boxes and caches that picture. |
| Widget.NodeChangedAsWritten | src/widgets/boxes.rs:170 | Definition: `old_data.node != data.node` as Rust evaluates it. Two absent nodes are unchanged, and one absent and one present node are changed. Two present nodes are changed only when their sizes differ, by `Node::eq`. |
| Widget.UpdatedAsWritten | src/widgets/boxes.rs:169-179 | Definition: the update handler as written. When that test reports a change, it sets the boxes to the new node's layout at the current size, or to none without a node. The cached picture is kept. |
| Widget.Updated | src/widgets/boxes.rs:169-179 | Definition: the update handler as evidently intended. It relays out whenever the node differs structurally and drops the cached picture as the resize handler does. |
| Widget.ResizedLaysOut | src/widgets/boxes.rs:156-161 | A resize without a node changes nothing. With a node it panics exactly when the layout does. Otherwise the boxes are exactly the node's layout at the new size, and there is no cached picture. |
| Widget.PaintedShowsBoxes | src/widgets/boxes.rs:196-213 | With no picture, or one that shows the boxes, `paint` shows the boxes and caches them. A second paint shows the same picture. |
| Widget.UpdatedLaysOut | src/widgets/boxes.rs:169-179 | The intended update leaves an unchanged tree alone. A changed tree panics exactly when its layout does. Otherwise the boxes are the new tree's layout at the current size, or none without a tree. No stale picture remains. |
| Widget.Tracks | src/widgets/boxes.rs:156-213 | Definition: the in-step invariant. The cached picture, if any, shows the boxes, and the boxes are the layout of the data's node at the widget's current size. |
| Widget.Step | src/widgets/boxes.rs:156-213 | Definition: druid delivering one event. A new size runs the resize handler `lifecycle(LifeCycle::Size)` and records the size. New data runs the intended update at the current size and records the node. A repaint runs `paint`. |
| Widget.StepAsWritten | src/widgets/boxes.rs:156-213 | Definition: the same, with the update as written. |
| Widget.Run | src/widgets/boxes.rs:156-213 | Definition: the events of a sequence in turn, stopping at the first panic. `RunAsWritten` does the same with `StepAsWritten`. |
| Widget.StartTracks | src/main.rs:176-177 | The widget built without data is in step with it. |
| Widget.StepTracks | src/widgets/boxes.rs:156-213 | Each of resize, intended update and paint keeps the widget in step with the data: the picture shows the boxes, and the boxes are the data's layout at the current size. |
| Widget.RunTracks | src/widgets/boxes.rs:156-213 | Any sequence of those events that does not panic keeps the widget in step. |
| Widget.RepaintShowsData | src/widgets/boxes.rs:196-213 | In step, a paint shows exactly the data's layout at the current size. |
| Widget.OneFileScanned | src/scanning.rs:52-101 | A directory holding one 5-byte file scans to a size-5 node with that file as its only leaf. Its layout is one box covering the whole bounds. |
| Widget.StalePictureAsWritten | src/widgets/boxes.rs:170-178 | Start without data, paint once, then receive the scanned tree of a directory holding one 5-byte file. With the update as written, the next paint still shows the empty picture instead of the tree's box. |
| Widget.FreshPictureIntended | src/widgets/boxes.rs:170-178 | With the intended update, the same events end in a paint that shows the tree's one box. |
| Widget.StaleBoxesAsWritten | src/widgets/boxes.rs:170 | The scanned trees of two directories, each holding one 5-byte file under a different name, compare equal under the size-only `!=`. The update as written keeps the old boxes, which no longer describe the data. |
| Widget.Boxes.constructor | src/main.rs:177 | A new widget has no boxes and no cached picture. |
| Widget.Boxes.FooRect | src/widgets/boxes.rs:95-116 | Panics exactly when `Layout` does. Otherwise it appends exactly `Layout(root, bounds)` to the boxes and leaves the earlier boxes unchanged. |
| Widget.Boxes.OnSize | src/widgets/boxes.rs:156-161 | The fields afterwards are exactly `Resized` of the fields before. |
| Widget.Boxes.Update | src/widgets/boxes.rs:169-179 | The fields afterwards are exactly the intended `Updated` of the fields before. |
| Widget.Boxes.Paint | src/widgets/boxes.rs:196-213 | Returns the picture `Painted` shows, and the cached picture becomes what `Painted` leaves. |

## Left out

- File-system access is not modelled: `read_dir`, `symlink_metadata`, `st_size`, and the I/O errors `?` propagates. The listing is an input `Entry` tree, and an I/O failure is not representable.
- The `to_str().unwrap()` of a path is not modelled. Paths are strings.
- The `println!` diagnostics are not modelled: the change message in `update` and the listing in `scan`.
- Rendering is not modelled:
  - the colours of `color_for_path`, which depend on an unspecified hash;
  - the magenta background;
  - the white overlay for the selected file;
  - the pixels of the saved image and the `unwrap` of `save_image`.
  
  A cached picture is represented by the boxes it was painted from.
- Mouse hit-testing, `selected_file`, the clipboard write, and the `request_paint` calls are not modelled. They rely on druid's `Rect::contains` and on its event scheduling.
- `layout` (which returns the maximum size), the dialog and `ManagerWidget` are not modelled. Of `src/main.rs`, only the widget's initial fields are modelled.
- f64 rounding is not modelled. Arithmetic is exact over `real`. So shared cut lines, proportional areas and exact coverage hold only in that idealisation.
- NaN is kept as a value: `Ratio.NaN`, and `NaNRegion` for a rectangle with a NaN coordinate. Which coordinates are NaN is not tracked, because every later use of such a rectangle is NaN as well.
- Signed zero of the f64 aspect ratio (a width of −0.0) is not modelled.
- u64 overflow of `size +=` is not modelled. Sizes are `nat`.
- `remaining_size -= c.size` cannot underflow in the model. `divide_rect` has already panicked whenever `c.size > remaining_size`.
- The standard library's stable sort is modelled by insertion sort. Both are stable sorts, so they produce the same order.
- A root that is a symbolic link to a directory is not modelled. `is_dir` follows links, so the source scans such a root, but an `Entry` cannot be a link to a directory.
- Scanning.Scan: the panic of `visit_dirs` on a non-directory root and the `unwrap` panic in `scan` are both `Panic`; they are not told apart.
- Widget.Boxes.Update: models the corrected update (see Findings). The as-written update is `Widget.UpdatedAsWritten`.
- Widget.Boxes.Update: it takes the current size as a parameter, in place of `ctx.size()`.

## Findings

| source | as written | input that shows it | evidently intended | confidence | as-written member | corrected member |
|---|---|---|---|---|---|---|
| src/widgets/boxes.rs:170-178 | `update` rebuilds `boxes` but leaves `cached_image`, and `paint` draws the cached picture whenever there is one (boxes.rs:200-201). | Start without a command-line directory. The window paints and caches the empty picture. Then the chosen directory's tree arrives. The next paint shows the old picture, not the new boxes, until the window is resized. | Drop the cached picture together with the boxes, as the resize handler does (boxes.rs:158). | medium, not executed | Widget.StalePictureAsWritten | Widget.FreshPictureIntended |
| src/widgets/boxes.rs:170 | The change test `old_data.node != data.node` uses `Node`'s `PartialEq`, which compares sizes only (scanning.rs:44-48). | A new tree of the same total size as the old one, e.g. the scan of a directory holding one 5-byte file `d/a` replaced by that of one holding a 5-byte file `d/b`, counts as unchanged, so the old boxes stay. The application's own Reset and dialog flow always passes through no data, so this needs a direct replacement. | Relayout whenever the tree differs. | low, not executed | Widget.StaleBoxesAsWritten | Widget.UpdatedLaysOut |
