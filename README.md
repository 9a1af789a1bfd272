# Box geometry and symbol selection, modelled in Dafny

This project models the core of `utils/utils.py`, a small image-analysis helper.
It finds integer axis-aligned bounding boxes `(x1, y1, x2, y2)` around coloured regions,
cleans them up, and picks the closest reference symbol for a cropped image.

The model covers these parts:

- **Geometry** (`geometry.dfy`): closed containment `is_contained`.
  Also the corner-only, asymmetric overlap test `are_overlapping`: the top-left or bottom-right corner of the second box lies in the first.
  The merged box of a pair is the component-wise min of the top-left corners and max of the bottom-right corners.
- **Nested-box filter** (`nested.dfy`): `remove_nested_boxes` drops the box at index `i` when the box at some other index `j != i` contains it.
  The test compares indices, not values, so equal boxes at two indices remove each other.
  The method keeps the loop with `append` and the short-circuiting `any` scan.
  It is proved equal to the specification function `RemoveNested`.
- **Merger** (`merge.dfy`): `merge_overlapping_boxes`.
  One pass is the function `Pass`, built index by index (`Step`, `PassUpTo`) exactly as the nested loops update the two sets.
  At each index, `box_a` takes its first later overlapping partner (the `break`), and both are marked by value.
  The union joins the next generation.
  An unmerged `box_a` is carried forward only if its value is not marked yet.
  `MergePass` is the loop, proved equal to `Pass`.
  `ListOf` stands for `list(new_boxes)`: it returns some duplicate-free listing of the set, in an order left open.
  `MergeOverlappingBoxes` is the `while True` loop.
  Its ghost result lists the generations it goes through.
  The relation `IsMergeRun` says what any run of the loop returns, whatever order each `list(...)` takes.
  The loop ends because a pass that merges anything strictly shrinks the list (`PassShrinks`).
- **Box finder after contour extraction** (`find_boxes.dfy`): contour rectangles `(x, y, w, h)`, in contour order, become `(x, y, x + w, y + h)`.
  A rectangle is kept when both `w` and `h` lie in `[min_size, max_size]`.
  Then nested removal runs if asked, then merging if asked, in that order.
- **Symbol selection** (`classify.dfy`): `classify_symbol` over abstract images and masks.
  The distance is a parameter.
  Each label scores the minimum distance over its variants, starting from infinity.
  The answer is the first label, in dictionary order, with the minimal score.

`wrappers.dfy` holds `Option`, and `seqset.dfy` holds the set of values of a list and duplicate-free lists.

Merging is not idempotent, although a fixpoint loop might suggest it is.
`MergeNotIdempotent` shows one case.
`[(0,0,10,10), (-5,-5,20,20)]` comes back unmerged, because neither box has a corner of the other in the order it is scanned.
A run may list the result in the reverse order.
Merging that list again fuses the two boxes into `(-5,-5,20,20)`.
The model follows the code here.

## Model

| member | source | states |
|---|---|---|
| `Geometry.ContainedReflexive` | utils/utils.py:6-9 | every box contains itself |
| `Geometry.ContainedTransitive` | utils/utils.py:6-9 | containment is transitive |
| `Geometry.ContainedAntisymmetric` | utils/utils.py:6-9 | two boxes containing each other are equal |
| `Geometry.StrictlyInside` | utils/utils.py:6-9 | a box strictly inside another is contained in it and does not contain it |
| `Geometry.ContainedImpliesOverlapping` | utils/utils.py:6-15 | a well-formed box contained in `a` passes the overlap test against `a` |
| `Geometry.OverlappingNotSymmetric` | utils/utils.py:12-15 | the overlap test holds one way and fails the other for a box inside a larger one |
| `Geometry.CornerTestMissesCrossing` | utils/utils.py:12-15 | two crossing bars intersect, yet the corner test fails in both directions |
| `Geometry.OverlappingImpliesIntersect` | utils/utils.py:12-15 | when the corner test holds between well-formed boxes, they truly intersect |
| `Geometry.Union` | utils/utils.py:41 | the merged box contains both boxes, lies inside every box that contains both, and is well-formed when both are |
| `NestedFilter.RemoveNestedSelects` | utils/utils.py:18-23 | the output is the input boxes at increasing indices `i`, and `i` is kept exactly when no `j != i` contains box `i` |
| `NestedFilter.KeptIndicesMembers` | utils/utils.py:20-22 | among the first k indices, an index is selected exactly when no other index contains its box |
| `NestedFilter.RemoveNestedEmpty` | utils/utils.py:18-23 | empty input gives empty output |
| `NestedFilter.DuplicatesRemoved` | utils/utils.py:21 | a box value present at two indices does not appear in the output at all |
| `NestedFilter.RemoveNestedDuplicateExample` | utils/utils.py:21 | `[b, b]` filters to `[]` |
| `NestedFilter.RemoveNestedExample` | utils/utils.py:18-23 | `[(0,0,10,10), (2,2,5,5)]` filters to `[(0,0,10,10)]` |
| `NestedFilter.NoNestingInOutput` | utils/utils.py:18-23 | no output box contains the box at another output index |
| `NestedFilter.RemoveNestedIdempotent` | utils/utils.py:18-23 | filtering the output again changes nothing |
| `NestedFilter.RemoveNestedBoxes` | utils/utils.py:18-23 | the append loop with its `any` scan returns exactly `RemoveNested(boxes)` |
| `Merge.FirstPartner` | utils/utils.py:34-42 | the index found is the first `q >= j` whose box passes the overlap test against box `i`; none means no such `q` |
| `Merge.PassMonotone` | utils/utils.py:29-45 | during a pass, the next generation and the marked set only grow |
| `Merge.PassUpToSize` | utils/utils.py:32-45 | after `i` indices, the next generation has at most `i` boxes |
| `Merge.PassUpToSizeIdle` | utils/utils.py:32-45 | once an index that adds nothing has been scanned, the next generation is at least one box short of the indices scanned |
| `Merge.LastPartnered` | utils/utils.py:32-42 | the largest index below `i` that found a partner: every later index found none |
| `Merge.MarkedNeedsPartner` | utils/utils.py:37-39 | a non-empty marked set means some index found a partner |
| `Merge.PassShrinks` | utils/utils.py:28-49 | a pass that marks anything yields strictly fewer boxes than the list it scanned, so the loop terminates |
| `Merge.PassSize` | utils/utils.py:29-46 | a pass never yields more boxes than the list it scanned |
| `Merge.PassUpToCovers` | utils/utils.py:32-45 | every box scanned so far, and every marked box, lies inside some box of the next generation |
| `Merge.PassCovers` | utils/utils.py:29-46 | every box of the current list lies inside some box of the next generation |
| `Merge.PassUpToQuiet` | utils/utils.py:32-45 | while nothing is marked, every scanned box is carried forward and no scanned index has found a partner |
| `Merge.PassQuiet` | utils/utils.py:44-49 | a pass that marks nothing yields the set of its list, and no pair `i < j` of that list overlaps in the order scanned |
| `Merge.PassNonEmpty` | utils/utils.py:32-45 | a pass over a non-empty list yields a non-empty generation |
| `Merge.PassWellFormed` | utils/utils.py:41-45 | a pass over well-formed boxes yields well-formed boxes |
| `Merge.MergePass` | utils/utils.py:29-45 | the nested loops with `break` compute exactly `Pass(boxes)` |
| `Merge.ListOf` | utils/utils.py:46 | `list(s)` holds every value of the set exactly once |
| `Merge.MergeOverlappingBoxes` | utils/utils.py:27-50 | the loop's run satisfies `IsMergeRun`. The result is duplicate-free, empty exactly when the input is, and contains every input box in some returned box |
| `Merge.MergeRunProperties` | utils/utils.py:27-50 | every run returns a duplicate-free list no longer than its input, empty exactly when the input is, containing each input box in some returned box, and well-formed when the input is. As a set it equals the list the last pass scanned, in which no pair `i < j` overlapped |
| `Merge.MergeExampleOverlap` | utils/utils.py:27-50 | `[(0,0,5,5), (3,3,8,8)]` merges to `[(0,0,8,8)]` |
| `Merge.MergeExampleApart` | utils/utils.py:27-50 | `[(0,0,5,5), (10,10,15,15)]` comes back as the same two boxes in some order |
| `Merge.MergeNotIdempotent` | utils/utils.py:27-50 | one run leaves `[(0,0,10,10), (-5,-5,20,20)]` unmerged and reversed, and merging that list again yields `[(-5,-5,20,20)]` |
| `FindBoxes.ToBox` | utils/utils.py:74 | the corner box starts at `(x, y)` and has width `w` and height `h`; it is well-formed exactly when `w, h >= 0` |
| `FindBoxes.FitIndicesMembers` | utils/utils.py:71-74 | among the first k rectangles, an index is selected exactly when the rectangle fits the size bounds |
| `FindBoxes.SizeFilterKeepsExactly` | utils/utils.py:70-74 | the kept boxes are the corner boxes of the rectangles at increasing indices `i`, and `i` is kept exactly when `min_size <= w, h <= max_size` |
| `FindBoxes.SizeFilteredWellFormed` | utils/utils.py:70-74 | with `min_size >= 0` every kept box is well-formed |
| `FindBoxes.FilterBySize` | utils/utils.py:70-74 | the append loop returns exactly the size-filtered list |
| `FindBoxes.FindBoxes` | utils/utils.py:70-82 | the result is the size-filtered list, de-nested if asked, then merged by some run of the merge loop if asked. With `min_size >= 0` it is well-formed |
| `Classify.LessTotal` | utils/utils.py:128-129 | the order on scores, with infinity on top, is a strict total order |
| `Classify.MinScore` | utils/utils.py:128 | `min(score, current)` is one of the two and is not above either |
| `Classify.LabelScoreIsMinimum` | utils/utils.py:124-128 | a label's score is at most every variant's distance and equals one of them. It is infinity exactly when the label has no variants |
| `Classify.ClosestUnique` | utils/utils.py:129 | at most one label index is the first one with minimal score |
| `Classify.ZeroDistanceWins` | utils/utils.py:122-130 | with non-negative distances, a variant at distance 0 gives its label score 0, and the chosen label scores 0 |
| `Classify.ScoreVariants` | utils/utils.py:126-128 | the loop over a label's variants sets that label's entry to its best distance and changes no other entry |
| `Classify.ScoreLabels` | utils/utils.py:124-128 | the score table has exactly the labels as keys, and each entry is that label's best variant distance |
| `Classify.ClosestLabel` | utils/utils.py:129 | the result is the first label, in order, with minimal score, and none exactly when there are no labels |
| `Classify.ClassifySymbol` | utils/utils.py:122-130 | returns the full score table and the first label of minimal score; with no labels, no label |

## Left out

- Colour-mask thresholding (utils/utils.py:56-64): floating-point norms over pixel arrays; not modelled.
- Contour finding and bounding rectangles (utils/utils.py:67, 72): calls into an external imaging library. Their output is taken as the input sequence of `Rect`s.
- Drawing, in `find_boxes` (utils/utils.py:85-87) and in `draw_boxes` (utils/utils.py:92-96): side effects on a canvas only.
- `normalize_greyscale`, `load_mask`, `load_masks` (utils/utils.py:99-108): file input and image conversion. The candidate image passed to `ClassifySymbol` stands for the already normalised one.
- `distance_to_mask` (utils/utils.py:112-118): bilinear resampling and an L2 norm. It is the uninterpreted parameter `dist`, with real values.
- Classify.ClassifySymbol: scores are exact reals with an added infinity, not IEEE floats. NaN and rounding are not modelled.
- Classify.ClassifySymbol: with no labels the source raises `ValueError` from `min`. The model returns `None`.
- FindBoxes.FindBoxes: `max_size` defaults to floating-point infinity in the source. It is modelled as an optional integer bound, with `None` for no bound. `min_size` is an integer.
- Merge.MergeOverlappingBoxes: the order in which `list(set)` lists the boxes is left open, so the contract holds for every order. The concrete order Python picks is not modelled.
- Boxes are values. The source hashes them, so a first call with lists instead of tuples would fail. That case is not modelled.
- The nested loops of `classify_symbol` are split into two methods, `ScoreLabels` over the labels and `ScoreVariants` over one label's variants. Each still updates the score map entry by entry.
