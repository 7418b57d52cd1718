# Recursive coordinate bisection of a Cijk tensor

This project models the integer logic of the Stokhos example
`cijk_partition_rcp.cpp`. The example partitions the nonzero entries
(i, j, k) of a sparse triple-product tensor into geometric tiles. The model covers:

- **Points.** `CijkData` records carry a gid and the index triple, and
  `operator()(d)` selects i, j or k.
- **The in-house RCB partitioner.** A `Box` holds a copy of its points. On
  construction it computes its bounding box, its extents and the axis of
  strictly largest extent, or x when no extent is strictly largest (so a
  y/z tie above x picks x, the narrowest axis). `split` sorts the points
  on that axis. It then cuts them just before the last element of the
  run of equal keys that starts at the median: the right half starts with
  the run's last element, and when that run has more than one element,
  the left half ends inside it. `partition` keeps a LIFO worklist of
  boxes that are longer than `max_length` on some axis. It pops the last
  box, splits it and pushes its halves that are still too big, until the
  worklist is empty or `max_parts` parts exist. The model records the
  boxes as a tree: every box ever built is the root or a half of a box
  that was split.
- **Zoltan callbacks.** `get_object_list` numbers the objects 0..n-1.
  `get_geometry_list` writes every entry's (i, j, k) into a stride-3
  buffer in enumeration order.
- **Bookkeeping in `main`.**
  - The number of parts is the rounded-up quotient of basis size by tile
    size.
  - The part list puts entry idx, tagged with gid idx, into the part the
    partitioner chose for it.
  - The per-part extent statistics are a running minimum from basis_size
    and a running maximum from -1 over the three extents of every part.
    With no parts they stay at basis_size and -1. An empty part has
    extent -1 - basis_size on every axis, so it shows up as a negative
    minimum. The maximum bounds every extent and is one of them unless it
    is -1; when every part is empty it stays -1, above every extent.

Modules:

- `Extents` (extents.dfy): the running-minimum and running-maximum
  accumulators that every bounding-box loop of the program computes, with
  their lemmas.
- `CijkTypes` (cijk_types.dfy): `Entry`, `CijkData`, the coordinate
  accessor, and the bounds predicate `IsBounds`.
- `RecursiveBisection` (rcb.dfy): the `Box` and `Rcb` classes, the sort,
  the cut, and the partition loop.
- `CoordPart` (coord_part.dfy): the object-list and geometry-list
  callbacks.
- `PartList` (part_list.dfy): the number of parts, the part list and the
  extent statistics.

The tensor is modelled as the sequence of its entries, `seq<Entry>`, in
the order the program's nested k/j/i iterators enumerate them. The
partitioner's answer `exportToPart` is an input sequence.

## Model

| member | source | states |
|---|---|---|
| CijkTypes.CijkData.Coord | packages/stokhos/example/cijk_partition_rcp.cpp:182-187 | axis 0, 1, 2 gives i, j, k; any other axis gives -1 |
| CijkTypes.RunningBoundsAreTight | packages/stokhos/example/cijk_partition_rcp.cpp:86-99 | bounds accumulated from starting values that the first point already reaches are the least and greatest coordinate: every point lies between them and both are attained |
| CijkTypes.BoundsUnderPermutation | packages/stokhos/example/cijk_partition_rcp.cpp:115-116 | reordering the points keeps the least and greatest coordinate on every axis |
| CijkTypes.BoundsAreUnique | packages/stokhos/example/cijk_partition_rcp.cpp:85-103 | the least and greatest coordinate of a point set are determined by the set |
| Extents.MinOfIsLowerBound | packages/stokhos/example/cijk_partition_rcp.cpp:93-95 | the accumulated minimum lies below its start and below every value |
| Extents.MinOfIsAttained | packages/stokhos/example/cijk_partition_rcp.cpp:93-95 | the accumulated minimum is its start or one of the values |
| Extents.MaxOfIsUpperBound | packages/stokhos/example/cijk_partition_rcp.cpp:96-98 | the accumulated maximum lies above its start and above every value |
| Extents.MaxOfIsAttained | packages/stokhos/example/cijk_partition_rcp.cpp:96-98 | the accumulated maximum is its start or one of the values |
| Extents.MinOfAppend | packages/stokhos/example/cijk_partition_rcp.cpp:503-505 | accumulating over one sequence and then another is accumulating over their concatenation |
| Extents.MaxOfAppend | packages/stokhos/example/cijk_partition_rcp.cpp:506-508 | accumulating over one sequence and then another is accumulating over their concatenation |
| RecursiveBisection.ComputeBoundingBox | packages/stokhos/example/cijk_partition_rcp.cpp:85-99 | the six bounds are the running minimum and maximum of each axis started at the first point, and min <= max on every axis |
| RecursiveBisection.TightIsBounds | packages/stokhos/example/cijk_partition_rcp.cpp:85-103 | those bounds contain every point and are attained by some point, so each extent is >= 0 |
| RecursiveBisection.TightUnderPermutation | packages/stokhos/example/cijk_partition_rcp.cpp:113-116 | after the points are reordered the stored bounds are still the running bounds of the reordered points |
| RecursiveBisection.DescribesUnderPermutation | packages/stokhos/example/cijk_partition_rcp.cpp:113-116 | after sorting, the box's bounds, extents and axis still describe its points |
| RecursiveBisection.SplittingDimension | packages/stokhos/example/cijk_partition_rcp.cpp:106-110 | the axis is in {0, 1, 2}; it is 1 exactly when delta_y strictly exceeds both others, 2 exactly when delta_z does, and 0 otherwise |
| RecursiveBisection.ComputeSplittingDimension | packages/stokhos/example/cijk_partition_rcp.cpp:106-110 | the three statements choose the axis SplittingDimension defines |
| RecursiveBisection.SplittingDimensionIsWidest | packages/stokhos/example/cijk_partition_rcp.cpp:106-110 | unless y and z tie above x, the chosen axis has the largest extent |
| RecursiveBisection.SplittingDimensionTieGoesToX | packages/stokhos/example/cijk_partition_rcp.cpp:108-109 | when y and z tie above x, axis 0 is chosen although it is the narrowest |
| RecursiveBisection.SortOnAxis | packages/stokhos/example/cijk_partition_rcp.cpp:115-116 | afterwards the points are non-decreasing on the axis and are a permutation of the points before |
| RecursiveBisection.Insert | packages/stokhos/example/cijk_partition_rcp.cpp:116 | one insertion step extends the sorted prefix by one point and permutes the array |
| RecursiveBisection.CutFrom | packages/stokhos/example/cijk_partition_rcp.cpp:122 | the scan stops at the first position at or after its start that is the last one or whose key differs from the next key, and every key it passes equals the start key |
| RecursiveBisection.CutOf | packages/stokhos/example/cijk_partition_rcp.cpp:120-122 | n/2 <= s <= n-1; s = n-1 or key[s] != key[s+1]; keys in [n/2..s] are equal; s = 0 exactly when n = 1 |
| RecursiveBisection.FindCut | packages/stokhos/example/cijk_partition_rcp.cpp:120-122 | the while loop stops at the index CutOf gives |
| RecursiveBisection.EqualKeysMayStraddleCut | packages/stokhos/example/cijk_partition_rcp.cpp:118-122 | equal keys are not always kept together: for keys 0, 1, 1, 1 the cut falls between two 1s |
| RecursiveBisection.Box.constructor | packages/stokhos/example/cijk_partition_rcp.cpp:79-82 | the box owns a fresh copy of the points; its bounds are their tight bounds; its extents are max-min and >= 0; its axis is SplittingDimension of the extents; it has no halves |
| RecursiveBisection.Box.Split | packages/stokhos/example/cijk_partition_rcp.cpp:113-127 | the points end up sorted on the box's axis and permuted; the box still describes them; the right half is a fresh box holding exactly coords[s..n); the left half is a fresh box holding exactly coords[0..s) when s > 0 and is left as it was when s = 0 |
| RecursiveBisection.Box.MakeHalves | packages/stokhos/example/cijk_partition_rcp.cpp:123-126 | each half built is a fresh, unsplit box over its slice whose bounds, extents and axis describe that slice |
| RecursiveBisection.Box.TooBig | packages/stokhos/example/cijk_partition_rcp.cpp:147-165 | a box is too big exactly when one of its three extents exceeds max_length |
| RecursiveBisection.WorklistStep | packages/stokhos/example/cijk_partition_rcp.cpp:154-166 | popping the last box, splitting it into new boxes and pushing exactly the new boxes that are too big keeps the bookkeeping: the worklist holds distinct known, unsplit, too-big boxes; split boxes are known and too big; every known too-big box is split or waiting |
| RecursiveBisection.ForestLinks | packages/stokhos/example/cijk_partition_rcp.cpp:123-126 | in the box tree, both halves of a split box, when present, are boxes of the tree |
| RecursiveBisection.InitialShape | packages/stokhos/example/cijk_partition_rcp.cpp:141-149 | the root alone, on the worklist exactly when it is too big, is a well-formed start for the loop |
| RecursiveBisection.Rcb.constructor | packages/stokhos/example/cijk_partition_rcp.cpp:132-133 | stores max_length and max_parts; there is no root yet |
| RecursiveBisection.Rcb.SplitBox | packages/stokhos/example/cijk_partition_rcp.cpp:155-165 | splits the box: its points are sorted and permuted, the right half holds coords[s..n) and the left half, present exactly when n > 1, holds coords[0..s); the halves are fresh and unsplit; exactly the halves that are too big are pushed, left before right |
| RecursiveBisection.Rcb.SplitLast | packages/stokhos/example/cijk_partition_rcp.cpp:153-166 | one round: the last box of the worklist is removed and split, and its too-big halves are appended, left before right; the ghost lists grow by the halves and by the split box; the loop's bookkeeping and tree shape are kept; the root's points stay a permutation |
| RecursiveBisection.Rcb.Partition | packages/stokhos/example/cijk_partition_rcp.cpp:139-167 | the root describes a permutation of the input; the boxes form a tree: they are the root followed by the halves of the split boxes in split order, every split box has a right half and every other box is unsplit; parts = 1 + number of splits and never passes max(max_parts, 1); the root is split only if too big and is split first; only too-big boxes are split; if the loop stops with parts < max_parts, every too-big box has been split |
| CoordPart.GetObjectList | packages/stokhos/example/cijk_partition_rcp.cpp:202-215 | object idx gets global and local id idx; the rest of both buffers is unchanged |
| CoordPart.GeometryLayout | packages/stokhos/example/cijk_partition_rcp.cpp:233-255 | the geometry buffer has 3 values per entry, with entry idx's i, j, k at 3*idx, 3*idx+1, 3*idx+2 |
| CoordPart.GetGeometryList | packages/stokhos/example/cijk_partition_rcp.cpp:225-256 | the first 3n positions hold the geometry buffer of the entries and the rest is unchanged |
| PartList.TruncDiv | packages/stokhos/example/cijk_partition_rcp.cpp:395 | C++ integer division, which truncates toward zero: the remainder a - q*b is zero or has the sign of a and is smaller than b in magnitude; for a >= 0 and b > 0 it is Euclidean division |
| PartList.NumParts | packages/stokhos/example/cijk_partition_rcp.cpp:395-396 | for tile_size > 0 and basis_size >= 0, num_parts >= 0, num_parts*tile_size >= basis_size and (num_parts-1)*tile_size < basis_size |
| PartList.BuildPartList | packages/stokhos/example/cijk_partition_rcp.cpp:464-485 | there are num_parts parts; part p is exactly the entries sent to p, tagged with their index, in enumeration order; the part sizes sum to the number of entries |
| PartList.EntriesReachTheirPart | packages/stokhos/example/cijk_partition_rcp.cpp:476-482 | entry idx, tagged with gid idx, is in part exportToPart[idx] |
| PartList.PartHoldsOnlyItsEntries | packages/stokhos/example/cijk_partition_rcp.cpp:476-482 | every record of part p is the entry its gid names, that gid is in range, and that entry was sent to p |
| PartList.GidsIncreaseWithinPart | packages/stokhos/example/cijk_partition_rcp.cpp:465-483 | gids strictly increase within each part |
| PartList.PartListMatchesGeometry | packages/stokhos/example/cijk_partition_rcp.cpp:478-481 | a record with gid idx has the coordinates the geometry buffer stores at 3*idx..3*idx+2 |
| PartList.PartBounds | packages/stokhos/example/cijk_partition_rcp.cpp:490-499 | the per-part bounds are the running minima from basis_size and maxima from -1 of i, j and k |
| PartList.Widen | packages/stokhos/example/cijk_partition_rcp.cpp:503-508 | the six comparisons advance the running minimum and maximum over the three extents |
| PartList.AccumulatePart | packages/stokhos/example/cijk_partition_rcp.cpp:500-508 | one more part continues the running minimum and maximum over all extents by that part's three extents |
| PartList.PartExtentStats | packages/stokhos/example/cijk_partition_rcp.cpp:488-509 | dim_min and dim_max are the running minimum from basis_size and maximum from -1 over the three extents of every part |
| PartList.ExtentOfNonEmptyPart | packages/stokhos/example/cijk_partition_rcp.cpp:490-502 | for a non-empty part with coordinates in [0, basis_size) the bounds are tight and 0 <= extent < basis_size |
| PartList.ExtentSign | packages/stokhos/example/cijk_partition_rcp.cpp:490-502 | an extent is -1 - basis_size for an empty part and lies in [0, basis_size) otherwise |
| PartList.DimMinDetectsEmptyPart | packages/stokhos/example/cijk_partition_rcp.cpp:488-509 | dim_min < 0 exactly when some part is empty, and then dim_min = -1 - basis_size; otherwise dim_min <= basis_size |
| PartList.DimMaxIsLargestExtent | packages/stokhos/example/cijk_partition_rcp.cpp:488-509 | dim_max bounds every extent, is attained by one unless it is -1, and lies in [-1, basis_size) |

## Left out

- Zoltan is not part of this model: its initialisation, parameters, partitioning call and clean-up are a foreign library over an MPI communicator. The partition it returns is the input `exportToPart`.
- Command-line parsing and the construction of the basis and the tensor are not part of this model: they are wrappers over Teuchos and Stokhos classes. The tensor is given as its enumeration sequence of (i, j, k) entries, which stands in for the nested k/j/i iterators.
- Writing the tensor file and the console output are left out, because they are I/O only.
- `get_number_of_objects` and `get_num_geometry` are left out: one returns the tensor's entry count, which a foreign class computes, and the other returns the constant 3.
- The geometry buffer holds `double` values in the source. The model stores the integer coordinates, which a double represents exactly.
- The RCB class template is never instantiated in the program. The model specialises it to CijkData with `int` coordinates, the tuple type the program's own data structure provides.
- Integers are unbounded. The 32-bit `int` of the source could wrap in `num_parts * tile_size` and in the extent differences for extreme inputs, and the model does not represent that.
- `std::sort` is not stable and its order among equal keys is unspecified. The model sorts with an insertion sort and promises only what `std::sort` promises: sorted on the axis and a permutation.
- The four source defects are modelled as evidently intended:
  - the comparator lacks `()` in `operator()`;
  - `split` names both a field and a method, so the field is `dim`;
  - `box.split()` is called on a reference-counted pointer;
  - `pop_back()` is used as if it returned the element, so the model takes the last box and then removes it.
- The bounding box is computed on local variables and stored once. The box's bounds, extents, axis and point array are set only while a box is built, so they are constants of the class; only `left`, `right` and the point order change later.
- RecursiveBisection.Rcb.Partition: the source dereferences the first point of the root, so the model requires at least one point. The contract states that the boxes form a tree. It does not state that the leaves of that tree partition the input points, nor that every box other than the root still describes its own points. Both would need a loop invariant that every box's point array differs from every other box's, a quadratic invariant whose proof cost the model does not take on.
- RecursiveBisection.Rcb.Partition: `parts` is a local variable in the source. The model returns it, together with ghost lists of the boxes created and the boxes split, so that the contract can speak of them.
- RecursiveBisection.Box.Split: its contract does not repeat that the halves describe their own points. Box.MakeHalves and the Box constructor state that.
- PartList.NumParts: the model requires tileSize != 0, because line 395 of `cijk_partition_rcp.cpp` divides by the tile size and a zero tile size is undefined behaviour there.
- PartList.BuildPartList: the model requires every part index Zoltan reports to lie in [0, numParts). The source indexes `part_list` with it, unchecked, at lines 478-481 of `cijk_partition_rcp.cpp`.
