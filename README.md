# A verified model of the Load_Optimizer packing engine

This project models `PackingOptimizer`, the engine that packs boxes and
custom voxel shapes into one container. `optimizer.py` holds the engine.
`3dAlgorithm.py` holds the same engine with comments added and different
sample quantities in its driver, so one model covers both files.

The engine works on an occupancy grid of 5-unit cells. The grid's axes are
(width, depth, height). Each extent is the container's length floor-divided
by 5.

How the engine handles items:

- An item's orientations are computed first.
  - A box yields one all-ones mask per distinct permutation of its size that
    fits the container.
  - A custom 0/1 mask yields its quarter turns about three axis pairs. Each
    turn is trimmed of empty slices. Turns are de-duplicated by their
    flattened cells, and each must fit the container.
- `find_best_position` tries every orientation, then every height, width
  and depth offset, in that order. A placement is admissible when it fits
  (in bounds and overlapping nothing) and is supported. Supported means it
  sits on the floor, or at least 30 % of its bottom layer rests on occupied
  cells.
- The lowest admissible placement wins. Ties go to the larger contact
  score, then to the first one found.
- `place_item` adds the mask to the grid. It records the bounding box of
  the mask's filled voxels and adds the item's weight.
- `pack` does the following:
  - it sorts the backlog stably by decreasing volume, footprint and weight;
  - it skips any item that would exceed the weight cap;
  - it places each remaining item at its best position, or counts the item
    as failed;
  - it reports utilisation as placed volume over container volume times 100.

The modules:

- `masks.dfy` (`Masks`) covers voxel masks, their volume, `_trim_shape`,
  the three quarter turns of `rot90`, flattening and the sample L-shape.
- `cargo.dfy` (`Cargo`) covers items, the container, grid-cell conversion,
  `check_dimensions` and `check_shape_dimensions`.
- `orientations.dfy` (`Rotations`) covers `_get_axes` and
  `get_possible_rotations`. The latter is a specification function
  (`Orientations`) and also a loop (`GetPossibleRotations`) proved equal to
  it.
- `space.dfy` (`Space`) covers the read-only grid queries: `check_fit`,
  `has_support`, `check_stability` and `_calculate_contact`. It also covers
  the grid update of `place_item`.
- `search.dfy` (`Search`) covers the nested loops of `find_best_position`.
  They are proved to return the unique best admissible candidate.
- `backlog.dfy` (`Backlog`) covers the copies made by `add_item` and the
  stable sort of `pack`.
- `ledger.dfy` (`Ledger`) covers records, bounding boxes, the history of
  placements, the accounting of `pack`'s loop and how each placement was
  chosen by the search.
- `run.dfy` (`Run`) records what became of each entry of `pack`'s loop.
  `Ran` holds one outcome per entry, taken in order. An outcome is either
  a failure (`FailedAt`) or a placement at the search's best candidate
  (`PlacedAt`). Each outcome is judged on the weight and the grid of the
  entry's turn. The placements after the loop are exactly the placed
  entries' placements, in order. `Failures` says the failure counts are
  exactly the failed entries, name by name.
- `optimizer.dfy` (`Optimizer`) holds the class `PackingOptimizer`. The
  grid is an `array3<int>` field. The class's invariant says three things:
  - the grid is the empty grid with every placement stamped on in order;
  - each placement fitted when it was placed;
  - the records and the weight describe those placements.

The entities:

- `Cargo.Item` mirrors the `Item` dataclass (optimizer.py:11-20): name,
  width, height, depth, weight, quantity, the rotatable flag and an
  optional 0/1 mask.
- `Cargo.Container` mirrors the `Container` dataclass (optimizer.py:22-27):
  width, height, depth and the weight cap.
- `Ledger.Record` is one entry of `packed_items` (optimizer.py:251-257):
  the name, the position and size of the bounding box in length units, and
  the weight. The random colour is left out. `Ledger.DescribedAt` pins each
  record to its placement.
- `Ledger.Placement` is the ghost history behind each record: the item, the
  orientation placed and the grid position.

Two conventions:

- Lengths and weights are `real`.
- A mask has axes (height, width, depth). Mask voxel [k][i][j] lands on grid
  cell (x + i, y + j, z + k), which is what the engine's
  `transpose(1, 2, 0)` does.

The contact score reproduces the source as written. The front and back
terms multiply the slab at x - 1 or x + w with the mask's bottom or top
layer, not with a vertical face. Each product is clipped to the common
sub-rectangle.

## Model

| member | source | states |
|---|---|---|
| Masks.NonEmptyVolume | optimizer.py:242-243 | A mask has a filled voxel (so `argwhere` finds one) exactly when its count of filled voxels is positive |
| Masks.Volume | optimizer.py:264 | `np.sum` of a 0/1 mask: the number of filled voxels. It is positive exactly when the mask has a filled voxel (`NonEmptyVolume`), and turns and trimming keep it (`TurnHWVolume`, `TrimKeepsVolume`) |
| Masks.Block | optimizer.py:57-61 | `np.ones` of the given extents: every voxel filled. It has a filled voxel when the extents are positive (`BlockNonEmpty`) |
| Masks.Flatten | optimizer.py:84 | `tuple(rotated_shape.flatten())`: the cells in row-major order, which forgets the extents (`FlattenForgetsExtents`); `KeepNew` and `KeepNewComplete` de-duplicate by it |
| Masks.NonEmptyExtents | optimizer.py:212 | A mask with a filled voxel has positive height, width and depth |
| Masks.BlockNonEmpty | optimizer.py:58-61 | An all-ones block with positive extents has a filled voxel |
| Masks.CreateLShape | optimizer.py:420-426 | The sample L-shape is a well-formed 2x2x2 mask |
| Masks.LShapeVolume | optimizer.py:420-426 | The L-shape's filled voxels are exactly the four cells it sets, so its volume is 4 |
| Masks.FlattenForgetsExtents | optimizer.py:84 | The de-duplication key (the flattened cells) ignores extents: two different masks can share a key |
| Masks.Kept | optimizer.py:101-106 | Boolean indexing keeps, in increasing order, exactly the in-range indices whose flag holds |
| Masks.KeptAll | optimizer.py:101-106 | When every slice is non-empty, boolean indexing keeps every index in place |
| Masks.KeptNone | optimizer.py:101-106 | When every slice is empty, boolean indexing keeps nothing |
| Masks.TurnHWVolume | optimizer.py:82 | A quarter turn about axes (0, 1) keeps the number of filled voxels |
| Masks.TurnHDVolume | optimizer.py:82 | A quarter turn about axes (0, 2) keeps the number of filled voxels |
| Masks.TurnWDVolume | optimizer.py:82 | A quarter turn about axes (1, 2) keeps the number of filled voxels |
| Masks.TrimDVolume | optimizer.py:101-102 | Dropping empty depth slices keeps the number of filled voxels |
| Masks.TrimWVolume | optimizer.py:103-104 | Dropping empty width slices keeps the number of filled voxels |
| Masks.TrimHVolume | optimizer.py:105-106 | Dropping empty height layers keeps the number of filled voxels |
| Masks.TrimKeepsVolume | optimizer.py:100-107 | `_trim_shape` keeps the number of filled voxels and never enlarges any extent |
| Masks.TrimLeavesNoEmptySlice | optimizer.py:100-107 | After `_trim_shape` no slice along any axis is all zero, interior slices included |
| Masks.TrimIdempotent | optimizer.py:100-107 | Trimming a trimmed mask changes nothing |
| Masks.TrimAllZero | optimizer.py:100-107 | A mask with no filled voxel trims to extents (0, 0, 0) |
| Masks.TrimmedBottomFilled | optimizer.py:105-106 | A trimmed mask of positive height has a filled voxel in its bottom layer |
| Masks.Trim | optimizer.py:100-107 | Drops all-zero depth, then width, then height slices; pinned down by `TrimKeepsVolume`, `TrimLeavesNoEmptySlice`, `TrimIdempotent` and `TrimAllZero` |
| Masks.TurnHW | optimizer.py:82 | One `rot90` turn about axes (0, 1): swaps height and width, and voxel [i][j][k] is the input's [j][w-1-i][k]; keeps the volume (`TurnHWVolume`) |
| Masks.TurnHD | optimizer.py:82 | One `rot90` turn about axes (0, 2): swaps height and depth, and voxel [i][j][k] is the input's [k][j][d-1-i]; keeps the volume (`TurnHDVolume`) |
| Masks.TurnWD | optimizer.py:82 | One `rot90` turn about axes (1, 2): swaps width and depth, and voxel [i][j][k] is the input's [i][k][d-1-j]; keeps the volume (`TurnWDVolume`) |
| Cargo.GridCells | optimizer.py:35-40 | Floor division by the cell size: n whole cells fit the length and n + 1 do not |
| Cargo.CellsFit | optimizer.py:109-114 | n cells of 5 units fit a length exactly when n is at most the length's cell count |
| Cargo.ShapeDimensionsMatchGrid | optimizer.py:109-114 | `check_shape_dimensions` accepts a mask exactly when its extents are within the grid's extents |
| Cargo.DimensionsFitGrid | optimizer.py:46-50 | A size that passes `check_dimensions` has cell counts within the grid's |
| Cargo.CheckDimensions | optimizer.py:46-50 | Width, height and depth each at most the container's; related to the grid by `DimensionsFitGrid` |
| Cargo.CheckShapeDimensions | optimizer.py:109-114 | The mask's extents times 5, read as (width, height, depth), pass `check_dimensions`; equivalent to fitting the grid by `ShapeDimensionsMatchGrid` |
| Rotations.GetAxes | optimizer.py:90-98 | 'x' maps to (1, 2), 'y' to (0, 2), and 'z' or any other name to (0, 1) |
| Rotations.Turn | optimizer.py:82 | One turn in the chosen axis pair gives a well-formed mask with the same volume |
| Rotations.Candidate | optimizer.py:80-83 | The trimmed mask after k turns about the a-th axis name. It keeps the volume and has no empty slice (`CandidateKeepsVolume`) |
| Rotations.AxisTurns | optimizer.py:81-83 | The four candidates k = 0..3 about one axis name, in loop order; the loop over them is `KeepAxisTurns` |
| Rotations.Candidates | optimizer.py:80-83 | The twelve candidates in loop order, 4a + k being `Candidate(m, a, k)` (`CandidateAt`), each keeping the volume (`CandidatesKeepVolume`) |
| Rotations.Rot90 | optimizer.py:82 | k turns keep the volume; zero turns return the mask itself |
| Rotations.CandidateAt | optimizer.py:80-83 | Candidate 4a + k of the twelve is the trimmed mask after k turns about the a-th axis name, in loop order |
| Rotations.CandidateKeepsVolume | optimizer.py:82-83 | One rotated, trimmed candidate has the input's volume and no empty slice |
| Rotations.CandidatesKeepVolume | optimizer.py:80-83 | Every one of the twelve candidates has the input's volume and no empty slice |
| Rotations.KeepNew | optimizer.py:84-87 | The kept candidates come from the input, each fits the container, and no two share a flattened key |
| Rotations.KeepNewComplete | optimizer.py:84-87 | Conversely, every candidate that fits and whose key is not yet seen has its key among the kept ones: de-duplication drops only repeated keys and misfits |
| Rotations.KeepNewStep | optimizer.py:84-87 | One step keeps a candidate and remembers its key exactly when the key is new and the candidate fits |
| Rotations.Distinct | optimizer.py:65 | De-duplicating the permutations keeps the same members, pairwise distinct, never more of them |
| Rotations.Permutations | optimizer.py:65 | The six orderings of (width, height, depth) in `itertools.permutations` order. `Distinct` collapses repeats, and `BoxOrientations` counts the distinct fitting ones |
| Rotations.BoxShape | optimizer.py:69-73 | The all-ones block (r[1]/5, r[0]/5, r[2]/5) of one size, well formed; its extents are named by `BoxOrientations` |
| Rotations.BoxShapes | optimizer.py:66-74 | The box loop as a function: the blocks of the fitting sizes, in order. `BoxShapesSpec` gives membership both ways, `BoxShapesCount` the count, and `BoxRotations` proves the loop equal to it |
| Rotations.FixedOrientation | optimizer.py:53-62 | A non-rotatable item has exactly one orientation, neither trimmed nor checked against the container: its own mask, or the block of (height/5, width/5, depth/5) |
| Rotations.BoxShapesSpec | optimizer.py:66-74 | A mask is among the box loop's results exactly when it is the block of some size in the list that passes `check_dimensions`, and there are never more results than sizes |
| Rotations.BoxShapesCount | optimizer.py:66-74 | Over pairwise distinct sizes the loop yields exactly one block per fitting size: as many blocks as fitting sizes, equal blocks counted separately |
| Rotations.BoxOrientations | optimizer.py:64-75 | A rotatable box has at most six orientations. Each is the all-ones block (r[1]/5, r[0]/5, r[2]/5) of a permutation r that fits, every such block occurs, and there are exactly as many orientations as distinct fitting permutations |
| Rotations.CubeOrientation | optimizer.py:64-75 | A cube has exactly one orientation when it fits, and none otherwise |
| Rotations.MaskOrientations | optimizer.py:76-88 | A rotatable mask has at most twelve orientations. Their keys are pairwise distinct, each fits, and each has the input's volume and no empty slice. Each is one of the twelve turned candidates of the input. The trimmed input comes first whenever it fits. Conversely, every one of the twelve turned candidates that fits has its key among them |
| Rotations.MaskPlaceable | optimizer.py:76-88 | Every orientation of a mask with a filled voxel has a filled voxel |
| Rotations.SolidBlock | optimizer.py:70-74 | A size of at least 5 on each side gives a block with a filled voxel |
| Rotations.BoxPlaceable | optimizer.py:53-75 | Every orientation of a box at least 5 long on each side has a filled voxel |
| Rotations.OrientationsPlaceable | optimizer.py:52-88 | Every orientation of a well-formed item (a non-empty mask, or a box of at least one cell per side) can be placed |
| Rotations.BoxRotations | optimizer.py:66-75 | The box loop returns exactly the fitting permutations' blocks, in order |
| Rotations.KeepAxisTurns | optimizer.py:80-87 | The four turns about one axis extend the kept list as the specification's de-duplication does |
| Rotations.MaskRotations | optimizer.py:76-88 | The twelve-turn loop returns exactly the specified de-duplicated candidates |
| Rotations.GetPossibleRotations | optimizer.py:52-88 | The method returns exactly the specified orientation list for every kind of item |
| Rotations.Orientations | optimizer.py:52-88 | The orientation list of an item; pinned down by `FixedOrientation`, `BoxOrientations`, `MaskOrientations` and `GetPossibleRotations` |
| Space.Zeros | optimizer.py:35-40 | The initial grid has the given extents and every cell 0 |
| Space.ZerosEmpty | optimizer.py:35-40 | The initial grid is 0/1 and has no occupied cell |
| Space.Cover | optimizer.py:238-240 | The transposed mask adds 1 to a grid cell exactly when the mask voxel landing on it is filled |
| Space.InFootprint | optimizer.py:238-240 | A grid cell is in a placed mask's footprint exactly when the voxel landing on it is filled |
| Space.FootprintVolume | optimizer.py:238-240 | A placed mask covers as many grid cells as it has filled voxels |
| Space.FitIsDisjoint | optimizer.py:116-128 | `check_fit` holds exactly when the mask is in bounds and its footprint meets no occupied cell |
| Space.InBounds | optimizer.py:121-124 | The mask placed at (x, y, z) ends within the grid on every axis; `check_fit`'s first test, as `FitIsDisjoint` states |
| Space.CheckFit | optimizer.py:116-128 | In bounds and no filled voxel lands on an occupied cell; equivalent to a disjoint footprint by `FitIsDisjoint` |
| Space.HasSupport | optimizer.py:130-144 | On the floor, or at least 30 % of the bottom layer rests on occupied cells; pinned down by `SupportThreshold`, `FloorSupports`, `FloatingUnsupported` and `FullySupported` |
| Space.CheckStability | optimizer.py:200-201 | The same test as `has_support` (`FloorSupports` covers the floor) |
| Space.Stamp | optimizer.py:240 | Each grid cell gains the mask voxel landing on it; pinned down by `StampKeepsBinary`, `StampOccupies` and `StampCount` |
| Space.StampKeepsBinary | optimizer.py:240 | Adding a mask where it fits keeps every cell 0 or 1 |
| Space.StampOccupies | optimizer.py:240 | After the update the occupied cells are the old ones plus the mask's footprint |
| Space.StampCount | optimizer.py:240 | Adding a fitting mask grows the occupied cells by exactly its volume |
| Space.SupportThreshold | optimizer.py:130-144 | Above the floor, support holds exactly when the bottom layer is non-empty and 10 times the supported count is at least 3 times the bottom-layer count |
| Space.BaseCount | optimizer.py:138-143 | `np.sum(base_shape)`: the filled voxels of the bottom layer, non-negative (`BaseNonNeg`) |
| Space.SupportedCount | optimizer.py:138-143 | `np.sum(support_area * base_shape)`: bottom-layer voxels over occupied cells, between 0 and `BaseCount` on a 0/1 grid (`SupportAtMostBase`) |
| Space.FloorSupports | optimizer.py:135-136 | At z = 0 both `has_support` and `check_stability` hold |
| Space.FloatingUnsupported | optimizer.py:138-144 | Above the floor, a mask over empty cells only is unsupported |
| Space.FullySupported | optimizer.py:138-144 | A mask with a non-empty bottom layer that rests wholly on occupied cells is supported |
| Space.SupportAtMostBase | optimizer.py:138-143 | On a 0/1 grid the supported count lies between 0 and the bottom-layer count |
| Space.ContactNonNeg | optimizer.py:146-198 | On a grid without negative cells the contact score is non-negative |
| Space.FrontTerm | optimizer.py:158-166 | The front term is non-negative on a non-negative grid and zero on an empty grid |
| Space.BackTerm | optimizer.py:168-176 | The back term is non-negative on a non-negative grid and zero on an empty grid |
| Space.LeftTerm | optimizer.py:178-186 | The left term is non-negative on a non-negative grid and zero on an empty grid |
| Space.RightTerm | optimizer.py:188-196 | The right term is non-negative on a non-negative grid and zero on an empty grid |
| Space.BaseNonNeg | optimizer.py:152-153 | The bottom layer's count is non-negative |
| Space.BottomContact | optimizer.py:152-156 | The bottom layer's count at z = 0, else the count of its voxels over occupied cells; see `BaseNonNeg`, `SupportAtMostBase` and `BottomAgree` |
| Space.FrontContact | optimizer.py:158-166 | The slab at x - 1 times the bottom layer, clipped; see `FrontTerm`, `SideTermsAtWalls` and `FrontAgree` |
| Space.BackContact | optimizer.py:168-176 | The slab at x + w times the top layer, clipped; see `BackTerm`, `SideTermsAtWalls` and `BackAgree` |
| Space.LeftContact | optimizer.py:178-186 | The slab at y - 1 times the first depth slice; see `LeftTerm`, `SideTermsAtWalls` and `LeftAgree` |
| Space.RightContact | optimizer.py:188-196 | The slab at y + d times the last depth slice; see `RightTerm`, `SideTermsAtWalls` and `RightAgree` |
| Space.Contact | optimizer.py:146-198 | The sum of the five terms; pinned down by `ContactNonNeg`, `ContactInEmptyGrid` and `TopFaceIgnored` |
| Space.ContactInEmptyGrid | optimizer.py:146-198 | In an empty grid only the floor touches: the score is the bottom-layer count at z = 0 and 0 above it |
| Space.SideTermsAtWalls | optimizer.py:158-196 | A side term is zero when the mask touches that wall of the grid (x = 0, x + w at the width end, y = 0, y + d at the depth end) |
| Space.PlaneZAgree | optimizer.py:154-156 | A horizontal slab below height top reads the same in two grids that agree below top |
| Space.PlaneXAgree | optimizer.py:160-174 | A width-axis slab below height top reads the same in two grids that agree below top |
| Space.PlaneYAgree | optimizer.py:180-194 | A depth-axis slab below height top reads the same in two grids that agree below top |
| Space.BottomAgree | optimizer.py:152-156 | The bottom term reads no cell at or above the mask's top |
| Space.FrontAgree | optimizer.py:158-166 | The front term reads no cell at or above the mask's top |
| Space.BackAgree | optimizer.py:168-176 | The back term reads no cell at or above the mask's top |
| Space.LeftAgree | optimizer.py:178-186 | The left term reads no cell at or above the mask's top |
| Space.RightAgree | optimizer.py:188-196 | The right term reads no cell at or above the mask's top |
| Space.TopFaceIgnored | optimizer.py:146-198 | The top face never counts: on any grid, changing cells at or above height z + h, including the layer resting on the mask, leaves the contact score unchanged |
| Search.BeatsOrder | optimizer.py:227 | The preference (lower, then more contact, then found first) is a strict order |
| Search.Admissible | optimizer.py:221-223 | The candidate's orientation passes `check_fit`, `has_support` and `check_stability` at its position. `SearchBest` returns no answer exactly when no candidate is admissible |
| Search.Score | optimizer.py:225 | The contact score of an admissible candidate; `BestIsLowest` shows the answer maximises it at the lowest height |
| Search.Before | optimizer.py:211-218 | The order in which candidates are tried: orientation, then height, then width, then depth offset. It is transitive (`BeforeTransitive`) |
| Search.Beats | optimizer.py:227 | Lower, or as low with strictly more contact, or as low with equal contact and tried first, which is the strict `<` / `>` replacement rule. It is a strict order (`BeatsOrder`) |
| Search.IsBest | optimizer.py:203-233 | Admissible and beating every other admissible candidate. At most one candidate is best (`BestUnique`), it is the lowest (`BestIsLowest`), and `SearchBest` returns it |
| Search.BestUnique | optimizer.py:203-233 | At most one candidate is best, so the answer is determined |
| Search.BestIsLowest | optimizer.py:203-233 | The best candidate has minimal height among admissible ones, and maximal contact among those at its height |
| Search.Advance | optimizer.py:214-218 | Passing over candidates that are inadmissible, or higher than the best so far, keeps the search state |
| Search.TakeCandidate | optimizer.py:227-231 | Taking a lower or better-touching admissible candidate makes it the best of all candidates seen |
| Search.PassCandidate | optimizer.py:221-227 | Passing over a candidate that is not admissible or not better keeps the best of all candidates seen |
| Search.Examine | optimizer.py:219-231 | Examining one position moves the search state on to the next depth offset |
| Search.RowDone | optimizer.py:218 | After the last depth offset the row is done |
| Search.LayerDone | optimizer.py:217 | After the last width offset the layer is done |
| Search.OrientationDone | optimizer.py:214 | After the last height the orientation is done |
| Search.SkipHeight | optimizer.py:215-216 | A height above the lowest placement found so far holds no better candidate |
| Search.Stop | optimizer.py:214-218 | The loop bound of `range(l - n + 1)`: offset s would overrun the axis, and the offset before it, the last one tried, still keeps the mask inside |
| Search.ScanRow | optimizer.py:218-231 | The depth loop leaves the best of every candidate up to the end of the row |
| Search.ScanLayer | optimizer.py:217-231 | The width loop leaves the best of every candidate up to the end of the layer |
| Search.ScanOrientation | optimizer.py:214-231 | The height loop, with its pruning, leaves the best of every candidate of the orientation |
| Search.SearchBest | optimizer.py:203-233 | No answer exactly when no candidate is admissible. Otherwise the answer is admissible and preferred to every other admissible candidate |
| Backlog.Repeat | optimizer.py:43-44 | quantity copies of the item, and none when quantity is 0 or negative |
| Backlog.Insert | optimizer.py:263-267 | Insertion adds exactly one copy of the item to the list's multiset |
| Backlog.SortBacklog | optimizer.py:263-267 | The sorted backlog is a permutation of the backlog |
| Backlog.InsertBelow | optimizer.py:263-267 | Inserting an item that does not precede y into a list with no element preceding y keeps that property |
| Backlog.InsertSorted | optimizer.py:263-267 | Inserting into a sorted list keeps it sorted |
| Backlog.SortBacklogSorted | optimizer.py:263-267 | No item of the sorted backlog has a larger (volume, footprint, weight) key than an earlier one |
| Backlog.InsertWithKey | optimizer.py:263-267 | Insertion puts the item in front of the items with its key |
| Backlog.SortBacklogStable | optimizer.py:263-267 | Items with equal keys keep their backlog order (a stable sort) |
| Backlog.InsertCount | optimizer.py:263-267 | Insertion adds one to the count of the item's name |
| Backlog.SortBacklogCounts | optimizer.py:263-267 | Sorting keeps how many entries of each name the backlog holds |
| Backlog.RepeatCount | optimizer.py:43-44 | The copies hold quantity entries of the item's name, when positive, and none of any other name |
| Backlog.AddedCopies | optimizer.py:43-44 | Adding copies adds quantity to the item's name's count and nothing to any other name's |
| Backlog.Key | optimizer.py:263-267 | (volume, footprint, weight) of an entry, with a custom item's volume as filled voxels times 125 and footprint as width times depth times 25; its order is pinned down by `SortBacklogSorted` and `SortBacklogStable` |
| Backlog.Precedes | optimizer.py:263-267 | Strictly larger key in lexicographic order, which the sort by negated keys puts first; see `SortBacklogSorted` and `InsertWithKey` |
| Ledger.FirstSetIsFirst | optimizer.py:243 | The first set flag is set, and none before it |
| Ledger.LastSetIsLast | optimizer.py:244 | The last set flag is set, and none after it |
| Ledger.FlagsHold | optimizer.py:242 | A mask with a filled voxel has a non-empty slice along every axis |
| Ledger.WidthBounds | optimizer.py:242-247 | The record's width range holds every filled voxel, and both its faces touch one |
| Ledger.DepthBounds | optimizer.py:242-247 | The record's depth range holds every filled voxel, and both its faces touch one |
| Ledger.HeightBounds | optimizer.py:242-247 | The record's height range holds every filled voxel, and both its faces touch one |
| Ledger.BoundingBox | optimizer.py:242-245 | The first and last filled index along width, depth and height; pinned down by `WidthBounds`, `DepthBounds` and `HeightBounds` |
| Ledger.MakeRecord | optimizer.py:242-257 | The name, the bounding box's corner and size scaled by 5, and the weight; see `DescribedAt` |
| Ledger.CoveredContains | optimizer.py:240 | Each placement's footprint is part of the occupied cells |
| Ledger.DisjointPairwise | optimizer.py:240 | In a history built by fitting placements no two footprints share a cell |
| Ledger.TallyFailed | optimizer.py:275-277 | A failed entry adds one to its name's failure count, and the tally still accounts for every entry taken |
| Ledger.TallyPlaced | optimizer.py:279-281 | A placed entry adds one record of its name, and the tally still accounts for every entry taken |
| Ledger.TallyResorted | optimizer.py:263-287 | After the loop, the failures plus the new records of each name equal that name's entries in the unsorted backlog |
| Ledger.SortKeepsPlaceable | optimizer.py:263-267 | Sorting keeps every entry placeable |
| Ledger.AccountedStart | optimizer.py:261-269 | Before the first entry nothing is counted, placed or added to the volume |
| Ledger.AccountedFailed | optimizer.py:275-287 | A failing entry keeps the loop's accounting with one more failure |
| Ledger.AccountedPlaced | optimizer.py:279-285 | A placed entry keeps the loop's accounting, with the weight under the cap and its volume added |
| Ledger.TotalWeight | optimizer.py:258 | The sum of the records' weights, which `current_weight` tracks. `TotalWeightAppend` gives the step, and `Commit` and `PlaceItem` keep `currentWeight` equal to it |
| Ledger.TotalWeightAppend | optimizer.py:258 | Appending a record adds its weight to the total |
| Ledger.Contribution | optimizer.py:282-285 | A box adds its nominal size, a custom item its placed mask's filled voxels times 125; see `ContributionIsKeyVolume` |
| Ledger.TotalVolume | optimizer.py:282-285 | The sum of the placements' contributions; `TotalVolumeAppend` gives the step and `Pack` the utilisation |
| Ledger.PlaceableSearchable | optimizer.py:209-214 | Every orientation of a placeable item has positive extents, so the search can score it |
| Ledger.DescribedAt | optimizer.py:251-257 | Each record is the bounding-box record of the placement at the same index |
| Ledger.CoveredAppend | optimizer.py:240 | A new placement adds its footprint to the covered cells |
| Ledger.StampCovers | optimizer.py:240 | Stamping a fitting mask keeps the grid 0/1 and equal to the covered cells, and the new placement meets no earlier one |
| Ledger.LayoutAppend | optimizer.py:240 | A fitting placement extends the history, and the grid becomes the stamped grid |
| Ledger.FitsFormed | optimizer.py:240 | Every placement of a fitting history is well formed |
| Ledger.LayoutConsistent | optimizer.py:235-258 | Stamping fitting placements onto the empty grid keeps it 0/1, occupied exactly where some placement is, without overlap |
| Ledger.PlacementKeepsConsistent | optimizer.py:235-258 | A fitting, non-empty placement keeps the grid, the records and the weight consistent with the history |
| Ledger.PlacementKeepsSound | optimizer.py:235-258 | Once the grid array holds the stamped grid, the extended history is sound |
| Ledger.ChosenPlaced | optimizer.py:274-285 | Placing the search's best candidate on the current layout keeps every placement of the history the search's answer |
| Ledger.ChosenMeaning | optimizer.py:203-233 | Each chosen placement uses one of its item's orientations, fits, is supported by at least 30 % of its bottom layer (or the floor) and is stable where it was put, and no admissible candidate was lower or, at its height, touched more |
| Run.RanStart | optimizer.py:261-269 | Before the first entry the run is empty, with the starting placements and weight, and no failure is counted |
| Run.RanFailed | optimizer.py:275-277 | An entry over the cap, or with no admissible candidate (optimizer.py:286-287), is appended to the run as a failure and adds one to its name's failure count; placements and weight stay |
| Run.RanPlaced | optimizer.py:279-285 | An entry within the cap placed at the search's best candidate is appended to the run with its placement and weight; the failure counts stay |
| Run.EntryKept | optimizer.py:274-287 | An entry's outcome, judged on the state of its turn, stays true when later entries extend the run |
| Run.CountsAppend | optimizer.py:274-287 | One more entry adds one to the placed count and its weight to the placed weight when placed, and one to its name's failure count when failed |
| Run.RanEveryPlacement | optimizer.py:279-281 | Every placement the loop added belongs to one placed entry, was made on the placements before it, and was the search's best candidate for that entry |
| Run.EntryPlaced | optimizer.py:279-285 | A placed entry's placement is the next after the placements before it, made within the cap at the search's best candidate on their grid |
| Run.PlacedIndex | optimizer.py:274-285 | The j-th placement comes from the entry before which exactly j entries were placed |
| Run.RanNothingPlaced | optimizer.py:274-287 | A run that placed nothing left the placements and the weight as they were, and every entry in it was over the cap at the starting weight or had no admissible candidate on the starting grid |
| Run.NothingPlacedPrefix | optimizer.py:274-287 | With no entry placed, no prefix of the run counts a placement or a weight |
| Ledger.ContributionIsKeyVolume | optimizer.py:282-285 | Whatever orientation is placed, the volume added is the item's own volume, the first part of its sort key |
| Ledger.BoxShapeFormed | optimizer.py:53-75 | Every orientation of a box is a well-formed mask |
| Ledger.MaskShapeVolume | optimizer.py:52-88 | Every orientation of a custom item has as many filled voxels as the item's mask |
| Optimizer.PackingOptimizer.ShapesFormed | optimizer.py:240 | In a valid engine every placed orientation is well formed |
| Optimizer.PackingOptimizer.NoOverlap | optimizer.py:240 | In a valid engine every cell is 0 or 1, the occupied cells are those of the placements, and no two placements share a cell |
| Optimizer.PackingOptimizer.constructor | optimizer.py:30-41 | A fresh engine: a zero grid of (width/5, depth/5, height/5) cells, no items, no records, weight and utilisation 0, and the invariant holds |
| Optimizer.PackingOptimizer.AddItem | optimizer.py:43-44 | The backlog gains exactly quantity copies of the item at its end, and nothing else changes |
| Optimizer.PackingOptimizer.FindBestPosition | optimizer.py:203-233 | The orientations are the specified ones. There is no answer exactly when no placement is admissible; otherwise the answer is the unique best |
| Optimizer.PackingOptimizer.AddMask | optimizer.py:240 | The grid array becomes the old grid with the transposed mask added to its region |
| Optimizer.PackingOptimizer.Commit | optimizer.py:251-258 | One record and one placement are appended, the weight grows by the item's weight, and the invariant holds |
| Optimizer.PackingOptimizer.PlaceItem | optimizer.py:235-258 | The grid gains the mask, one bounding-box record is appended, the weight grows by the item's weight, and the invariant (0/1 cells, no overlap) is kept |
| Optimizer.PackingOptimizer.PackItem | optimizer.py:274-287 | Over the weight cap, only the name's failure count changes. Otherwise the item is placed at the unique best placement with its volume added, or counted as failed when none is admissible. Every placement since the loop began stays the search's best answer on the grid it was placed on. The entry's outcome is appended to the run (`Run.Ran`) and the failure counts stay exactly the failed entries per name (`Run.Failures`) |
| Optimizer.PackingOptimizer.PackBacklog | optimizer.py:274-287 | Returns one outcome per backlog entry, in order. A failed entry was over the weight cap with the weight at its turn, or had no admissible candidate on the grid the earlier placements made. A placed entry was within the cap and put at the search's best candidate on that grid. The new placements are exactly those of the placed entries, in order. Each name's failure count is the number of its failed entries. The weight cap is kept and the total is the volume placed |
| Optimizer.PackingOptimizer.SortItems | optimizer.py:263-267 | The backlog becomes its stable sort by the key (see `Backlog.SortBacklog`), and every entry stays placeable |
| Optimizer.PackingOptimizer.Pack | optimizer.py:260-292 | The backlog is stably sorted, and the earlier history is kept. Over the sorted backlog, the run is as `PackBacklog` states: one outcome per entry, failures only over the cap or with no admissible candidate, and the new placements exactly the placed entries' ones, in order. Each name's failure count is its number of failed entries, and failures plus new records of each name equal that name's entries. The weight stays within the cap. Utilisation is placed volume over container volume times 100. Every new placement used one of its item's orientations and was the search's best answer on the grid it was placed on (see `Ledger.ChosenMeaning`) |

## Left out

- Writing `result.txt`, the elapsed-time measurement, the per-name summary and `get_packing_results` are left out. They are file I/O and the clock. The failure counts that `pack` writes to the file are returned by `Pack` instead.
- The random display colour of each record is left out, because it is randomness that no decision depends on.
- `visualize_packing` and its drawing helpers, the `main` drivers, `gui.py` and `db.py` are not part of this model. They are plotting, user interface and storage.
- Lengths, weights and the utilisation are exact reals. Floating-point rounding, including in the 0.3 support ratio, is not modelled.
- `list(set(permutations(...)))` has an order that depends on hashing. The model keeps the first occurrence of each size in generation order. This can change only which of several equally good box orientations wins a tie.
- Numpy is not modelled as such. Rotation, transposition, slicing, boolean indexing and sums are written out.
- Optimizer.PackingOptimizer.PlaceItem: requires a non-empty mask that passes `check_fit`. The source crashes on an empty mask (the `min` of an empty `argwhere`), and it is only ever called with a position that passed `check_fit`.
- Optimizer.PackingOptimizer.Pack: like `PackBacklog`, requires every backlog entry to be placeable (a non-empty mask, or a box of at least one cell per side) and a non-zero container volume. The source crashes when such an entry is searched, and divides by the container volume. The requirement also excludes entries the source handles harmlessly: entries over the weight cap, which are never searched, and non-rotatable masks with an empty extent that are larger than the grid, whose search ranges are empty.
- Optimizer.PackingOptimizer.FindBestPosition: requires a placeable item. For the same reason, `Search.Searchable` requires every orientation to have positive height and depth.
- Optimizer.PackingOptimizer.constructor: requires non-negative container lengths so that the grid extents are natural numbers.
- Space.ContactInEmptyGrid: gives the score in closed form only on the empty grid. On other grids the score is described by `ContactNonNeg`, the per-term lemmas, `SideTermsAtWalls` and `TopFaceIgnored`, not by a formula.
- Search.SearchBest: the source's infinite initial `min_z` and `max_contact` are modelled as "no best yet". The answer is a candidate (orientation index and position) instead of a copy of the shape.
- Optimizer.PackingOptimizer.PackItem: the choice it reports is a ghost value, used only to state the contract. An entry within the weight cap must be placeable (see `Pack` below), which also excludes the non-rotatable masks with an empty extent that the source searches harmlessly over empty ranges. An entry over the cap needs nothing.
- Optimizer.PackingOptimizer.PackBacklog: the per-entry outcomes it returns (and `Pack` returns) are ghost values; the source keeps no such list. The method requires every backlog entry to be placeable, including the entries that turn out to be over the weight cap when reached, which the source never searches. Whether an entry is over the cap depends on the placements before it, so the requirement is stated over the whole backlog. The same holds for `Pack`.
