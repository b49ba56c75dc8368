/** Items, the container and the conversion of lengths to grid cells. */
module Cargo {
  import opened Masks

  datatype Option<T> = None | Some(value: T)

  /** An item of the backlog: nominal size, weight, how many copies, whether
      it may be turned, and an optional voxel mask with axes (height, width, depth). */
  datatype Item = Item(
    name: string,
    width: real, height: real, depth: real,
    weight: real,
    quantity: int,
    rotatable: bool,
    shape: Option<Mask>)

  datatype Container = Container(width: real, height: real, depth: real, maxWeight: real)

  /** Edge length of one grid cell. */
  const GridSize: int := 5

  /** The number of whole cells along a length (floor division by the cell size). */
  function GridCells(len: real): (n: nat)
    requires len >= 0.0
    ensures (n * GridSize) as real <= len < ((n + 1) * GridSize) as real
  {
    (len / GridSize as real).Floor
  }

  /** Container lengths can be turned into grid extents. */
  predicate ValidContainer(c: Container)
  {
    c.width >= 0.0 && c.height >= 0.0 && c.depth >= 0.0
  }

  /** A (width, height, depth) size fits inside the container's outer box. */
  function CheckDimensions(c: Container, size: (real, real, real)): bool
  {
    size.0 <= c.width && size.1 <= c.height && size.2 <= c.depth
  }

  /** A mask's extents, scaled to lengths, fit inside the container. */
  function CheckShapeDimensions(c: Container, m: Mask): bool
  {
    CheckDimensions(c, ((m.w * GridSize) as real, (m.h * GridSize) as real, (m.d * GridSize) as real))
  }

  /** A whole number of cells fits a length exactly when it fits its cell count. */
  lemma CellsFit(n: nat, len: real)
    requires len >= 0.0
    ensures (n * GridSize) as real <= len <==> n <= GridCells(len)
  {
  }

  /** check_shape_dimensions accepts a mask exactly when its extents fit the grid. */
  lemma ShapeDimensionsMatchGrid(c: Container, m: Mask)
    requires ValidContainer(c)
    ensures CheckShapeDimensions(c, m) <==>
      m.w <= GridCells(c.width) && m.h <= GridCells(c.height) && m.d <= GridCells(c.depth)
  {
    CellsFit(m.w, c.width);
    CellsFit(m.h, c.height);
    CellsFit(m.d, c.depth);
  }

  /** A size that passes check_dimensions has a cell count within the grid's. */
  lemma DimensionsFitGrid(c: Container, size: (real, real, real))
    requires ValidContainer(c) && size.0 >= 0.0 && size.1 >= 0.0 && size.2 >= 0.0
    requires CheckDimensions(c, size)
    ensures GridCells(size.0) <= GridCells(c.width)
    ensures GridCells(size.1) <= GridCells(c.height)
    ensures GridCells(size.2) <= GridCells(c.depth)
  {
    CellsFit(GridCells(size.0), c.width);
    CellsFit(GridCells(size.1), c.height);
    CellsFit(GridCells(size.2), c.depth);
  }
}
