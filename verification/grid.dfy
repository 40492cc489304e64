/** The simulation grid (`ReactionState<CellDim, ChemicalCount>`): `dim * dim`
    cells stored flat in row-major order. */
module Grid {
  import opened Util
  import opened Cells

  /** `cells[y * dim + x]` is the cell at column `x`, row `y`. */
  datatype ReactionState = ReactionState(dim: nat, chems: nat, cells: seq<CellConcentration>)

  /** Exactly `NumCells = dim * dim` cells, each of length `chems`. */
  predicate Valid(s: ReactionState) {
    && |s.cells| == s.dim * s.dim
    && forall i :: 0 <= i < |s.cells| ==> HasChemicals(s.cells[i], s.chems)
  }

  predicate InGrid(dim: nat, x: int, y: int) {
    0 <= x < dim && 0 <= y < dim
  }

  /** The row-major index used by both `getConcentration` overloads. */
  function Index(dim: nat, x: nat, y: nat): (i: nat)
    requires x < dim && y < dim
    ensures i < dim * dim
  {
    IndexBound(dim, x, y);
    y * dim + x
  }

  lemma IndexBound(dim: nat, x: nat, y: nat)
    requires x < dim && y < dim
    ensures y * dim + x < dim * dim
  {
    MulMonotone(y, dim - 1, dim);
  }

  /** Division by `dim` recovers the row and the remainder the column. */
  lemma {:induction false} IndexCoords(dim: nat, x: nat, y: nat)
    requires x < dim && y < dim
    ensures Index(dim, x, y) / dim == y
    ensures Index(dim, x, y) % dim == x
  {
    var i := y * dim + x;
    var q, r := i / dim, i % dim;
    assert i == q * dim + r;
    if q > y {
      MulMonotone(y + 1, q, dim);
      assert false;
    } else if q < y {
      MulMonotone(q + 1, y, dim);
      assert false;
    }
  }

  /** The row-major map is one-to-one on in-range coordinates. */
  lemma IndexInjective(dim: nat, x1: nat, y1: nat, x2: nat, y2: nat)
    requires x1 < dim && y1 < dim && x2 < dim && y2 < dim
    ensures Index(dim, x1, y1) == Index(dim, x2, y2) <==> x1 == x2 && y1 == y2
  {
    IndexCoords(dim, x1, y1);
    IndexCoords(dim, x2, y2);
  }

  /** ... and onto the flat cell range: every flat index is some (x, y). */
  lemma IndexOnto(dim: nat, i: nat)
    requires i < dim * dim
    ensures dim > 0 && i % dim < dim && i / dim < dim
    ensures Index(dim, i % dim, i / dim) == i
  {
    if i / dim >= dim {
      MulMonotone(dim, i / dim, dim);
      assert false;
    }
  }

  /** The const `getConcentration(x, y)`; coordinates are not range-checked,
      so being in range is the caller's obligation. */
  function Get(s: ReactionState, x: nat, y: nat): (c: CellConcentration)
    requires Valid(s) && x < s.dim && y < s.dim
    ensures HasChemicals(c, s.chems)
  {
    s.cells[Index(s.dim, x, y)]
  }

  /** Assignment through the mutable `getConcentration(x, y)`: exactly that
      cell changes. */
  function Set(s: ReactionState, x: nat, y: nat, c: CellConcentration): (t: ReactionState)
    requires Valid(s) && x < s.dim && y < s.dim && HasChemicals(c, s.chems)
    ensures Valid(t) && t.dim == s.dim && t.chems == s.chems
    ensures Get(t, x, y) == c
    ensures forall x': nat, y': nat | x' < s.dim && y' < s.dim && (x' != x || y' != y) ::
              Get(t, x', y') == Get(s, x', y')
  {
    var t := s.(cells := s.cells[Index(s.dim, x, y) := c]);
    forall x': nat, y': nat | x' < s.dim && y' < s.dim && (x' != x || y' != y)
      ensures Get(t, x', y') == Get(s, x', y')
    {
      IndexInjective(s.dim, x, y, x', y');
    }
    t
  }

  /** Every concentration of the grid lies in [0,1]. */
  predicate AllInUnit(s: ReactionState)
    requires Valid(s)
  {
    forall x: nat, y: nat | x < s.dim && y < s.dim :: CellInUnit(Get(s, x, y))
  }

  /** Two grids of the same shape that agree at every coordinate are equal. */
  lemma Extensionality(s: ReactionState, t: ReactionState)
    requires Valid(s) && Valid(t) && s.dim == t.dim && s.chems == t.chems
    requires forall x: nat, y: nat | x < s.dim && y < s.dim :: Get(s, x, y) == Get(t, x, y)
    ensures s == t
  {
    forall i | 0 <= i < |s.cells|
      ensures s.cells[i] == t.cells[i]
    {
      IndexOnto(s.dim, i);
      assert Get(s, i % s.dim, i / s.dim) == Get(t, i % s.dim, i / s.dim);
    }
  }

  /** The explicit constructor: every one of the `dim * dim` cells is a copy
      of `initialAmounts`. */
  function Init(dim: nat, chems: nat, initialAmounts: seq<real>): (s: ReactionState)
    requires |initialAmounts| == chems
    ensures Valid(s) && s.dim == dim && s.chems == chems
    ensures forall x: nat, y: nat | x < dim && y < dim :: Get(s, x, y) == FromArray(chems, initialAmounts)
  {
    ReactionState(dim, chems, seq(dim * dim, i => FromArray(chems, initialAmounts)))
  }

  /** The default constructor: `NumCells` default-constructed, all-zero cells. */
  function DefaultState(dim: nat, chems: nat): (s: ReactionState)
    ensures Valid(s) && s.dim == dim && s.chems == chems
    ensures forall x: nat, y: nat | x < dim && y < dim :: Get(s, x, y) == Default(chems)
  {
    ReactionState(dim, chems, seq(dim * dim, i => Default(chems)))
  }

  /** Move assignment `target = std::move(source)` swaps the two cell buffers:
      afterwards the target owns the source's cells and the source the target's. */
  function MoveAssign(target: ReactionState, source: ReactionState): (r: (ReactionState, ReactionState))
    requires target.dim == source.dim && target.chems == source.chems
    ensures r.0.cells == source.cells && r.1.cells == target.cells
    ensures r.0.dim == target.dim && r.1.dim == source.dim
    ensures r.0.chems == target.chems && r.1.chems == source.chems
  {
    (target.(cells := source.cells), source.(cells := target.cells))
  }

  /** Assigning twice restores both buffers: the move is a swap, not a copy. */
  lemma MoveAssignInvolution(a: ReactionState, b: ReactionState)
    requires a.dim == b.dim && a.chems == b.chems
    ensures var (a', b') := MoveAssign(a, b); MoveAssign(a', b') == (a, b)
  {
  }

  /** An 8-bit colour channel. */
  newtype byte = x: int | 0 <= x < 256

  /** `sf::Color`: red, green, blue, alpha. */
  datatype Color = Color(r: byte, g: byte, b: byte, a: byte)

  function ColorBytes(c: Color): (bs: seq<byte>)
    ensures |bs| == 4
  {
    [c.r, c.g, c.b, c.a]
  }

  /** `getColoring`: writes the RGBA bytes of each cell's colour, cell by cell
      in storage order. `toColor` stands for `CellConcentration::toColor`. */
  method GetColoring(s: ReactionState, toColor: CellConcentration -> Color) returns (coloring: seq<byte>)
    requires Valid(s)
    ensures |coloring| == 4 * (s.dim * s.dim)
    ensures forall i | 0 <= i < |s.cells| :: coloring[4 * i .. 4 * i + 4] == ColorBytes(toColor(s.cells[i]))
    ensures forall x: nat, y: nat | x < s.dim && y < s.dim ::
              coloring[4 * Index(s.dim, x, y) .. 4 * Index(s.dim, x, y) + 4] == ColorBytes(toColor(Get(s, x, y)))
  {
    coloring := [];
    var index := 0;
    while index < |s.cells|
      invariant 0 <= index <= |s.cells|
      invariant |coloring| == 4 * index
      invariant forall i | 0 <= i < index :: coloring[4 * i .. 4 * i + 4] == ColorBytes(toColor(s.cells[i]))
    {
      var col := toColor(s.cells[index]);
      coloring := coloring + ColorBytes(col);
      index := index + 1;
    }
  }
}
