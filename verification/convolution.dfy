/** `ClassicConvolution`: a 3x3 weighted sum per chemical around a cell, with
    one weight for the centre, one shared by the four edges and one shared by
    the four corners. There is no boundary handling: all nine neighbours must
    exist, so only interior cells may be convolved. */
module Convolution {
  import opened Util
  import opened Cells
  import opened Grid

  datatype ClassicConvolution = ClassicConvolution(centerMultiplier: real, edgeMultiplier: real, cornerMultiplier: real)

  /** The weights the program is started with: centre -1, edges 0.2, corners 0.05. */
  const MainConvolution: ClassicConvolution := ClassicConvolution(-1.0, 0.2, 0.05)

  /** A cell whose whole 3x3 block lies in the grid: 1 <= x, y <= dim - 2. */
  predicate Interior(dim: nat, x: int, y: int) {
    1 <= x && x + 2 <= dim && 1 <= y && y + 2 <= dim
  }

  /** Offsets of the edges: top, then clockwise (right, bottom, left). */
  const EdgeOffsets: seq<(int, int)> := [(0, -1), (1, 0), (0, 1), (-1, 0)]

  /** Offsets of the corners: top-left, then clockwise. */
  const CornerOffsets: seq<(int, int)> := [(-1, -1), (1, -1), (1, 1), (-1, 1)]

  /** The full 3x3 stencil, row by row. */
  const Stencil: seq<(int, int)> :=
    [(-1, -1), (0, -1), (1, -1), (-1, 0), (0, 0), (1, 0), (-1, 1), (0, 1), (1, 1)]

  /** A quarter turn clockwise on screen coordinates (y grows downwards). */
  function Clockwise(d: (int, int)): (int, int) {
    (-d.1, d.0)
  }

  /** Edges are the orthogonal neighbours, corners the diagonal ones, and each
      list is one clockwise sweep starting from the top (top-left). */
  lemma OffsetShapes()
    ensures forall k | 0 <= k < 4 :: IntAbs(EdgeOffsets[k].0) + IntAbs(EdgeOffsets[k].1) == 1
    ensures forall k | 0 <= k < 4 :: IntAbs(CornerOffsets[k].0) == 1 && IntAbs(CornerOffsets[k].1) == 1
    ensures EdgeOffsets[0] == (0, -1) && CornerOffsets[0] == (-1, -1)
    ensures forall k | 0 <= k < 3 :: EdgeOffsets[k + 1] == Clockwise(EdgeOffsets[k])
    ensures forall k | 0 <= k < 3 :: CornerOffsets[k + 1] == Clockwise(CornerOffsets[k])
    ensures forall d | d in Stencil :: d == (0, 0) || d in EdgeOffsets || d in CornerOffsets
  {
  }

  /** The cell at offset `d` from `(x, y)`. */
  function Neighbour(s: ReactionState, x: nat, y: nat, d: (int, int)): CellConcentration
    requires Valid(s) && InGrid(s.dim, x + d.0, y + d.1)
  {
    Get(s, x + d.0, y + d.1)
  }

  /** All nine reads of the stencil are in range exactly at interior cells. */
  lemma NeighboursInRangeIffInterior(dim: nat, x: nat, y: nat)
    ensures (forall d | d in Stencil :: InGrid(dim, x + d.0, y + d.1)) <==> Interior(dim, x, y)
  {
    if forall d | d in Stencil :: InGrid(dim, x + d.0, y + d.1) {
      assert InGrid(dim, x + Stencil[0].0, y + Stencil[0].1);
      assert InGrid(dim, x + Stencil[8].0, y + Stencil[8].1);
    }
  }

  /** `getEdges`: the four edge neighbours, top first, then clockwise. */
  function GetEdges(s: ReactionState, x: nat, y: nat): (r: seq<CellConcentration>)
    requires Valid(s) && Interior(s.dim, x, y)
    ensures |r| == 4
    ensures forall k | 0 <= k < 4 :: r[k] == Neighbour(s, x, y, EdgeOffsets[k])
  {
    [Get(s, x, y - 1), Get(s, x + 1, y), Get(s, x, y + 1), Get(s, x - 1, y)]
  }

  /** `getCorners`: the four corner neighbours, top-left first, then clockwise. */
  function GetCorners(s: ReactionState, x: nat, y: nat): (r: seq<CellConcentration>)
    requires Valid(s) && Interior(s.dim, x, y)
    ensures |r| == 4
    ensures forall k | 0 <= k < 4 :: r[k] == Neighbour(s, x, y, CornerOffsets[k])
  {
    [Get(s, x - 1, y - 1), Get(s, x + 1, y - 1), Get(s, x + 1, y + 1), Get(s, x - 1, y + 1)]
  }

  /** Sum of chemical `chem` over four cells. */
  function Sum4(cs: seq<CellConcentration>, chem: nat): real
    requires |cs| == 4 && forall k | 0 <= k < 4 :: chem < |cs[k].conc|
  {
    cs[0].conc[chem] + cs[1].conc[chem] + cs[2].conc[chem] + cs[3].conc[chem]
  }

  /** The weight the kernel gives the neighbour at offset `d`: centre, then
      Manhattan distance 1 (edges), otherwise diagonal (corners). */
  function Weight(cv: ClassicConvolution, d: (int, int)): real {
    if d == (0, 0) then cv.centerMultiplier
    else if IntAbs(d.0) + IntAbs(d.1) == 1 then cv.edgeMultiplier
    else cv.cornerMultiplier
  }

  /** Chemical `chem` of the neighbour at offset `d`. */
  function Val(s: ReactionState, x: nat, y: nat, d: (int, int), chem: nat): real
    requires Valid(s) && InGrid(s.dim, x + d.0, y + d.1) && chem < s.chems
  {
    Neighbour(s, x, y, d).conc[chem]
  }

  /** Reference definition: the 3x3 kernel applied to chemical `chem`,
      summed over the stencil row by row. */
  function KernelSum(cv: ClassicConvolution, s: ReactionState, x: nat, y: nat, chem: nat): real
    requires Valid(s) && Interior(s.dim, x, y) && chem < s.chems
  {
    Weight(cv, (-1, -1)) * Val(s, x, y, (-1, -1), chem)
    + Weight(cv, (0, -1)) * Val(s, x, y, (0, -1), chem)
    + Weight(cv, (1, -1)) * Val(s, x, y, (1, -1), chem)
    + Weight(cv, (-1, 0)) * Val(s, x, y, (-1, 0), chem)
    + Weight(cv, (0, 0)) * Val(s, x, y, (0, 0), chem)
    + Weight(cv, (1, 0)) * Val(s, x, y, (1, 0), chem)
    + Weight(cv, (-1, 1)) * Val(s, x, y, (-1, 1), chem)
    + Weight(cv, (0, 1)) * Val(s, x, y, (0, 1), chem)
    + Weight(cv, (1, 1)) * Val(s, x, y, (1, 1), chem)
  }

  /** One chemical of `operator()`, accumulated in the program's order:
      edges, scaled; plus corners, scaled; plus the scaled centre. */
  function ConvolveChemical(cv: ClassicConvolution, edges: seq<CellConcentration>, corners: seq<CellConcentration>,
                            center: CellConcentration, chem: nat): real
    requires |edges| == 4 && forall k | 0 <= k < 4 :: chem < |edges[k].conc|
    requires |corners| == 4 && forall k | 0 <= k < 4 :: chem < |corners[k].conc|
    requires chem < |center.conc|
  {
    Sum4(edges, chem) * cv.edgeMultiplier + Sum4(corners, chem) * cv.cornerMultiplier
    + center.conc[chem] * cv.centerMultiplier
  }

  /** The program's accumulation agrees with the reference kernel. */
  lemma ConvolveChemicalIsKernel(cv: ClassicConvolution, s: ReactionState, x: nat, y: nat, chem: nat)
    requires Valid(s) && Interior(s.dim, x, y) && chem < s.chems
    ensures ConvolveChemical(cv, GetEdges(s, x, y), GetCorners(s, x, y), Get(s, x, y), chem)
            == KernelSum(cv, s, x, y, chem)
  {
    var e := GetEdges(s, x, y);
    var c := GetCorners(s, x, y);
    assert Sum4(e, chem) == Val(s, x, y, (0, -1), chem) + Val(s, x, y, (1, 0), chem)
                           + Val(s, x, y, (0, 1), chem) + Val(s, x, y, (-1, 0), chem);
    assert Sum4(c, chem) == Val(s, x, y, (-1, -1), chem) + Val(s, x, y, (1, -1), chem)
                           + Val(s, x, y, (1, 1), chem) + Val(s, x, y, (-1, 1), chem);
  }

  /** `ClassicConvolution::operator()`: per chemical, the edge sum times the
      edge weight, plus the corner sum times the corner weight, plus the
      centre times the centre weight. The grid is only read. */
  function Apply(cv: ClassicConvolution, s: ReactionState, x: nat, y: nat): (r: seq<real>)
    requires Valid(s) && Interior(s.dim, x, y)
    ensures |r| == s.chems
    ensures forall chem | 0 <= chem < s.chems :: r[chem] == KernelSum(cv, s, x, y, chem)
  {
    var edges := GetEdges(s, x, y);
    var corners := GetCorners(s, x, y);
    var center := Get(s, x, y);
    var r := seq(s.chems, (chem: nat) requires chem < s.chems => ConvolveChemical(cv, edges, corners, center, chem));
    forall chem | 0 <= chem < s.chems
      ensures r[chem] == KernelSum(cv, s, x, y, chem)
    {
      ConvolveChemicalIsKernel(cv, s, x, y, chem);
    }
    r
  }

  /** Chemical `chem` of the result depends only on chemical `chem` of the
      3x3 block: grids that agree there give the same value. */
  lemma ApplyIsLocal(cv: ClassicConvolution, s: ReactionState, t: ReactionState, x: nat, y: nat, chem: nat)
    requires Valid(s) && Valid(t) && s.dim == t.dim && Interior(s.dim, x, y)
    requires chem < s.chems && chem < t.chems
    requires forall d | d in Stencil :: Val(s, x, y, d, chem) == Val(t, x, y, d, chem)
    ensures Apply(cv, s, x, y)[chem] == Apply(cv, t, x, y)[chem]
  {
  }

  /** The nine cells of the block around `(x, y)` all equal `v`. */
  predicate UniformBlock(s: ReactionState, x: nat, y: nat, v: CellConcentration)
    requires Valid(s) && Interior(s.dim, x, y)
  {
    forall d | d in Stencil :: Neighbour(s, x, y, d) == v
  }

  /** The weights of the stencil, one per offset. */
  lemma StencilWeights(cv: ClassicConvolution)
    ensures Weight(cv, (0, 0)) == cv.centerMultiplier
    ensures Weight(cv, (0, -1)) == Weight(cv, (1, 0)) == Weight(cv, (0, 1)) == Weight(cv, (-1, 0)) == cv.edgeMultiplier
    ensures Weight(cv, (-1, -1)) == Weight(cv, (1, -1)) == Weight(cv, (1, 1)) == Weight(cv, (-1, 1)) == cv.cornerMultiplier
  {
  }

  lemma KernelSumUniform(cv: ClassicConvolution, s: ReactionState, x: nat, y: nat, chem: nat, w: real)
    requires Valid(s) && Interior(s.dim, x, y) && chem < s.chems
    requires forall d | d in Stencil :: Val(s, x, y, d, chem) == w
    ensures KernelSum(cv, s, x, y, chem)
            == (cv.centerMultiplier + 4.0 * cv.edgeMultiplier + 4.0 * cv.cornerMultiplier) * w
  {
    StencilWeights(cv);
    assert Val(s, x, y, (-1, -1), chem) == w && Val(s, x, y, (0, -1), chem) == w && Val(s, x, y, (1, -1), chem) == w;
    assert Val(s, x, y, (-1, 0), chem) == w && Val(s, x, y, (0, 0), chem) == w && Val(s, x, y, (1, 0), chem) == w;
    assert Val(s, x, y, (-1, 1), chem) == w && Val(s, x, y, (0, 1), chem) == w && Val(s, x, y, (1, 1), chem) == w;
  }

  /** On a uniform block the result is the sum of all nine weights times the value. */
  lemma ApplyUniform(cv: ClassicConvolution, s: ReactionState, x: nat, y: nat, v: CellConcentration)
    requires Valid(s) && Interior(s.dim, x, y) && UniformBlock(s, x, y, v)
    ensures HasChemicals(v, s.chems)
    ensures forall chem | 0 <= chem < s.chems ::
              Apply(cv, s, x, y)[chem]
              == (cv.centerMultiplier + 4.0 * cv.edgeMultiplier + 4.0 * cv.cornerMultiplier) * v.conc[chem]
  {
    assert Neighbour(s, x, y, (0, 0)) == v;
    forall chem | 0 <= chem < s.chems
      ensures Apply(cv, s, x, y)[chem]
              == (cv.centerMultiplier + 4.0 * cv.edgeMultiplier + 4.0 * cv.cornerMultiplier) * v.conc[chem]
    {
      KernelSumUniform(cv, s, x, y, chem, v.conc[chem]);
    }
  }

  /** The program's weights sum to zero, so a uniform block convolves to zero:
      the kernel is a discrete Laplacian. */
  lemma MainConvolutionUniformIsZero(s: ReactionState, x: nat, y: nat, v: CellConcentration)
    requires Valid(s) && Interior(s.dim, x, y) && UniformBlock(s, x, y, v)
    ensures forall chem | 0 <= chem < s.chems :: Apply(MainConvolution, s, x, y)[chem] == 0.0
  {
    ApplyUniform(MainConvolution, s, x, y, v);
  }
}
