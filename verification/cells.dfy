/** The concentration vector of one grid cell (`CellConcentration<ChemicalCount>`). */
module Cells {
  import opened Util

  /** A fixed-length vector of chemical concentrations; well-formed cells of a
      grid with `chems` chemicals have `|conc| == chems`. */
  datatype CellConcentration = CellConcentration(conc: seq<real>)

  predicate HasChemicals(c: CellConcentration, chems: nat) {
    |c.conc| == chems
  }

  /** Every concentration of the cell lies in [0,1]. */
  predicate CellInUnit(c: CellConcentration) {
    forall k :: 0 <= k < |c.conc| ==> InUnit(c.conc[k])
  }

  /** The default constructor: `conc = {}` value-initialises every chemical. */
  function Default(chems: nat): (c: CellConcentration)
    ensures HasChemicals(c, chems)
    ensures forall k :: 0 <= k < chems ==> Chemical(c, k) == 0.0
  {
    CellConcentration(seq(chems, k => 0.0))
  }

  /** The explicit constructor copies a `std::array<double, ChemicalCount>`. */
  function FromArray(chems: nat, values: seq<real>): (c: CellConcentration)
    requires |values| == chems
    ensures HasChemicals(c, chems)
    ensures forall k :: 0 <= k < chems ==> Chemical(c, k) == values[k]
  {
    CellConcentration(values)
  }

  /** The const `operator[]`; the index must be below the chemical count. */
  function Chemical(c: CellConcentration, k: nat): (v: real)
    requires k < |c.conc|
    ensures v in c.conc
    ensures CellInUnit(c) ==> InUnit(v)
  {
    c.conc[k]
  }

  /** A write through the mutable `operator[]`. */
  function SetChemical(c: CellConcentration, k: nat, v: real): (d: CellConcentration)
    requires k < |c.conc|
    ensures |d.conc| == |c.conc|
    ensures Chemical(d, k) == v
    ensures forall j :: 0 <= j < |c.conc| && j != k ==> Chemical(d, j) == Chemical(c, j)
  {
    CellConcentration(c.conc[k := v])
  }

  /** The stream of values drawn by `makeRandom`'s uniform [0,1) engine:
      `draw(i)` is the i-th value the engine produces. */
  ghost predicate DrawsInUnit(draw: nat -> real) {
    forall i :: 0.0 <= draw(i) < 1.0
  }

  /** `makeRandom` as the `block`-th call on the draw stream: it takes the next
      `chems` draws, in chemical order. */
  function MakeRandom(draw: nat -> real, chems: nat, block: nat): (c: CellConcentration)
    ensures HasChemicals(c, chems)
    ensures forall k :: 0 <= k < chems ==> Chemical(c, k) == draw(block * chems + k)
  {
    CellConcentration(seq(chems, (k: nat) => draw(block * chems + k)))
  }

  /** A random cell drawn from a [0,1) stream is within [0,1]. */
  lemma MakeRandomInUnit(draw: nat -> real, chems: nat, block: nat)
    requires DrawsInUnit(draw)
    ensures CellInUnit(MakeRandom(draw, chems, block))
  {
  }

  /** Successive `makeRandom` calls read disjoint, consecutive runs of the
      stream: call `b` uses exactly draws `b*chems .. (b+1)*chems - 1`. */
  lemma {:induction false} MakeRandomBlocksDisjoint(chems: nat, b1: nat, b2: nat, k1: nat, k2: nat)
    requires b1 < b2 && k1 < chems && k2 < chems
    ensures b1 * chems + k1 < b2 * chems + k2
  {
    assert (b1 + 1) * chems <= b2 * chems by {
      MulMonotone(b1 + 1, b2, chems);
    }
  }
}
