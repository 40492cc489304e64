/** `ReactionDiffusion`: owns the current grid and, as the function-local
    static `nextState` of `update`, a second grid used as the write buffer.
    A step recomputes the interior cells into the buffer and then swaps the
    two grids by move assignment. */
module Engine {
  import opened Util
  import opened Cells
  import opened Grid
  import Convolution
  import ReactionModel
  import opened Seeders

  /** `std::array<double, 2>{1, 0}`: all A, no B. */
  const Background: seq<real> := [1.0, 0.0]

  datatype ReactionDiffusion = ReactionDiffusion(
    state: ReactionState,
    nextState: ReactionState,
    convolution: Convolution.ClassicConvolution,
    model: ReactionModel.GrayScottModel)

  /** Both grids have the same side and the two Gray-Scott chemicals. */
  predicate WellFormed(e: ReactionDiffusion) {
    && Valid(e.state) && Valid(e.nextState)
    && e.state.dim == e.nextState.dim && e.state.dim < U32
    && e.state.chems == 2 && e.nextState.chems == 2
  }

  /** `seedReaction`: reset the current grid to the background by moving a
      fresh grid into it, then run the seeder once on it. The buffer is kept. */
  function SeedReaction(e: ReactionDiffusion, seeder: Seeder, draws: Draws): (r: ReactionDiffusion)
    requires WellFormed(e) && SeedOk(seeder, Init(e.state.dim, 2, Background), draws)
    ensures WellFormed(r)
    ensures r.state == Seed(seeder, Init(e.state.dim, 2, Background), draws)
    ensures r.nextState == e.nextState && r.convolution == e.convolution && r.model == e.model
  {
    var reset := MoveAssign(e.state, Init(e.state.dim, 2, Background)).0;
    assert reset == Init(e.state.dim, 2, Background);
    e.(state := Seed(seeder, reset, draws))
  }

  /** Seeding forgets the previous grid entirely. */
  lemma SeedReactionResets(e1: ReactionDiffusion, e2: ReactionDiffusion, seeder: Seeder, draws: Draws)
    requires WellFormed(e1) && WellFormed(e2) && e1.state.dim == e2.state.dim
    requires SeedOk(seeder, Init(e1.state.dim, 2, Background), draws)
    ensures SeedReaction(e1, seeder, draws).state == SeedReaction(e2, seeder, draws).state
  {
  }

  /** With a centred square seeder, the square holds the seed value and every
      other cell the background. */
  lemma SquareSeededReaction(e: ReactionDiffusion, half: nat, setTo: CellConcentration)
    requires WellFormed(e) && half < U32 / 2 && HasChemicals(setTo, 2)
    ensures SeedOk(SquareCenterSeed(half, setTo), Init(e.state.dim, 2, Background), Draws([], _ => 0.0))
    ensures var n := e.state.dim;
            var s := SeedReaction(e, SquareCenterSeed(half, setTo), Draws([], _ => 0.0)).state;
            forall x: nat, y: nat | x < n && y < n ::
              Get(s, x, y) == if half <= n / 2 && n / 2 - half <= x < n / 2 + half && n / 2 - half <= y < n / 2 + half
                              then setTo else CellConcentration(Background)
  {
  }

  /** The constructor: the grid starts default-constructed and is seeded at
      once; the buffer starts as a background grid. */
  function New(dim: nat, convolution: Convolution.ClassicConvolution, seeder: Seeder,
               model: ReactionModel.GrayScottModel, draws: Draws): (e: ReactionDiffusion)
    requires dim < U32 && SeedOk(seeder, Init(dim, 2, Background), draws)
    ensures WellFormed(e) && e.state.dim == dim
    ensures e.nextState == Init(dim, 2, Background)
    ensures e.state == Seed(seeder, Init(dim, 2, Background), draws)
  {
    SeedReaction(ReactionDiffusion(DefaultState(dim, 2), Init(dim, 2, Background), convolution, model), seeder, draws)
  }

  /** The value `update` writes for interior cell `(x, y)`: the reaction
      applied to the old cell and the convolution of the old grid. */
  function NextCell(e: ReactionDiffusion, x: nat, y: nat): (c: CellConcentration)
    requires WellFormed(e) && Convolution.Interior(e.state.dim, x, y)
    ensures HasChemicals(c, 2) && CellInUnit(c)
  {
    var conv := Convolution.Apply(e.convolution, e.state, x, y);
    var conc := Get(e.state, x, y);
    CellConcentration(ReactionModel.Update(e.model, conc, conv))
  }

  /** The buffer after the interior loop: interior cells recomputed from the
      old grid, border cells as the buffer had them. */
  function WriteInterior(e: ReactionDiffusion): (buf: ReactionState)
    requires WellFormed(e)
    ensures Valid(buf) && buf.dim == e.state.dim && buf.chems == 2
    ensures forall x: nat, y: nat | x < buf.dim && y < buf.dim ::
              Get(buf, x, y) == if Convolution.Interior(buf.dim, x, y) then NextCell(e, x, y) else Get(e.nextState, x, y)
  {
    var n := e.state.dim;
    var buf := e.nextState.(cells := seq(n * n, (i: nat) requires i < n * n => WrittenAt(e, i)));
    forall x: nat, y: nat | x < n && y < n
      ensures Get(buf, x, y) == if Convolution.Interior(n, x, y) then NextCell(e, x, y) else Get(e.nextState, x, y)
    {
      IndexCoords(n, x, y);
    }
    buf
  }

  /** The buffer cell at flat index `i` after the interior loop. */
  function WrittenAt(e: ReactionDiffusion, i: nat): (c: CellConcentration)
    requires WellFormed(e) && i < e.state.dim * e.state.dim
    ensures HasChemicals(c, 2)
  {
    var n := e.state.dim;
    IndexOnto(n, i);
    var x, y := i % n, i / n;
    if Convolution.Interior(n, x, y) then NextCell(e, x, y) else e.nextState.cells[i]
  }

  /** `ReactionDiffusion::update`: after the step the current grid is the old
      buffer with its interior recomputed from the old grid, and the buffer is
      the old grid. */
  function Update(e: ReactionDiffusion): (r: ReactionDiffusion)
    requires WellFormed(e)
    ensures WellFormed(r) && r.state.dim == e.state.dim
    ensures r.convolution == e.convolution && r.model == e.model
    ensures forall x: nat, y: nat | x < r.state.dim && y < r.state.dim ::
              Get(r.state, x, y) == if Convolution.Interior(r.state.dim, x, y) then NextCell(e, x, y)
                                    else Get(e.nextState, x, y)
    ensures r.nextState == e.state
  {
    var (current, next) := MoveAssign(e.state, WriteInterior(e));
    e.(state := current, nextState := next)
  }

  /** The loops of `update` as written: x outer, y inner, over
      `1 <= x, y < CellDim - 1`, each cell written into the buffer from reads
      of the old grid only; then the move assignment. Visiting order does not
      matter: the result is the closed form above. `CellDim - 1` is unsigned,
      so a zero-sized grid would wrap the bound and read out of range. */
  method UpdateLoop(e: ReactionDiffusion) returns (r: ReactionDiffusion)
    requires WellFormed(e) && e.state.dim > 0
    ensures r == Update(e)
  {
    var n := e.state.dim;
    var next := e.nextState;
    var x := 1;
    while x < n - 1
      invariant 1 <= x && (x == 1 || x <= n - 1)
      invariant Valid(next) && next.dim == n && next.chems == 2
      invariant forall x': nat, y': nat | x' < n && y' < n ::
                  Get(next, x', y') == if Convolution.Interior(n, x', y') && x' < x then NextCell(e, x', y')
                                       else Get(e.nextState, x', y')
    {
      var y := 1;
      while y < n - 1
        invariant 1 <= y && (y == 1 || y <= n - 1)
        invariant Valid(next) && next.dim == n && next.chems == 2
        invariant forall x': nat, y': nat | x' < n && y' < n ::
                    Get(next, x', y') == if Convolution.Interior(n, x', y') && (x' < x || (x' == x && y' < y))
                                         then NextCell(e, x', y')
                                         else Get(e.nextState, x', y')
      {
        var convRes := Convolution.Apply(e.convolution, e.state, x, y);
        var conc := Get(e.state, x, y);
        next := Set(next, x, y, CellConcentration(ReactionModel.Update(e.model, conc, convRes)));
        y := y + 1;
      }
      x := x + 1;
    }
    Extensionality(next, WriteInterior(e));
    var (current, buffer) := MoveAssign(e.state, next);
    r := e.(state := current, nextState := buffer);
  }

  /** A step keeps every concentration of both grids in [0,1]. */
  lemma UpdatePreservesUnit(e: ReactionDiffusion)
    requires WellFormed(e) && AllInUnit(e.state) && AllInUnit(e.nextState)
    ensures AllInUnit(Update(e).state) && AllInUnit(Update(e).nextState)
  {
  }

  /** Border cells are never computed: they alternate between the two grids,
      so after two steps both grids have their old borders back. */
  lemma BordersAlternate(e: ReactionDiffusion)
    requires WellFormed(e)
    ensures var r := Update(Update(e));
            forall x: nat, y: nat | x < e.state.dim && y < e.state.dim && !Convolution.Interior(e.state.dim, x, y) ::
              Get(r.state, x, y) == Get(e.state, x, y) && Get(r.nextState, x, y) == Get(e.nextState, x, y)
  {
  }

  /** With the program's weights, an interior cell of a background grid is
      recomputed as background. */
  lemma NextCellOnBackground(e: ReactionDiffusion, x: nat, y: nat)
    requires WellFormed(e) && e.convolution == Convolution.MainConvolution
    requires e.state == Init(e.state.dim, 2, Background)
    requires Convolution.Interior(e.state.dim, x, y)
    ensures NextCell(e, x, y) == CellConcentration(Background)
  {
    var bg := CellConcentration(Background);
    assert Convolution.UniformBlock(e.state, x, y, bg);
    Convolution.MainConvolutionUniformIsZero(e.state, x, y, bg);
    var conv := Convolution.Apply(e.convolution, e.state, x, y);
    assert conv == [0.0, 0.0];
    ReactionModel.BackgroundIsFixedPoint(e.model);
  }

  /** With the program's weights, a grid and buffer that are all background
      do not change: the background is a steady state of the whole step. */
  lemma BackgroundIsSteady(e: ReactionDiffusion)
    requires WellFormed(e) && e.convolution == Convolution.MainConvolution
    requires e.state == Init(e.state.dim, 2, Background) && e.nextState == e.state
    ensures Update(e) == e
  {
    var n := e.state.dim;
    var r := Update(e);
    forall x: nat, y: nat | x < n && y < n
      ensures Get(r.state, x, y) == Get(e.state, x, y)
    {
      if Convolution.Interior(n, x, y) {
        NextCellOnBackground(e, x, y);
      }
    }
    Extensionality(r.state, e.state);
  }

  /** `n` calls of `update`. */
  function Run(e: ReactionDiffusion, n: nat): (r: ReactionDiffusion)
    requires WellFormed(e)
    ensures WellFormed(r) && r.state.dim == e.state.dim
    decreases n
  {
    if n == 0 then e else Run(Update(e), n - 1)
  }

  /** Boundedness for any number of steps. */
  lemma {:induction false} RunPreservesUnit(e: ReactionDiffusion, n: nat)
    requires WellFormed(e) && AllInUnit(e.state) && AllInUnit(e.nextState)
    ensures AllInUnit(Run(e, n).state) && AllInUnit(Run(e, n).nextState)
    decreases n
  {
    if n > 0 {
      UpdatePreservesUnit(e);
      RunPreservesUnit(Update(e), n - 1);
    }
  }

  /** From construction on, through any number of steps, every concentration
      stays in [0,1], given a seeder whose values are in [0,1]. */
  lemma ReachableStatesInUnit(dim: nat, convolution: Convolution.ClassicConvolution, seeder: Seeder,
                              model: ReactionModel.GrayScottModel, draws: Draws, n: nat)
    requires dim < U32 && SeedOk(seeder, Init(dim, 2, Background), draws) && SeederInUnit(seeder, draws)
    ensures AllInUnit(Run(New(dim, convolution, seeder, model, draws), n).state)
    ensures AllInUnit(Run(New(dim, convolution, seeder, model, draws), n).nextState)
  {
    var e := New(dim, convolution, seeder, model, draws);
    SeedPreservesUnit(seeder, Init(dim, 2, Background), draws);
    RunPreservesUnit(e, n);
  }
}
