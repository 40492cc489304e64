/** The seeders that set the initial grid. Every seeder writes rectangles with
    two nested loops (x outer, y inner), calling a per-cell setter; the setter
    either stores a fixed concentration or a fresh `makeRandom` cell, which is
    modelled by `Fill`. Random draws are parameters: spot positions and sizes
    as a sequence, `makeRandom`'s values as a stream. */
module Seeders {
  import opened Util
  import opened Cells
  import opened Grid

  /** The cells `x0 <= x < x1`, `y0 <= y < y1` a pair of `for` loops visits;
      empty when either bound pair is not increasing. */
  datatype Rect = Rect(x0: nat, x1: nat, y0: nat, y1: nat)

  predicate InRect(r: Rect, x: int, y: int) {
    r.x0 <= x < r.x1 && r.y0 <= y < r.y1
  }

  predicate IsEmpty(r: Rect) {
    r.x1 <= r.x0 || r.y1 <= r.y0
  }

  function Width(r: Rect): nat {
    if r.x0 < r.x1 then r.x1 - r.x0 else 0
  }

  function Height(r: Rect): nat {
    if r.y0 < r.y1 then r.y1 - r.y0 else 0
  }

  /** The number of cells the loops visit. */
  function Area(r: Rect): nat {
    Width(r) * Height(r)
  }

  /** Every cell of the rectangle lies in a `dim x dim` grid. */
  predicate Fits(r: Rect, dim: nat) {
    IsEmpty(r) || (r.x1 <= dim && r.y1 <= dim)
  }

  /** The cells of a rectangle as a set of coordinates. */
  function RectCells(r: Rect): set<(nat, nat)> {
    set x: nat, y: nat | r.x0 <= x < r.x1 && r.y0 <= y < r.y1 :: (x, y)
  }

  /** The cells of column `x` between rows `y0` (inclusive) and `y1` (exclusive). */
  function Column(x: nat, y0: nat, y1: nat): set<(nat, nat)> {
    set y: nat | y0 <= y < y1 :: (x, y)
  }

  /** A rectangle holds `Width * Height` cells. */
  lemma {:induction false} RectCellsCount(r: Rect)
    ensures |RectCells(r)| == Area(r)
    decreases r.x1
  {
    if r.x1 <= r.x0 {
      assert RectCells(r) == {};
    } else {
      var left := r.(x1 := r.x1 - 1);
      RectSplitLastColumn(r);
      RectCellsCount(left);
      ColumnCount(r.x1 - 1, r.y0, r.y1);
      assert Width(r) == Width(left) + 1;
      MulSucc(Width(left), Height(r));
    }
  }

  lemma MulSucc(a: nat, b: nat)
    ensures (a + 1) * b == a * b + b
  {
  }

  lemma RectSplitLastColumn(r: Rect)
    requires r.x0 < r.x1
    ensures RectCells(r) == RectCells(r.(x1 := r.x1 - 1)) + Column(r.x1 - 1, r.y0, r.y1)
    ensures RectCells(r.(x1 := r.x1 - 1)) !! Column(r.x1 - 1, r.y0, r.y1)
    ensures |RectCells(r)| == |RectCells(r.(x1 := r.x1 - 1))| + |Column(r.x1 - 1, r.y0, r.y1)|
  {
  }

  lemma {:induction false} ColumnCount(x: nat, y0: nat, y1: nat)
    ensures |Column(x, y0, y1)| == if y0 < y1 then y1 - y0 else 0
    decreases y1
  {
    if y1 <= y0 {
      assert Column(x, y0, y1) == {};
    } else {
      assert Column(x, y0, y1) == Column(x, y0, y1 - 1) + {(x, y1 - 1)};
      ColumnCount(x, y0, y1 - 1);
    }
  }

  /** The per-cell setter: `SpotSeeder`/`SquareCenterSeed` store a fixed
      value, `RandomSeeder`/`RandomSpotSeeder` a new `makeRandom` cell.
      `first` counts the `makeRandom` calls made before this fill. */
  datatype Fill = Constant(value: CellConcentration) | Random(draw: nat -> real, first: nat)

  predicate FillOk(f: Fill, chems: nat) {
    f.Constant? ==> HasChemicals(f.value, chems)
  }

  /** The cell the setter produces on its `n`-th call within a fill. */
  function CallValue(f: Fill, chems: nat, n: nat): (c: CellConcentration)
    requires FillOk(f, chems)
    ensures HasChemicals(c, chems)
  {
    match f
    case Constant(v) => v
    case Random(draw, first) => MakeRandom(draw, chems, first + n)
  }

  /** The loops visit `(x, y)` as call number `(x - x0) * Height + (y - y0)`,
      and every visit number is below the area. */
  function VisitIndex(r: Rect, x: nat, y: nat): (k: nat)
    requires InRect(r, x, y)
    ensures k < Area(r)
  {
    MulMonotone(x - r.x0 + 1, Width(r), Height(r));
    (x - r.x0) * Height(r) + (y - r.y0)
  }

  /** The setter's value for cell `(x, y)` of a filled rectangle. */
  function FillValue(f: Fill, r: Rect, chems: nat, x: nat, y: nat): (c: CellConcentration)
    requires FillOk(f, chems) && InRect(r, x, y)
    ensures HasChemicals(c, chems)
  {
    CallValue(f, chems, VisitIndex(r, x, y))
  }

  /** The setter after `n` more calls. */
  function Advance(f: Fill, n: nat): (g: Fill)
    ensures g.Constant? <==> f.Constant?
    ensures f.Constant? ==> g == f
    ensures f.Random? ==> g.draw == f.draw && g.first == f.first + n
  {
    match f
    case Constant(_) => f
    case Random(draw, first) => Random(draw, first + n)
  }

  /** Closed form of one rectangle fill: cells inside get the setter's value
      for their visit number, all other cells keep theirs. */
  function FillRect(s: ReactionState, r: Rect, f: Fill): (t: ReactionState)
    requires Valid(s) && Fits(r, s.dim) && FillOk(f, s.chems)
    ensures Valid(t) && t.dim == s.dim && t.chems == s.chems
    ensures forall x: nat, y: nat | x < s.dim && y < s.dim ::
              Get(t, x, y) == if InRect(r, x, y) then FillValue(f, r, s.chems, x, y) else Get(s, x, y)
  {
    var n := s.dim;
    var t := s.(cells := seq(n * n, (i: nat) requires i < n * n => FillAt(s, r, f, i)));
    forall x: nat, y: nat | x < n && y < n
      ensures Get(t, x, y) == if InRect(r, x, y) then FillValue(f, r, s.chems, x, y) else Get(s, x, y)
    {
      IndexCoords(n, x, y);
    }
    t
  }

  /** The cell at flat index `i` after the fill. */
  function FillAt(s: ReactionState, r: Rect, f: Fill, i: nat): (c: CellConcentration)
    requires Valid(s) && Fits(r, s.dim) && FillOk(f, s.chems) && i < s.dim * s.dim
    ensures HasChemicals(c, s.chems)
  {
    IndexOnto(s.dim, i);
    var x, y := i % s.dim, i / s.dim;
    if InRect(r, x, y) then FillValue(f, r, s.chems, x, y) else s.cells[i]
  }

  /** The nested loops as the seeders run them, one setter call per visited
      cell; they compute the closed form whatever the visiting order inside. */
  method FillRectLoop(s: ReactionState, r: Rect, f: Fill) returns (t: ReactionState)
    requires Valid(s) && Fits(r, s.dim) && FillOk(f, s.chems)
    ensures t == FillRect(s, r, f)
  {
    t := s;
    var calls: nat := 0;
    var x := r.x0;
    while x < r.x1
      invariant r.x0 <= x && (x == r.x0 || x <= r.x1)
      invariant Valid(t) && t.dim == s.dim && t.chems == s.chems
      invariant calls == (x - r.x0) * Height(r)
      invariant forall x': nat, y': nat | x' < s.dim && y' < s.dim ::
                  Get(t, x', y') == if r.x0 <= x' < x && r.y0 <= y' < r.y1 then FillValue(f, r, s.chems, x', y')
                                    else Get(s, x', y')
    {
      var y := r.y0;
      while y < r.y1
        invariant r.y0 <= y && (y == r.y0 || y <= r.y1)
        invariant Valid(t) && t.dim == s.dim && t.chems == s.chems
        invariant calls == (x - r.x0) * Height(r) + (y - r.y0)
        invariant forall x': nat, y': nat | x' < s.dim && y' < s.dim ::
                    Get(t, x', y') == if (r.x0 <= x' < x && r.y0 <= y' < r.y1) || (x' == x && r.y0 <= y' < y)
                                      then FillValue(f, r, s.chems, x', y')
                                      else Get(s, x', y')
      {
        t := Set(t, x, y, CallValue(f, s.chems, calls));
        calls := calls + 1;
        y := y + 1;
      }
      assert (x + 1 - r.x0) * Height(r) == (x - r.x0) * Height(r) + Height(r);
      x := x + 1;
    }
    Extensionality(t, FillRect(s, r, f));
  }

  // ----- SquareCenterSeed -----

  /** The square's loop bounds `CellDim/2 - size` and `CellDim/2 + size` in
      unsigned arithmetic (`half` is the stored `size/2`). When `half` exceeds
      `dim/2` the start wraps past the end and nothing is written. */
  function SquareRect(dim: nat, half: nat): (r: Rect)
    requires dim < U32 && half < U32 / 2
    ensures Fits(r, dim)
    ensures half <= dim / 2 ==> r == Rect(dim / 2 - half, dim / 2 + half, dim / 2 - half, dim / 2 + half)
    ensures half > dim / 2 ==> IsEmpty(r)
  {
    var start := SubU32(dim / 2, half);
    var end := AddU32(dim / 2, half);
    Rect(start, end, start, end)
  }

  /** `SquareCenterSeed::seed`. */
  function SeedSquare(s: ReactionState, half: nat, setTo: CellConcentration): (t: ReactionState)
    requires Valid(s) && s.dim < U32 && half < U32 / 2 && HasChemicals(setTo, s.chems)
    ensures Valid(t) && t.dim == s.dim && t.chems == s.chems
    ensures forall x: nat, y: nat | x < s.dim && y < s.dim ::
              Get(t, x, y) == if half <= s.dim / 2 && s.dim / 2 - half <= x < s.dim / 2 + half
                                                   && s.dim / 2 - half <= y < s.dim / 2 + half
                              then setTo else Get(s, x, y)
  {
    FillRect(s, SquareRect(s.dim, half), Constant(setTo))
  }

  /** The square written is `2 * half` cells on a side. */
  lemma SquareCellCount(dim: nat, half: nat)
    requires dim < U32 && half <= dim / 2
    ensures |RectCells(SquareRect(dim, half))| == (2 * half) * (2 * half)
  {
    RectCellsCount(SquareRect(dim, half));
  }

  /** Size 4 on an 8 x 8 grid sets exactly the 4 x 4 block [2,6) x [2,6). */
  lemma SquareExample(s: ReactionState, setTo: CellConcentration)
    requires Valid(s) && s.dim == 8 && HasChemicals(setTo, s.chems)
    ensures forall x: nat, y: nat | x < 8 && y < 8 ::
              Get(SeedSquare(s, 4 / 2, setTo), x, y) == if 2 <= x < 6 && 2 <= y < 6 then setTo else Get(s, x, y)
  {
  }

  // ----- spot seeders -----

  /** One spot: `randSize()`, then `randSpot()` for x, then for y. */
  datatype SpotDraw = SpotDraw(size: nat, x: nat, y: nat)

  /** `RandomRange(a, b)` draws from [a, b - 1], with `b - 1` in unsigned arithmetic. */
  predicate InRandomRange(v: nat, a: nat, b: nat)
    requires b < U32
  {
    a <= v <= SubU32(b, 1)
  }

  /** The draws of a spot seeder's run are the ones its generators can produce. */
  predicate SpotDrawsOk(dim: nat, minSize: nat, maxSize: nat, spots: seq<SpotDraw>) {
    && 0 < dim < U32 && maxSize < U32
    && forall i | 0 <= i < |spots| ::
         InRandomRange(spots[i].size, minSize, maxSize) && InRandomRange(spots[i].x, 0, dim)
         && InRandomRange(spots[i].y, 0, dim)
  }

  /** `v` is visited by a loop from `span.0` up to, not including, `span.1`. */
  predicate InSpan(span: (nat, nat), v: int) {
    span.0 <= v < span.1
  }

  /** Clipping of one axis: `start = half >= c ? 0 : c - half` and
      `end = c + half >= dim ? dim - 1 : c + half`, with `c + half` in
      unsigned arithmetic. */
  function SpotRange(dim: nat, c: nat, half: nat): (r: (nat, nat))
    requires c < dim < U32 && half < U32
    ensures r.1 < dim
    ensures r.0 < r.1 ==> r.1 - r.0 <= 2 * half
    ensures half == 0 ==> r.1 <= r.0
    ensures c + half < U32 ==>
              forall v: int :: InSpan(r, v) <==> c - half <= v < c + half && 0 <= v < dim - 1
  {
    var start := if half >= c then 0 else c - half;
    var sum := AddU32(c, half);
    var end := if sum >= dim then dim - 1 else sum;
    (start, end)
  }

  /** The rectangle one spot writes. */
  function SpotRect(dim: nat, d: SpotDraw): (r: Rect)
    requires d.x < dim && d.y < dim && dim < U32 && d.size < U32
    ensures Fits(r, dim)
    ensures forall x, y | InRect(r, x, y) :: x <= dim - 2 && y <= dim - 2
    ensures Width(r) <= 2 * (d.size / 2) && Height(r) <= 2 * (d.size / 2)
  {
    var half := d.size / 2;
    var (x0, x1) := SpotRange(dim, d.x, half);
    var (y0, y1) := SpotRange(dim, d.y, half);
    Rect(x0, x1, y0, y1)
  }

  /** Every spot lies inside the grid. */
  predicate SpotsInGrid(dim: nat, spots: seq<SpotDraw>) {
    dim < U32 && forall i | 0 <= i < |spots| :: spots[i].x < dim && spots[i].y < dim && spots[i].size < U32
  }

  lemma SpotDrawsInGrid(dim: nat, minSize: nat, maxSize: nat, spots: seq<SpotDraw>)
    requires SpotDrawsOk(dim, minSize, maxSize, spots)
    ensures SpotsInGrid(dim, spots)
  {
  }

  /** Cell `(x, y)` lies in the rectangle of at least one spot. */
  predicate Covered(dim: nat, spots: seq<SpotDraw>, x: int, y: int)
    requires SpotsInGrid(dim, spots)
    decreases |spots|
  {
    |spots| > 0 && (InRect(SpotRect(dim, spots[0]), x, y) || Covered(dim, spots[1..], x, y))
  }

  lemma {:induction false} CoveredIffSomeSpot(dim: nat, spots: seq<SpotDraw>, x: int, y: int)
    requires SpotsInGrid(dim, spots)
    ensures Covered(dim, spots, x, y) <==> exists d | d in spots :: InRect(SpotRect(dim, d), x, y)
    decreases |spots|
  {
    if |spots| > 0 {
      CoveredIffSomeSpot(dim, spots[1..], x, y);
      assert forall d | d in spots :: d == spots[0] || d in spots[1..];
    }
  }

  /** `AbstractSpotSeeder::setCells`: for each spot in draw order, fill its
      clipped rectangle with the setter. */
  function SetCells(s: ReactionState, spots: seq<SpotDraw>, f: Fill): (t: ReactionState)
    requires Valid(s) && SpotsInGrid(s.dim, spots) && FillOk(f, s.chems)
    ensures Valid(t) && t.dim == s.dim && t.chems == s.chems
    decreases |spots|
  {
    if |spots| == 0 then s
    else
      var r := SpotRect(s.dim, spots[0]);
      SetCells(FillRect(s, r, f), spots[1..], Advance(f, Area(r)))
  }

  /** The number of setter calls `setCells` makes: one per visited cell of
      each spot's clipped rectangle. */
  function SpotCalls(dim: nat, spots: seq<SpotDraw>): nat
    requires SpotsInGrid(dim, spots)
    decreases |spots|
  {
    if |spots| == 0 then 0 else Area(SpotRect(dim, spots[0])) + SpotCalls(dim, spots[1..])
  }

  /** What `setCells` does to one cell: outside every spot it is unchanged;
      inside some spot it holds the fixed value, or for random setters the
      result of a `makeRandom` call made during this seeding. */
  lemma {:induction false} SetCellsEffect(s: ReactionState, spots: seq<SpotDraw>, f: Fill, x: nat, y: nat)
    requires Valid(s) && SpotsInGrid(s.dim, spots) && FillOk(f, s.chems) && x < s.dim && y < s.dim
    ensures !Covered(s.dim, spots, x, y) ==> Get(SetCells(s, spots, f), x, y) == Get(s, x, y)
    ensures Covered(s.dim, spots, x, y) && f.Constant? ==> Get(SetCells(s, spots, f), x, y) == f.value
    ensures Covered(s.dim, spots, x, y) && f.Random? ==>
              exists b: nat :: f.first <= b < f.first + SpotCalls(s.dim, spots)
                               && Get(SetCells(s, spots, f), x, y) == MakeRandom(f.draw, s.chems, b)
    decreases |spots|, 1
  {
    if |spots| > 0 {
      var r := SpotRect(s.dim, spots[0]);
      SetCellsEffect(FillRect(s, r, f), spots[1..], Advance(f, Area(r)), x, y);
      if f.Random? && Covered(s.dim, spots, x, y) {
        var b := SetCellsDrawnCall(s, spots, f, x, y);
      }
    }
  }

  /** For a random setter, the `makeRandom` call whose result a covered cell
      finally holds: the last call made for that cell. */
  lemma {:induction false} SetCellsDrawnCall(s: ReactionState, spots: seq<SpotDraw>, f: Fill, x: nat, y: nat)
    returns (b: nat)
    requires Valid(s) && SpotsInGrid(s.dim, spots) && FillOk(f, s.chems) && x < s.dim && y < s.dim
    requires f.Random? && Covered(s.dim, spots, x, y)
    ensures f.first <= b < f.first + SpotCalls(s.dim, spots)
    ensures Get(SetCells(s, spots, f), x, y) == MakeRandom(f.draw, s.chems, b)
    decreases |spots|, 0
  {
    var r := SpotRect(s.dim, spots[0]);
    var filled := FillRect(s, r, f);
    var g := Advance(f, Area(r));
    assert SetCells(s, spots, f) == SetCells(filled, spots[1..], g);
    if Covered(s.dim, spots[1..], x, y) {
      b := SetCellsDrawnCall(filled, spots[1..], g, x, y);
    } else {
      assert InRect(r, x, y);
      SetCellsEffect(filled, spots[1..], g, x, y);
      b := f.first + VisitIndex(r, x, y);
      calc {
        Get(SetCells(s, spots, f), x, y);
        Get(filled, x, y);
        FillValue(f, r, s.chems, x, y);
        MakeRandom(f.draw, s.chems, b);
      }
    }
  }

  /** Covered cells of a random spot fill lie in [0,1] when the draws do. */
  lemma SetCellsRandomInUnit(s: ReactionState, spots: seq<SpotDraw>, f: Fill, x: nat, y: nat)
    requires Valid(s) && SpotsInGrid(s.dim, spots) && FillOk(f, s.chems) && x < s.dim && y < s.dim
    requires f.Random? && DrawsInUnit(f.draw) && Covered(s.dim, spots, x, y)
    ensures CellInUnit(Get(SetCells(s, spots, f), x, y))
  {
    var b := SetCellsDrawnCall(s, spots, f, x, y);
    MakeRandomInUnit(f.draw, s.chems, b);
  }

  /** Two spot lists with the same elements cover the same cells. */
  lemma CoveredDependsOnSet(dim: nat, spots1: seq<SpotDraw>, spots2: seq<SpotDraw>, x: int, y: int)
    requires SpotsInGrid(dim, spots1) && SpotsInGrid(dim, spots2)
    requires (set d | d in spots1) == (set d | d in spots2)
    ensures Covered(dim, spots1, x, y) <==> Covered(dim, spots2, x, y)
  {
    CoveredIffSomeSpot(dim, spots1, x, y);
    CoveredIffSomeSpot(dim, spots2, x, y);
    var set1, set2 := set e | e in spots1, set e | e in spots2;
    forall d: SpotDraw ensures d in spots1 <==> d in spots2 {
      assert d in spots1 <==> d in set1;
      assert d in spots2 <==> d in set2;
    }
  }

  /** With a fixed value the outcome depends only on the set of spots drawn,
      not on their order or repetitions. */
  lemma SpotSeedOrderIndependent(s: ReactionState, spots1: seq<SpotDraw>, spots2: seq<SpotDraw>, v: CellConcentration)
    requires Valid(s) && SpotsInGrid(s.dim, spots1) && SpotsInGrid(s.dim, spots2) && HasChemicals(v, s.chems)
    requires (set d | d in spots1) == (set d | d in spots2)
    ensures SetCells(s, spots1, Constant(v)) == SetCells(s, spots2, Constant(v))
  {
    var t1 := SetCells(s, spots1, Constant(v));
    var t2 := SetCells(s, spots2, Constant(v));
    forall x: nat, y: nat | x < s.dim && y < s.dim
      ensures Get(t1, x, y) == Get(t2, x, y)
    {
      CoveredDependsOnSet(s.dim, spots1, spots2, x, y);
      SetCellsEffect(s, spots1, Constant(v), x, y);
      SetCellsEffect(s, spots2, Constant(v), x, y);
    }
    Extensionality(t1, t2);
  }

  // ----- the seeders -----

  /** The four seeders. `SquareCenterSeed` keeps `size / 2`, not `size`. */
  datatype Seeder =
    | SquareCenterSeed(half: nat, setTo: CellConcentration)
    | SpotSeeder(numSpots: nat, minSize: nat, maxSize: nat, setTo: CellConcentration)
    | RandomSeeder
    | RandomSpotSeeder(numSpots: nat, minSize: nat, maxSize: nat)

  /** The `SquareCenterSeed(size, setTo)` constructor. */
  function NewSquareCenterSeed(size: nat, setTo: CellConcentration): (sd: Seeder)
    ensures sd.SquareCenterSeed? && sd.setTo == setTo
    ensures 2 * sd.half <= size <= 2 * sd.half + 1
  {
    SquareCenterSeed(size / 2, setTo)
  }

  /** The random values one seeding consumes: the spot generators' draws and
      `makeRandom`'s stream. */
  datatype Draws = Draws(spots: seq<SpotDraw>, values: nat -> real)

  /** What each seeder needs of the grid, its configuration and the draws. */
  predicate SeedOk(sd: Seeder, s: ReactionState, draws: Draws) {
    && Valid(s) && s.dim < U32
    && match sd
       case SquareCenterSeed(half, setTo) => half < U32 / 2 && HasChemicals(setTo, s.chems)
       case SpotSeeder(numSpots, minSize, maxSize, setTo) =>
         HasChemicals(setTo, s.chems) && |draws.spots| == numSpots
         && SpotDrawsOk(s.dim, minSize, maxSize, draws.spots)
       case RandomSeeder => true
       case RandomSpotSeeder(numSpots, minSize, maxSize) =>
         |draws.spots| == numSpots && SpotDrawsOk(s.dim, minSize, maxSize, draws.spots)
  }

  /** `seed` of each seeder. */
  function Seed(sd: Seeder, s: ReactionState, draws: Draws): (t: ReactionState)
    requires SeedOk(sd, s, draws)
    ensures Valid(t) && t.dim == s.dim && t.chems == s.chems
  {
    match sd
    case SquareCenterSeed(half, setTo) => SeedSquare(s, half, setTo)
    case SpotSeeder(_, minSize, maxSize, setTo) =>
      SpotDrawsInGrid(s.dim, minSize, maxSize, draws.spots);
      SetCells(s, draws.spots, Constant(setTo))
    case RandomSeeder => FillRect(s, Rect(0, s.dim, 0, s.dim), Random(draws.values, 0))
    case RandomSpotSeeder(_, minSize, maxSize) =>
      SpotDrawsInGrid(s.dim, minSize, maxSize, draws.spots);
      SetCells(s, draws.spots, Random(draws.values, 0))
  }

  /** `RandomSeeder` replaces every cell; since x is the outer loop, cell
      `(x, y)` is the `(x * dim + y)`-th `makeRandom` result. */
  lemma RandomSeederOverwritesAll(s: ReactionState, draws: Draws)
    requires SeedOk(RandomSeeder, s, draws)
    ensures forall x: nat, y: nat | x < s.dim && y < s.dim ::
              Get(Seed(RandomSeeder, s, draws), x, y) == MakeRandom(draws.values, s.chems, x * s.dim + y)
  {
  }

  /** Spot seeders never write the last row or the last column. */
  lemma SpotSeedersSpareLastRowAndColumn(sd: Seeder, s: ReactionState, draws: Draws, x: nat, y: nat)
    requires (sd.SpotSeeder? || sd.RandomSpotSeeder?) && SeedOk(sd, s, draws)
    requires x < s.dim && y < s.dim && (x == s.dim - 1 || y == s.dim - 1)
    ensures Get(Seed(sd, s, draws), x, y) == Get(s, x, y)
  {
    SpotDrawsInGrid(s.dim, sd.minSize, sd.maxSize, draws.spots);
    CoveredIffSomeSpot(s.dim, draws.spots, x, y);
    SetCellsEffect(s, draws.spots, if sd.SpotSeeder? then Constant(sd.setTo) else Random(draws.values, 0), x, y);
  }

  /** The values a seeder writes are in [0,1]: its fixed value, or the
      `makeRandom` stream. */
  ghost predicate SeederInUnit(sd: Seeder, draws: Draws) {
    match sd
    case SquareCenterSeed(_, setTo) => CellInUnit(setTo)
    case SpotSeeder(_, _, _, setTo) => CellInUnit(setTo)
    case RandomSeeder => DrawsInUnit(draws.values)
    case RandomSpotSeeder(_, _, _) => DrawsInUnit(draws.values)
  }

  /** Seeding a [0,1] grid with [0,1] values leaves a [0,1] grid. */
  lemma SeedPreservesUnit(sd: Seeder, s: ReactionState, draws: Draws)
    requires SeedOk(sd, s, draws) && AllInUnit(s) && SeederInUnit(sd, draws)
    ensures AllInUnit(Seed(sd, s, draws))
  {
    var t := Seed(sd, s, draws);
    forall x: nat, y: nat | x < s.dim && y < s.dim
      ensures CellInUnit(Get(t, x, y))
    {
      match sd
      case SquareCenterSeed(_, _) =>
      case SpotSeeder(_, minSize, maxSize, setTo) =>
        SpotDrawsInGrid(s.dim, minSize, maxSize, draws.spots);
        SetCellsEffect(s, draws.spots, Constant(setTo), x, y);
      case RandomSeeder =>
        MakeRandomInUnit(draws.values, s.chems, x * s.dim + y);
      case RandomSpotSeeder(_, minSize, maxSize) =>
        SpotDrawsInGrid(s.dim, minSize, maxSize, draws.spots);
        SetCellsEffect(s, draws.spots, Random(draws.values, 0), x, y);
        if Covered(s.dim, draws.spots, x, y) {
          SetCellsRandomInUnit(s, draws.spots, Random(draws.values, 0), x, y);
        }
    }
  }
}
