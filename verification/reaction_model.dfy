/** `GrayScottModel`: the local reaction rule for two chemicals, A = chemical 0
    and B = chemical 1, with time step 1. */
module ReactionModel {
  import opened Util
  import opened Cells

  datatype GrayScottModel = GrayScottModel(dA: real, dB: real, feed: real, kill: real)

  /** The constructor `GrayScottModel(feed, kill, dA, dB)` with its default arguments. */
  function Make(feed: real := 0.055, kill: real := 0.062, dA: real := 1.0, dB: real := 0.5): (m: GrayScottModel)
    ensures m.feed == feed && m.kill == kill && m.dA == dA && m.dB == dB
  {
    GrayScottModel(dA, dB, feed, kill)
  }

  /** The `coral` preset: every parameter at its default. */
  function Coral(): (m: GrayScottModel)
    ensures m.feed == 0.055 && m.kill == 0.062 && m.dA == 1.0 && m.dB == 0.5
  {
    Make()
  }

  /** The `mitosis` preset: only feed and kill differ from `coral`. */
  function Mitosis(): (m: GrayScottModel)
    ensures m.feed == 0.0367 && m.kill == 0.0649
    ensures m.dA == Coral().dA && m.dB == Coral().dB
  {
    Make(0.0367, 0.0649)
  }

  /** New A before clamping: diffusion, minus the reaction A + 2B -> 3B, plus feed. */
  function RawA(m: GrayScottModel, a: real, b: real, convA: real): real {
    a + (m.dA * convA - a * b * b + m.feed * (1.0 - a)) * 1.0
  }

  /** New B before clamping: diffusion, plus the reaction, minus kill and feed. */
  function RawB(m: GrayScottModel, a: real, b: real, convB: real): real {
    b + (m.dB * convB + a * b * b - (m.kill + m.feed) * b) * 1.0
  }

  /** `GrayScottModel::update`: both new concentrations, each clamped to [0,1]. */
  function Update(m: GrayScottModel, conc: CellConcentration, conv: seq<real>): (r: seq<real>)
    requires HasChemicals(conc, 2) && |conv| == 2
    ensures |r| == 2 && InUnit(r[0]) && InUnit(r[1])
    ensures InUnit(RawA(m, conc.conc[0], conc.conc[1], conv[0])) ==> r[0] == RawA(m, conc.conc[0], conc.conc[1], conv[0])
    ensures InUnit(RawB(m, conc.conc[0], conc.conc[1], conv[1])) ==> r[1] == RawB(m, conc.conc[0], conc.conc[1], conv[1])
    ensures RawA(m, conc.conc[0], conc.conc[1], conv[0]) < 0.0 ==> r[0] == 0.0
    ensures RawA(m, conc.conc[0], conc.conc[1], conv[0]) > 1.0 ==> r[0] == 1.0
    ensures RawB(m, conc.conc[0], conc.conc[1], conv[1]) < 0.0 ==> r[1] == 0.0
    ensures RawB(m, conc.conc[0], conc.conc[1], conv[1]) > 1.0 ==> r[1] == 1.0
  {
    var a := Chemical(conc, 0);
    var b := Chemical(conc, 1);
    var newA := ConstrainZeroOne(RawA(m, a, b, conv[0]));
    var newB := ConstrainZeroOne(RawB(m, a, b, conv[1]));
    [newA, newB]
  }

  /** The background state A = 1, B = 0 with no diffusion is a fixed point. */
  lemma {:induction false} BackgroundIsFixedPoint(m: GrayScottModel)
    ensures Update(m, CellConcentration([1.0, 0.0]), [0.0, 0.0]) == [1.0, 0.0]
  {
    assert RawA(m, 1.0, 0.0, 0.0) == 1.0;
    assert RawB(m, 1.0, 0.0, 0.0) == 0.0;
  }

  /** Without B locally and without B diffusing in, no B appears. */
  lemma NoBStaysNoB(m: GrayScottModel, conc: CellConcentration, conv: seq<real>)
    requires HasChemicals(conc, 2) && |conv| == 2
    requires conc.conc[1] == 0.0 && conv[1] == 0.0
    ensures Update(m, conc, conv)[1] == 0.0
  {
    assert RawB(m, conc.conc[0], 0.0, 0.0) == 0.0;
  }

  /** New A ignores B's diffusion term and new B ignores A's. */
  lemma UpdateIgnoresOtherDiffusion(m: GrayScottModel, conc: CellConcentration, conv1: seq<real>, conv2: seq<real>)
    requires HasChemicals(conc, 2) && |conv1| == 2 && |conv2| == 2
    ensures conv1[0] == conv2[0] ==> Update(m, conc, conv1)[0] == Update(m, conc, conv2)[0]
    ensures conv1[1] == conv2[1] ==> Update(m, conc, conv1)[1] == Update(m, conc, conv2)[1]
  {
  }
}
