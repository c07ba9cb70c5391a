/**
 * The material model of the sandbox: the five kinds of cell and the
 * weight table the game builds in its constructor.
 */
module Materials {

  datatype Material = Air | Water | Sand | Dirt | Stone

  /** The weight table (`weight_values`): total over the five materials. */
  function Weight(m: Material): (w: nat)
    ensures w <= 10
    ensures w == 0 <==> m == Air
  {
    match m
    case Air => 0
    case Water => 1
    case Sand => 5
    case Dirt => 5
    case Stone => 10
  }

  /** What one visit of the physics pass does with a cell of this material. */
  datatype Rule = Inert | Displace | Spread

  /**
   * The dispatch of the pass: water flows, air and stone do nothing,
   * every other material (sand, dirt) drops.
   */
  function RuleOf(m: Material): (rule: Rule)
    ensures rule == Spread <==> m == Water
    ensures rule == Inert <==> m == Air || m == Stone
    ensures rule == Displace <==> IsGrain(m)
  {
    if m == Water then Spread
    else if m != Air && m != Stone then Displace
    else Inert
  }

  /** The granular materials: those the pass hands to `drop`. */
  predicate IsGrain(m: Material)
  {
    m == Sand || m == Dirt
  }

  /** The order of the weight table: Air < Water < Sand = Dirt < Stone. */
  lemma WeightOrder()
    ensures Weight(Air) < Weight(Water) < Weight(Sand)
    ensures Weight(Sand) == Weight(Dirt) < Weight(Stone)
    ensures forall m :: m != Stone ==> Weight(m) < Weight(Stone)
  {
  }

  /**
   * A grain is never strictly lighter than another grain, and only air and
   * water are strictly lighter than a grain.
   */
  lemma LighterThanGrain(grain: Material, m: Material)
    requires IsGrain(grain)
    ensures Weight(m) < Weight(grain) <==> m == Air || m == Water
  {
  }
}
