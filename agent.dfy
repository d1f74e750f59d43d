/** The two players (src/agent.rs). The source's `AgentType` is this same type. */
module Agents {

  /** `MARU` (the circle) moves first, `BATSU` (the cross) second. */
  datatype Agent = Maru | Batsu {

    /** `Agent::next`: the other player. It has no fixed point, so turns alternate. */
    function Next(): (r: Agent)
      ensures r != this
      ensures this == Maru ==> r == Batsu
      ensures this == Batsu ==> r == Maru
    {
      match this
      case Maru => Batsu
      case Batsu => Maru
    }
  }

  /** Toggling twice gives back the same player. */
  lemma NextInvolution(a: Agent)
    ensures a.Next().Next() == a
  {
  }
}
