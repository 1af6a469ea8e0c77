/**
 * The solver entry point. Only its initialisation phase exists: it builds
 * the starting route from the depots and returns it.
 */
module Solver {
  import opened PdpInstance
  import Feasibility

  /**
   * The starting route: the start depot, followed by the end depot when
   * the instance has one. The unserved request set is computed from `R`
   * but plays no part in the result.
   */
  function PdpGreedyInsert2Opt(inst: Instance): (route: seq<Node>)
    ensures 0 < |route| && route[0] == inst.s
    ensures inst.e.Some? ==> |route| == 2 && route[|route| - 1] == inst.e.value
    ensures inst.e.None? ==> |route| == 1
  {
    var unservedRequests := inst.R;
    match inst.e
    case Some(e) => [inst.s, e]
    case None => [inst.s]
  }

  /** The result does not depend on the request set. */
  lemma IgnoresRequests(inst: Instance, R: set<Request>)
    ensures PdpGreedyInsert2Opt(inst.(R := R)) == PdpGreedyInsert2Opt(inst)
  {
  }

  /**
   * The open starting route `[s]` is accepted by the feasibility pass
   * exactly when the start depot passes the three checks on its own.
   */
  lemma OpenStartRouteFeasibility(inst: Instance)
    requires inst.e.None? && Feasibility.Defined(inst, PdpGreedyInsert2Opt(inst))
    ensures Feasibility.IsFeasible(inst, PdpGreedyInsert2Opt(inst)) <==>
      && Feasibility.Max(0, inst.open[inst.s]) <= inst.close[inst.s]
      && Feasibility.DeliveryOk(inst, inst.s, Feasibility.MarkPickup(inst, inst.s, {}))
      && Feasibility.PairingOk(inst, inst.s, Feasibility.MarkPickup(inst, inst.s, {}))
  {
    var route := PdpGreedyInsert2Opt(inst);
    Feasibility.FirstNodeTime(inst, route);
    assert Feasibility.PickedBy(inst, route, 1) == Feasibility.MarkPickup(inst, inst.s, {}) by {
      Feasibility.PickedByNext(inst, route, 0);
      assert Feasibility.PickedBy(inst, route, 0) == {};
    }
  }
}
