/**
 * Route feasibility: one left-to-right pass over the route with state
 * (time, picked), rejecting at the first node that arrives after its window
 * closes, delivers a request not yet picked up, or delivers a request of a
 * paired set whose other member has not been picked up.
 *
 * `Step` and `Run` are the pass as a fold, `Feasible` is the pass as a loop,
 * and `TimeAt`, `PickedBy` and `NodeOk` state the same checks in closed form.
 */
module Feasibility {
  import opened PdpInstance

  function Max(a: int, b: int): (m: int) {
    if a >= b then a else b
  }

  /** Why the pass rejected a node, in the order the checks are made. */
  datatype Violation = LateArrival | DeliveryBeforePickup | PairNotPicked

  /** The state carried along the route: the clock and the requests picked up so far. */
  datatype State = State(time: int, picked: set<Request>)

  /** The pass after a number of nodes: still running, or rejected at node `at`. */
  datatype Progress = Running(state: State) | Rejected(at: nat, why: Violation)

  /** Leaving `u` and travelling to `v` looks up `service[u]` and a defined travel time. */
  predicate EdgeDefined(inst: Instance, u: Node, v: Node) {
    && u in inst.service
    && 0 <= MatrixIndex(inst.V, u) < |inst.T|
    && 0 <= MatrixIndex(inst.V, v) < |inst.T[MatrixIndex(inst.V, u)]|
  }

  /** Every dictionary and matrix lookup the pass makes on `route` is defined. */
  predicate Defined(inst: Instance, route: seq<Node>) {
    && (forall k :: 0 <= k < |route| ==> route[k] in inst.open && route[k] in inst.close)
    && (forall k {:trigger route[k]} :: 0 < k < |route| ==> EdgeDefined(inst, route[k - 1], route[k]))
  }

  /**
   * The clock at node k given the clock `time` before it: at the first node
   * it is aligned with the window opening, later it adds the service time
   * of the previous node and the travel time, then waits for the window.
   */
  function UpdateTime(inst: Instance, route: seq<Node>, k: nat, time: int): (t: int)
    requires k < |route| && Defined(inst, route)
    ensures t >= inst.open[route[k]]
    ensures k == 0 ==> t >= time && (t == time || t == inst.open[route[k]])
    ensures k > 0 ==>
      var arrival := time + inst.service[route[k - 1]] +
        inst.T[MatrixIndex(inst.V, route[k - 1])][MatrixIndex(inst.V, route[k])];
      t >= arrival && (t == arrival || t == inst.open[route[k]])
  {
    var i := route[k];
    if k == 0 then Max(time, inst.open[i])
    else
      var prev := route[k - 1];
      var updated := time + inst.service[prev] + inst.T[MatrixIndex(inst.V, prev)][MatrixIndex(inst.V, i)];
      Max(updated, inst.open[i])
  }

  /**
   * The clock is within the node's window. A clock that has waited for the
   * opening never passes a window that closes before it opens.
   */
  function WithinWindow(inst: Instance, v: Node, time: int): (ok: bool)
    requires v in inst.close
    ensures v in inst.open && time >= inst.open[v] && ok ==> inst.open[v] <= inst.close[v]
  {
    time <= inst.close[v]
  }

  /** Adds the request whose pickup node is `v`, if there is one. */
  function MarkPickup(inst: Instance, v: Node, picked: set<Request>): (p: set<Request>)
    ensures picked <= p
    ensures RequestAt(inst.pickup, v).Some? ==> p - picked <= {RequestAt(inst.pickup, v).value}
    ensures RequestAt(inst.pickup, v).Some? ==> RequestAt(inst.pickup, v).value in p
    ensures RequestAt(inst.pickup, v).None? ==> p == picked
  {
    match RequestAt(inst.pickup, v)
    case Some(r) => picked + {r}
    case None => picked
  }

  /**
   * A delivery node is accepted only once its request has been picked up.
   * A rejection names a delivery entry at `v` whose request is not picked;
   * when every request delivered at `v` is picked, the node is accepted.
   */
  function DeliveryOk(inst: Instance, v: Node, picked: set<Request>): (ok: bool)
    ensures !ok ==> exists i :: 0 <= i < |inst.delivery| && inst.delivery[i].node == v && inst.delivery[i].request !in picked
    ensures (forall i :: 0 <= i < |inst.delivery| && inst.delivery[i].node == v ==> inst.delivery[i].request in picked) ==> ok
  {
    match RequestAt(inst.delivery, v)
    case None => true
    case Some(r) => r in picked
  }

  /**
   * At a delivery node of `r`, the other member of every pair holding `r`
   * has been picked up. A node that delivers nothing always passes; a
   * rejection names a pair, holding a request delivered at `v`, whose other
   * member is not picked.
   */
  function PairingOk(inst: Instance, v: Node, picked: set<Request>): (ok: bool)
    ensures (forall i :: 0 <= i < |inst.delivery| ==> inst.delivery[i].node != v) ==> ok
    ensures !ok ==>
      exists i, p ::
        && 0 <= i < |inst.delivery| && inst.delivery[i].node == v
        && p in inst.pairedSets && p.Has(inst.delivery[i].request)
        && p.Other(inst.delivery[i].request) !in picked
  {
    match RequestAt(inst.delivery, v)
    case None => true
    case Some(r) => forall p :: p in inst.pairedSets && p.Has(r) ==> p.Other(r) in picked
  }

  /** The pairing check as the source makes it: a scan of the paired sets that stops at the first failure. */
  method CheckPairing(inst: Instance, v: Node, picked: set<Request>) returns (ok: bool)
    ensures ok == PairingOk(inst, v, picked)
  {
    var found := RequestAt(inst.delivery, v);
    if found.None? {
      return true;
    }
    var r := found.value;
    for i := 0 to |inst.pairedSets|
      invariant forall j :: 0 <= j < i && inst.pairedSets[j].Has(r) ==> inst.pairedSets[j].Other(r) in picked
    {
      var pair := inst.pairedSets[i];
      if pair.Has(r) {
        var other := pair.Other(r);
        if other !in picked {
          return false;
        }
      }
    }
    return true;
  }

  /** One node of the pass: time, window check, pickup, delivery check, pairing check. */
  function Step(inst: Instance, route: seq<Node>, k: nat, st: State): (p: Progress)
    requires k < |route| && Defined(inst, route)
    ensures p.Rejected? ==> p.at == k
    ensures p.Running? ==> st.picked <= p.state.picked && p.state.time <= inst.close[route[k]]
  {
    var v := route[k];
    var time := UpdateTime(inst, route, k, st.time);
    if !WithinWindow(inst, v, time) then Rejected(k, LateArrival)
    else
      var picked := MarkPickup(inst, v, st.picked);
      if !DeliveryOk(inst, v, picked) then Rejected(k, DeliveryBeforePickup)
      else if !PairingOk(inst, v, picked) then Rejected(k, PairNotPicked)
      else Running(State(time, picked))
  }

  /** The pass over the first n nodes, starting from time 0 and nothing picked. */
  function Run(inst: Instance, route: seq<Node>, n: nat): (p: Progress)
    requires n <= |route| && Defined(inst, route)
    ensures p.Rejected? ==> p.at < n
  {
    if n == 0 then Running(State(0, {}))
    else
      match Run(inst, route, n - 1)
      case Rejected(k, why) => Rejected(k, why)
      case Running(st) => Step(inst, route, n - 1, st)
  }

  /** The verdict of the whole pass: accepted exactly when every node passes its three checks. */
  function IsFeasible(inst: Instance, route: seq<Node>): (ok: bool)
    requires Defined(inst, route)
    ensures ok <==> forall k :: 0 <= k < |route| ==> NodeOk(inst, route, k)
  {
    RunMatchesClosedForm(inst, route, |route|);
    Run(inst, route, |route|).Running?
  }

  /** The pass as the source writes it: a loop over the route with early returns. */
  method Feasible(inst: Instance, route: seq<Node>) returns (ok: bool)
    requires Defined(inst, route) && PairsWellFormed(inst)
    ensures ok == IsFeasible(inst, route)
  {
    var picked: set<Request> := {};
    var time := 0;
    for k := 0 to |route|
      invariant Run(inst, route, k) == Running(State(time, picked))
    {
      var i := route[k];
      time := UpdateTime(inst, route, k, time);
      if !WithinWindow(inst, i, time) {
        RejectionIsFinal(inst, route, k + 1, |route|);
        return false;
      }
      picked := MarkPickup(inst, i, picked);
      if !DeliveryOk(inst, i, picked) {
        RejectionIsFinal(inst, route, k + 1, |route|);
        return false;
      }
      var pairsOk := CheckPairing(inst, i, picked);
      if !pairsOk {
        RejectionIsFinal(inst, route, k + 1, |route|);
        return false;
      }
    }
    return true;
  }

  /** Once the pass has rejected, no later node changes the verdict. */
  lemma {:induction false} RejectionIsFinal(inst: Instance, route: seq<Node>, n: nat, m: nat)
    requires n <= m <= |route| && Defined(inst, route)
    requires Run(inst, route, n).Rejected?
    ensures Run(inst, route, m) == Run(inst, route, n)
  {
    if m > n {
      RejectionIsFinal(inst, route, n, m - 1);
    }
  }

  // ---------------------------------------------------------------------
  // Closed forms of the pass
  // ---------------------------------------------------------------------

  /** The propagated clock at node k, whatever the checks decide. */
  function TimeAt(inst: Instance, route: seq<Node>, k: nat): (t: int)
    requires k < |route| && Defined(inst, route)
    ensures t >= inst.open[route[k]]
  {
    UpdateTime(inst, route, k, if k == 0 then 0 else TimeAt(inst, route, k - 1))
  }

  /** The requests whose pickup node occurs among the first n nodes. */
  function PickedBy(inst: Instance, route: seq<Node>, n: nat): (p: set<Request>)
    requires n <= |route|
  {
    set j | 0 <= j < n && RequestAt(inst.pickup, route[j]).Some? :: RequestAt(inst.pickup, route[j]).value
  }

  /** The first check that fails at node k, if any, judged on the closed forms. */
  function Failure(inst: Instance, route: seq<Node>, k: nat): (f: Option<Violation>)
    requires k < |route| && Defined(inst, route)
  {
    if TimeAt(inst, route, k) > inst.close[route[k]] then Some(LateArrival)
    else if !DeliveryOk(inst, route[k], PickedBy(inst, route, k + 1)) then Some(DeliveryBeforePickup)
    else if !PairingOk(inst, route[k], PickedBy(inst, route, k + 1)) then Some(PairNotPicked)
    else None
  }

  predicate NodeOk(inst: Instance, route: seq<Node>, k: nat)
    requires k < |route| && Defined(inst, route)
  {
    Failure(inst, route, k).None?
  }

  lemma PickedByNext(inst: Instance, route: seq<Node>, n: nat)
    requires n < |route|
    ensures PickedBy(inst, route, n + 1) == MarkPickup(inst, route[n], PickedBy(inst, route, n))
  {
  }

  /** One step from the closed-form state before node k passes exactly when node k is acceptable. */
  lemma StepMatchesClosedForm(inst: Instance, route: seq<Node>, k: nat, st: State)
    requires k < |route| && Defined(inst, route)
    requires st == State(if k == 0 then 0 else TimeAt(inst, route, k - 1), PickedBy(inst, route, k))
    ensures Step(inst, route, k, st).Running? <==> NodeOk(inst, route, k)
    ensures Step(inst, route, k, st).Running? ==>
      Step(inst, route, k, st).state == State(TimeAt(inst, route, k), PickedBy(inst, route, k + 1))
    ensures Step(inst, route, k, st).Rejected? ==> Failure(inst, route, k) == Some(Step(inst, route, k, st).why)
  {
    PickedByNext(inst, route, k);
    assert UpdateTime(inst, route, k, st.time) == TimeAt(inst, route, k);
  }

  /**
   * The fold and the closed forms agree: the pass runs through the first n
   * nodes exactly when every one of them is acceptable, and then its state
   * is the propagated clock and the set of requests picked up so far; it
   * rejects at the first node that fails, for the reason of the first check
   * that fails there.
   */
  lemma {:induction false} RunMatchesClosedForm(inst: Instance, route: seq<Node>, n: nat)
    requires n <= |route| && Defined(inst, route)
    ensures Run(inst, route, n).Running? <==> forall k :: 0 <= k < n ==> NodeOk(inst, route, k)
    ensures Run(inst, route, n).Running? ==>
      Run(inst, route, n).state == State(if n == 0 then 0 else TimeAt(inst, route, n - 1), PickedBy(inst, route, n))
    ensures Run(inst, route, n).Rejected? ==>
      var k := Run(inst, route, n).at;
      && (forall j :: 0 <= j < k ==> NodeOk(inst, route, j))
      && Failure(inst, route, k) == Some(Run(inst, route, n).why)
  {
    if n == 0 {
      assert PickedBy(inst, route, 0) == {};
    } else {
      RunMatchesClosedForm(inst, route, n - 1);
      var prev := Run(inst, route, n - 1);
      if prev.Running? {
        StepMatchesClosedForm(inst, route, n - 1, prev.state);
      } else {
        assert !NodeOk(inst, route, prev.at);
      }
    }
  }

  // ---------------------------------------------------------------------
  // Properties of the verdict
  // ---------------------------------------------------------------------

  /** The clock starts at 0, so the time at the first node is max(0, open[first]). */
  lemma FirstNodeTime(inst: Instance, route: seq<Node>)
    requires 0 < |route| && Defined(inst, route)
    ensures TimeAt(inst, route, 0) == Max(0, inst.open[route[0]])
    ensures Run(inst, route, 1).Running? ==> Run(inst, route, 1).state.time == Max(0, inst.open[route[0]])
  {
  }

  /** The time at a later node: previous time plus service and travel, then wait for the window. */
  lemma LaterNodeTime(inst: Instance, route: seq<Node>, k: nat)
    requires 0 < k < |route| && Defined(inst, route)
    ensures var cur, prev := route[k], route[k - 1];
      TimeAt(inst, route, k) ==
        Max(TimeAt(inst, route, k - 1) + inst.service[prev] +
            inst.T[MatrixIndex(inst.V, prev)][MatrixIndex(inst.V, cur)],
            inst.open[cur])
  {
  }

  /** Service and travel times are never negative on the edges the route uses. */
  predicate NonNegativeDelays(inst: Instance, route: seq<Node>)
    requires Defined(inst, route)
  {
    forall k {:trigger route[k]} :: 0 < k < |route| ==>
      var cur, prev := route[k], route[k - 1];
      && inst.service[prev] >= 0
      && inst.T[MatrixIndex(inst.V, prev)][MatrixIndex(inst.V, cur)] >= 0
  }

  /** With non-negative service and travel times the clock never goes back. */
  lemma {:induction false} TimeNonDecreasing(inst: Instance, route: seq<Node>, i: nat, j: nat)
    requires i <= j < |route| && Defined(inst, route) && NonNegativeDelays(inst, route)
    ensures TimeAt(inst, route, i) <= TimeAt(inst, route, j)
  {
    if i < j {
      TimeNonDecreasing(inst, route, i, j - 1);
    }
  }

  /** The pass over the first n nodes only looks at those nodes. */
  lemma {:induction false} RunOnPrefix(inst: Instance, route: seq<Node>, m: nat, n: nat)
    requires n <= m <= |route| && Defined(inst, route)
    ensures Defined(inst, route[..m])
    ensures Run(inst, route[..m], n) == Run(inst, route, n)
  {
    var pre := route[..m];
    assert forall k :: 0 <= k < m ==> pre[k] == route[k];
    if n > 0 {
      RunOnPrefix(inst, route, m, n - 1);
      if Run(inst, route, n - 1).Running? {
        var st := Run(inst, route, n - 1).state;
        assert UpdateTime(inst, pre, n - 1, st.time) == UpdateTime(inst, route, n - 1, st.time);
      }
    }
  }

  /** Every prefix of a feasible route is feasible; in particular the empty route is. */
  lemma PrefixClosed(inst: Instance, route: seq<Node>, m: nat)
    requires m <= |route| && Defined(inst, route) && IsFeasible(inst, route)
    ensures Defined(inst, route[..m]) && IsFeasible(inst, route[..m])
  {
    RunOnPrefix(inst, route, m, m);
    if Run(inst, route, m).Rejected? {
      RejectionIsFinal(inst, route, m, |route|);
    }
  }

  /** A rejection at node k is decided by the first k + 1 nodes alone. */
  lemma {:induction false} RejectionIsFinalAt(inst: Instance, route: seq<Node>, n: nat)
    requires n <= |route| && Defined(inst, route) && Run(inst, route, n).Rejected?
    ensures Run(inst, route, Run(inst, route, n).at + 1) == Run(inst, route, n)
  {
    var k := Run(inst, route, n).at;
    if Run(inst, route, n - 1).Rejected? {
      RejectionIsFinalAt(inst, route, n - 1);
    }
  }

  /**
   * Short-circuit: once a route is rejected at node k, the nodes after k do
   * not matter; any route sharing the first k + 1 nodes is rejected the same way.
   */
  lemma ShortCircuit(inst: Instance, route: seq<Node>, other: seq<Node>)
    requires Defined(inst, route) && Defined(inst, other)
    requires Run(inst, route, |route|).Rejected?
    requires Run(inst, route, |route|).at < |other|
    requires route[..Run(inst, route, |route|).at + 1] == other[..Run(inst, route, |route|).at + 1]
    ensures Run(inst, other, |other|) == Run(inst, route, |route|)
  {
    var k := Run(inst, route, |route|).at;
    RejectionIsFinalAt(inst, route, |route|);
    RunOnPrefix(inst, route, k + 1, k + 1);
    RunOnPrefix(inst, other, k + 1, k + 1);
    RejectionIsFinal(inst, other, k + 1, |other|);
  }

  /** On an accepted route no node is left after its window closes. */
  lemma FeasibleMeetsWindows(inst: Instance, route: seq<Node>, k: nat)
    requires k < |route| && Defined(inst, route) && IsFeasible(inst, route)
    ensures TimeAt(inst, route, k) <= inst.close[route[k]]
  {
    assert NodeOk(inst, route, k);
  }

  /** A late arrival rejects the route, whatever comes before or after. */
  lemma LateArrivalRejects(inst: Instance, route: seq<Node>, k: nat)
    requires k < |route| && Defined(inst, route)
    requires TimeAt(inst, route, k) > inst.close[route[k]]
    ensures !IsFeasible(inst, route)
  {
    assert !NodeOk(inst, route, k);
  }

  /**
   * Precedence: on an accepted route, every node that the delivery table
   * maps to request r is preceded (or accompanied) by a node that the
   * pickup table maps to r, and that node is r's pickup entry.
   */
  lemma FeasiblePrecedence(inst: Instance, route: seq<Node>, k: nat, r: Request)
    requires k < |route| && Defined(inst, route) && IsFeasible(inst, route)
    requires RequestAt(inst.delivery, route[k]) == Some(r)
    ensures exists j :: 0 <= j <= k && RequestAt(inst.pickup, route[j]) == Some(r) && Entry(r, route[j]) in inst.pickup
  {
    assert NodeOk(inst, route, k);
    assert r in PickedBy(inst, route, k + 1);
    var j :| 0 <= j < k + 1 && RequestAt(inst.pickup, route[j]).Some? && RequestAt(inst.pickup, route[j]).value == r;
    var i :| 0 <= i < |inst.pickup| && inst.pickup[i] == Entry(r, route[j]) &&
      forall l :: i < l < |inst.pickup| ==> inst.pickup[l].node != route[j];
  }

  /** Visiting a node the delivery table maps to r before any node the pickup table maps to r rejects the route. */
  lemma DeliveryBeforePickupRejects(inst: Instance, route: seq<Node>, k: nat, r: Request)
    requires k < |route| && Defined(inst, route)
    requires RequestAt(inst.delivery, route[k]) == Some(r)
    requires forall j :: 0 <= j <= k ==> RequestAt(inst.pickup, route[j]) != Some(r)
    ensures !IsFeasible(inst, route)
  {
    assert r !in PickedBy(inst, route, k + 1);
    assert !NodeOk(inst, route, k);
  }

  /**
   * Pairing: on an accepted route, at every node the delivery table maps to
   * r, the other member of each pair holding r has had a node the pickup
   * table maps to it visited at or before that node.
   */
  lemma FeasiblePairing(inst: Instance, route: seq<Node>, k: nat, r: Request, p: Pair)
    requires k < |route| && Defined(inst, route) && IsFeasible(inst, route)
    requires RequestAt(inst.delivery, route[k]) == Some(r)
    requires p in inst.pairedSets && p.Has(r)
    ensures exists j :: 0 <= j <= k && RequestAt(inst.pickup, route[j]) == Some(p.Other(r))
  {
    assert NodeOk(inst, route, k);
    assert p.Other(r) in PickedBy(inst, route, k + 1);
  }

  /** Visiting a node the delivery table maps to r while the other member of one of its pairs is not picked up rejects the route. */
  lemma UnpairedDeliveryRejects(inst: Instance, route: seq<Node>, k: nat, r: Request, p: Pair)
    requires k < |route| && Defined(inst, route)
    requires RequestAt(inst.delivery, route[k]) == Some(r)
    requires p in inst.pairedSets && p.Has(r)
    requires forall j :: 0 <= j <= k ==> RequestAt(inst.pickup, route[j]) != Some(p.Other(r))
    ensures !IsFeasible(inst, route)
  {
    assert p.Other(r) !in PickedBy(inst, route, k + 1);
    assert !NodeOk(inst, route, k);
  }

  /**
   * The pickup is marked before the delivery is checked: a node that both
   * tables map to the same request passes the precedence check on its own.
   */
  lemma PickupMarkedBeforeDelivery(inst: Instance, v: Node, r: Request, picked: set<Request>)
    requires RequestAt(inst.pickup, v) == Some(r) && RequestAt(inst.delivery, v) == Some(r)
    ensures DeliveryOk(inst, v, MarkPickup(inst, v, picked))
    ensures !DeliveryOk(inst, v, picked) ==> r !in picked
  {
  }
}
