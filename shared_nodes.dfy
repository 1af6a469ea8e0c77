/**
 * Requests that share a node. The reverse lookups of the feasibility pass
 * keep only the last entry for each node, so at a shared node only the last
 * request is marked picked up or checked on delivery. The two instances here
 * show each direction of the effect.
 */
module SharedNodes {
  import opened PdpInstance
  import opened Feasibility

  /**
   * Requests 1 and 2 are both delivered at node 2 and picked up at nodes 3
   * and 1. Node ids are their own matrix positions.
   */
  const SharedDelivery: Instance := Instance(
    0, None, {1, 2},
    [Entry(1, 3), Entry(2, 1)],
    [Entry(1, 2), Entry(2, 2)],
    [],
    [], [[0, 1, 1], [1, 0, 1], [1, 1, 0]],
    map[0 := 0, 1 := 0, 2 := 0],
    map[0 := 0, 1 := 0, 2 := 0],
    map[0 := 100, 1 := 100, 2 := 100],
    [])

  /**
   * The delivery lookup maps node 2 to request 2 only, so a route that
   * visits node 2 after picking up request 2 is accepted although request 1,
   * also delivered at node 2, is never picked up.
   */
  lemma SharedDeliveryNodeSkipsEarlierRequest()
    ensures Entry(1, 2) in SharedDelivery.delivery
    ensures forall j :: 0 <= j < 3 ==> RequestAt(SharedDelivery.pickup, [0, 1, 2][j]) != Some(1)
    ensures Defined(SharedDelivery, [0, 1, 2]) && IsFeasible(SharedDelivery, [0, 1, 2])
  {
    var inst, route := SharedDelivery, [0, 1, 2];
    assert RequestAt(inst.pickup, 0) == None && RequestAt(inst.pickup, 1) == Some(2) && RequestAt(inst.pickup, 2) == None;
    assert Defined(inst, route);
    assert TimeAt(inst, route, 0) == 0;
    assert TimeAt(inst, route, 1) == 1;
    assert TimeAt(inst, route, 2) == 2;
    assert RequestAt(inst.delivery, 0) == None && RequestAt(inst.delivery, 1) == None;
    assert RequestAt(inst.delivery, 2) == Some(2);
    assert 2 in PickedBy(inst, route, 3) by {
      assert RequestAt(inst.pickup, route[1]) == Some(2);
    }
    assert NodeOk(inst, route, 0) && NodeOk(inst, route, 1) && NodeOk(inst, route, 2);
  }

  /**
   * Requests 1 and 2 are both picked up at node 1 and delivered at nodes 2
   * and 3. Node ids are their own matrix positions.
   */
  const SharedPickup: Instance := Instance(
    0, None, {1, 2},
    [Entry(1, 1), Entry(2, 1)],
    [Entry(1, 2), Entry(2, 3)],
    [],
    [], [[0, 1, 1], [1, 0, 1], [1, 1, 0]],
    map[0 := 0, 1 := 0, 2 := 0],
    map[0 := 0, 1 := 0, 2 := 0],
    map[0 := 100, 1 := 100, 2 := 100],
    [])

  /**
   * The pickup lookup maps node 1 to request 2 only, so visiting node 1
   * never marks request 1: the route that visits request 1's pickup node
   * and then its delivery node is rejected at the delivery, for precedence.
   */
  lemma SharedPickupNodeMarksOnlyLastRequest()
    ensures Entry(1, 1) in SharedPickup.pickup && Entry(1, 2) in SharedPickup.delivery
    ensures Defined(SharedPickup, [0, 1, 2])
    ensures Failure(SharedPickup, [0, 1, 2], 2) == Some(DeliveryBeforePickup)
    ensures !IsFeasible(SharedPickup, [0, 1, 2])
  {
    var inst, route := SharedPickup, [0, 1, 2];
    assert RequestAt(inst.pickup, 0) == None && RequestAt(inst.pickup, 1) == Some(2) && RequestAt(inst.pickup, 2) == None;
    assert RequestAt(inst.delivery, 2) == Some(1);
    assert Defined(inst, route);
    assert TimeAt(inst, route, 0) == 0;
    assert TimeAt(inst, route, 1) == 1;
    assert TimeAt(inst, route, 2) == 2;
    assert PickedBy(inst, route, 3) == {2};
    assert !NodeOk(inst, route, 2);
  }
}
