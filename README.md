# Single-vehicle pickup-and-delivery router: feasibility, distance, 2-opt move, initialisation

This project models the core of a small Python router for one vehicle that
serves pickup-and-delivery requests under time windows, pickup-before-delivery
precedence and "paired" requests (both pickups of a pair must happen before
either delivery), and proves properties of the model in Dafny.

- `instance.dfy` (module `PdpInstance`): the instance dictionary as a
  datatype, and the two lookups the feasibility pass derives from it: the
  reverse maps node -> request (`RequestAt`) and node id -> matrix position
  (`MatrixIndex`). Python dictionaries keyed by request are kept as their
  entries in insertion order, because the reverse lookup depends on that
  order: when several requests share a node, the last one wins.
- `feasibility.dfy` (module `Feasibility`): the route feasibility pass.
  `Feasible` is the loop as the source writes it, with state `(time, picked)`
  and early returns; `Step`/`Run` are the same pass as a fold;
  `TimeAt`, `PickedBy`, `Failure` and `NodeOk` state each check in closed
  form. `RunMatchesClosedForm` ties the two together, and the properties
  (first-node time, time propagation, monotone clock, prefix closure,
  short-circuit, precedence and pairing on accepted routes) are lemmas.
- `distance.dfy` (module `Distance`): the total-distance accumulator loop,
  proved equal to the recursive sum `Total`, with the append and
  concatenation laws and non-negativity.
- `route_ops.dfy` (module `RouteOps`): in-place segment reversal on an
  array, proved to reverse the segment, leave the rest unchanged and permute
  the elements; reversing twice restores the route.
- `shared_nodes.dfy` (module `SharedNodes`): two small instances whose
  requests share a node, showing what the last-entry-wins lookups do to the
  verdict.
- `solver.dfy` (module `Solver`): the solver entry point, which only builds
  the starting route `[s, e]` or `[s]`.

Where the written specification of the system and the code disagree, the
model follows the code:
- The specification has total distance index the matrix through the node
  list; `distance.py` indexes it by node id (see Findings).
- The specification describes paired groups of two or more requests whose
  other members must all be picked up; the code takes the single other member
  of a two-element set (`(pair - {r}).pop()`), so pairs are modelled as two
  distinct requests.
- The specification has the solver construct, improve and return two routes;
  the code returns the one starting route.
- The specification treats every request's pickup and delivery on its own.
  The code's reverse lookups keep one request per node, the last one entered,
  so when requests share a node only that one is marked or checked there. A
  request whose delivery node is shared with a later request is never checked
  for precedence or pairing, and a request whose pickup node is shared with a
  later request is never marked picked up (`shared_nodes.dfy` proves one
  instance of each).

Lookups that would raise in Python (a node missing from `open`, `close` or
`service`, a matrix index out of range) are preconditions of the operations
(`Feasibility.Defined`, `Distance.LegsInRange`), and negative Python indices
are excluded by them. An instance without a node list `V` is modelled with
`V == []`, so every node id is its own matrix index.

## Model

| member | source | states |
|---|---|---|
| PdpInstance.RequestAt | feasibility.py:49-50 | the reverse lookup finds a request exactly when some entry names the node, and then it is the request of the last such entry in insertion order |
| PdpInstance.MatrixIndex | feasibility.py:59 | a node in `V` maps to its (last) position in `V`, a node not in `V` maps to itself |
| PdpInstance.Pair.Other | feasibility.py:191 | the other member of a two-element pair is a member of the pair and differs from the given request |
| Feasibility.UpdateTime | feasibility.py:94-128 | the clock at a node is the later of the arrival time (previous time, or previous time plus service at the previous node plus travel time through matrix positions) and the window opening |
| Feasibility.WithinWindow | feasibility.py:136-140 | the window check; a clock that has waited for the opening never passes a window that closes before it opens (its effect on the verdict: FeasibleMeetsWindows, LateArrivalRejects) |
| Feasibility.DeliveryOk | feasibility.py:159-170 | the precedence check at a node: a rejection names a delivery entry at the node whose request is not picked, and the node passes when every request delivered there is picked (its effect on the verdict: FeasiblePrecedence, DeliveryBeforePickupRejects) |
| Feasibility.PairingOk | feasibility.py:178-195 | the pairing rule: a node that delivers nothing passes, and a rejection names a pair holding a request delivered at the node whose other member is not picked (its effect on the verdict: FeasiblePairing, UnpairedDeliveryRejects) |
| Feasibility.MarkPickup | feasibility.py:148-151 | marking a node only adds the request whose pickup is that node, and adds it when there is one |
| Feasibility.CheckPairing | feasibility.py:178-195 | the early-exit scan over the paired sets answers true exactly when every pair holding the delivered request has its other member picked up |
| Feasibility.Step | feasibility.py:64-81 | one node either rejects at that node, or continues with a time within the node's window and a picked set that only grew |
| Feasibility.Run | feasibility.py:61-85 | the fold over the first n nodes rejects, if at all, at one of those nodes |
| Feasibility.IsFeasible | feasibility.py:61-85 | the verdict of the whole pass is acceptance exactly when every node passes its window, precedence and pairing checks |
| Feasibility.Feasible | feasibility.py:36-85 | the loop with early returns answers exactly the verdict of the fold over the whole route |
| Feasibility.RejectionIsFinal | feasibility.py:66-81 | once the pass rejects, processing further nodes never changes the verdict |
| Feasibility.TimeAt | feasibility.py:123-126 | the propagated clock at every node is at least that node's window opening |
| Feasibility.PickedByNext | feasibility.py:71 | the requests picked up by node n+1 are those picked up before it plus the one node n picks up |
| Feasibility.RunMatchesClosedForm | feasibility.py:61-85 | the pass runs through n nodes iff each of them meets its window, precedence and pairing checks; its state is then the propagated clock and the set of pickups seen; a rejection is at the first failing node, for the first failing check in the order window, precedence, pairing |
| Feasibility.FirstNodeTime | feasibility.py:109-110 | the time at the first node is max(0, open[first]) |
| Feasibility.LaterNodeTime | feasibility.py:115-126 | at k > 0 the time is max(time + service[prev] + T[idx(prev)][idx(cur)], open[cur]) |
| Feasibility.TimeNonDecreasing | feasibility.py:123-126 | with non-negative service and travel times the clock never decreases along the route |
| Feasibility.RunOnPrefix | feasibility.py:61-64 | the pass over the first n nodes of a route is the same on every prefix holding them |
| Feasibility.PrefixClosed | feasibility.py:61-85 | every prefix of an accepted route (including the empty route) is accepted |
| Feasibility.RejectionIsFinalAt | feasibility.py:66-81 | a rejection at node k is already the verdict after k + 1 nodes |
| Feasibility.ShortCircuit | feasibility.py:66-81 | nodes after the first violation do not affect the result: any route sharing the nodes up to it is rejected the same way |
| Feasibility.FeasibleMeetsWindows | feasibility.py:136-140 | on an accepted route every node's propagated time is within its closing time |
| Feasibility.LateArrivalRejects | feasibility.py:66-69 | a node whose propagated time passes its closing time makes the route rejected |
| Feasibility.FeasiblePrecedence | feasibility.py:159-170 | on an accepted route, at every node the delivery lookup maps to r (the last delivery entry at that node), some node at or before it is one the pickup lookup maps to r, and it is a pickup entry of r |
| Feasibility.DeliveryBeforePickupRejects | feasibility.py:71-76 | a node the delivery lookup maps to r (the last delivery entry at that node), with no node at or before it that the pickup lookup maps to r, makes the route rejected |
| Feasibility.FeasiblePairing | feasibility.py:188-193 | on an accepted route, at every node the delivery lookup maps to r (the last delivery entry at that node), the other member of each pair holding r is what the pickup lookup maps some node at or before it to |
| Feasibility.UnpairedDeliveryRejects | feasibility.py:78-81 | a node the delivery lookup maps to r (the last delivery entry at that node), with no node at or before it that the pickup lookup maps to the other member of one of r's pairs, makes the route rejected |
| Feasibility.PickupMarkedBeforeDelivery | feasibility.py:71-76 | a node that is both the pickup and the delivery of r passes the precedence check, because the pickup is marked first |
| SharedNodes.SharedDeliveryNodeSkipsEarlierRequest | feasibility.py:50 | with requests 1 and 2 both delivered at node 2, the route [0, 1, 2] that picks up only request 2 is accepted, although request 1 is delivered there and never picked up |
| SharedNodes.SharedPickupNodeMarksOnlyLastRequest | feasibility.py:49 | with requests 1 and 2 both picked up at node 1, the route [0, 1, 2] that visits request 1's pickup node and then its delivery node is rejected at the delivery for precedence |
| Distance.Total | distance.py:17-30 | the sum of the legs is 0 for routes of at most one node and non-negative for a non-negative matrix |
| Distance.TotalAppend | distance.py:25-28 | appending x adds exactly c[last][x] |
| Distance.TotalConcat | distance.py:25-28 | total(a + b) = total(a) + c[a[-1]][b[0]] + total(b) for non-empty a and b |
| Distance.TotalDistance | distance.py:23-30 | the accumulator loop returns the sum of c[route[k]][route[k+1]] over all legs |
| Distance.Positions | feasibility.py:59 | each node of the route is replaced by its matrix position |
| Distance.TotalDistanceByPosition | distance.py:25-28 | the id-indexed loop run on matrix positions returns the sum of the matrix entries at the legs' matrix positions |
| Distance.PositionsOfIdentityList | distance.py:28 | when every node id is its own position in `V`, indexing by id and by position agree |
| Distance.IdIndexingMisreadsPairingInstance | instance_input.py:122-171 | on the paired instance, id indexing charges leg 0 -> 5 as 8 instead of 4 and puts a leg to node 8 outside the matrix |
| RouteOps.Swapped | route_ops.py:35-39 | exchanging i and j moves each to the other's place and keeps every other position |
| RouteOps.ReversedSegment | route_ops.py:18-32 | the reversed route has the same length |
| RouteOps.ReversedSegmentPeel | route_ops.py:29-32 | one loop iteration (swap the ends, move inwards) leaves the same reversal still to do |
| RouteOps.SwappedPermutes | route_ops.py:35-39 | a swap keeps the same multiset of nodes |
| RouteOps.ReversedSegmentPermutes | route_ops.py:29-39 | a segment reversal keeps the same multiset of nodes |
| RouteOps.ReversedSegmentTwice | route_ops.py:29-32 | reversing the same segment twice restores the route |
| RouteOps.Swap | route_ops.py:35-39 | exchanges exactly positions i and j in place and changes nothing else |
| RouteOps.ReverseSegment | route_ops.py:18-32 | after the call route[k] == old[start + end - k] on the segment, other positions are unchanged, the elements are a permutation, and start >= end leaves the list untouched |
| Solver.PdpGreedyInsert2Opt | solver.py:7-31 | the returned route begins with s; it is [s, e] when e is given and [s] otherwise |
| Solver.IgnoresRequests | solver.py:15-23 | the result does not depend on the request set |
| Solver.OpenStartRouteFeasibility | solver.py:18-21 | the open starting route [s] is feasible iff s alone meets its window, precedence and pairing checks |

## Findings

| source | as written | input that shows it | evidently intended | confidence | as-written member | corrected member |
|---|---|---|---|---|---|---|
| distance.py:28 | `total += c[i][j]` indexes the distance matrix by node id | the paired instance of instance_input.py:122-171 (V = [0, 1, 2, 5, 6, 7, 8], 7 x 7 matrix): leg 0 -> 5 costs c[0][5] = 8, the entry of node 7, and leg 5 -> 8 indexes column 8 of a 7-column matrix | index through the node's position in V, as the travel-time lookups at feasibility.py:120-123 do: leg 0 -> 5 costs c[0][3] = 4 | high; not executed | Distance.TotalDistance, Distance.IdIndexingMisreadsPairingInstance | Distance.TotalDistanceByPosition, Distance.PositionsOfIdentityList |

## Left out

- Greedy insertion construction and 2-opt improvement: solver.py:25-29 hold only placeholder comments, so there is no behaviour to model; only the segment reversal they would use is modelled.
- The unserved request set (solver.py:23) is computed and discarded; the model binds it and does not use it.
- Python exceptions: a missing dictionary key or out-of-range matrix index raises in the source; the model makes those lookups preconditions instead of an error result.
- Negative Python list indices (which count from the end) are excluded by the preconditions of the lookups and of `RouteOps.ReverseSegment`.
- Feasibility.Defined: requires the `open`, `close`, `service` and travel-time lookups for every node of the route, so `Feasibility.Feasible` and `Feasibility.ShortCircuit` exclude routes with an undefined node after the first rejection, which the source returns False on without ever reading it.
- Feasibility.Feasible: requires every paired set to hold two distinct requests; a singleton raises in the source at `pop()`, and a set of three or more has one arbitrary member checked, which a value model cannot reproduce.
- The `picked` set that `_mark_pickup` mutates in place is a local value reassigned by `Feasibility.MarkPickup`; no other reference to it exists, so no aliasing is lost.
- The reverse lookups are recomputed per node from the entry lists rather than built once before the loop; the answers are the same.
- main.py, solver_trace.py and the example instances in instance_input.py: entry point, printing and literal data, with no algorithmic content; one instance's node list and matrix appear as constants in the distance module.
- Floating point: all times and distances in the source are integers and are modelled as unbounded `int`.
