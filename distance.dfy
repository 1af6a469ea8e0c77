/**
 * Total travel distance of a route: the sum of the matrix entries of its
 * consecutive legs.
 *
 * `TotalDistance` is the accumulator loop as written, which indexes the
 * matrix by node id. `TotalDistanceByPosition` indexes it through the
 * node's position in the node list `V`, as the travel-time lookups of the
 * feasibility pass do.
 */
module Distance {
  import opened PdpInstance

  /** The leg `u -> v` names an entry of `c`. */
  predicate LegInRange(c: seq<seq<int>>, u: Node, v: Node) {
    0 <= u < |c| && 0 <= v < |c[u]|
  }

  /** Every leg `route[k - 1] -> route[k]` of the route names an entry of `c`. */
  predicate LegsInRange(c: seq<seq<int>>, route: seq<Node>) {
    forall k {:trigger route[k]} :: 0 < k < |route| ==> LegInRange(c, route[k - 1], route[k])
  }

  lemma LegAt(c: seq<seq<int>>, route: seq<Node>, k: nat)
    requires LegsInRange(c, route) && 0 < k < |route|
    ensures LegInRange(c, route[k - 1], route[k])
  {
  }

  predicate NonNegative(c: seq<seq<int>>) {
    forall i, j :: 0 <= i < |c| && 0 <= j < |c[i]| ==> c[i][j] >= 0
  }

  /** The sum of `c[route[k]][route[k + 1]]` over the legs of the route. */
  function Total(c: seq<seq<int>>, route: seq<Node>): (d: int)
    requires LegsInRange(c, route)
    ensures |route| <= 1 ==> d == 0
    ensures NonNegative(c) ==> d >= 0
  {
    if |route| <= 1 then 0
    else
      LegAt(c, route, 1);
      c[route[0]][route[1]] + Total(c, route[1..])
  }

  /** Appending a node adds exactly the leg from the old last node to it. */
  lemma {:induction false} TotalAppend(c: seq<seq<int>>, route: seq<Node>, x: Node)
    requires 0 < |route| && LegsInRange(c, route) && LegInRange(c, route[|route| - 1], x)
    ensures LegsInRange(c, route + [x])
    ensures Total(c, route + [x]) == Total(c, route) + c[route[|route| - 1]][x]
  {
    var r := route + [x];
    assert forall k :: 0 <= k < |route| ==> r[k] == route[k];
    assert LegsInRange(c, r) by {
      forall k | 0 < k < |r| ensures LegInRange(c, r[k - 1], r[k]) {
        if k < |route| {
          LegAt(c, route, k);
        }
      }
    }
    if |route| > 1 {
      assert r[1..] == route[1..] + [x];
      TotalAppend(c, route[1..], x);
    }
  }

  /** Joining two routes adds the leg between them. */
  lemma {:induction false} TotalConcat(c: seq<seq<int>>, a: seq<Node>, b: seq<Node>)
    requires 0 < |a| && 0 < |b| && LegsInRange(c, a) && LegsInRange(c, b)
    requires LegInRange(c, a[|a| - 1], b[0])
    ensures LegsInRange(c, a + b)
    ensures Total(c, a + b) == Total(c, a) + c[a[|a| - 1]][b[0]] + Total(c, b)
  {
    var ab := a + b;
    assert forall k :: 0 <= k < |a| ==> ab[k] == a[k];
    assert forall k :: 0 <= k < |b| ==> ab[|a| + k] == b[k];
    assert LegsInRange(c, ab) by {
      forall k | 0 < k < |ab| ensures LegInRange(c, ab[k - 1], ab[k]) {
        if k < |a| {
          LegAt(c, a, k);
        } else if k > |a| {
          assert ab[k - 1] == b[k - 1 - |a|] && ab[k] == b[k - |a|];
          LegAt(c, b, k - |a|);
        }
      }
    }
    if |a| == 1 {
      assert ab[1..] == b;
    } else {
      assert ab[1..] == a[1..] + b;
      TotalConcat(c, a[1..], b);
    }
  }

  /** The distance loop as written: it indexes `c` directly by node id. */
  method TotalDistance(route: seq<Node>, c: seq<seq<int>>) returns (total: int)
    requires LegsInRange(c, route)
    ensures total == Total(c, route)
  {
    total := 0;
    var k := 0;
    while k < |route| - 1
      invariant 0 <= k <= if |route| == 0 then 0 else |route| - 1
      invariant |route| == 0 ==> total == 0
      invariant |route| > 0 ==> LegsInRange(c, route[..k + 1]) && total == Total(c, route[..k + 1])
    {
      var i := route[k];
      var j := route[k + 1];
      LegAt(c, route, k + 1);
      assert route[..k + 2] == route[..k + 1] + [j];
      TotalAppend(c, route[..k + 1], j);
      total := total + c[i][j];
      k := k + 1;
    }
    if |route| > 0 {
      assert route[..k + 1] == route;
    }
  }

  /** The matrix positions of the route's nodes, through `V`. */
  function Positions(V: seq<Node>, route: seq<Node>): (p: seq<int>)
    ensures |p| == |route|
    ensures forall k :: 0 <= k < |route| ==> p[k] == MatrixIndex(V, route[k])
  {
    if route == [] then [] else [MatrixIndex(V, route[0])] + Positions(V, route[1..])
  }

  /** The distance loop indexing `c` by matrix position, as the node list intends. */
  method TotalDistanceByPosition(route: seq<Node>, c: seq<seq<int>>, V: seq<Node>) returns (total: int)
    requires LegsInRange(c, Positions(V, route))
    ensures total == Total(c, Positions(V, route))
  {
    total := TotalDistance(Positions(V, route), c);
  }

  /** When each node id is its own position in `V`, both ways of indexing agree. */
  lemma PositionsOfIdentityList(V: seq<Node>, route: seq<Node>)
    requires forall i :: 0 <= i < |V| ==> V[i] == i
    requires forall k :: 0 <= k < |route| ==> route[k] in V
    ensures Positions(V, route) == route
  {
  }

  /** The node list and distance matrix of the three-request instance with a paired set. */
  const PairingV: seq<Node> := [0, 1, 2, 5, 6, 7, 8]
  const PairingC: seq<seq<int>> := [
    [0, 2, 3, 4, 6, 8, 9],
    [2, 0, 1, 3, 5, 7, 9],
    [3, 1, 0, 2, 4, 6, 8],
    [4, 3, 2, 0, 3, 5, 7],
    [6, 5, 4, 3, 0, 2, 4],
    [8, 7, 6, 5, 2, 0, 3],
    [9, 9, 8, 7, 4, 3, 0]
  ]

  /**
   * On that instance the leg 0 -> 5 is charged c[0][5] = 8, the entry of
   * node 7, instead of c[0][3] = 4, the entry of node 5; and any leg that
   * touches node 8 is outside the 7 x 7 matrix when indexed by id.
   */
  lemma IdIndexingMisreadsPairingInstance()
    ensures Total(PairingC, [0, 5]) == 8
    ensures Total(PairingC, Positions(PairingV, [0, 5])) == 4
    ensures !LegsInRange(PairingC, [5, 8])
    ensures LegsInRange(PairingC, Positions(PairingV, [5, 8]))
  {
    assert MatrixIndex(PairingV, 0) == 0;
    assert MatrixIndex(PairingV, 5) == 3;
    assert MatrixIndex(PairingV, 8) == 6;
    assert Positions(PairingV, [0, 5]) == [0, 3];
    assert Positions(PairingV, [5, 8]) == [3, 6];
  }
}
