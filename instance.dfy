/**
 * The read-only problem instance of the single-vehicle pickup-and-delivery
 * router, and the two lookups that the feasibility pass derives from it:
 * the reverse maps node -> request, and the map node id -> matrix position.
 */
module PdpInstance {

  type Node = int
  type Request = int

  datatype Option<T> = None | Some(value: T)

  /** One `request: node` entry of the pickup or delivery dictionary; a
      dictionary is kept as its entries in insertion order. */
  datatype Entry = Entry(request: Request, node: Node)

  /** A paired set {first, second}: both pickups must occur before either delivery. */
  datatype Pair = Pair(first: Request, second: Request) {

    predicate Has(r: Request) {
      r == first || r == second
    }

    /** The member of the pair that is not `r`. */
    function Other(r: Request): (o: Request)
      requires Has(r)
      ensures Has(o)
      ensures first != second ==> o != r
    {
      if r == first then second else first
    }
  }

  /** The instance dictionary. `e == None` is an open route; `V == []` stands
      for an instance without a node list. `service`, `open` and `close` are
      keyed by node id, `c` and `T` are dense matrices. */
  datatype Instance = Instance(
    s: Node,
    e: Option<Node>,
    R: set<Request>,
    pickup: seq<Entry>,
    delivery: seq<Entry>,
    V: seq<Node>,
    c: seq<seq<int>>,
    T: seq<seq<int>>,
    service: map<Node, int>,
    open: map<Node, int>,
    close: map<Node, int>,
    pairedSets: seq<Pair>)

  /** Every paired set has exactly two distinct members. */
  predicate PairsWellFormed(inst: Instance) {
    forall p :: p in inst.pairedSets ==> p.first != p.second
  }

  /**
   * Reverse lookup node -> request built by the comprehension
   * `{table[r]: r for r in table}`: later entries overwrite earlier ones,
   * so when several requests share a node the last one in order wins.
   */
  function RequestAt(table: seq<Entry>, v: Node): (r: Option<Request>)
    ensures r.None? <==> forall i :: 0 <= i < |table| ==> table[i].node != v
    ensures r.Some? ==>
      exists i :: 0 <= i < |table| && table[i] == Entry(r.value, v) &&
        forall j :: i < j < |table| ==> table[j].node != v
  {
    if |table| == 0 then None
    else if table[|table| - 1].node == v then Some(table[|table| - 1].request)
    else RequestAt(table[..|table| - 1], v)
  }

  /**
   * Matrix position of node `v`: its position in `V` (the last one, as the
   * comprehension `{v: idx for idx, v in enumerate(V)}` keeps the last),
   * or `v` itself when `v` is not in `V`.
   */
  function MatrixIndex(V: seq<Node>, v: Node): (i: int)
    ensures v in V ==> 0 <= i < |V| && V[i] == v && forall j :: i < j < |V| ==> V[j] != v
    ensures v !in V ==> i == v
  {
    if |V| == 0 then v
    else if V[|V| - 1] == v then |V| - 1
    else MatrixIndex(V[..|V| - 1], v)
  }
}
