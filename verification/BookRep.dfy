/** The representation of one side of a book: a pool of nodes threaded into one FIFO list per price, with
    cached level totals. The predicates relate it to the sequence `q` of node indices in priority order, and
    the lemmas show that linking, unlinking and reducing a node keep the relation. All of it is stated on
    values, so that the class OrderBook only has to say which value each step produces. */
module BookRep {
  import opened Options
  import opened Trading
  import opened BookSpec

  /** An index into the pool, or npos. */
  datatype Link = Npos | At(index: nat)

  datatype Node = Node(
    id: nat, client: nat, price: int, remaining: nat, prev: Link, next: Link, side: Side, active: bool)

  datatype Level = Level(head: Link, tail: Link, total: nat, count: nat)

  const BLANK: Node := Node(0, 0, 0, 0, Npos, Npos, Buy, false)
  const NEW_LEVEL: Level := Level(Npos, Npos, 0, 0)

  function RestingOf(n: Node): Resting { Resting(n.id, n.client, n.price, n.remaining) }

  ghost predicate InPool(nodes: seq<Node>, q: seq<nat>) {
    forall k :: 0 <= k < |q| ==> q[k] < |nodes|
  }

  ghost predicate NoDup(q: seq<nat>) {
    forall i, j :: 0 <= i < j < |q| ==> q[i] != q[j]
  }

  /** The abstract queue a sequence of node indices stands for. */
  ghost function View(nodes: seq<Node>, q: seq<nat>): (v: seq<Resting>)
    requires InPool(nodes, q)
    ensures |v| == |q|
    ensures forall k :: 0 <= k < |q| ==> v[k] == RestingOf(nodes[q[k]])
  {
    if q == [] then [] else [RestingOf(nodes[q[0]])] + View(nodes, q[1..])
  }

  ghost function PrevOf(nodes: seq<Node>, q: seq<nat>, k: nat): Link
    requires InPool(nodes, q) && k < |q|
  {
    if k > 0 && nodes[q[k - 1]].price == nodes[q[k]].price then At(q[k - 1]) else Npos
  }

  ghost function NextOf(nodes: seq<Node>, q: seq<nat>, k: nat): Link
    requires InPool(nodes, q) && k < |q|
  {
    if k + 1 < |q| && nodes[q[k + 1]].price == nodes[q[k]].price then At(q[k + 1]) else Npos
  }

  /** prev and next of every node name its neighbours at the same price. */
  ghost predicate Linked(nodes: seq<Node>, q: seq<nat>)
    requires InPool(nodes, q)
  {
    forall k :: 0 <= k < |q| ==> nodes[q[k]].prev == PrevOf(nodes, q, k) && nodes[q[k]].next == NextOf(nodes, q, k)
  }

  ghost predicate Placed(nodes: seq<Node>, q: seq<nat>, s: Side)
    requires InPool(nodes, q)
  {
    forall k :: 0 <= k < |q| ==> nodes[q[k]].active && nodes[q[k]].side == s
  }

  /** head and tail of every level name the first and the last node at its price. */
  ghost predicate Headed(nodes: seq<Node>, levels: map<int, Level>, q: seq<nat>)
    requires InPool(nodes, q)
  {
    forall k :: 0 <= k < |q| ==>
      && nodes[q[k]].price in levels
      && (nodes[q[k]].prev.Npos? ==> levels[nodes[q[k]].price].head == At(q[k]))
      && (nodes[q[k]].next.Npos? ==> levels[nodes[q[k]].price].tail == At(q[k]))
  }

  /** The cached totals and counts are the sums and lengths of the lists; a hollow level has no ends. */
  ghost predicate Totaled(levels: map<int, Level>, v: seq<Resting>) {
    forall p :: p in levels ==>
      && levels[p].total == TotalAt(v, p)
      && levels[p].count == CountAt(v, p)
      && (CountAt(v, p) == 0 ==> levels[p] == NEW_LEVEL)
  }

  ghost predicate SideRep(nodes: seq<Node>, levels: map<int, Level>, q: seq<nat>, s: Side) {
    && InPool(nodes, q) && NoDup(q)
    && Placed(nodes, q, s)
    && Linked(nodes, q)
    && Headed(nodes, levels, q)
    && Totaled(levels, View(nodes, q))
    && Sorted(s, View(nodes, q))
  }

  /** Every level but possibly the one at `spared` has an order in it. */
  ghost predicate NoHollow(levels: map<int, Level>, v: seq<Resting>, spared: Option<int>) {
    forall p :: p in levels && spared != Some(p) ==> CountAt(v, p) > 0
  }

  /** The free list, the two sides and the id index account for every node exactly once. */
  ghost predicate PoolRep(nodes: seq<Node>, free: seq<nat>, byId: map<nat, nat>, bids: seq<nat>, asks: seq<nat>) {
    && InPool(nodes, free) && InPool(nodes, bids) && InPool(nodes, asks)
    && NoDup(free) && NoDup(bids) && NoDup(asks)
    && (forall i, j :: 0 <= i < |free| && 0 <= j < |bids| ==> free[i] != bids[j])
    && (forall i, j :: 0 <= i < |free| && 0 <= j < |asks| ==> free[i] != asks[j])
    && (forall i, j :: 0 <= i < |bids| && 0 <= j < |asks| ==> bids[i] != asks[j])
    && |free| + |bids| + |asks| == |nodes|
    && (forall k :: 0 <= k < |free| ==> nodes[free[k]] == BLANK)
    && (forall k :: 0 <= k < |bids| ==> nodes[bids[k]].id in byId && byId[nodes[bids[k]].id] == bids[k])
    && (forall k :: 0 <= k < |asks| ==> nodes[asks[k]].id in byId && byId[nodes[asks[k]].id] == asks[k])
    && (forall id :: id in byId ==> (byId[id] in bids || byId[id] in asks) && nodes[byId[id]].id == id)
  }

  // ---------- frames ----------

  lemma ViewsAgree(a: seq<Node>, b: seq<Node>, q: seq<nat>)
    requires InPool(a, q) && InPool(b, q)
    requires forall k :: 0 <= k < |q| ==> RestingOf(a[q[k]]) == RestingOf(b[q[k]])
    ensures View(a, q) == View(b, q)
  {
  }

  /** A side does not notice changes to nodes that are not on it. */
  lemma SideFrame(a: seq<Node>, b: seq<Node>, levels: map<int, Level>, q: seq<nat>, s: Side)
    requires SideRep(a, levels, q, s) && InPool(b, q)
    requires forall k :: 0 <= k < |q| ==> a[q[k]] == b[q[k]]
    ensures SideRep(b, levels, q, s) && View(a, q) == View(b, q)
  {
    hide View, Totaled, Sorted;
    ViewsAgree(a, b, q);
    forall k | 0 <= k < |q|
      ensures PrevOf(a, q, k) == PrevOf(b, q, k) && NextOf(a, q, k) == NextOf(b, q, k)
    {
    }
  }

  // ---------- counting ----------

  lemma {:induction false} CountIsZero(v: seq<Resting>, p: int)
    ensures CountAt(v, p) == 0 <==> forall k :: 0 <= k < |v| ==> v[k].price != p
  {
    if v != [] {
      CountIsZero(v[1..], p);
      assert forall k :: 1 <= k < |v| ==> v[k] == v[1..][k - 1];
    }
  }

  lemma InsertedTotals(v: seq<Resting>, k: nat, o: Resting, p: int)
    requires k <= |v|
    ensures TotalAt(v[..k] + [o] + v[k..], p) == TotalAt(v, p) + if o.price == p then o.remaining else 0
    ensures CountAt(v[..k] + [o] + v[k..], p) == CountAt(v, p) + if o.price == p then 1 else 0
  {
    assert v == v[..k] + v[k..];
    TotalAtConcat(v[..k], v[k..], p);
    TotalAtConcat(v[..k] + [o], v[k..], p);
    TotalAtConcat(v[..k], [o], p);
    assert [o][1..] == [];
  }

  lemma RemovedTotals(v: seq<Resting>, k: nat, p: int)
    requires k < |v|
    ensures TotalAt(v, p) == TotalAt(Without(v, k), p) + if v[k].price == p then v[k].remaining else 0
    ensures CountAt(v, p) == CountAt(Without(v, k), p) + if v[k].price == p then 1 else 0
  {
    var w := Without(v, k);
    assert w[..k] == v[..k] && w[k..] == v[k + 1..];
    assert v == w[..k] + [v[k]] + w[k..];
    InsertedTotals(w, k, v[k], p);
  }

  lemma ReplacedTotals(v: seq<Resting>, k: nat, o: Resting, p: int)
    requires k < |v| && o.price == v[k].price
    ensures CountAt(v[k := o], p) == CountAt(v, p)
    ensures TotalAt(v[k := o], p) + (if o.price == p then v[k].remaining else 0)
         == TotalAt(v, p) + if o.price == p then o.remaining else 0
  {
    RemovedTotals(v, k, p);
    RemovedTotals(v[k := o], k, p);
    assert Without(v[k := o], k) == Without(v, k);
  }

  // ---------- order ----------

  /** Sorting puts all nodes of one price side by side. */
  lemma SamePriceIsContiguous(s: Side, v: seq<Resting>, i: nat, j: nat, k: nat)
    requires Sorted(s, v) && i <= j <= k < |v|
    ensures v[i].price == v[k].price ==> v[j].price == v[i].price
  {
    assert i < j ==> AtLeastAsGood(s, v[i].price, v[j].price);
    assert j < k ==> AtLeastAsGood(s, v[j].price, v[k].price);
  }
}
