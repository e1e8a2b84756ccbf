/** Visiting the levels of a side in price order and the orders of a level through its links. */
module BookWalk {
  import opened Options
  import opened Trading
  import opened BookSpec
  import opened BookRep
  import opened BookUnlink
  import opened BookLink
  import opened BookState

  /** `todo` holds exactly the levels of the orders from position `k` on, and `k` starts a level. */
  ghost predicate Unvisited(levels: map<int, Level>, todo: map<int, Level>, v: seq<Resting>, k: nat) {
    && k <= |v|
    && (forall p :: p in todo ==> p in levels && todo[p] == levels[p])
    && (forall p :: p in todo ==> exists i :: k <= i < |v| && v[i].price == p)
    && (forall i :: k <= i < |v| ==> v[i].price in todo)
    && (0 < k < |v| ==> v[k - 1].price != v[k].price)
  }

  lemma AllUnvisited(nodes: seq<Node>, levels: map<int, Level>, q: seq<nat>, s: Side)
    requires SideRep(nodes, levels, q, s) && NoHollow(levels, View(nodes, q), None)
    ensures Unvisited(levels, levels, View(nodes, q), 0)
  {
    hide Placed, Linked, Sorted;
    forall p | p in levels ensures exists i :: 0 <= i < |q| && View(nodes, q)[i].price == p {
      KeyedPriceOccurs(nodes, levels, q, s, p);
    }
  }

  /** The best level not yet visited is that of order `k`, and its head leads there. */
  lemma NextLevel(nodes: seq<Node>, levels: map<int, Level>, q: seq<nat>, s: Side, todo: map<int, Level>, k: nat)
    requires SideRep(nodes, levels, q, s) && Unvisited(levels, todo, View(nodes, q), k) && todo != map[]
    ensures k < |q| && BestKey(s, todo, nodes[q[k]].price) && todo[nodes[q[k]].price].head == At(q[k])
    ensures forall p :: BestKey(s, todo, p) ==> p == nodes[q[k]].price
  {
    hide Placed, Totaled, NoDup, Linked, Headed, View;
    var v := View(nodes, q);
    SomeKey(todo);
    var x :| x in todo;
    assert k < |v|;
    LinkedAt(nodes, q, k);
    HeadedAt(nodes, levels, q, k);
    assert k > 0 ==> v[k - 1] == RestingOf(nodes[q[k - 1]]);
    BestOfRest(s, levels, todo, v, k);
  }

  lemma SomeKey(m: map<int, Level>)
    ensures m == map[] || exists x :: x in m
  {
    if forall x :: x !in m {
      assert m == map[];
    }
  }

  lemma NothingCrosses(v: seq<Resting>, k: nat, r: OrderRequest)
    requires k <= |v| && (k == |v| || !Crosses(r, v[k].price))
    ensures TotalCrossing(v[k..], r) == 0
  {
    assert k < |v| ==> v[k..][0] == v[k];
  }

  lemma BestOfRest(s: Side, levels: map<int, Level>, todo: map<int, Level>, v: seq<Resting>, k: nat)
    requires Sorted(s, v) && Unvisited(levels, todo, v, k) && k < |v|
    ensures BestKey(s, todo, v[k].price)
  {
    forall y | y in todo ensures AtLeastAsGood(s, v[k].price, y) {
      var i :| k <= i < |v| && v[i].price == y;
    }
  }

  /** Past the orders of one price, one level fewer is unvisited. */
  lemma LevelVisited(s: Side, levels: map<int, Level>, todo: map<int, Level>, v: seq<Resting>, k: nat, i: nat)
    requires Sorted(s, v) && Unvisited(levels, todo, v, k) && k < i <= |v|
    requires forall j :: k <= j < i ==> v[j].price == v[k].price
    requires i < |v| ==> v[i].price != v[k].price
    ensures Unvisited(levels, todo - {v[k].price}, v, i)
  {
    var p := v[k].price;
    forall j | i <= j < |v| ensures v[j].price != p {
      SamePriceIsContiguous(s, v, k, i, j);
    }
    forall x | x in todo && x != p ensures exists j :: i <= j < |v| && v[j].price == x {
      var j :| k <= j < |v| && v[j].price == x;
      assert j >= i;
    }
  }

  /** Where the level of order `k` ends. */
  ghost function LevelEnd(v: seq<Resting>, k: nat): (i: nat)
    requires k < |v|
    ensures k < i <= |v|
    ensures forall j :: k <= j < i ==> v[j].price == v[k].price
    ensures i < |v| ==> v[i].price != v[k].price
    decreases |v| - k
  {
    if k + 1 < |v| && v[k + 1].price == v[k].price then LevelEnd(v, k + 1) else k + 1
  }

  lemma {:induction false} TotalFrom(v: seq<Resting>, k: nat, r: OrderRequest)
    requires k < |v| && Crosses(r, v[k].price)
    ensures TotalCrossing(v[k..], r) ==
              TotalAt(v[k..LevelEnd(v, k)], v[k].price) + TotalCrossing(v[LevelEnd(v, k)..], r)
    decreases |v| - k
  {
    assert v[k..][1..] == v[k + 1..];
    var e := LevelEnd(v, k);
    assert v[k..e][1..] == v[k + 1..e];
    if k + 1 < |v| && v[k + 1].price == v[k].price {
      TotalFrom(v, k + 1, r);
    } else {
      assert v[k + 1..e] == [];
    }
  }

  /** What a level has cached is what the orders of its stretch of the queue add up to. */
  lemma LevelTotal(s: Side, levels: map<int, Level>, v: seq<Resting>, k: nat)
    requires Sorted(s, v) && Totaled(levels, v) && k < |v| && v[k].price in levels
    requires 0 < k ==> v[k - 1].price != v[k].price
    ensures levels[v[k].price].total == TotalAt(v[k..LevelEnd(v, k)], v[k].price)
  {
    var p, e := v[k].price, LevelEnd(v, k);
    assert v == v[..k] + v[k..e] + v[e..];
    TotalAtConcat(v[..k] + v[k..e], v[e..], p);
    TotalAtConcat(v[..k], v[k..e], p);
    forall j | 0 <= j < k ensures v[..k][j].price != p {
      SamePriceIsContiguous(s, v, j, k - 1, k);
    }
    forall j | 0 <= j < |v| - e ensures v[e..][j].price != p {
      SamePriceIsContiguous(s, v, k, e, e + j);
    }
    NoneToTotal(v[..k], p);
    NoneToTotal(v[e..], p);
  }

  // ---------- what snapshots and hashes read ----------

  function RequestOf(o: Resting, s: Side, symbol: nat): OrderRequest {
    OrderRequest(o.id, o.client, s, Limit, o.price, o.remaining, symbol)
  }

  function RequestsOf(v: seq<Resting>, s: Side, symbol: nat): (r: seq<OrderRequest>)
    ensures |r| == |v|
    ensures forall k :: 0 <= k < |v| ==> r[k] == RequestOf(v[k], s, symbol)
  {
    if v == [] then [] else RequestsOf(v[..|v| - 1], s, symbol) + [RequestOf(v[|v| - 1], s, symbol)]
  }

  const TWO_TO_64: int := 0x1_0000_0000_0000_0000

  function Mix(hash: bv64, value: int): bv64 {
    (hash ^ ((value % TWO_TO_64) as bv64)) * 1099511628211
  }

  function MixAll(hash: bv64, words: seq<int>): bv64
    decreases |words|
  {
    if words == [] then hash else Mix(MixAll(hash, words[..|words| - 1]), words[|words| - 1])
  }

  /** The words one side contributes: each price once, then its orders. */
  function WordsOf(v: seq<Resting>, k: nat): seq<int>
    requires k <= |v|
  {
    if k == 0 then []
    else
      WordsOf(v, k - 1)
      + (if k == 1 || v[k - 2].price != v[k - 1].price then [v[k - 1].price] else [])
      + [v[k - 1].id, v[k - 1].client, v[k - 1].remaining]
  }

  /** The words the state hash is made of. */
  function StateWords(b: Book): seq<int> {
    [b.symbol] + [0] + WordsOf(b.bids, |b.bids|) + [1] + WordsOf(b.asks, |b.asks|) + [|b.bids| + |b.asks|]
  }

  const HASH_SEED: bv64 := 1469598103934665603

  function StateHash(b: Book): bv64 { MixAll(HASH_SEED, StateWords(b)) }
}
