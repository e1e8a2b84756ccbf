/** Taking a node out of its list: what unlink and release_node do to the pool and to the levels, and the
    proof that the side stays a faithful picture of its queue, one order shorter. */
module BookUnlink {
  import opened Trading
  import opened BookSpec
  import opened BookRep

  function Drop(q: seq<nat>, k: nat): seq<nat>
    requires k < |q|
  {
    q[..k] + q[k + 1..]
  }

  ghost predicate Links(nodes: seq<Node>, i: nat)
    requires i < |nodes|
  {
    && (nodes[i].prev.At? ==> nodes[i].prev.index < |nodes|)
    && (nodes[i].next.At? ==> nodes[i].next.index < |nodes|)
  }

  /** The neighbours of `i` made to point past it. */
  ghost function Bypassed(nodes: seq<Node>, i: nat): (r: seq<Node>)
    requires i < |nodes| && Links(nodes, i)
    ensures |r| == |nodes|
  {
    var n := nodes[i];
    var a := if n.prev.At? then nodes[n.prev.index := nodes[n.prev.index].(next := n.next)] else nodes;
    if n.next.At? then a[n.next.index := a[n.next.index].(prev := n.prev)] else a
  }

  /** ... and `i` itself blanked. */
  ghost function Unlinked(nodes: seq<Node>, i: nat): (r: seq<Node>)
    requires i < |nodes| && Links(nodes, i)
    ensures |r| == |nodes|
  {
    Bypassed(nodes, i)[i := BLANK]
  }

  /** The level once node `n` has left it. */
  ghost function LevelWithout(level: Level, n: Node): Level
    requires n.remaining <= level.total && level.count > 0
  {
    Level(if n.prev.At? then level.head else n.next, if n.next.At? then level.tail else n.prev,
          level.total - n.remaining, level.count - 1)
  }

  /** The levels once node `n` has left its own, which goes too if that leaves it without a head. */
  ghost function LevelsWithout(levels: map<int, Level>, n: Node): map<int, Level>
    requires n.price in levels && n.remaining <= levels[n.price].total && levels[n.price].count > 0
  {
    var level := LevelWithout(levels[n.price], n);
    if level.head.Npos? then levels - {n.price} else levels[n.price := level]
  }

  lemma NeighboursOf(nodes: seq<Node>, levels: map<int, Level>, q: seq<nat>, s: Side, k: nat)
    requires SideRep(nodes, levels, q, s) && k < |q|
    ensures Links(nodes, q[k])
    ensures nodes[q[k]].price in levels
    ensures var level := levels[nodes[q[k]].price];
            nodes[q[k]].remaining <= level.total && level.count > 0
  {
    var v := View(nodes, q);
    assert v[k] == RestingOf(nodes[q[k]]);
    RemovedTotals(v, k, v[k].price);
  }

  lemma UnlinkedOthers(nodes: seq<Node>, levels: map<int, Level>, q: seq<nat>, s: Side, k: nat, i: nat)
    requires SideRep(nodes, levels, q, s) && k < |q| && i < |nodes| && i != q[k]
    requires Links(nodes, q[k])
    ensures Unlinked(nodes, q[k])[i] ==
              nodes[i].(prev := if nodes[q[k]].next == At(i) then nodes[q[k]].prev else nodes[i].prev,
                        next := if nodes[q[k]].prev == At(i) then nodes[q[k]].next else nodes[i].next)
  {
    hide View, Totaled, Sorted;
  }

  lemma DropIndices(q: seq<nat>, k: nat, j: nat)
    requires NoDup(q) && k < |q| && j < |q| - 1
    ensures Drop(q, k)[j] == q[if j < k then j else j + 1]
    ensures q[k] !in Drop(q, k) && NoDup(Drop(q, k))
  {
  }

  /** The queue seen through the pool after the removal. */
  lemma UnlinkedView(nodes: seq<Node>, levels: map<int, Level>, q: seq<nat>, s: Side, k: nat)
    requires SideRep(nodes, levels, q, s) && k < |q| && Links(nodes, q[k])
    ensures var r := Unlinked(nodes, q[k]);
            InPool(r, Drop(q, k)) && View(r, Drop(q, k)) == Without(View(nodes, q), k)
    ensures Placed(Unlinked(nodes, q[k]), Drop(q, k), s)
  {
    hide Unlinked, Totaled, Sorted, Linked, Headed, Links;
    var r, q' := Unlinked(nodes, q[k]), Drop(q, k);
    forall j | 0 <= j < |q'|
      ensures q'[j] < |nodes| && RestingOf(r[q'[j]]) == RestingOf(nodes[q'[j]])
      ensures r[q'[j]].active && r[q'[j]].side == s
    {
      DropIndices(q, k, j);
      UnlinkedOthers(nodes, levels, q, s, k, q'[j]);
    }
    assert View(r, q') == Without(View(nodes, q), k);
  }

  lemma LinkedAt(nodes: seq<Node>, q: seq<nat>, k: nat)
    requires InPool(nodes, q) && Linked(nodes, q) && k < |q|
    ensures nodes[q[k]].prev == PrevOf(nodes, q, k) && nodes[q[k]].next == NextOf(nodes, q, k)
  {
  }

  ghost function OldIndex(k: nat, j: nat): nat { if j < k then j else j + 1 }

  /** The link of a neighbour that is not `q[k]` itself, before and after. */
  lemma UnlinkedPrevAt(nodes: seq<Node>, levels: map<int, Level>, q: seq<nat>, s: Side, k: nat, j: nat)
    requires SideRep(nodes, levels, q, s) && k < |q| && Links(nodes, q[k]) && j < |q| - 1
    ensures var i := OldIndex(k, j);
            Unlinked(nodes, q[k])[q[i]].prev ==
              if j > 0 && nodes[q[OldIndex(k, j - 1)]].price == nodes[q[i]].price then At(q[OldIndex(k, j - 1)])
                  else Npos
  {
    hide Unlinked, Totaled, Headed, Links, View, Placed, Linked;
    var i := OldIndex(k, j);
    UnlinkedOthers(nodes, levels, q, s, k, q[i]);
    LinkedAt(nodes, q, i);
    LinkedAt(nodes, q, k);
    if 0 < k < |q| - 1 {
      SamePriceIsContiguous(s, View(nodes, q), k - 1, k, k + 1);
    }
  }

  lemma UnlinkedNextAt(nodes: seq<Node>, levels: map<int, Level>, q: seq<nat>, s: Side, k: nat, j: nat)
    requires SideRep(nodes, levels, q, s) && k < |q| && Links(nodes, q[k]) && j < |q| - 1
    ensures var i := OldIndex(k, j);
            Unlinked(nodes, q[k])[q[i]].next ==
              if j + 1 < |q| - 1 && nodes[q[OldIndex(k, j + 1)]].price == nodes[q[i]].price
              then At(q[OldIndex(k, j + 1)]) else Npos
  {
    hide Unlinked, Totaled, Headed, Links, View, Placed, Linked;
    var i := OldIndex(k, j);
    UnlinkedOthers(nodes, levels, q, s, k, q[i]);
    LinkedAt(nodes, q, i);
    LinkedAt(nodes, q, k);
    if 0 < k < |q| - 1 {
      SamePriceIsContiguous(s, View(nodes, q), k - 1, k, k + 1);
    }
  }

  lemma UnlinkedPrices(nodes: seq<Node>, levels: map<int, Level>, q: seq<nat>, s: Side, k: nat)
    requires SideRep(nodes, levels, q, s) && k < |q| && Links(nodes, q[k])
    ensures forall j :: 0 <= j < |q| - 1 ==>
              && Drop(q, k)[j] == q[OldIndex(k, j)]
              && Unlinked(nodes, q[k])[Drop(q, k)[j]].price == nodes[Drop(q, k)[j]].price
  {
    hide Unlinked, Totaled, Headed, Links, View, Placed, Linked, Sorted;
    forall j | 0 <= j < |q| - 1
      ensures Drop(q, k)[j] == q[OldIndex(k, j)]
      ensures Unlinked(nodes, q[k])[Drop(q, k)[j]].price == nodes[Drop(q, k)[j]].price
    {
      DropIndices(q, k, j);
      UnlinkedOthers(nodes, levels, q, s, k, q[OldIndex(k, j)]);
    }
  }

  lemma UnlinkedLinks(nodes: seq<Node>, levels: map<int, Level>, q: seq<nat>, s: Side, k: nat)
    requires SideRep(nodes, levels, q, s) && k < |q| && q[k] < |nodes| && Links(nodes, q[k])
    ensures var r := Unlinked(nodes, q[k]);
            InPool(r, Drop(q, k)) && Linked(r, Drop(q, k))
  {
    hide Unlinked, SideRep, Links, Drop;
    UnlinkedView(nodes, levels, q, s, k);
    UnlinkedPrices(nodes, levels, q, s, k);
    var r, q' := Unlinked(nodes, q[k]), Drop(q, k);
    assert |q'| == |q| - 1 by { DropLength(q, k); }
    forall j | 0 <= j < |q'|
      ensures r[q'[j]].prev == PrevOf(r, q', j) && r[q'[j]].next == NextOf(r, q', j)
    {
      UnlinkedPrevAt(nodes, levels, q, s, k, j);
      UnlinkedNextAt(nodes, levels, q, s, k, j);
    }
  }

  lemma DropLength(q: seq<nat>, k: nat)
    requires k < |q|
    ensures |Drop(q, k)| == |q| - 1
  {
  }

  lemma HeadedAt(nodes: seq<Node>, levels: map<int, Level>, q: seq<nat>, k: nat)
    requires InPool(nodes, q) && Headed(nodes, levels, q) && k < |q|
    ensures nodes[q[k]].price in levels
    ensures nodes[q[k]].prev.Npos? ==> levels[nodes[q[k]].price].head == At(q[k])
    ensures nodes[q[k]].next.Npos? ==> levels[nodes[q[k]].price].tail == At(q[k])
  {
  }

  /** The ends of a price level once `q[k]` has left, seen from another of its nodes. */
  lemma UnlinkedHeadsAt(nodes: seq<Node>, levels: map<int, Level>, q: seq<nat>, s: Side, k: nat, i: nat)
    requires SideRep(nodes, levels, q, s) && k < |q| && Links(nodes, q[k]) && i < |q| && i != k
    requires nodes[q[k]].price in levels
    requires nodes[q[k]].remaining <= levels[nodes[q[k]].price].total && levels[nodes[q[k]].price].count > 0
    ensures var m, p := Unlinked(nodes, q[k])[q[i]], nodes[q[k]].price;
            var after := levels[p := LevelWithout(levels[p], nodes[q[k]])];
            && m.price in after
            && (m.prev.Npos? ==> after[m.price].head == At(q[i]))
            && (m.next.Npos? ==> after[m.price].tail == At(q[i]))
  {
    hide Unlinked, Totaled, Links, View, Placed, Linked, Sorted, Headed;
    UnlinkedOthers(nodes, levels, q, s, k, q[i]);
    HeadedAt(nodes, levels, q, i);
    HeadedAt(nodes, levels, q, k);
    LinkedAt(nodes, q, k);
    if nodes[q[i]].price == nodes[q[k]].price {
      SamePriceEnds(nodes, levels, q, s, k, i);
    }
  }

  lemma UnlinkedHeads(nodes: seq<Node>, levels: map<int, Level>, q: seq<nat>, s: Side, k: nat)
    requires SideRep(nodes, levels, q, s) && k < |q| && Links(nodes, q[k])
    requires var p := nodes[q[k]].price; p in levels && nodes[q[k]].remaining <= levels[p].total && levels[p].count > 0
    ensures var r, p := Unlinked(nodes, q[k]), nodes[q[k]].price;
            && InPool(r, Drop(q, k))
            && Headed(r, levels[p := LevelWithout(levels[p], nodes[q[k]])], Drop(q, k))
  {
    hide Unlinked, SideRep, Links, LevelWithout, Drop;
    UnlinkedView(nodes, levels, q, s, k);
    UnlinkedPrices(nodes, levels, q, s, k);
    var q' := Drop(q, k);
    DropLength(q, k);
    forall j | 0 <= j < |q'| {
      UnlinkedHeadsAt(nodes, levels, q, s, k, OldIndex(k, j));
    }
  }

  /** A node without a predecessor is the head of its price: the only one. */
  lemma SamePriceEnds(nodes: seq<Node>, levels: map<int, Level>, q: seq<nat>, s: Side, k: nat, i: nat)
    requires SideRep(nodes, levels, q, s) && k < |q| && i < |q| && i != k
    requires nodes[q[i]].price == nodes[q[k]].price
    ensures nodes[q[i]].prev.Npos? ==> nodes[q[k]].prev.At?
    ensures nodes[q[i]].next.Npos? ==> nodes[q[k]].next.At?
  {
    hide View, Totaled, Sorted;
  }

  lemma UnlinkedTotals(nodes: seq<Node>, levels: map<int, Level>, q: seq<nat>, s: Side, k: nat)
    requires SideRep(nodes, levels, q, s) && k < |q| && Links(nodes, q[k])
    requires var p := nodes[q[k]].price; p in levels && nodes[q[k]].remaining <= levels[p].total && levels[p].count > 0
    ensures var p := nodes[q[k]].price;
            Totaled(levels[p := LevelWithout(levels[p], nodes[q[k]])], Without(View(nodes, q), k))
  {
    hide Placed, Unlinked;
    var v, n := View(nodes, q), nodes[q[k]];
    assert v[k] == RestingOf(n);
    forall p | p in levels
      ensures TotalAt(v, p) == TotalAt(Without(v, k), p) + (if p == n.price then n.remaining else 0)
      ensures CountAt(v, p) == CountAt(Without(v, k), p) + (if p == n.price then 1 else 0)
    {
      RemovedTotals(v, k, p);
    }
    if CountAt(Without(v, k), n.price) == 0 {
      LonelyNode(nodes, levels, q, s, k);
    }
  }

  lemma LonelyNode(nodes: seq<Node>, levels: map<int, Level>, q: seq<nat>, s: Side, k: nat)
    requires SideRep(nodes, levels, q, s) && k < |q|
    requires CountAt(Without(View(nodes, q), k), nodes[q[k]].price) == 0
    ensures nodes[q[k]].prev.Npos? && nodes[q[k]].next.Npos?
    ensures TotalAt(Without(View(nodes, q), k), nodes[q[k]].price) == 0
  {
    hide Totaled, Headed, Placed;
    var w, p := Without(View(nodes, q), k), nodes[q[k]].price;
    CountIsZero(w, p);
    NothingToTotal(w, p);
    if k > 0 {
      assert w[k - 1] == RestingOf(nodes[q[k - 1]]);
    }
    if k + 1 < |q| {
      assert w[k] == RestingOf(nodes[q[k + 1]]);
    }
  }

  lemma {:induction false} NothingToTotal(v: seq<Resting>, p: int)
    requires CountAt(v, p) == 0
    ensures TotalAt(v, p) == 0
  {
    if v != [] {
      NothingToTotal(v[1..], p);
    }
  }

  /** Unlinking and releasing the node at position `k` takes exactly that order out of the queue; the
      level may be left hollow. */
  lemma UnlinkKeepsSide(nodes: seq<Node>, levels: map<int, Level>, q: seq<nat>, s: Side, k: nat)
    requires SideRep(nodes, levels, q, s) && k < |q|
    ensures Links(nodes, q[k])
    ensures var p := nodes[q[k]].price;
            && p in levels && nodes[q[k]].remaining <= levels[p].total && levels[p].count > 0
            && SideRep(Unlinked(nodes, q[k]), levels[p := LevelWithout(levels[p], nodes[q[k]])], Drop(q, k), s)
            && View(Unlinked(nodes, q[k]), Drop(q, k)) == Without(View(nodes, q), k)
  {
    hide Unlinked, Linked, Headed, Placed, Totaled, View, LevelWithout, Links;
    NeighboursOf(nodes, levels, q, s, k);
    UnlinkedView(nodes, levels, q, s, k);
    UnlinkedLinks(nodes, levels, q, s, k);
    UnlinkedHeads(nodes, levels, q, s, k);
    UnlinkedTotals(nodes, levels, q, s, k);
    if |q| > 1 {
      DropIndices(q, k, 0);
    }
    SortedWithout(s, View(nodes, q), k);
  }

  lemma SortedWithout(s: Side, v: seq<Resting>, k: nat)
    requires Sorted(s, v) && k < |v|
    ensures Sorted(s, Without(v, k))
  {
    var w := Without(v, k);
    forall i, j | 0 <= i < j < |w| ensures AtLeastAsGood(s, w[i].price, w[j].price) {
      assert w[i] == v[if i < k then i else i + 1] && w[j] == v[if j < k then j else j + 1];
    }
  }

  /** Erasing a hollow level changes nothing else. */
  lemma EraseKeepsSide(nodes: seq<Node>, levels: map<int, Level>, q: seq<nat>, s: Side, p: int)
    requires SideRep(nodes, levels, q, s) && CountAt(View(nodes, q), p) == 0
    ensures SideRep(nodes, levels - {p}, q, s)
  {
    hide Linked, Sorted, Placed;
    var v := View(nodes, q);
    CountIsZero(v, p);
    assert forall k :: 0 <= k < |q| ==> v[k] == RestingOf(nodes[q[k]]);
  }
}
