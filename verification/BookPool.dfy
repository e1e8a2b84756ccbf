/** The node pool: the free list, the linked nodes of both sides and the id index stay a partition of it
    when a node is taken, released or reduced. */
module BookPool {
  import opened BookSpec
  import opened BookRep
  import opened BookUnlink
  import opened BookLink

  lemma PoolIsSymmetric(nodes: seq<Node>, free: seq<nat>, byId: map<nat, nat>, a: seq<nat>, b: seq<nat>)
    ensures PoolRep(nodes, free, byId, a, b) <==> PoolRep(nodes, free, byId, b, a)
  {
  }

  lemma DropMembers(q: seq<nat>, k: nat, x: nat)
    requires k < |q| && NoDup(q)
    ensures x in Drop(q, k) <==> x in q && x != q[k]
  {
    if x in q && x != q[k] {
      var j :| 0 <= j < |q| && q[j] == x;
      assert Drop(q, k)[if j < k then j else j - 1] == x;
    }
    if x in Drop(q, k) {
      var j :| 0 <= j < |q| - 1 && Drop(q, k)[j] == x;
      DropIndices(q, k, j);
    }
  }

  lemma PlaceInMembers(q: seq<nat>, k: nat, i: nat, x: nat)
    requires k <= |q|
    ensures x in PlaceIn(q, k, i) <==> x in q || x == i
  {
    if x in q {
      var j :| 0 <= j < |q| && q[j] == x;
      assert PlaceIn(q, k, i)[if j < k then j else j + 1] == x;
    }
    assert PlaceIn(q, k, i)[k] == i;
  }

  /** The part of PoolRep about one side, in membership form. */
  ghost predicate Indexed(nodes: seq<Node>, byId: map<nat, nat>, q: seq<nat>)
    requires InPool(nodes, q)
  {
    forall x :: x in q ==> x < |nodes| && nodes[x].id in byId && byId[nodes[x].id] == x
  }

  lemma PoolIndexes(nodes: seq<Node>, free: seq<nat>, byId: map<nat, nat>, mine: seq<nat>, other: seq<nat>)
    requires PoolRep(nodes, free, byId, mine, other)
    ensures Indexed(nodes, byId, mine) && Indexed(nodes, byId, other)
    ensures forall x :: x in free ==> x !in mine && x !in other
    ensures forall x :: x in mine ==> x !in other
  {
  }

  lemma PoolFrom(nodes: seq<Node>, free: seq<nat>, byId: map<nat, nat>, mine: seq<nat>, other: seq<nat>)
    requires InPool(nodes, free) && InPool(nodes, mine) && InPool(nodes, other)
    requires NoDup(free) && NoDup(mine) && NoDup(other)
    requires forall x :: x in free ==> x !in mine && x !in other && nodes[x] == BLANK
    requires forall x :: x in mine ==> x !in other
    requires |free| + |mine| + |other| == |nodes|
    requires Indexed(nodes, byId, mine) && Indexed(nodes, byId, other)
    requires forall id :: id in byId ==> (byId[id] in mine || byId[id] in other) && nodes[byId[id]].id == id
    ensures PoolRep(nodes, free, byId, mine, other)
  {
    assert forall k :: 0 <= k < |free| ==> free[k] in free;
    assert forall k :: 0 <= k < |mine| ==> mine[k] in mine;
    assert forall k :: 0 <= k < |other| ==> other[k] in other;
  }

  /** Blanking the node at position `k` and pushing it on the free list. */
  lemma ReleaseKeepsPool(
    nodes: seq<Node>, r: seq<Node>, free: seq<nat>, byId: map<nat, nat>, mine: seq<nat>, other: seq<nat>, k: nat)
    requires PoolRep(nodes, free, byId, mine, other) && k < |mine| && |r| == |nodes|
    requires r[mine[k]] == BLANK
    requires forall i :: 0 <= i < |nodes| && i != mine[k] ==> r[i].id == nodes[i].id
    requires forall j :: 0 <= j < |free| ==> r[free[j]] == nodes[free[j]]
    ensures PoolRep(r, free + [mine[k]], byId - {nodes[mine[k]].id}, Drop(mine, k), other)
  {
    hide Drop;
    PoolIndexes(nodes, free, byId, mine, other);
    var i := mine[k];
    var id := nodes[i].id;
    var mine' := Drop(mine, k);
    assert |mine'| == |mine| - 1 && NoDup(mine') by { DropIsShorter(mine, k); }
    forall x ensures x in mine' <==> x in mine && x != i { DropMembers(mine, k, x); }
    var free', byId' := free + [i], byId - {id};
    assert NoDup(free') by {
      assert forall j :: 0 <= j < |free| ==> free[j] != i;
    }
    assert InPool(r, mine') by {
      assert forall j :: 0 <= j < |mine'| ==> mine'[j] in mine';
    }
    PoolFrom(r, free', byId', mine', other);
  }

  lemma DropIsShorter(q: seq<nat>, k: nat)
    requires k < |q| && NoDup(q)
    ensures |Drop(q, k)| == |q| - 1 && NoDup(Drop(q, k))
  {
    if |q| > 1 {
      DropIndices(q, k, 0);
    }
  }

  /** Taking the last free node and indexing it under a fresh id. */
  lemma TakeKeepsPool(
    nodes: seq<Node>, r: seq<Node>, free: seq<nat>, byId: map<nat, nat>, mine: seq<nat>, other: seq<nat>, k: nat,
    id: nat)
    requires PoolRep(nodes, free, byId, mine, other) && free != [] && k <= |mine| && |r| == |nodes|
    requires id !in byId
    requires var i := free[|free| - 1];
             && i < |r| && r[i].id == id
             && (forall x :: 0 <= x < |nodes| && x != i ==> r[x].id == nodes[x].id)
             && forall j :: 0 <= j < |free| - 1 ==> r[free[j]] == nodes[free[j]]
    ensures var i := free[|free| - 1];
            PoolRep(r, free[..|free| - 1], byId[id := i], PlaceIn(mine, k, i), other)
  {
    hide PlaceIn;
    PoolIndexes(nodes, free, byId, mine, other);
    var i := free[|free| - 1];
    var free', mine', byId' := free[..|free| - 1], PlaceIn(mine, k, i), byId[id := i];
    assert i in free;
    assert free' + [i] == free;
    PlaceInIndices(mine, k, i);
    forall x ensures x in mine' <==> x in mine || x == i { PlaceInMembers(mine, k, i, x); }
    assert InPool(r, mine') by {
      assert forall j :: 0 <= j < |mine'| ==> mine'[j] in mine';
    }
    assert forall x :: x in free' ==> x in free && x != i;
    PoolFrom(r, free', byId', mine', other);
  }

  lemma LowerKeepsPool(
    nodes: seq<Node>, r: seq<Node>, free: seq<nat>, byId: map<nat, nat>, mine: seq<nat>, other: seq<nat>)
    requires PoolRep(nodes, free, byId, mine, other) && |r| == |nodes|
    requires forall x :: 0 <= x < |nodes| ==> r[x].id == nodes[x].id
    requires forall j :: 0 <= j < |free| ==> r[free[j]] == nodes[free[j]]
    ensures PoolRep(r, free, byId, mine, other)
  {
  }

  /** The id index finds exactly the orders the two queues hold. */
  lemma IndexFinds(nodes: seq<Node>, free: seq<nat>, byId: map<nat, nat>, bids: seq<nat>, asks: seq<nat>, id: nat)
    requires PoolRep(nodes, free, byId, bids, asks)
    ensures id in byId <==>
              || (exists k :: 0 <= k < |bids| && View(nodes, bids)[k].id == id)
              || (exists k :: 0 <= k < |asks| && View(nodes, asks)[k].id == id)
    ensures id in byId ==>
              || (exists k :: 0 <= k < |bids| && bids[k] == byId[id] && View(nodes, bids)[k].id == id)
              || (exists k :: 0 <= k < |asks| && asks[k] == byId[id] && View(nodes, asks)[k].id == id)
  {
    if id in byId {
      if byId[id] in bids {
        var k :| 0 <= k < |bids| && bids[k] == byId[id];
        assert View(nodes, bids)[k].id == id;
      } else {
        var k :| 0 <= k < |asks| && asks[k] == byId[id];
        assert View(nodes, asks)[k].id == id;
      }
    }
  }

  /** Ids are distinct on each side and across the sides. */
  lemma IdsAreDistinct(nodes: seq<Node>, free: seq<nat>, byId: map<nat, nat>, bids: seq<nat>, asks: seq<nat>)
    requires PoolRep(nodes, free, byId, bids, asks)
    ensures DistinctIds(View(nodes, bids)) && DistinctIds(View(nodes, asks))
    ensures DisjointIds(View(nodes, bids), View(nodes, asks))
  {
  }
}
