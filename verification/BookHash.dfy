/** What the state hash is computed from. The words of two books agree when the books do; the other way round only as
    long as the books break into price levels in the same places. */
module BookHash {
  import opened Trading
  import opened BookSpec
  import opened BookWalk

  /** Does a new price level start at place `k`? */
  predicate StartsLevel(q: seq<Resting>, k: nat)
    requires k < |q|
  {
    k == 0 || q[k - 1].price != q[k].price
  }

  /** As many orders, broken into levels in the same places. */
  ghost predicate SameShape(a: seq<Resting>, b: seq<Resting>) {
    |a| == |b| && forall k :: 0 <= k < |a| ==> (StartsLevel(a, k) <==> StartsLevel(b, k))
  }

  function WordsAt(q: seq<Resting>, k: nat): seq<int>
    requires k < |q|
  {
    (if StartsLevel(q, k) then [q[k].price] else []) + [q[k].id, q[k].client, q[k].remaining]
  }

  lemma OneMorePlace(q: seq<Resting>, k: nat)
    requires k < |q|
    ensures WordsOf(q, k + 1) == WordsOf(q, k) + WordsAt(q, k)
  {
  }

  lemma {:induction false} WordsSize(a: seq<Resting>, b: seq<Resting>, k: nat)
    requires SameShape(a, b) && k <= |a|
    ensures |WordsOf(a, k)| == |WordsOf(b, k)|
    decreases k
  {
    if k > 0 {
      WordsSize(a, b, k - 1);
      OneMorePlace(a, k - 1);
      OneMorePlace(b, k - 1);
      assert StartsLevel(a, k - 1) <==> StartsLevel(b, k - 1);
    }
  }

  lemma Halves(a: seq<int>, x: seq<int>, b: seq<int>, y: seq<int>)
    requires a + x == b + y && |a| == |b|
    ensures a == b && x == y
  {
    assert (a + x)[..|a|] == a && (b + y)[..|b|] == b;
    assert (a + x)[|a|..] == x && (b + y)[|b|..] == y;
  }

  lemma {:induction false} WordsTellQueues(a: seq<Resting>, b: seq<Resting>, k: nat)
    requires SameShape(a, b) && k <= |a| && WordsOf(a, k) == WordsOf(b, k)
    ensures a[..k] == b[..k]
    decreases k
  {
    if k > 0 {
      var n := k - 1;
      OneMorePlace(a, n);
      OneMorePlace(b, n);
      WordsSize(a, b, n);
      Halves(WordsOf(a, n), WordsAt(a, n), WordsOf(b, n), WordsAt(b, n));
      WordsTellQueues(a, b, n);
      PlaceIsTold(a, b, n);
      assert a[..k] == a[..n] + [a[n]] && b[..k] == b[..n] + [b[n]];
    }
  }

  lemma PlaceIsTold(a: seq<Resting>, b: seq<Resting>, n: nat)
    requires SameShape(a, b) && n < |a| && a[..n] == b[..n] && WordsAt(a, n) == WordsAt(b, n)
    ensures a[n] == b[n]
  {
    var x, y := WordsAt(a, n), WordsAt(b, n);
    assert StartsLevel(a, n) <==> StartsLevel(b, n);
    if StartsLevel(a, n) {
      assert x[0] == a[n].price && y[0] == b[n].price;
      assert x[1] == a[n].id && x[2] == a[n].client && x[3] == a[n].remaining;
      assert y[1] == b[n].id && y[2] == b[n].client && y[3] == b[n].remaining;
    } else {
      assert x[0] == a[n].id && x[1] == a[n].client && x[2] == a[n].remaining;
      assert y[0] == b[n].id && y[1] == b[n].client && y[2] == b[n].remaining;
      assert a[n - 1] == a[..n][n - 1] && b[n - 1] == b[..n][n - 1];
    }
  }

  /** Two books from which the hash reads the same words hold the same orders in the same places if and only if they
      break into levels in the same places. */
  lemma WhenWordsTellBooks(a: Book, b: Book)
    requires StateWords(a) == StateWords(b)
    ensures a.bids == b.bids && a.asks == b.asks <==> SameShape(a.bids, b.bids) && SameShape(a.asks, b.asks)
    ensures a.symbol == b.symbol
  {
    hide WordsOf, SameShape;
    SymbolComesFirst(a, b);
    ShapeOfSame(a.bids, b.bids);
    ShapeOfSame(a.asks, b.asks);
    if SameShape(a.bids, b.bids) && SameShape(a.asks, b.asks) {
      SizeOfSame(a.bids, b.bids);
      SizeOfSame(a.asks, b.asks);
      WordsSize(a.bids, b.bids, |a.bids|);
      WordsSize(a.asks, b.asks, |a.asks|);
      var ab, aa, bb, ba := WordsOf(a.bids, |a.bids|), WordsOf(a.asks, |a.asks|), WordsOf(b.bids, |b.bids|),
        WordsOf(b.asks, |b.asks|);
      var n, m := [|a.bids| + |a.asks|], [|b.bids| + |b.asks|];
      Halves([a.symbol] + [0] + ab + [1] + aa, n, [b.symbol] + [0] + bb + [1] + ba, m);
      Halves([a.symbol] + [0] + ab + [1], aa, [b.symbol] + [0] + bb + [1], ba);
      Halves([a.symbol] + [0] + ab, [1], [b.symbol] + [0] + bb, [1]);
      Halves([a.symbol] + [0], ab, [b.symbol] + [0], bb);
      WordsTellQueues(a.bids, b.bids, |a.bids|);
      WordsTellQueues(a.asks, b.asks, |a.asks|);
      WholeQueues(a, b);
    }
  }

  lemma SymbolComesFirst(a: Book, b: Book)
    requires StateWords(a) == StateWords(b)
    ensures a.symbol == b.symbol
  {
    hide WordsOf;
    assert StateWords(a)[0] == a.symbol && StateWords(b)[0] == b.symbol;
  }

  lemma ShapeOfSame(a: seq<Resting>, b: seq<Resting>)
    ensures a == b ==> SameShape(a, b)
  {
  }

  lemma SizeOfSame(a: seq<Resting>, b: seq<Resting>)
    requires SameShape(a, b)
    ensures |a| == |b|
  {
  }

  lemma WholeQueues(a: Book, b: Book)
    requires |a.bids| == |b.bids| && |a.asks| == |b.asks|
    requires a.bids[..|a.bids|] == b.bids[..|b.bids|] && a.asks[..|a.asks|] == b.asks[..|b.asks|]
    ensures a.bids == b.bids && a.asks == b.asks
  {
    assert a.bids[..|a.bids|] == a.bids && b.bids[..|b.bids|] == b.bids;
    assert a.asks[..|a.asks|] == a.asks && b.asks[..|b.asks|] == b.asks;
  }

  const TWO_AND_ONE: Book :=
    Book(1, 8, NoPrevention, [Resting(1, 1, 100, 5), Resting(90, 2, 100, 3), Resting(4, 4, 7, 4)], [], 3)
  const ONE_AND_TWO: Book :=
    Book(1, 8, NoPrevention, [Resting(1, 1, 100, 5), Resting(2, 3, 90, 7), Resting(4, 4, 90, 4)], [], 3)

  /** Two well-formed books, with other orders at other prices, that hash alike: where a level ends cannot be told
      from the words, and a price can be read as an id. */
  lemma DifferentBooksHashAlike()
    ensures WellFormed(TWO_AND_ONE) && WellFormed(ONE_AND_TWO) && TWO_AND_ONE != ONE_AND_TWO
    ensures StateHash(TWO_AND_ONE) == StateHash(ONE_AND_TWO)
  {
    hide MixAll, WellFormed;
    var a, b := TWO_AND_ONE.bids, ONE_AND_TWO.bids;
    BothAreWellFormed();
    OneMorePlace(a, 0);
    OneMorePlace(a, 1);
    OneMorePlace(a, 2);
    OneMorePlace(b, 0);
    OneMorePlace(b, 1);
    OneMorePlace(b, 2);
    assert WordsOf(a, 3) == [100, 1, 1, 5, 90, 2, 3, 7, 4, 4, 4];
    assert WordsOf(b, 3) == [100, 1, 1, 5, 90, 2, 3, 7, 4, 4, 4];
  }

  lemma BothAreWellFormed()
    ensures WellFormed(TWO_AND_ONE) && WellFormed(ONE_AND_TWO)
  {
  }
}
