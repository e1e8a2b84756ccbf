/** Positions are not stored. After a restart they are rebuilt from the restored fills, and are what they were before
    the crash, marks aside. */
module PositionRecovery {
  import opened OmsSpec
  import opened OmsLedger
  import opened OmsStorage
  import opened Positions

  function DealOf(p: Parent, f: Fill): Deal { Deal(p.symbol, p.side.BuyRoute?, f.quantity, f.price, f.fee) }

  /** What the process sees between two crashes: calls to the order management system, and marks. */
  datatype Happening = Called(call: Call) | Priced(symbol: string, price: real)

  function CallsOf(hs: seq<Happening>): seq<Call>
    decreases |hs|
  {
    if hs == [] then [] else (if hs[0].Called? then [hs[0].call] else []) + CallsOf(hs[1..])
  }

  /** The part of the mutation callback that keeps positions. */
  function Kept(positions: map<string, Position>, o: Outcome): map<string, Position> {
    if o.mutation.Some? && o.mutation.value.fill.Some?
    then WithDeal(positions, DealOf(o.mutation.value.parent, o.mutation.value.fill.value))
    else positions
  }

  function Live(l: Ledger, positions: map<string, Position>, hs: seq<Happening>): map<string, Position>
    decreases |hs|
  {
    if hs == [] then positions
    else
      match hs[0]
      case Called(c) => Live(Do(l, c).ledger, Kept(positions, Do(l, c)), hs[1..])
      case Priced(symbol, price) => Live(l, WithMark(positions, symbol, price), hs[1..])
  }

  /** The loop over the restored fills. */
  function Rebuilt(parents: map<nat, Parent>, fills: seq<Fill>): map<string, Position> {
    if fills == [] then map[]
    else
      var last := fills[|fills| - 1];
      var before := Rebuilt(parents, fills[..|fills| - 1]);
      if last.parentId in parents then WithDeal(before, DealOf(parents[last.parentId], last)) else before
  }

  method RebuildPositions(manager: PositionManager, parents: map<nat, Parent>, fills: seq<Fill>)
    requires manager.positions == map[]
    modifies manager
    ensures manager.positions == Rebuilt(parents, fills)
  {
    hide WithDeal;
    var i := 0;
    while i < |fills|
      invariant i <= |fills| && manager.positions == Rebuilt(parents, fills[..i])
    {
      assert fills[..i + 1][..i] == fills[..i];
      if fills[i].parentId in parents { manager.ApplyFill(DealOf(parents[fills[i].parentId], fills[i])); }
      i := i + 1;
    }
    assert fills[..i] == fills;
  }

  // ---------- marks aside ----------

  function Bare(p: Position): Position { p.(unrealized := 0.0, markPrice := 0.0) }

  ghost predicate Agree(a: map<string, Position>, b: map<string, Position>) {
    forall symbol :: Bare(AccountOf(a, symbol)) == Bare(AccountOf(b, symbol))
  }

  lemma DealsIgnoreMarks(p: Position, q: Position, d: Deal)
    requires Bare(p) == Bare(q)
    ensures Bare(Applied(p, d)) == Bare(Applied(q, d))
  {
    hide Abs;
  }

  lemma DealsKeepAgreement(a: map<string, Position>, b: map<string, Position>, d: Deal)
    requires Agree(a, b)
    ensures Agree(WithDeal(a, d), WithDeal(b, d))
  {
    hide Applied, Bare, WithDeal, AccountOf;
    BareNames(AccountOf(a, d.symbol), AccountOf(b, d.symbol), d.symbol);
    DealsIgnoreMarks(AccountOf(a, d.symbol).(symbol := d.symbol), AccountOf(b, d.symbol).(symbol := d.symbol), d);
    forall s ensures Bare(AccountOf(WithDeal(a, d), s)) == Bare(AccountOf(WithDeal(b, d), s)) {
      AccountAfter(a, d, s);
      AccountAfter(b, d, s);
    }
  }

  lemma AccountAfter(a: map<string, Position>, d: Deal, s: string)
    ensures AccountOf(WithDeal(a, d), s) ==
              if s == d.symbol then Applied(AccountOf(a, s).(symbol := s), d) else AccountOf(a, s)
  {
    hide Applied;
  }

  lemma BareNames(p: Position, q: Position, symbol: string)
    requires Bare(p) == Bare(q)
    ensures Bare(p.(symbol := symbol)) == Bare(q.(symbol := symbol))
  {
  }

  /** Every account is kept under its own symbol. */
  ghost predicate Named(a: map<string, Position>) { forall symbol :: AccountOf(a, symbol).symbol == symbol }

  lemma MarksKeepAgreement(a: map<string, Position>, b: map<string, Position>, symbol: string, price: real)
    requires Agree(a, b) && Named(a)
    ensures Agree(WithMark(a, symbol, price), b) && Named(WithMark(a, symbol, price))
  {
    forall s ensures Bare(AccountOf(WithMark(a, symbol, price), s)) == Bare(AccountOf(b, s)) {
      assert AccountOf(a, symbol).symbol == symbol;
    }
  }

  lemma DealsKeepNames(a: map<string, Position>, d: Deal)
    requires Named(a)
    ensures Named(WithDeal(a, d))
  {
    hide Applied, WithDeal, AccountOf;
    forall s ensures AccountOf(WithDeal(a, d), s).symbol == s {
      AccountAfter(a, d, s);
      DealMovesCash(AccountOf(a, s).(symbol := s), d);
    }
  }

  // ---------- calls ----------

  lemma {:induction false} SameNamesSamePositions(a: map<nat, Parent>, b: map<nat, Parent>, fills: seq<Fill>)
    requires forall k :: 0 <= k < |fills| ==>
               && fills[k].parentId in a && fills[k].parentId in b
               && a[fills[k].parentId].symbol == b[fills[k].parentId].symbol
               && a[fills[k].parentId].side == b[fills[k].parentId].side
    ensures Rebuilt(a, fills) == Rebuilt(b, fills)
    decreases |fills|
  {
    hide WithDeal;
    if fills != [] {
      SameNamesSamePositions(a, b, fills[..|fills| - 1]);
    }
  }

  lemma CallKeepsNames(l: Ledger, c: Call, id: nat)
    requires Balanced(l) && id in l.parents
    ensures var parents := Do(l, c).ledger.parents;
            id in parents && parents[id].symbol == l.parents[id].symbol && parents[id].side == l.parents[id].side
  {
    hide FilledBy, FilledFor, FillsOk, ParentOk, ChildAdds, FilledOver, StatusFrom;
  }

  lemma FillsHaveParents(l: Ledger)
    requires Balanced(l)
    ensures forall k :: 0 <= k < |l.fills| ==> l.fills[k].parentId in l.parents
  {
    hide FilledBy, FilledFor, ParentOk, ChildAdds, FilledOver;
    forall k | 0 <= k < |l.fills| ensures l.fills[k].parentId in l.parents {
      assert FillOk(l.fills[k], k + 1, l.children);
    }
  }

  /** The callback is told of a fill exactly when the ledger gains it, and of the fill's own parent. */
  lemma FillsAreTold(l: Ledger, c: Call)
    requires Balanced(l)
    ensures var o := Do(l, c);
            if o.mutation.Some? && o.mutation.value.fill.Some?
            then
              var f := o.mutation.value.fill.value;
              && o.ledger.fills == l.fills + [f] && f.parentId in o.ledger.parents
              && o.mutation.value.parent == o.ledger.parents[f.parentId]
            else o.ledger.fills == l.fills
  {
    hide FilledBy, FilledFor, FillsOk, ParentOk, ChildAdds, FilledOver, Refreshed;
  }

  lemma CallKeepsPositions(l: Ledger, c: Call)
    requires Balanced(l)
    ensures var o := Do(l, c);
            Rebuilt(o.ledger.parents, o.ledger.fills) == Kept(Rebuilt(l.parents, l.fills), o)
  {
    hide Balanced, Do, WithDeal;
    var o := Do(l, c);
    FillsAreTold(l, c);
    FillsHaveParents(l);
    forall k | 0 <= k < |l.fills|
      ensures var id := l.fills[k].parentId;
              && id in o.ledger.parents && o.ledger.parents[id].symbol == l.parents[id].symbol
              && o.ledger.parents[id].side == l.parents[id].side
    {
      CallKeepsNames(l, c, l.fills[k].parentId);
    }
    SameNamesSamePositions(l.parents, o.ledger.parents, l.fills);
    assert (l.fills + [if o.mutation.Some? && o.mutation.value.fill.Some? then o.mutation.value.fill.value
                       else Fill(0, 0, 0, "", 0.0, 0.0, 0.0, 0.0, 0)])[..|l.fills|] == l.fills;
  }

  /** While the process lives, the positions it keeps are those its ledger's fills would give, marks aside. */
  lemma {:induction false} LivePositionsAgree(l: Ledger, positions: map<string, Position>, hs: seq<Happening>)
    requires Balanced(l) && Named(positions) && Agree(positions, Rebuilt(l.parents, l.fills))
    ensures var end := DoAll(l, CallsOf(hs)); Agree(Live(l, positions, hs), Rebuilt(end.parents, end.fills))
    decreases |hs|
  {
    hide Balanced, Named, Agree, Do, Rebuilt, WithDeal, WithMark;
    if hs != [] {
      assert [] + CallsOf(hs[1..]) == CallsOf(hs[1..]);
      match hs[0] {
        case Called(c) =>
          var o := Do(l, c);
          CallKeepsBalance(l, c);
          CallKeepsPositions(l, c);
          if o.mutation.Some? && o.mutation.value.fill.Some? {
            var d := DealOf(o.mutation.value.parent, o.mutation.value.fill.value);
            DealsKeepAgreement(positions, Rebuilt(l.parents, l.fills), d);
            DealsKeepNames(positions, d);
          }
          assert ([c] + CallsOf(hs[1..]))[1..] == CallsOf(hs[1..]);
          LivePositionsAgree(o.ledger, Kept(positions, o), hs[1..]);
        case Priced(symbol, price) =>
          MarksKeepAgreement(positions, Rebuilt(l.parents, l.fills), symbol, price);
          LivePositionsAgree(l, WithMark(positions, symbol, price), hs[1..]);
      }
    }
  }

  lemma {:induction false} RebuiltIsNamed(parents: map<nat, Parent>, fills: seq<Fill>)
    ensures Named(Rebuilt(parents, fills)) && Agree(Rebuilt(parents, fills), Rebuilt(parents, fills))
    decreases |fills|
  {
    hide WithDeal;
    if fills != [] {
      RebuiltIsNamed(parents, fills[..|fills| - 1]);
      var last := fills[|fills| - 1];
      if last.parentId in parents {
        DealsKeepNames(Rebuilt(parents, fills[..|fills| - 1]), DealOf(parents[last.parentId], last));
      }
    }
  }

  /** The ledger the next life restores. */
  ghost function Next(l: Ledger, hs: seq<Happening>): Ledger {
    Restored(Loaded(PersistAll(l, CallsOf(hs), Image(l))))
  }

  /** The positions at the end of the last of several lives, each of which begins with those rebuilt from what it
      restored. */
  ghost function LastPositions(l: Ledger, lives: seq<seq<Happening>>): map<string, Position>
    decreases |lives|
  {
    if lives == [] then Rebuilt(l.parents, l.fills)
    else if |lives| == 1 then Live(l, Rebuilt(l.parents, l.fills), lives[0])
    else LastPositions(Next(l, lives[0]), lives[1..])
  }

  ghost function LastLedger(l: Ledger, lives: seq<seq<Happening>>): Ledger
    decreases |lives|
  {
    if lives == [] then l else LastLedger(Next(l, lives[0]), lives[1..])
  }

  /** One life, whatever is called and however often symbols are priced: the positions rebuilt after the crash are those
      the process had, marks aside. */
  lemma PositionsSurviveACrash(l: Ledger, hs: seq<Happening>)
    requires Balanced(l)
    ensures Balanced(Next(l, hs))
    ensures Agree(Live(l, Rebuilt(l.parents, l.fills), hs), Rebuilt(Next(l, hs).parents, Next(l, hs).fills))
  {
    hide Balanced, Named, Agree, Live, Rebuilt, Restored, Loaded, PersistAll, Image, DoAll;
    RebuiltIsNamed(l.parents, l.fills);
    LivePositionsAgree(l, Rebuilt(l.parents, l.fills), hs);
    CrashLosesNothing(l, CallsOf(hs), Image(l));
    RunKeepsBalance(l, CallsOf(hs));
  }

  /** Over any number of lives no position is lost: what the last life had is what is rebuilt after it. */
  lemma {:induction false} PositionsSurviveCrashes(l: Ledger, lives: seq<seq<Happening>>)
    requires Balanced(l)
    ensures var end := LastLedger(l, lives); Agree(LastPositions(l, lives), Rebuilt(end.parents, end.fills))
    decreases |lives|
  {
    hide Balanced, Agree, Live, Rebuilt, Next;
    if lives == [] {
      RebuiltIsNamed(l.parents, l.fills);
    } else {
      PositionsSurviveACrash(l, lives[0]);
      if |lives| == 1 {
        assert lives[1..] == [];
      } else {
        PositionsSurviveCrashes(Next(l, lives[0]), lives[1..]);
      }
    }
  }
}
