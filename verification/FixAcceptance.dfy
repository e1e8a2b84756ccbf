/** Which messages a FIX session accepts, told from the message and the session alone, and what that means for the
    server: no order reaches the gateway twice, whatever is repeated and however often the client reconnects. */
module FixAcceptance {
  import opened Options
  import opened FixText
  import opened FixCodec
  import opened FixSessions
  import opened FixResend
  import opened FixServing

  // ---------- one message ----------

  /** The message is from the session's counterparty, to the session, and carries the number that is expected. */
  predicate Next(s: Session, m: Message) {
    && Get(m.fields, 49) == Some(s.target) && Get(m.fields, 56) == Some(s.sender)
    && Positive(Get(m.fields, 34)) == Some(s.expected)
  }

  /** Why a message that is not next is refused. */
  function Objection(s: Session, m: Message): RejectReason
    requires !Next(s, m)
  {
    if Get(m.fields, 49) != Some(s.target) then SenderMismatch
    else if Get(m.fields, 56) != Some(s.sender) then TargetMismatch
    else if Positive(Get(m.fields, 34)).None? then MissingRequiredField
    else InvalidSequenceNumber
  }

  /** The numbers missed before a message that came too early. */
  predicate Early(s: Session, m: Message) {
    && Get(m.fields, 49) == Some(s.target) && Get(m.fields, 56) == Some(s.sender)
    && Positive(Get(m.fields, 34)).Some? && Positive(Get(m.fields, 34)).value > s.expected
  }

  /** A message that is not next changes nothing but the numbering of what goes out: it is answered by a reject that
      says why, or, when it came too early, by a request for exactly the numbers in between. */
  lemma OnlyTheNextIsCounted(s: Session, m: Message, t: nat)
    requires !Next(s, m)
    ensures var step := Receive(s, m, t);
            && !step.result.accepted && step.result.reason == Objection(s, m)
            && step.session == s.(next := s.next + 1, lastSent := t)
            && step.result.response.Some?
            && (if Early(s, m) then
                  var answer, last := step.result.response.value, Positive(Get(m.fields, 34)).value - 1;
                  && answer.kind.ResendRequest? && step.result.resend == Some((s.expected, last))
                  && Get(answer.fields, 7) == Some(Decimal(s.expected)) && Get(answer.fields, 16) == Some(Decimal(last))
                else step.result.response.value.kind.Reject? && step.result.resend.None?)
  {
    hide Get, Positive, Decimal, Put;
    RejectsReject(s, t);
    if Early(s, m) {
      GapAsks(s, Positive(Get(m.fields, 34)).value, t);
    }
  }

  lemma RejectsReject(s: Session, t: nat)
    ensures forall reason, text :: Rejected(s, reason, text, t).result.response.value.kind.Reject?
  {
    hide Decimal, Put;
  }

  lemma GapAsks(s: Session, sequence: int, t: nat)
    ensures var answer := Gap(s, sequence, t).result.response.value;
            && answer.kind.ResendRequest? && Get(answer.fields, 7) == Some(Decimal(s.expected))
            && Get(answer.fields, 16) == Some(Decimal(sequence - 1))
  {
    hide Decimal, Put, Get, Admin;
    var m := With(Admin(s, ResendRequest, t), 7, Decimal(s.expected));
    AdminFields(s, ResendRequest, t);
    GetAfterPut(Admin(s, ResendRequest, t).fields, 7, Decimal(s.expected), 7);
    GetAfterPut(m.fields, 16, Decimal(sequence - 1), 7);
    GetAfterPut(m.fields, 16, Decimal(sequence - 1), 16);
  }

  /** What each kind of message needs besides being next. */
  predicate Admissible(s: Session, m: Message) {
    || (m.kind.Logon? && (s.state.Disconnected? || s.state.AwaitingLogon?) && Positive(Get(m.fields, 108)).Some?)
    || (m.kind.Logout? && !s.state.Terminated?)
    || (s.state.Active? &&
          (m.kind.Heartbeat? || m.kind.NewOrderSingle? || m.kind.OrderCancelRequest?
           || (m.kind.TestRequest? && Get(m.fields, 112).Some? && Get(m.fields, 112) != Some(""))
           || (m.kind.ResendRequest? && Positive(Get(m.fields, 7)).Some? && Positive(Get(m.fields, 16)).Some?
               && Positive(Get(m.fields, 7)).value <= Positive(Get(m.fields, 16)).value)))
    || (m.kind.SequenceReset? && Positive(Get(m.fields, 36)).Some? && Positive(Get(m.fields, 36)).value > s.expected)
  }

  /** A message is accepted if and only if it is next and its kind is admissible, and then it has been counted: the
      session expects the following number, or the one a sequence reset names. */
  lemma WhenMessagesAreAccepted(s: Session, m: Message, t: nat)
    ensures var step := Receive(s, m, t);
            && (step.result.accepted <==> Next(s, m) && Admissible(s, m))
            && (step.result.accepted ==> step.result.reason.NoReason?)
            && (Next(s, m) ==>
                  && step.session.lastReceived == t
                  && step.session.expected ==
                       if m.kind.SequenceReset? && Admissible(s, m) then Positive(Get(m.fields, 36)).value
                       else s.expected + 1)
  {
    hide Get, Decimal, With, Admin, ParseInt;
  }

  /** What the acceptance of a message does to the session's state and how it is answered. */
  lemma WhatAcceptanceDoes(s: Session, m: Message, t: nat)
    requires Next(s, m) && Admissible(s, m)
    ensures var step := Receive(s, m, t);
            && step.session.state ==
                 (if m.kind.Logon? then Active else if m.kind.Logout? then Terminated else s.state)
            && step.session.heartbeat == (if m.kind.Logon? then Positive(Get(m.fields, 108)).value else s.heartbeat)
            && step.result.resend ==
                 (if !m.kind.ResendRequest? then None
                  else Some((Positive(Get(m.fields, 7)).value, Positive(Get(m.fields, 16)).value)))
            && (step.result.response.Some? <==>
                  m.kind.Logon? || m.kind.TestRequest? || (m.kind.Logout? && !s.state.LogoutPending?))
            && (step.result.response.Some? ==>
                  step.result.response.value.kind == if m.kind.TestRequest? then Heartbeat else m.kind)
            && (m.kind.TestRequest? ==> Get(step.result.response.value.fields, 112) == Get(m.fields, 112))
  {
    hide Get, Decimal, Put, ParseInt;
    if m.kind.TestRequest? {
      GetAfterPut(Admin(s, Heartbeat, t).fields, 112, Get(m.fields, 112).value, 112);
    }
  }

  /** A message that is next and not admissible is counted all the same; the state stays, and the reason says what was
      wrong with it. */
  lemma WhatRefusalDoes(s: Session, m: Message, t: nat)
    requires Next(s, m) && !Admissible(s, m)
    ensures var step := Receive(s, m, t);
            && step.session.state == s.state && step.session.heartbeat == s.heartbeat && step.result.resend.None?
            && step.result.reason ==
                 (if m.kind.ExecutionReport? || m.kind.Reject? || m.kind.Unknown? then UnsupportedMessage
                  else if m.kind.Logon? && (s.state.Disconnected? || s.state.AwaitingLogon?)
                  then InvalidHeartbeatInterval
                  else if m.kind.SequenceReset? then
                    if Positive(Get(m.fields, 36)).None? then MissingRequiredField else InvalidSequenceNumber
                  else if m.kind.Logon? || m.kind.Logout? || !s.state.Active? then InvalidState
                  else if m.kind.TestRequest? || Get(m.fields, 7).None? || Get(m.fields, 16).None?
                  then MissingRequiredField
                  else InvalidSequenceNumber)
            && (step.result.response.Some? <==>
                  !m.kind.Heartbeat? && !m.kind.ResendRequest? && !m.kind.SequenceReset?)
            && (step.result.response.Some? ==> step.result.response.value.kind.Reject?)
  {
    hide Get, Decimal, Put, ParseInt;
  }

  // ---------- a session ----------

  /** The numbers of the messages a session accepts, in order of arrival. */
  function AcceptedNumbers(s: Session, ms: seq<Message>, t: nat): seq<int>
    decreases |ms|
  {
    if ms == [] then []
    else
      var step := Receive(s, ms[0], t);
      (if step.result.accepted then [Positive(Get(ms[0].fields, 34)).value] else [])
      + AcceptedNumbers(step.session, ms[1..], t)
  }

  ghost predicate Rising(numbers: seq<int>, after: int) {
    && (forall i :: 0 <= i < |numbers| ==> numbers[i] > after)
    && (forall i, j :: 0 <= i < j < |numbers| ==> numbers[i] < numbers[j])
  }

  lemma RisesFrom(first: int, rest: seq<int>, after: int)
    requires first > after && Rising(rest, first)
    ensures Rising([first] + rest, after)
  {
    var all := [first] + rest;
    forall i | 0 <= i < |all| ensures all[i] >= first {
      assert i > 0 ==> all[i] == rest[i - 1];
    }
    forall i, j | 0 <= i < j < |all| ensures all[i] < all[j] {
      assert all[j] == rest[j - 1] && (i > 0 ==> all[i] == rest[i - 1]);
    }
  }

  /** Whatever a session is sent, the numbers it accepts strictly rise from the one it expects: nothing is accepted
      twice and nothing out of its turn. */
  lemma {:induction false} AcceptedNumbersRise(s: Session, ms: seq<Message>, t: nat)
    ensures Rising(AcceptedNumbers(s, ms, t), s.expected - 1)
    decreases |ms|
  {
    hide Receive, Get, Positive, Next, Admissible;
    if ms != [] {
      var step := Receive(s, ms[0], t);
      AcceptedNumbersRise(step.session, ms[1..], t);
      AcceptedIsExpected(s, ms[0], t);
      if step.result.accepted {
        RisesFrom(s.expected, AcceptedNumbers(step.session, ms[1..], t), s.expected - 1);
      } else {
        assert [] + AcceptedNumbers(step.session, ms[1..], t) == AcceptedNumbers(step.session, ms[1..], t);
      }
    }
  }

  lemma AcceptedIsExpected(s: Session, m: Message, t: nat)
    ensures var step := Receive(s, m, t);
            && step.session.expected >= s.expected
            && (step.result.accepted ==>
                  Positive(Get(m.fields, 34)) == Some(s.expected) && step.session.expected > s.expected)
  {
    hide Receive, Get, Positive;
    WhenMessagesAreAccepted(s, m, t);
    if !Next(s, m) {
      OnlyTheNextIsCounted(s, m, t);
    }
  }

  // ---------- the gateway ----------

  /** The number of the order or cancellation that an event brings to the gateway, if it does. */
  function Handed(c: Connection, e: Event): Option<int> {
    if !e.Arrived? || !Parse(e.wire).Parsed? then None
    else
      var m := Parse(e.wire).message;
      if ReachesGateway(c, m, e.time) then Positive(Get(m.fields, 34)) else None
  }

  /** The row is stored, the session accepts an application message, and its numbers have been saved. */
  predicate ReachesGateway(c: Connection, m: Message, t: nat) {
    && c.open && Recordable(m) && c.life >= 1 && Application(m.kind) && Receive(c.session, m, t).result.accepted
    && Saving(c.(session := Receive(c.session, m, t).session, life := c.life - 1)).open
  }

  /** The gateway replies exactly to what reaches it: otherwise the reply does not matter. */
  lemma OnlyTheGatewayReplies(
    c: Connection, m: Message, reply: Message, other: Message, own: string, peer: string, t: nat)
    requires !ReachesGateway(c, m, t)
    ensures Handle(c, m, reply, own, peer, t) == Handle(c, m, other, own, peer, t)
  {
    hide Receive, Recordable, Resending, Replying, Saving;
    if c.open && Recordable(m) && c.life > 0 && Receive(c.session, m, t).result.accepted && Application(m.kind) {
      ApplicationsAnswerNothing(c.session, m, t);
    }
  }

  function AllHanded(c: Connection, es: seq<Event>, own: string, peer: string): seq<int>
    decreases |es|
  {
    if es == [] then []
    else
      var handed := Handed(c, es[0]);
      (if handed.Some? then [handed.value] else []) + AllHanded(After(c, es[0], own, peer), es[1..], own, peer)
  }

  /** Every number up to `n` is behind the session, and stays so across a reconnection. */
  ghost predicate Behind(c: Connection, n: int) {
    c.saved.incoming > n && (c.open ==> c.session.expected > n)
  }

  lemma SavingKeepsBehind(c: Connection, n: int)
    requires c.saved.incoming > n && c.session.expected > n
    ensures Behind(Saving(c), n)
    ensures Saving(c).open ==> Saving(c).saved.incoming == c.session.expected && Saving(c).session == c.session
  {
  }

  lemma PostingKeepsNumbers(c: Connection, m: Option<Message>)
    ensures var c' := Posted(c, m); c'.session == c.session && c'.saved == c.saved
  {
    hide Recordable, StoredOf;
  }

  lemma ReplyKeepsBehind(c: Connection, reply: Message, t: nat, n: int)
    requires c.saved.incoming > n && c.session.expected > n
    ensures Behind(Replying(c, reply, t), n)
  {
    hide Outbound, Posted, Saving;
    var out := Outbound(c.session, reply, t);
    if out.Some? {
      PostingKeepsNumbers(c.(session := Sent(c.session, t)), out);
      SavingKeepsBehind(Posted(c.(session := Sent(c.session, t)), out), n);
    }
  }

  lemma ResendKeepsNumbers(c: Connection, begin: int, end: int, own: string, peer: string, t: nat)
    ensures var c' := Resending(c, begin, end, own, peer, t); c'.session == c.session && c'.saved == c.saved
  {
    hide Resend, RowsFrom;
  }

  /** A message that reaches the gateway had a number that was not yet behind; it is behind from then on. */
  lemma HandleKeepsBehind(c: Connection, m: Message, reply: Message, own: string, peer: string, t: nat, n: int)
    requires Behind(c, n)
    ensures Behind(Handle(c, m, reply, own, peer, t), n)
    ensures ReachesGateway(c, m, t) ==>
              && Positive(Get(m.fields, 34)) == Some(c.session.expected) && c.session.expected > n
              && Behind(Handle(c, m, reply, own, peer, t), c.session.expected)
  {
    hide Receive, Recordable, Resending, Replying, Posted, Saving, Positive, Get;
    if c.open && Recordable(m) && c.life > 0 {
      var step := Receive(c.session, m, t);
      AcceptedIsExpected(c.session, m, t);
      var counted := c.(session := step.session, life := c.life - 1);
      var posted := Posted(counted, step.result.response);
      var c1 := Saving(posted);
      PostingKeepsNumbers(counted, step.result.response);
      SavingKeepsBehind(posted, n);
      if c1.open && step.result.accepted {
        if m.kind.ResendRequest? && step.result.resend.Some? {
          ResendKeepsNumbers(c1, step.result.resend.value.0, step.result.resend.value.1, own, peer, t);
        } else if Application(m.kind) {
          ReplyKeepsBehind(c1, reply, t, n);
          ReplyKeepsBehind(c1, reply, t, c.session.expected);
        }
      }
      if ReachesGateway(c, m, t) {
        ApplicationsAnswerNothing(c.session, m, t);
        NothingPosted(counted);
      }
    }
  }

  lemma EventKeepsBehind(c: Connection, e: Event, own: string, peer: string, n: int)
    requires Behind(c, n)
    ensures Behind(After(c, e, own, peer), n)
    ensures Handed(c, e).Some? ==> Handed(c, e).value > n && Behind(After(c, e, own, peer), Handed(c, e).value)
  {
    hide Handle, Parse, ReachesGateway, Get, Positive;
    if e.Arrived? && Parse(e.wire).Parsed? {
      HandleKeepsBehind(c, Parse(e.wire).message, e.reply, own, peer, e.time, n);
    }
  }

  /** Over any run, of any bytes, with connections that end after any number of effects and any number of
      reconnections: the numbers of the orders and cancellations that reach the gateway strictly rise. No order
      reaches it twice, repeated by its sender or replayed by another. */
  lemma {:induction false} OrdersReachTheGatewayOnce(c: Connection, es: seq<Event>, own: string, peer: string, n: int)
    requires Behind(c, n)
    ensures Rising(AllHanded(c, es, own, peer), n)
    decreases |es|
  {
    hide Behind, After, Handed;
    if es != [] {
      var next := After(c, es[0], own, peer);
      EventKeepsBehind(c, es[0], own, peer, n);
      var handed := Handed(c, es[0]);
      if handed.Some? {
        OrdersReachTheGatewayOnce(next, es[1..], own, peer, handed.value);
        RisesFrom(handed.value, AllHanded(next, es[1..], own, peer), n);
      } else {
        OrdersReachTheGatewayOnce(next, es[1..], own, peer, n);
        assert [] + AllHanded(next, es[1..], own, peer) == AllHanded(next, es[1..], own, peer);
      }
    }
  }

  /** From a store onwards: what reaches the gateway was not yet counted when the numbers were saved. */
  lemma NothingCountedReturns(
      sender: string, target: string, heartbeat: int, log: seq<Stored>, saved: Numbers, life: nat,
      es: seq<Event>, own: string, peer: string)
    ensures var c := Begun(sender, target, heartbeat, log, saved, life);
            Rising(AllHanded(c, es, own, peer), saved.incoming - 1)
  {
    hide AllHanded;
    OrdersReachTheGatewayOnce(
      Begun(sender, target, heartbeat, log, saved, life), es, own, peer, saved.incoming - 1);
  }

  // ---------- what goes out ----------

  /** A message may go out exactly on an active session, or to log on, log out or reject; it then carries the session's
      next number, comp ids and the time, and otherwise what it had. */
  lemma WhenMessagesGoOut(s: Session, m: Message, t: nat)
    ensures var out := Outbound(s, m, t);
            && (out.Some? <==> s.state.Active? || m.kind.Logon? || m.kind.Logout? || m.kind.Reject?)
            && (out.Some? ==>
                  && Numbered(out.value, s) && Get(out.value.fields, 52) == Some(Decimal(t)) && out.value.kind == m.kind
                  && forall tag :: tag != 34 && tag != 49 && tag != 56 && tag != 52 ==>
                       Get(out.value.fields, tag) == Get(m.fields, tag))
  {
    hide Decimal, Get, Put, With;
    StampedFields(m, s.next, s.sender, s.target, t);
  }
}
