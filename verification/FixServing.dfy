/** The server's side of FIX connections: each message that arrives is answered by the session, by a resend, or by the
    order gateway, and what goes out under a number of its own is stored before it is written. */
module FixServing {
  import opened Options
  import opened FixText
  import opened FixCodec
  import opened FixSessions
  import opened FixResend

  /** What save_session keeps of a session. */
  datatype Numbers = Numbers(incoming: int, outgoing: int, received: nat, sent: nat)

  function NumbersOf(s: Session): Numbers { Numbers(s.expected, s.next, s.lastReceived, s.lastSent) }

  /** A connection and the store behind it: `log` has the outbound messages, `written` what this connection's socket
      has been given, and `life` says how many more effects the connection lives to complete, each one row stored,
      one message written, or the numbers saved once. It ends when the peer has gone, the store fails or the process
      dies; one that is not open has been given up. */
  datatype Connection = Connection(
    session: Session, log: seq<Stored>, saved: Numbers, written: seq<Message>, open: bool, life: nat)

  predicate Application(kind: MessageType) { kind.NewOrderSingle? || kind.OrderCancelRequest? }

  /** send_fix, if there is something to send: the row is stored, and then the message is written. */
  function Posted(c: Connection, m: Option<Message>): Connection {
    if m.None? then c
    else if !Recordable(m.value) || c.life == 0 then c.(open := false)
    else
      var kept := c.(log := c.log + [StoredOf(m.value)], life := c.life - 1);
      if kept.life == 0 then kept.(open := false)
      else kept.(written := kept.written + [m.value], life := kept.life - 1)
  }

  function Saving(c: Connection): Connection {
    if !c.open then c
    else if c.session.expected <= 0 || c.session.next <= 0 || c.life == 0 then c.(open := false)
    else c.(saved := NumbersOf(c.session), life := c.life - 1)
  }

  /** The stored rows from a number on. */
  function RowsFrom(log: seq<Stored>, begin: int): seq<Stored>
    decreases |log|
  {
    if log == [] then []
    else (if log[0].number >= begin then [log[0]] else []) + RowsFrom(log[1..], begin)
  }

  /** Messages that are written and not stored, as far as the connection lives. */
  function Writing(c: Connection, ms: seq<Message>): Connection {
    if |ms| <= c.life then c.(written := c.written + ms, life := c.life - |ms|)
    else c.(written := c.written + ms[..c.life], life := 0, open := false)
  }

  /** Answer a resend request; `own` and `peer` are the comp ids put into gap fills. */
  function Resending(c: Connection, begin: int, end: int, own: string, peer: string, t: nat): Connection {
    if begin <= 0 then c.(open := false)
    else
      var out := Resend(RowsFrom(c.log, begin), end, 0, 0, own, peer, t);
      var c1 := Writing(c, out.messages);
      c1.(open := c1.open && !out.threw)
  }

  /** The gateway's reply is stamped, stored and written. */
  function Replying(c: Connection, reply: Message, t: nat): Connection {
    var out := Outbound(c.session, reply, t);
    if out.None? then c.(open := false) else Saving(Posted(c.(session := Sent(c.session, t)), out))
  }

  /** One parsed message: it is stored, the session answers, the numbers are saved; then comes a resend, or the
      gateway's reply, or nothing. */
  function Handle(c: Connection, m: Message, reply: Message, own: string, peer: string, t: nat): Connection {
    if !c.open then c
    else if !Recordable(m) || c.life == 0 then c.(open := false)
    else
      var step := Receive(c.session, m, t);
      var c1 := Saving(Posted(c.(session := step.session, life := c.life - 1), step.result.response));
      if !c1.open || !step.result.accepted then c1
      else if m.kind.ResendRequest? && step.result.resend.Some? then
        Resending(c1, step.result.resend.value.0, step.result.resend.value.1, own, peer, t)
      else if !Application(m.kind) then c1
      else Replying(c1, reply, t)
  }

  // ---------- runs over many connections ----------

  /** A message arrives, with the gateway's reply should it get that far; or a new connection begins. */
  datatype Event = Arrived(wire: string, reply: Message, time: nat) | Connected(heartbeat: int, life: nat)

  /** A new connection restores its numbers from the store; without positive numbers it is given up. */
  function Begun(
    sender: string, target: string, heartbeat: int, log: seq<Stored>, saved: Numbers, life: nat): Connection
  {
    var ok := saved.incoming > 0 && saved.outgoing > 0;
    var n := if ok then saved else Numbers(1, 1, 0, 0);
    Connection(Session(sender, target, heartbeat, Disconnected, n.incoming, n.outgoing, n.received, n.sent),
               log, saved, [], ok, life)
  }

  function Reconnected(c: Connection, heartbeat: int, life: nat): Connection {
    Begun(c.session.sender, c.session.target, heartbeat, c.log, c.saved, life)
  }

  function After(c: Connection, e: Event, own: string, peer: string): Connection {
    match e
    case Connected(heartbeat, life) => Reconnected(c, heartbeat, life)
    case Arrived(wire, reply, t) =>
      match Parse(wire)
      case ParseFailed(_) => c
      case Parsed(m) => Handle(c, m, reply, own, peer, t)
  }

  function AfterAll(c: Connection, es: seq<Event>, own: string, peer: string): Connection
    decreases |es|
  {
    if es == [] then c else AfterAll(After(c, es[0], own, peer), es[1..], own, peer)
  }

  // ---------- the log is complete ----------

  /** The log holds every message sent so far under its own number, the store expects to continue from there, and so
      does the session while the connection is open. */
  ghost predicate InOrder(c: Connection, sent: seq<Message>) {
    && CleanSession(c.session) && Consecutive(c.log, sent, c.session.sender, c.session.target)
    && c.saved.outgoing == |c.log| + 1 && c.saved.incoming > 0
    && (c.open ==> c.session.next == |c.log| + 1 && c.session.expected > 0)
  }

  lemma NumberOfDecimal(n: int)
    requires FitsInt(n)
    ensures Stoi(Decimal(n)) == Some(n)
  {
    hide Stoi, ParseInt, Decimal;
    DecimalRoundTrip(n);
    StoiAgrees(Decimal(n));
  }

  /** The numbering is lost: a row is stored under a number that is not its own, or the store will hand out a number
      again that a row already has. */
  ghost predicate Broken(c: Connection) {
    || Misnumbered(c.log)
    || (0 < c.saved.outgoing <= |c.log| && (c.open ==> 0 < c.session.next <= |c.log|))
  }

  /** The store will hand out the number of the last row again. */
  predicate RepeatsLast(c: Connection) {
    c.log != [] && c.saved.incoming > 0 && 0 < c.saved.outgoing == c.log[|c.log| - 1].number
  }

  ghost predicate Misnumbered(log: seq<Stored>) { exists k :: 0 <= k < |log| && log[k].number != k + 1 }

  lemma BrokenIsNotInOrder(c: Connection)
    requires Broken(c)
    ensures forall sent :: !InOrder(c, sent)
  {
    hide Wire, SentAs, CleanSession;
  }

  /** Posting a message that carries the session's next number, and then saving: the log stays complete unless the
      row is stored and the connection does not live to save the number. */
  lemma PostingKeepsOrder(c: Connection, sent: seq<Message>, session: Session, m: Message, life: nat)
    requires InOrder(c, sent) && c.open && Numbered(m, c.session) && Clean(m) && |c.log| < INT_MAX
    requires session.sender == c.session.sender && session.target == c.session.target
    requires session.next == c.session.next + 1 && session.expected > 0
    ensures var c' := Saving(Posted(c.(session := session, life := life), Some(m)));
            if m.kind.Unknown? || life == 0 then InOrder(c', sent) && !c'.open && c'.log == c.log
            else
              && |c'.log| == |c.log| + 1
              && if life <= 2 then Broken(c') && !c'.open && RepeatsLast(c')
                 else
                   InOrder(c', sent + [m]) && c'.open && c'.session == session && c'.life == life - 3
                   && c'.log == c.log + [StoredOf(m)] && c'.written == c.written + [m]
  {
    hide Wire, Decimal, Get, Clean, Free, Stoi;
    NumberOfDecimal(|c.log| + 1);
  }

  lemma SavingKeepsOrder(c: Connection, sent: seq<Message>, session: Session, life: nat)
    requires InOrder(c, sent) && c.open && session.expected > 0 && session.next == c.session.next
    requires session.sender == c.session.sender && session.target == c.session.target
    ensures var c' := Saving(c.(session := session, life := life));
            && InOrder(c', sent) && c'.log == c.log && c'.written == c.written
            && (if life == 0 then !c'.open else c'.open && c'.session == session && c'.life == life - 1)
  {
    hide Consecutive, Free;
  }

  lemma OutboundIsNumbered(s: Session, m: Message, t: nat)
    requires CleanSession(s) && Clean(m) && Outbound(s, m, t).Some?
    ensures var out := Outbound(s, m, t).value; Numbered(out, s) && Clean(out) && out.kind == m.kind
  {
    hide With, Decimal, Get;
    StampedFields(m, s.next, s.sender, s.target, t);
    StampIsClean(m, s.next, s.sender, s.target, t);
  }

  lemma ExpectedGrows(s: Session, m: Message, t: nat)
    ensures Receive(s, m, t).session.expected >= s.expected
  {
    hide Get, Positive, Admin, With, Decimal;
  }

  lemma AdministrativeIsKnown(kind: MessageType)
    ensures Administrative(kind) ==> !kind.Unknown?
  {
  }

  /** An accepted application message leaves the session active, so that a reply can be stamped. */
  lemma RepliesAreStamped(s: Session, m: Message, reply: Message, t: nat)
    requires Receive(s, m, t).result.accepted && Application(m.kind)
    ensures Outbound(Receive(s, m, t).session, reply, t).Some?
  {
    hide Get, Positive, Admin, With, Decimal;
  }

  lemma ApplicationsAnswerNothing(s: Session, m: Message, t: nat)
    requires Receive(s, m, t).result.accepted && Application(m.kind)
    ensures Receive(s, m, t).result.response.None?
  {
    hide Get, Positive, Admin, With, Decimal;
  }

  /** Does the connection end after the row of a numbered message is stored and before its number is saved? The first
      effect is storing `m`; without an answer of the session the second saves its numbers. */
  predicate Interrupted(c: Connection, m: Message, reply: Message, t: nat) {
    var result := Receive(c.session, m, t).result;
    && c.open && Recordable(m)
    && if result.response.Some? then 2 <= c.life <= 3
       else result.accepted && Application(m.kind) && !reply.kind.Unknown? && 3 <= c.life <= 4
  }

  lemma ReplyKeepsOrder(c: Connection, sent: seq<Message>, reply: Message, t: nat) returns (now: seq<Message>)
    requires InOrder(c, sent) && c.open && Clean(reply) && |c.log| < INT_MAX && Outbound(c.session, reply, t).Some?
    ensures var c' := Replying(c, reply, t);
            && sent <= now && |now| <= |sent| + 1
            && if !reply.kind.Unknown? && 1 <= c.life <= 2
               then Broken(c') && !c'.open && RepeatsLast(c')
               else InOrder(c', now)
    ensures !reply.kind.Unknown? && c.life >= 3 ==>
              var c' := Replying(c, reply, t);
              c'.open && now == sent + [Outbound(c.session, reply, t).value] && c'.written == c.written + now[|sent|..]
  {
    hide Outbound, Clean, Numbered, Consecutive, StoredOf, Recordable, Wire;
    now := sent;
    var out := Outbound(c.session, reply, t).value;
    OutboundIsNumbered(c.session, reply, t);
    PostingKeepsOrder(c, sent, Sent(c.session, t), out, c.life);
    if !out.kind.Unknown? && c.life >= 3 { now := sent + [out]; }
  }

  lemma ResendingKeepsOrder(c: Connection, sent: seq<Message>, begin: int, end: int, own: string, peer: string, t: nat)
    requires c.open
    ensures InOrder(c, sent) ==> InOrder(Resending(c, begin, end, own, peer, t), sent)
    ensures Broken(c) ==> Broken(Resending(c, begin, end, own, peer, t))
    ensures Resending(c, begin, end, own, peer, t).log == c.log
  {
    hide Resend, RowsFrom, Consecutive;
  }

  /** What the first half of handling a message does to the order: up to the saving of the session's numbers. */
  lemma AnswerKeepsOrder(c: Connection, sent: seq<Message>, m: Message, t: nat) returns (now: seq<Message>)
    requires InOrder(c, sent) && c.open && |c.log| + 2 <= INT_MAX && Clean(m) && c.life > 0
    ensures var step := Receive(c.session, m, t);
            var c1 := Saving(Posted(c.(session := step.session, life := c.life - 1), step.result.response));
            && sent <= now && |now| <= |sent| + 1
            && (if step.result.response.Some? && 2 <= c.life <= 3
                then Broken(c1) && !c1.open && RepeatsLast(c1)
                else InOrder(c1, now))
            && (step.result.response.None? ==>
                  && now == sent && c1.log == c.log && c1.written == c.written
                  && (if c.life == 1 then !c1.open else c1.open && c1.session == step.session && c1.life == c.life - 2))
  {
    hide Receive, Clean, Numbered, Consecutive, StoredOf, Administrative, Recordable, Posted, Saving, CleanSession;
    now := sent;
    var step := Receive(c.session, m, t);
    OrderedSession(c, sent);
    ReceiveNumbers(c.session, m, t);
    ReceiveIsClean(c.session, m, t);
    ExpectedGrows(c.session, m, t);
    if step.result.response.Some? {
      AdministrativeIsKnown(step.result.response.value.kind);
      PostingKeepsOrder(c, sent, step.session, step.result.response.value, c.life - 1);
      if c.life >= 4 { now := sent + [step.result.response.value]; }
    } else {
      NothingPosted(c.(session := step.session, life := c.life - 1));
      SavingKeepsOrder(c, sent, step.session, c.life - 1);
    }
  }

  lemma OrderedSession(c: Connection, sent: seq<Message>)
    requires InOrder(c, sent)
    ensures CleanSession(c.session) && |c.log| == |sent|
    ensures c.open ==> c.session.expected > 0 && c.session.next == |c.log| + 1
  {
    hide SentAs, Wire;
  }

  /** Whatever comes in, the outbound log stays complete and consecutive, unless the connection is interrupted between
      storing a row and saving its number. */
  lemma HandleKeepsOrder(
      c: Connection, sent: seq<Message>, m: Message, reply: Message, own: string, peer: string, t: nat)
    returns (now: seq<Message>)
    requires InOrder(c, sent) && |c.log| + 2 <= INT_MAX && Clean(m) && Clean(reply)
    ensures var c' := Handle(c, m, reply, own, peer, t);
            && sent <= now && |now| <= |sent| + 2
            && if Interrupted(c, m, reply, t)
               then Broken(c') && !c'.open && RepeatsLast(c')
               else InOrder(c', now)
  {
    hide Receive, Clean, Consecutive, StoredOf, Recordable, Resending, Replying, Posted, Saving, InOrder, Broken,
         Outbound;
    now := sent;
    if c.open && Recordable(m) && c.life > 0 {
      var step := Receive(c.session, m, t);
      now := AnswerKeepsOrder(c, sent, m, t);
      var c1 := Saving(Posted(c.(session := step.session, life := c.life - 1), step.result.response));
      if c1.open && step.result.accepted {
        if m.kind.ResendRequest? && step.result.resend.Some? {
          ResendingKeepsOrder(c1, now, step.result.resend.value.0, step.result.resend.value.1, own, peer, t);
        } else if Application(m.kind) {
          ApplicationsAnswerNothing(c.session, m, t);
          RepliesAreStamped(c.session, m, reply, t);
          OrderedSession(c1, now);
          now := ReplyKeepsOrder(c1, now, reply, t);
        }
      }
    } else {
      ClosingKeepsOrder(c, sent);
    }
  }

  /** An accepted order or cancellation is answered: the gateway's reply is stored under the next number, written, and
      the connection goes on, if it lives to complete these five effects. */
  lemma ApplicationsAreAnswered(
      c: Connection, sent: seq<Message>, m: Message, reply: Message, own: string, peer: string, t: nat)
    requires InOrder(c, sent) && c.open && |c.log| + 2 <= INT_MAX && Clean(m) && Clean(reply) && Recordable(m)
    requires Receive(c.session, m, t).result.accepted && Application(m.kind) && !reply.kind.Unknown? && c.life >= 5
    ensures var c' := Handle(c, m, reply, own, peer, t);
            var out := Outbound(Receive(c.session, m, t).session, reply, t);
            && out.Some? && c'.open && InOrder(c', sent + [out.value]) && c'.written == c.written + [out.value]
  {
    hide Receive, Clean, Consecutive, StoredOf, Recordable, Replying, Posted, Saving, InOrder, Broken, Outbound;
    var step := Receive(c.session, m, t);
    var answered := AnswerKeepsOrder(c, sent, m, t);
    ApplicationsAnswerNothing(c.session, m, t);
    RepliesAreStamped(c.session, m, reply, t);
    var c1 := Saving(Posted(c.(session := step.session, life := c.life - 1), step.result.response));
    OrderedSession(c1, sent);
    var now := ReplyKeepsOrder(c1, sent, reply, t);
    assert (sent + [Outbound(c1.session, reply, t).value])[|sent|..] == [Outbound(c1.session, reply, t).value];
  }

  lemma NothingPosted(c: Connection)
    ensures Posted(c, None) == c
  {
  }

  lemma ClosingKeepsOrder(c: Connection, sent: seq<Message>)
    requires InOrder(c, sent)
    ensures InOrder(c.(open := false), sent)
  {
    hide Consecutive, CleanSession;
  }

  lemma ReconnectingKeepsOrder(c: Connection, sent: seq<Message>, heartbeat: int, life: nat)
    requires InOrder(c, sent)
    ensures InOrder(Reconnected(c, heartbeat, life), sent)
  {
    hide Consecutive;
  }

  predicate InterruptedBy(c: Connection, e: Event) {
    e.Arrived? && Parse(e.wire).Parsed? && Interrupted(c, Parse(e.wire).message, e.reply, e.time)
  }

  predicate AnyInterruption(c: Connection, es: seq<Event>, own: string, peer: string)
    decreases |es|
  {
    es != [] && (InterruptedBy(c, es[0]) || AnyInterruption(After(c, es[0], own, peer), es[1..], own, peer))
  }

  lemma EventKeepsOrder(
      c: Connection, sent: seq<Message>, e: Event, own: string, peer: string) returns (now: seq<Message>)
    requires InOrder(c, sent) && |c.log| + 2 <= INT_MAX && (e.Arrived? ==> Clean(e.reply))
    ensures var c' := After(c, e, own, peer);
            && sent <= now && |now| <= |sent| + 2 && (if InterruptedBy(c, e) then Broken(c') else InOrder(c', now))
  {
    hide InOrder, Broken, Handle, Reconnected, Parse, Clean, Interrupted;
    now := sent;
    match e
    case Connected(heartbeat, life) => ReconnectingKeepsOrder(c, sent, heartbeat, life);
    case Arrived(wire, reply, t) =>
      ParsedIsClean(wire);
      if Parse(wire).Parsed? {
        now := HandleKeepsOrder(c, sent, Parse(wire).message, reply, own, peer, t);
      }
  }

  // ---------- a lost numbering stays lost ----------

  lemma MoreRows(log: seq<Stored>, more: seq<Stored>)
    requires log <= more && Misnumbered(log)
    ensures Misnumbered(more)
  {
    var k :| 0 <= k < |log| && log[k].number != k + 1;
    assert more[k].number != k + 1;
  }

  lemma PostingStaysBroken(c: Connection, session: Session, m: Message, life: nat)
    requires Broken(c) && c.open && |c.log| <= INT_MAX && Numbered(m, c.session) && session.next == c.session.next + 1
    ensures var c' := Saving(Posted(c.(session := session, life := life), Some(m)));
            Broken(c') && c.log <= c'.log && |c'.log| <= |c.log| + 1
  {
    hide Wire, Decimal, Get, Stoi, Misnumbered;
    var c' := Saving(Posted(c.(session := session, life := life), Some(m)));
    if Misnumbered(c.log) {
      MoreRows(c.log, c'.log);
    } else {
      NumberOfDecimal(c.session.next);
      if c'.log != c.log {
        assert c'.log[|c.log|].number == c.session.next;
        FoundMisnumbered(c'.log, |c.log|);
      }
    }
  }

  lemma FoundMisnumbered(log: seq<Stored>, k: nat)
    requires k < |log| && log[k].number != k + 1
    ensures Misnumbered(log)
  {
  }

  lemma SavingStaysBroken(c: Connection, session: Session, life: nat)
    requires Broken(c) && c.open && session.next == c.session.next
    ensures var c' := Saving(c.(session := session, life := life)); Broken(c') && c'.log == c.log
  {
    hide Misnumbered;
  }

  lemma HandleStaysBroken(c: Connection, m: Message, reply: Message, own: string, peer: string, t: nat)
    requires Broken(c) && |c.log| + 2 <= INT_MAX
    ensures var c' := Handle(c, m, reply, own, peer, t); Broken(c') && |c'.log| <= |c.log| + 2
  {
    hide Receive, Numbered, StoredOf, Recordable, Resending, Posted, Saving, Outbound, Broken;
    if c.open && Recordable(m) && c.life > 0 {
      var step := Receive(c.session, m, t);
      var c1 := Saving(Posted(c.(session := step.session, life := c.life - 1), step.result.response));
      ReceiveNumbers(c.session, m, t);
      if step.result.response.Some? {
        PostingStaysBroken(c, step.session, step.result.response.value, c.life - 1);
      } else {
        NothingPosted(c.(session := step.session, life := c.life - 1));
        SavingStaysBroken(c, step.session, c.life - 1);
      }
      if c1.open && step.result.accepted {
        if m.kind.ResendRequest? && step.result.resend.Some? {
          ResendingKeepsOrder(c1, [], step.result.resend.value.0, step.result.resend.value.1, own, peer, t);
        } else if Application(m.kind) {
          ReplyStaysBroken(c1, reply, t);
        }
      }
    } else {
      ClosingStaysBroken(c);
    }
  }

  lemma ClosingStaysBroken(c: Connection)
    requires Broken(c)
    ensures Broken(c.(open := false))
  {
    hide Misnumbered;
  }

  lemma ReplyStaysBroken(c: Connection, reply: Message, t: nat)
    requires Broken(c) && c.open && |c.log| < INT_MAX
    ensures Broken(Replying(c, reply, t)) && |Replying(c, reply, t).log| <= |c.log| + 1
  {
    hide Outbound, Posted, Saving, Broken;
    if Outbound(c.session, reply, t).Some? {
      StampIsNumbered(c.session, reply, t);
      PostingStaysBroken(c, Sent(c.session, t), Outbound(c.session, reply, t).value, c.life);
    } else {
      ClosingStaysBroken(c);
    }
  }

  lemma StampIsNumbered(s: Session, m: Message, t: nat)
    ensures Outbound(s, m, t).Some? ==> Numbered(Outbound(s, m, t).value, s)
  {
    hide With, Decimal, Get;
    StampedFields(m, s.next, s.sender, s.target, t);
  }

  lemma EventStaysBroken(c: Connection, e: Event, own: string, peer: string)
    requires Broken(c) && |c.log| + 2 <= INT_MAX
    ensures var c' := After(c, e, own, peer); Broken(c') && |c'.log| <= |c.log| + 2
  {
    hide Handle, Parse;
    if e.Arrived? && Parse(e.wire).Parsed? {
      HandleStaysBroken(c, Parse(e.wire).message, e.reply, own, peer, e.time);
    }
  }

  lemma {:induction false} RunStaysBroken(c: Connection, es: seq<Event>, own: string, peer: string)
    requires Broken(c) && |c.log| + 2 * |es| <= INT_MAX
    ensures Broken(AfterAll(c, es, own, peer))
    decreases |es|
  {
    hide Broken, After;
    if es != [] {
      EventStaysBroken(c, es[0], own, peer);
      RunStaysBroken(After(c, es[0], own, peer), es[1..], own, peer);
    }
  }

  lemma EventLogGrows(c: Connection, e: Event, own: string, peer: string)
    ensures |After(c, e, own, peer).log| <= |c.log| + 2
  {
    hide Parse, Receive, Recordable, StoredOf, Resend, RowsFrom, Outbound;
  }

  /** Over any run, of any bytes that frame as messages, with connections that end after any number of effects: if no
      connection was interrupted between storing a row and saving its number, the outbound log is message 1, 2, 3 and
      so on, each as it was sent, and the next connection continues the numbering; otherwise the numbering is lost. */
  lemma {:induction false} RunKeepsOrder(c: Connection, sent: seq<Message>, es: seq<Event>, own: string, peer: string)
    returns (now: seq<Message>)
    requires InOrder(c, sent) && |sent| + 2 * |es| <= INT_MAX
    requires forall e :: e in es && e.Arrived? ==> Clean(e.reply)
    ensures sent <= now
    ensures var end := AfterAll(c, es, own, peer);
            if AnyInterruption(c, es, own, peer) then Broken(end) else InOrder(end, now)
    decreases |es|
  {
    hide InOrder, Broken, After, Clean, InterruptedBy;
    now := sent;
    if es != [] {
      OrderedSession(c, sent);
      assert es[0] in es;
      now := EventKeepsOrder(c, sent, es[0], own, peer);
      EventLogGrows(c, es[0], own, peer);
      var next := After(c, es[0], own, peer);
      if InterruptedBy(c, es[0]) {
        RunStaysBroken(next, es[1..], own, peer);
      } else {
        OrderedSession(next, now);
        now := RunKeepsOrder(next, now, es[1..], own, peer);
      }
    }
  }

  /** Exactly when the outbound log is complete after a run: if and only if no connection was interrupted between
      storing the row of a numbered message and saving its number. */
  lemma WhenTheLogIsComplete(c: Connection, sent: seq<Message>, es: seq<Event>, own: string, peer: string)
    requires InOrder(c, sent) && |sent| + 2 * |es| <= INT_MAX
    requires forall e :: e in es && e.Arrived? ==> Clean(e.reply)
    ensures (exists now :: InOrder(AfterAll(c, es, own, peer), now)) <==> !AnyInterruption(c, es, own, peer)
  {
    hide InOrder, Broken, AfterAll, AnyInterruption, Clean;
    var now := RunKeepsOrder(c, sent, es, own, peer);
    if AnyInterruption(c, es, own, peer) {
      BrokenIsNotInOrder(AfterAll(c, es, own, peer));
    }
  }

  /** After an interruption the next connection starts with a number that is already in the log. */
  lemma InterruptionRepeatsANumber(
      c: Connection, sent: seq<Message>, m: Message, reply: Message, own: string, peer: string, t: nat,
      heartbeat: int, life: nat)
    requires InOrder(c, sent) && |c.log| + 2 <= INT_MAX && Clean(m) && Clean(reply) && Interrupted(c, m, reply, t)
    ensures var lost := Handle(c, m, reply, own, peer, t);
            !lost.open && lost.log != [] &&
            Reconnected(lost, heartbeat, life).session.next == lost.log[|lost.log| - 1].number
  {
    hide InOrder, Broken, Handle, Interrupted, Clean;
    var now := HandleKeepsOrder(c, sent, m, reply, own, peer, t);
  }

  // ---------- a number used twice ----------

  const LOGON: Message :=
    Message("FIX.4.4", 0, Logon, [Field(49, "C"), Field(56, "S"), Field(34, "1"), Field(108, "30")], 0)

  lemma LogonFields()
    ensures Get(LOGON.fields, 49) == Some("C") && Get(LOGON.fields, 56) == Some("S")
    ensures Get(LOGON.fields, 34) == Some("1") && Get(LOGON.fields, 108) == Some("30")
  {
    var fs := LOGON.fields;
    assert fs[1..][0] == fs[1] && fs[1..][1..][0] == fs[2] && fs[1..][1..][1..][0] == fs[3];
  }

  lemma SmallNumbers()
    ensures Decimal(1) == "1" && Decimal(30) == "30"
    ensures Positive(Some("1")) == Some(1) && Positive(Some("30")) == Some(30) && Stoi("1") == Some(1)
  {
    hide Positive, Stoi;
    assert Digits(3) == "3" && Digits(30) == Digits(3) + "0";
    PositiveDecimal(1);
    PositiveDecimal(30);
    NumberOfDecimal(1);
  }

  /** What a logon on a new connection leads to: an answer numbered 1. */
  lemma LogonIsAnswered(log: seq<Stored>, life: nat, reply: Message, t: nat)
    requires life > 0
    ensures var c := Begun("S", "C", 30, log, Numbers(1, 1, 0, 0), life);
            var step := Receive(c.session, LOGON, t);
            && Recordable(LOGON) && step.result.response.Some? && !Application(LOGON.kind)
            && Recordable(step.result.response.value) && NumberIn(step.result.response.value) == Some(1)
            && step.session.expected == 2 && step.session.next == 2 && step.result.resend.None?
  {
    hide Decimal, Positive, Stoi, Get, Numbered, With, Admin;
    LogonFields();
    SmallNumbers();
    var s := Begun("S", "C", 30, log, Numbers(1, 1, 0, 0), life).session;
    ReceiveNumbers(s, LOGON, t);
    AnswerNumber(s, Receive(s, LOGON, t).result.response.value);
  }

  lemma AnswerNumber(s: Session, m: Message)
    requires Numbered(m, s) && s.next == 1 && Administrative(m.kind)
    ensures NumberIn(m) == Some(1) && Recordable(m)
  {
    hide Decimal, Stoi, Get;
    SmallNumbers();
  }

  /** A run in which the numbering is lost: a logon is answered with message 1, which is stored, but the peer has gone
      before it is written; on the next connection the logon is answered with message 1 again. */
  lemma InterruptedLogon(reply: Message, t: nat)
    ensures var first := Handle(Begun("S", "C", 30, [], Numbers(1, 1, 0, 0), 2), LOGON, reply, "S", "C", t);
            var second := Handle(Reconnected(first, 30, 9), LOGON, reply, "S", "C", t);
            && !first.open && |first.log| == 1 && first.log[0].number == 1
            && second.open && |second.log| == 2 && second.log[0].number == 1 && second.log[1].number == 1
  {
    hide Receive, Recordable, NumberIn, Wire;
    LogonIsAnswered([], 2, reply, t);
    var c0 := Begun("S", "C", 30, [], Numbers(1, 1, 0, 0), 2);
    var first := Handle(c0, LOGON, reply, "S", "C", t);
    ReceiveNumbers(c0.session, LOGON, t);
    LogonIsAnswered(first.log, 9, reply, t);
  }

  // ---------- the server ----------

  class FixServer {
    const session: FixSession
    /** The comp ids as they are when gap fills are made. */
    const own: string
    const peer: string
    var log: seq<Stored>
    var saved: Numbers
    var written: seq<Message>
    var open: bool
    /** How many more effects the connection lives to complete. */
    var life: nat

    ghost function View(): Connection
      reads this, session
    {
      Connection(session.View(), log, saved, written, open, life)
    }

    /** A new connection over a store with these messages and numbers. The session throws for an empty comp id or an
        interval that is not positive. */
    constructor (
      sender: string, target: string, heartbeat: int, own: string, peer: string, log: seq<Stored>, saved: Numbers,
      life: nat)
      requires sender != "" && target != "" && heartbeat > 0
      ensures this.own == own && this.peer == peer && fresh(session)
      ensures View() == Begun(sender, target, heartbeat, log, saved, life)
    {
      var restored := new FixSession(sender, target, heartbeat);
      var ok := restored.RestoreSequenceState(saved.incoming, saved.outgoing, saved.received, saved.sent);
      this.session, this.own, this.peer := restored, own, peer;
      this.log, this.saved, this.written, this.open, this.life := log, saved, [], ok, life;
    }

    /** send_fix: encoding an unknown type and storing a message without a number throw, and so do a store that fails
        and a peer that has gone. */
    method Send(m: Message)
      modifies this`log, this`written, this`open, this`life
      ensures View() == Posted(old(View()), Some(m))
    {
      hide StoredOf, Recordable;
      if !Recordable(m) || life == 0 { open := false; return; }
      log, life := log + [StoredOf(m)], life - 1;
      if life == 0 { open := false; return; }
      written, life := written + [m], life - 1;
    }

    method Save()
      modifies this`saved, this`open, this`life
      ensures View() == Saving(old(View()))
    {
      if !open { return; }
      if session.expected <= 0 || session.next <= 0 || life == 0 { open := false; return; }
      saved, life := NumbersOf(session.View()), life - 1;
    }

    /** Write messages one after the other. */
    method WriteAll(ms: seq<Message>)
      requires open
      modifies this`written, this`open, this`life
      ensures View() == Writing(old(View()), ms)
    {
      var i := 0;
      while i < |ms|
        invariant i <= |ms| && i + life == old(life) && open && written == old(written) + ms[..i]
      {
        if life == 0 { open := false; return; }
        assert ms[..i + 1] == ms[..i] + [ms[i]];
        written, life, i := written + [ms[i]], life - 1, i + 1;
      }
      assert ms[..i] == ms;
    }

    /** Gap fills and copies go to the socket and are not stored. */
    method AnswerResend(begin: int, end: int, t: nat)
      requires open
      modifies this`written, this`open, this`life
      ensures View() == Resending(old(View()), begin, end, own, peer, t)
    {
      hide Resend, RowsFrom;
      if begin <= 0 { open := false; return; }
      var out := ResendLoop(RowsFrom(log, begin), end, own, peer, t);
      WriteAll(out.messages);
      open := open && !out.threw;
    }

    method HandleMessage(m: Message, reply: Message, t: nat)
      modifies this, session
      ensures View() == Handle(old(View()), m, reply, own, peer, t)
    {
      hide StoredOf, Recordable, Receive, Outbound, Resending, Posted, Saving;
      if !open { return; }
      if !Recordable(m) || life == 0 { open := false; return; }
      life := life - 1;
      var result := session.ReceiveMessage(m, t);
      ghost var c1 := View();
      if result.response.Some? { Send(result.response.value); } else { NothingPosted(View()); }
      Save();
      if !open || !result.accepted { return; }
      if m.kind.ResendRequest? && result.resend.Some? {
        AnswerResend(result.resend.value.0, result.resend.value.1, t);
        return;
      }
      if !Application(m.kind) { return; }
      var response := session.PrepareOutbound(reply, t);
      if response.None? { open := false; return; }
      Send(response.value);
      Save();
    }

    /** One framed message: one that does not parse is skipped. */
    method HandleWire(wire: string, reply: Message, t: nat)
      modifies this, session
      ensures View() == After(old(View()), Arrived(wire, reply, t), own, peer)
    {
      hide Handle, Parse;
      var parsed := ParseMessage(wire);
      if parsed.Parsed? { HandleMessage(parsed.message, reply, t); }
    }
  }
}
