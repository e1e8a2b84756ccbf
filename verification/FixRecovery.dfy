/** Message recovery end to end: a receiver that follows its own sequence rule is taken by the resend stream from
    the first number it asked for to one beyond the last that exists, without a gap and without a message that is
    too low; every application message comes once and in order, and no administrative one comes again. */
module FixRecovery {
  import opened Options
  import opened FixText
  import opened FixCodec
  import opened FixSessions
  import opened FixResend
  import opened FixServing

  // ---------- a receiver and a stream ----------

  function Deliver(r: Session, ms: seq<Message>, t: nat): Session
    decreases |ms|
  {
    if ms == [] then r else Deliver(Receive(r, ms[0], t).session, ms[1..], t)
  }

  /** Each message is the one the receiver expects next, and comes from its counterparty. */
  ghost predicate InTurn(r: Session, ms: seq<Message>, t: nat)
    decreases |ms|
  {
    ms != [] ==>
      && Positive(Get(ms[0].fields, 34)) == Some(r.expected)
      && Get(ms[0].fields, 49) == Some(r.target) && Get(ms[0].fields, 56) == Some(r.sender)
      && InTurn(Receive(r, ms[0], t).session, ms[1..], t)
  }

  /** The messages of a stream that are not gap fills. */
  function Payload(ms: seq<Message>): seq<Message>
    decreases |ms|
  {
    if ms == [] then [] else (if ms[0].kind.SequenceReset? then [] else [ms[0]]) + Payload(ms[1..])
  }

  /** The copies a resend owes for some sent messages: one for each that is not administrative. */
  function Copies(sent: seq<Message>, t: nat): seq<Message>
    decreases |sent|
  {
    if sent == [] then []
    else
      (if Administrative(sent[0].kind) || PossDup(Canonical(sent[0]), t).None? then []
       else [PossDup(Canonical(sent[0]), t).value])
      + Copies(sent[1..], t)
  }

  /** Gap fills and possible duplicates of application messages only. */
  ghost predicate NothingAdministrative(ms: seq<Message>) {
    forall k :: 0 <= k < |ms| ==>
      if ms[k].kind.SequenceReset? then Get(ms[k].fields, 123) == Some("Y")
      else !Administrative(ms[k].kind) && Get(ms[k].fields, 43) == Some("Y")
  }

  /** What a stretch of the stream does: the receiver follows it to `to`, and gets `payload`. */
  ghost predicate Brings(r: Session, ms: seq<Message>, t: nat, to: int, payload: seq<Message>) {
    var end := Deliver(r, ms, t);
    && InTurn(r, ms, t) && end.expected == to && end.sender == r.sender && end.target == r.target
    && Payload(ms) == payload && NothingAdministrative(ms)
  }

  lemma {:induction false} StreamsJoin(r: Session, a: seq<Message>, b: seq<Message>, t: nat)
    ensures Deliver(r, a + b, t) == Deliver(Deliver(r, a, t), b, t)
    ensures InTurn(r, a + b, t) <==> InTurn(r, a, t) && InTurn(Deliver(r, a, t), b, t)
    ensures Payload(a + b) == Payload(a) + Payload(b)
    decreases |a|
  {
    hide Receive;
    if a == [] {
      assert a + b == b;
    } else {
      assert (a + b)[1..] == a[1..] + b;
      StreamsJoin(Receive(r, a[0], t).session, a[1..], b, t);
    }
  }

  lemma BringsJoin(r: Session, a: seq<Message>, b: seq<Message>, t: nat, middle: int, to: int, first: seq<Message>,
      second: seq<Message>)
    requires Brings(r, a, t, middle, first) && Brings(Deliver(r, a, t), b, t, to, second)
    ensures Brings(r, a + b, t, to, first + second)
  {
    hide Deliver, InTurn, Payload, Get;
    StreamsJoin(r, a, b, t);
    forall k | 0 <= k < |a + b|
      ensures if (a + b)[k].kind.SequenceReset? then Get((a + b)[k].fields, 123) == Some("Y")
              else !Administrative((a + b)[k].kind) && Get((a + b)[k].fields, 43) == Some("Y")
    {
      assert (a + b)[k] == if k < |a| then a[k] else b[k - |a|];
    }
  }

  lemma NothingBrings(r: Session, t: nat)
    ensures Brings(r, [], t, r.expected, [])
  {
  }

  lemma OneDelivered(r: Session, m: Message, t: nat)
    ensures Deliver(r, [m], t) == Receive(r, m, t).session
    ensures InTurn(r, [m], t) <==>
              && Positive(Get(m.fields, 34)) == Some(r.expected)
              && Get(m.fields, 49) == Some(r.target) && Get(m.fields, 56) == Some(r.sender)
    ensures Payload([m]) == if m.kind.SequenceReset? then [] else [m]
  {
    hide Receive, Positive, Get;
    assert [m][1..] == [];
    assert Deliver(Receive(r, m, t).session, [], t) == Receive(r, m, t).session;
  }

  // ---------- gap fills ----------

  /** A gap fill says that it is one, from which number to which, between whom, and when. */
  lemma GapFillFields(number: int, to: int, sender: string, target: string, t: nat, tag: int)
    requires GapFill(number, to, sender, target, t).Some?
    ensures var m := GapFill(number, to, sender, target, t).value;
            && m.kind.SequenceReset?
            && (tag == 34 ==> Get(m.fields, tag) == Some(Decimal(number)))
            && (tag == 36 ==> Get(m.fields, tag) == Some(Decimal(to)))
            && (tag == 49 ==> Get(m.fields, tag) == Some(sender))
            && (tag == 56 ==> Get(m.fields, tag) == Some(target))
            && (tag == 43 || tag == 123 ==> Get(m.fields, tag) == Some("Y"))
            && (tag == 52 || tag == 122 ==> Get(m.fields, tag) == Some(Decimal(t)))
  {
    hide Decimal, Get, Put;
    var f1 := Put([], 34, Decimal(number));
    var f2 := Put(f1, 43, "Y");
    var f3 := Put(f2, 123, "Y");
    var f4 := Put(f3, 36, Decimal(to));
    var f5 := Put(f4, 49, sender);
    var f6 := Put(f5, 56, target);
    var f7 := Put(f6, 52, Decimal(t));
    GetAfterPut([], 34, Decimal(number), tag);
    GetAfterPut(f1, 43, "Y", tag);
    GetAfterPut(f2, 123, "Y", tag);
    GetAfterPut(f3, 36, Decimal(to), tag);
    GetAfterPut(f4, 49, sender, tag);
    GetAfterPut(f5, 56, target, tag);
    GetAfterPut(f6, 52, Decimal(t), tag);
    GetAfterPut(f7, 122, Decimal(t), tag);
  }

  ghost predicate Counterparty(r: Session, sender: string, target: string) { r.target == sender && r.sender == target }

  /** A gap fill in turn takes the receiver to the new number. */
  lemma GapFillReceived(r: Session, to: int, sender: string, target: string, t: nat, now: nat)
    requires Counterparty(r, sender, target) && sender != "" && target != ""
    requires 0 < r.expected < to <= INT_MAX
    ensures var gap := GapFill(r.expected, to, sender, target, t);
            gap.Some? && Brings(r, [gap.value], now, to, [])
  {
    hide Decimal, Get, Positive, GapFill;
    GapFillExists(r.expected, to, sender, target, t);
    var m := GapFill(r.expected, to, sender, target, t).value;
    GapFillFields(r.expected, to, sender, target, t, 34);
    GapFillFields(r.expected, to, sender, target, t, 36);
    GapFillFields(r.expected, to, sender, target, t, 49);
    GapFillFields(r.expected, to, sender, target, t, 56);
    GapFillFields(r.expected, to, sender, target, t, 123);
    PositiveDecimal(r.expected);
    PositiveDecimal(to);
    OneDelivered(r, m, now);
    ResetReceived(r, m, to, now);
  }

  lemma GapFillExists(number: int, to: int, sender: string, target: string, t: nat)
    ensures GapFill(number, to, sender, target, t).Some? <==> 0 < number < to && sender != "" && target != ""
  {
    hide With;
  }

  lemma ResetReceived(r: Session, m: Message, to: int, now: nat)
    requires m.kind.SequenceReset? && Positive(Get(m.fields, 34)) == Some(r.expected)
    requires Positive(Get(m.fields, 36)) == Some(to)
    requires Get(m.fields, 49) == Some(r.target) && Get(m.fields, 56) == Some(r.sender) && to > r.expected
    ensures var end := Receive(r, m, now).session;
            end.expected == to && end.sender == r.sender && end.target == r.target
  {
    hide Get, Positive;
  }

  // ---------- copies ----------

  /** A copy is the original but for three fields: it is marked as a possible duplicate, carries the time it was first
      sent as such, and the time it is sent again. */
  lemma PossDupFields(m: Message, t: nat)
    requires Get(m.fields, 52).Some?
    ensures PossDup(m, t).Some?
    ensures var copy := PossDup(m, t).value;
            && copy.kind == m.kind && Get(copy.fields, 43) == Some("Y") && Get(copy.fields, 122) == Get(m.fields, 52)
            && Get(copy.fields, 52) == Some(Decimal(t))
            && forall tag :: tag != 43 && tag != 122 && tag != 52 ==> Get(copy.fields, tag) == Get(m.fields, tag)
  {
    hide Decimal, Get, Put;
    var original := Get(m.fields, 52).value;
    var f1 := Put(m.fields, 43, "Y");
    var f2 := Put(f1, 122, original);
    forall tag: int
      ensures Get(f1, tag) == if tag == 43 then Some("Y") else Get(m.fields, tag)
      ensures Get(f2, tag) == if tag == 122 then Some(original) else Get(f1, tag)
      ensures Get(Put(f2, 52, Decimal(t)), tag) == if tag == 52 then Some(Decimal(t)) else Get(f2, tag)
    {
      GetAfterPut(m.fields, 43, "Y", tag);
      GetAfterPut(f1, 122, original, tag);
      GetAfterPut(f2, 52, Decimal(t), tag);
    }
  }

  /** A copy in turn counts once, whatever the receiver makes of its type. */
  lemma CopyReceived(r: Session, m: Message, t: nat, now: nat)
    requires Get(m.fields, 34) == Some(Decimal(r.expected)) && 0 < r.expected <= INT_MAX
    requires Get(m.fields, 49) == Some(r.target) && Get(m.fields, 56) == Some(r.sender) && Get(m.fields, 52).Some?
    requires !Administrative(m.kind)
    ensures PossDup(m, t).Some? && Brings(r, [PossDup(m, t).value], now, r.expected + 1, [PossDup(m, t).value])
  {
    hide Decimal, Get, Positive, PossDup;
    PossDupFields(m, t);
    PositiveDecimal(r.expected);
    var copy := PossDup(m, t).value;
    OneDelivered(r, copy, now);
    CountsOnce(r, copy, now);
  }

  lemma CountsOnce(r: Session, m: Message, now: nat)
    requires !Administrative(m.kind) && Positive(Get(m.fields, 34)) == Some(r.expected)
    requires Get(m.fields, 49) == Some(r.target) && Get(m.fields, 56) == Some(r.sender)
    ensures var end := Receive(r, m, now).session;
            end.expected == r.expected + 1 && end.sender == r.sender && end.target == r.target
  {
    hide Get, Positive, With, Admin;
  }

  // ---------- the stream of a resend ----------

  function Stop(last: int, size: nat): int { if last < size then last else size }

  lemma FlushReceived(r: Session, begin: int, k: nat, sender: string, target: string, t: nat, now: nat)
    requires Counterparty(r, sender, target) && sender != "" && target != "" && k < INT_MAX
    requires if begin == 0 then r.expected == k + 1 else 0 < begin <= k && r.expected == begin
    ensures var out := Flush(begin, if begin == 0 then 0 else k, sender, target, t);
            !out.threw && Brings(r, out.messages, now, k + 1, [])
  {
    hide GapFill, Brings;
    if begin == 0 {
      NothingBrings(r, now);
    } else {
      GapFillReceived(r, k + 1, sender, target, t, now);
    }
  }

  /** Every message of the range parses when its body fits an int. */
  ghost predicate Readable(sent: seq<Message>, from: nat, last: int) {
    forall j :: from <= j < |sent| && j < last ==> |Body(sent[j])| <= INT_MAX
  }

  lemma RowParses(log: seq<Stored>, sent: seq<Message>, sender: string, target: string, k: nat)
    requires Consecutive(log, sent, sender, target) && k < |log| && |Body(sent[k])| <= INT_MAX
    ensures Parse(log[k].wire) == Parsed(Canonical(sent[k])) && Canonical(sent[k]).kind == sent[k].kind
    ensures var m := Canonical(sent[k]);
            && Get(m.fields, 34) == Some(Decimal(k + 1)) && Get(m.fields, 49) == Some(sender)
            && Get(m.fields, 56) == Some(target) && Get(m.fields, 52).Some?
  {
    hide Parse, Canonical, Get, Decimal, Clean, Wire, Body;
    ParseUndoesWire(sent[k]);
    CanonicalKind(sent[k]);
    GetOfCanonical(sent[k], 34);
    GetOfCanonical(sent[k], 49);
    GetOfCanonical(sent[k], 56);
    GetOfCanonical(sent[k], 52);
  }

  lemma {:induction false} ResendReceived(
    log: seq<Stored>, sent: seq<Message>, k: nat, last: int, begin: int, r: Session, sender: string, target: string,
    t: nat, now: nat)
    requires Consecutive(log, sent, sender, target) && sender != "" && target != "" && |log| < INT_MAX
    requires k <= |log| && k <= last && Readable(sent, k, last) && Counterparty(r, sender, target)
    requires if begin == 0 then r.expected == k + 1 else 0 < begin <= k && r.expected == begin
    ensures var out := Resend(log[k..], last, begin, if begin == 0 then 0 else k, sender, target, t);
            !out.threw && Brings(r, out.messages, now, Stop(last, |log|) + 1, Copies(sent[k..Stop(last, |log|)], t))
    decreases |log| - k
  {
    hide Brings, Flush, Parse, PossDup, Canonical, Copies, SentAs, Wire, Body;
    if k == |log| || k == last {
      assert sent[k..Stop(last, |log|)] == [];
      NoCopies(t);
      FlushReceived(r, begin, k, sender, target, t, now);
    } else {
      RowParses(log, sent, sender, target, k);
      assert log[k..][1..] == log[k + 1..];
      CopiesHead(sent, k, Stop(last, |log|), t);
      if Administrative(sent[k].kind) {
        ResendReceived(log, sent, k + 1, last, if begin == 0 then k + 1 else begin, r, sender, target, t, now);
      } else {
        ResendCopies(log, sent, k, last, begin, r, sender, target, t, now);
      }
    }
  }

  lemma NoCopies(t: nat)
    ensures Copies([], t) == []
  {
  }

  lemma CopiesHead(sent: seq<Message>, k: nat, end: int, t: nat)
    requires k < end <= |sent|
    ensures Copies(sent[k..end], t) ==
              (if Administrative(sent[k].kind) || PossDup(Canonical(sent[k]), t).None? then []
               else [PossDup(Canonical(sent[k]), t).value]) + Copies(sent[k + 1..end], t)
    ensures Administrative(sent[k].kind) ==> Copies(sent[k..end], t) == Copies(sent[k + 1..end], t)
  {
    hide PossDup, Canonical;
    assert sent[k..end][1..] == sent[k + 1..end];
    assert [] + Copies(sent[k + 1..end], t) == Copies(sent[k + 1..end], t);
  }

  lemma {:induction false} ResendCopies(
    log: seq<Stored>, sent: seq<Message>, k: nat, last: int, begin: int, r: Session, sender: string, target: string,
    t: nat, now: nat)
    requires Consecutive(log, sent, sender, target) && sender != "" && target != "" && |log| < INT_MAX
    requires k < |log| && k < last && Readable(sent, k, last) && Counterparty(r, sender, target)
    requires if begin == 0 then r.expected == k + 1 else 0 < begin <= k && r.expected == begin
    requires !Administrative(sent[k].kind)
    ensures var out := Resend(log[k..], last, begin, if begin == 0 then 0 else k, sender, target, t);
            !out.threw && Brings(r, out.messages, now, Stop(last, |log|) + 1, Copies(sent[k..Stop(last, |log|)], t))
    decreases |log| - k, 0
  {
    hide Flush, Parse, PossDup, Canonical, Copies, Wire, Body, Deliver, InTurn, Payload, NothingAdministrative, Get,
         Decimal;
    RowParses(log, sent, sender, target, k);
    var m := Canonical(sent[k]);
    assert log[k..][1..] == log[k + 1..];
    CopiesHead(sent, k, Stop(last, |log|), t);
    FlushReceived(r, begin, k, sender, target, t, now);
    var flushed := Flush(begin, if begin == 0 then 0 else k, sender, target, t);
    var r1 := Deliver(r, flushed.messages, now);
    CopyReceived(r1, m, t, now);
    var copy := [PossDup(m, t).value];
    var r2 := Deliver(r1, copy, now);
    ResendReceived(log, sent, k + 1, last, 0, r2, sender, target, t, now);
    var rest := Resend(log[k + 1..], last, 0, 0, sender, target, t);
    BringsJoin(r1, copy, rest.messages, now, k + 2, Stop(last, |log|) + 1, copy,
        Copies(sent[k + 1..Stop(last, |log|)], t));
    BringsJoin(r, flushed.messages, copy + rest.messages, now, k + 1, Stop(last, |log|) + 1, [],
               copy + Copies(sent[k + 1..Stop(last, |log|)], t));
    EmptyFirst(copy + Copies(sent[k + 1..Stop(last, |log|)], t));
  }

  lemma EmptyFirst(ms: seq<Message>)
    ensures [] + ms == ms
  {
  }

  /** The rows the store returns for a request that begins at `begin`. */
  function From(log: seq<Stored>, begin: nat): seq<Stored>
    requires 0 < begin <= |log| + 1
  {
    log[begin - 1..]
  }

  /** Resend completeness: for any request [b, e] with b among the messages sent, the resend does not throw; a
      counterparty that expects b follows it message by message to one beyond the last that exists; it gets a copy
      of each application message in the range, once and in order; and nothing administrative but gap fills. */
  lemma ResendIsComplete(log: seq<Stored>, sent: seq<Message>, b: nat, e: int, r: Session, sender: string,
      target: string, t: nat, now: nat)
    requires Consecutive(log, sent, sender, target) && sender != "" && target != "" && |log| < INT_MAX
    requires 0 < b <= |log| && b <= e && Readable(sent, b - 1, e)
    requires Counterparty(r, sender, target) && r.expected == b
    ensures var out := Resend(From(log, b), e, 0, 0, sender, target, t);
            && !out.threw && InTurn(r, out.messages, now)
            && Deliver(r, out.messages, now).expected == Stop(e, |log|) + 1
            && Payload(out.messages) == Copies(sent[b - 1..Stop(e, |log|)], t)
            && NothingAdministrative(out.messages)
  {
    hide Resend, Copies, Consecutive, Deliver, InTurn, Payload, NothingAdministrative;
    ResendReceived(log, sent, b - 1, e, 0, r, sender, target, t, now);
  }

  // ---------- over the wire ----------

  function Canonicals(ms: seq<Message>): seq<Message>
    decreases |ms|
  {
    if ms == [] then [] else [Canonical(ms[0])] + Canonicals(ms[1..])
  }

  /** What arrives is the parse of what was encoded; the receiver ends up the same. */
  lemma {:induction false} DeliveredOverTheWire(r: Session, ms: seq<Message>, t: nat)
    ensures Deliver(r, Canonicals(ms), t) == Deliver(r, ms, t)
    decreases |ms|
  {
    hide Receive, Canonical;
    if ms != [] {
      WireDoesNotMatter(r, ms[0], t);
      assert Canonicals(ms)[1..] == Canonicals(ms[1..]);
      DeliveredOverTheWire(Receive(r, ms[0], t).session, ms[1..], t);
    }
  }

  // ---------- the request that was received ----------

  lemma FirstRow(log: seq<Stored>, k: nat, begin: int)
    requires k < |log|
    ensures RowsFrom(log[k..], begin) ==
              (if log[k].number >= begin then [log[k]] else []) + RowsFrom(log[k + 1..], begin)
  {
    var rows := log[k..];
    assert rows[0] == log[k] && rows[1..] == log[k + 1..];
  }

  lemma NoRows(begin: int)
    ensures RowsFrom([], begin) == []
  {
  }

  lemma {:induction false} RowsBehind(log: seq<Stored>, k: nat, begin: nat)
    requires k <= |log| && 0 < begin <= |log| + 1 && forall i :: 0 <= i < |log| ==> log[i].number == i + 1
    ensures RowsFrom(log[k..], begin) == log[if k < begin - 1 then begin - 1 else k..]
    decreases |log| - k
  {
    hide RowsFrom;
    if k == |log| {
      NoRows(begin);
      assert log[k..] == [];
    } else {
      FirstRow(log, k, begin);
      RowsBehind(log, k + 1, begin);
      if k + 1 >= begin {
        assert log[k..] == [log[k]] + log[k + 1..];
      } else {
        assert [] + log[begin - 1..] == log[begin - 1..];
      }
    }
  }

  /** In a complete log the rows from a number on are the end of the log. */
  lemma RowsAreTheEnd(log: seq<Stored>, sent: seq<Message>, sender: string, target: string, begin: nat)
    requires Consecutive(log, sent, sender, target) && 0 < begin <= |log| + 1
    ensures RowsFrom(log, begin) == From(log, begin)
  {
    hide RowsFrom, SentAs, Wire;
    assert log[0..] == log;
    RowsBehind(log, 0, begin);
  }

  lemma AcceptedRequest(s: Session, m: Message, t: nat)
    requires m.kind.ResendRequest? && Receive(s, m, t).result.accepted
    ensures var step := Receive(s, m, t);
            && step.result.response.None? && step.result.resend.Some? && step.session.expected == s.expected + 1
            && 0 < step.result.resend.value.0 <= step.result.resend.value.1
            && step.session == s.(expected := s.expected + 1, lastReceived := t)
  {
    hide Get, Positive, Admin, With, Decimal;
    PositiveIsPositive(Get(m.fields, 7));
  }

  lemma PositiveIsPositive(text: Option<string>)
    ensures Positive(text).Some? ==> Positive(text).value > 0
  {
  }

  /** Does the connection live to store the request, save its numbers and write all of an answer? */
  predicate Lasts(c: Connection, answer: seq<Message>) { |answer| + 2 <= c.life }

  /** An accepted request is answered by the resend loop over the range it asks for. */
  lemma RequestReachesTheLoop(
      c: Connection, sent: seq<Message>, m: Message, reply: Message, own: string, peer: string, t: nat)
    requires InOrder(c, sent) && c.open && Recordable(m) && m.kind.ResendRequest?
    requires Receive(c.session, m, t).result.accepted
    requires Receive(c.session, m, t).result.resend.value.0 <= |c.log|
    ensures var range := Receive(c.session, m, t).result.resend.value;
            var out := Resend(From(c.log, range.0), range.1, 0, 0, own, peer, t);
            var c' := Handle(c, m, reply, own, peer, t);
            && c'.log == c.log && (c'.open <==> !out.threw && Lasts(c, out.messages))
            && c.written <= c'.written <= c.written + out.messages
            && (Lasts(c, out.messages) ==> c'.written == c.written + out.messages)
  {
    hide Receive, Resend, RowsFrom, Recordable, Consecutive;
    AcceptedRequest(c.session, m, t);
    RowsAreTheEnd(c.log, sent, c.session.sender, c.session.target, Receive(c.session, m, t).result.resend.value.0);
  }

  /** What is written in answer, between two states of a connection. */
  function Written(c: Connection, c': Connection): seq<Message>
    requires |c.written| <= |c'.written|
  {
    c'.written[|c.written|..]
  }

  lemma {:induction false} PrefixInTurn(r: Session, some: seq<Message>, all: seq<Message>, t: nat)
    requires some <= all && InTurn(r, all, t)
    ensures InTurn(r, some, t)
  {
    hide Deliver, InTurn;
    assert all == some + all[|some|..];
    StreamsJoin(r, some, all[|some|..], t);
  }

  /** Resend completeness for the request actually received: with its comp ids configured, whatever a server whose log
      is complete writes is in turn for a counterparty that waits for the first number asked for; it stays connected
      exactly if the connection lives to write all of the answer; and then the counterparty is taken to one beyond the
      last number that exists, with each application message of the range once and in order. */
  lemma RequestIsAnswered(c: Connection, sent: seq<Message>, m: Message, reply: Message, t: nat, r: Session, now: nat)
    requires InOrder(c, sent) && c.open && Recordable(m) && m.kind.ResendRequest?
    requires Receive(c.session, m, t).result.accepted
    requires c.session.sender != "" && c.session.target != "" && |c.log| < INT_MAX
    requires var range := Receive(c.session, m, t).result.resend.value;
             range.0 <= |c.log| && Readable(sent, range.0 - 1, range.1) && r.expected == range.0
    requires Counterparty(r, c.session.sender, c.session.target)
    ensures var (b, e) := Receive(c.session, m, t).result.resend.value;
            var c' := Handle(c, m, reply, c.session.sender, c.session.target, t);
            && c'.log == c.log && c.written <= c'.written && InTurn(r, Written(c, c'), now)
            && (c'.open <==> Lasts(c, WholeAnswer(c, b, e, t)))
            && (c'.open ==>
                  var out := Written(c, c');
                  && Deliver(r, out, now).expected == Stop(e, |c.log|) + 1
                  && Payload(out) == Copies(sent[b - 1..Stop(e, |c.log|)], t) && NothingAdministrative(out))
  {
    hide Receive, Resend, Copies, Deliver, InTurn, Payload, NothingAdministrative, Recordable, Handle, From;
    AcceptedRequest(c.session, m, t);
    var range := Receive(c.session, m, t).result.resend.value;
    RequestReachesTheLoop(c, sent, m, reply, c.session.sender, c.session.target, t);
    ResendIsComplete(c.log, sent, range.0, range.1, r, c.session.sender, c.session.target, t, now);
    var out := WholeAnswer(c, range.0, range.1, t);
    var c' := Handle(c, m, reply, c.session.sender, c.session.target, t);
    assert (c.written + out)[|c.written|..] == out;
    assert Written(c, c') <= out;
    PrefixInTurn(r, Written(c, c'), out, now);
  }

  /** All that a request for a range leads to, if the connection lasts. */
  function WholeAnswer(c: Connection, begin: int, end: int, t: nat): seq<Message>
    requires 0 < begin <= |c.log| + 1
  {
    Resend(From(c.log, begin), end, 0, 0, c.session.sender, c.session.target, t).messages
  }

  // ---------- recovery from a gap ----------

  lemma RequestFields(r: Session, n: int, t: nat)
    ensures var m := Gap(r, n, t).result.response.value;
            && m.kind.ResendRequest? && Get(m.fields, 34) == Some(Decimal(r.next))
            && Get(m.fields, 49) == Some(r.sender) && Get(m.fields, 56) == Some(r.target)
            && Get(m.fields, 7) == Some(Decimal(r.expected)) && Get(m.fields, 16) == Some(Decimal(n - 1))
  {
    hide Decimal, Get, With, Admin;
    AdminFields(r, ResendRequest, t);
    var m := Admin(r, ResendRequest, t);
    TwoMoreFields(m, Decimal(r.expected), Decimal(n - 1), 34);
    TwoMoreFields(m, Decimal(r.expected), Decimal(n - 1), 49);
    TwoMoreFields(m, Decimal(r.expected), Decimal(n - 1), 56);
    TwoMoreFields(m, Decimal(r.expected), Decimal(n - 1), 7);
    TwoMoreFields(m, Decimal(r.expected), Decimal(n - 1), 16);
  }

  lemma TwoMoreFields(m: Message, begin: string, end: string, tag: int)
    ensures var request := With(With(m, 7, begin), 16, end);
            && request.kind == m.kind
            && Get(request.fields, tag) == if tag == 16 then Some(end) else if tag == 7 then Some(begin)
                 else Get(m.fields, tag)
  {
    hide Get, Put;
    GetAfterPut(m.fields, 7, begin, tag);
    GetAfterPut(Put(m.fields, 7, begin), 16, end, tag);
  }

  lemma CanonicalIsRecordable(m: Message)
    ensures Recordable(Canonical(m)) <==> Recordable(m)
  {
    hide Canonical, Get, Stoi;
    GetOfCanonical(m, 34);
    CanonicalKind(m);
  }

  /** The counterparty's request, as it comes off the wire, is accepted for exactly the missing range. */
  lemma RequestIsAccepted(s: Session, r: Session, n: int, t: nat, now: nat)
    requires s.state.Active? && r.sender == s.target && r.target == s.sender
    requires r.next == s.expected && 0 < s.expected <= INT_MAX && 0 < r.expected < n <= INT_MAX
    ensures var request := Canonical(Gap(r, n, now).result.response.value);
            && Recordable(request) && request.kind.ResendRequest?
            && Receive(s, request, t).result.accepted
            && Receive(s, request, t).result.resend == Some((r.expected, n - 1))
  {
    hide Canonical, Get, Gap, Decimal, Positive, Stoi;
    GapKeepsTheRest(r, n, now);
    var m := Gap(r, n, now).result.response.value;
    RequestFields(r, n, now);
    CanonicalKind(m);
    CanonicalIsRecordable(m);
    WireDoesNotMatter(s, m, t);
    PositiveDecimal(r.next);
    PositiveDecimal(r.expected);
    PositiveDecimal(n - 1);
    NumberOfDecimal(r.next);
  }

  /** A receiver that sees number `n` too early refuses it and asks for what is missing. */
  lemma EarlyMessageAsks(r: Session, m: Message, n: int, now: nat)
    requires Get(m.fields, 49) == Some(r.target) && Get(m.fields, 56) == Some(r.sender)
    requires Get(m.fields, 34) == Some(Decimal(n)) && r.expected < n && 0 < n <= INT_MAX
    ensures Receive(r, m, now) == Gap(r, n, now)
  {
    hide Get, Decimal, Gap;
    PositiveDecimal(n);
  }

  /** Message recovery end to end. A receiver meets message `n` before its turn: it refuses it and asks for the
      range it misses; the server, given that request off the wire, accepts it and stays connected if the connection
      lives to write the resend; and that, off the wire again, brings the receiver each application message it missed,
      once and in order, and nothing administrative, after which message `n` is in turn. */
  lemma GapIsRecovered(c: Connection, sent: seq<Message>, r: Session, n: nat, reply: Message, t: nat, now: nat)
    requires InOrder(c, sent) && c.open && c.session.state.Active? && |c.log| < INT_MAX
    requires c.session.sender != "" && c.session.target != "" && Counterparty(r, c.session.sender, c.session.target)
    requires 0 < r.expected < n <= |c.log| && r.next == c.session.expected <= INT_MAX
    requires Readable(sent, r.expected - 1, n - 1)
    ensures var early := Receive(r, sent[n - 1], now);
            && !early.result.accepted && early.result.response.Some?
            && var request := Canonical(early.result.response.value);
               var c' := Handle(c, request, reply, c.session.sender, c.session.target, t);
               && c'.log == c.log && c.written <= c'.written
               && (c'.open <==> Lasts(c, WholeAnswer(c, r.expected, n - 1, t)))
               && (c'.open ==>
                     var out := Written(c, c');
                     && Payload(out) == Copies(sent[r.expected - 1..n - 1], t) && NothingAdministrative(out)
                     && var caughtUp := Deliver(early.session, Canonicals(out), now);
                        caughtUp.expected == n && InTurn(caughtUp, [sent[n - 1]], now))
  {
    hide Receive, Resend, Copies, Deliver, Payload, NothingAdministrative, Recordable, Handle, From, Canonical, Get,
         Decimal;
    hide Gap, Consecutive, Wire, Body, Positive, WholeAnswer;
    NumberedAsSent(c, sent, n);
    EarlyMessageAsks(r, sent[n - 1], n, now);
    GapKeepsTheRest(r, n, now);
    RequestIsAccepted(c.session, r, n, t, now);
    var early := Gap(r, n, now);
    var request := Canonical(early.result.response.value);
    RequestIsAnswered(c, sent, request, reply, t, early.session, now);
    var out := Written(c, Handle(c, request, reply, c.session.sender, c.session.target, t));
    DeliveredOverTheWire(early.session, out, now);
    DeliveryKeepsIds(early.session, out, now);
    OneDelivered(Deliver(early.session, out, now), sent[n - 1], now);
    PositiveDecimal(n);
  }

  lemma NumberedAsSent(c: Connection, sent: seq<Message>, n: nat)
    requires InOrder(c, sent) && 0 < n <= |c.log|
    ensures |sent| == |c.log| && Get(sent[n - 1].fields, 34) == Some(Decimal(n))
    ensures Get(sent[n - 1].fields, 49) == Some(c.session.sender)
    ensures Get(sent[n - 1].fields, 56) == Some(c.session.target)
  {
    hide Wire, Clean, Get, Decimal;
    assert SentAs(sent[n - 1], n - 1, c.session.sender, c.session.target);
  }

  lemma GapKeepsTheRest(r: Session, n: int, now: nat)
    ensures var gap := Gap(r, n, now);
            && !gap.result.accepted && gap.result.response.Some?
            && gap.session.expected == r.expected && gap.session.sender == r.sender && gap.session.target == r.target
  {
    hide Admin, With, Decimal;
  }

  lemma {:induction false} DeliveryKeepsIds(r: Session, ms: seq<Message>, t: nat)
    ensures Deliver(r, ms, t).sender == r.sender && Deliver(r, ms, t).target == r.target
    decreases |ms|
  {
    hide Receive, Numbered;
    if ms != [] {
      ReceiveNumbers(r, ms[0], t);
      DeliveryKeepsIds(Receive(r, ms[0], t).session, ms[1..], t);
    }
  }

  // ---------- without comp ids ----------

  ghost predicate HasAdministrative(sent: seq<Message>, from: int, to: int) {
    exists j :: 0 <= from <= j < to && j < |sent| && Administrative(sent[j].kind)
  }

  lemma {:induction false} ThrowsFrom(
    log: seq<Stored>, sent: seq<Message>, k: nat, last: int, begin: int, own: string, peer: string,
    sender: string, target: string, t: nat)
    requires Consecutive(log, sent, own, peer) && (sender == "" || target == "")
    requires k <= |log| && k <= last && Readable(sent, k, last) && 0 <= begin <= k
    ensures Resend(log[k..], last, begin, if begin == 0 then 0 else k, sender, target, t).threw <==>
              begin > 0 || HasAdministrative(sent, k, Stop(last, |log|))
    decreases |log| - k
  {
    hide Parse, PossDup, Canonical, SentAs, Wire, Body, GapFill;
    GapFillExists(begin, k + 1, sender, target, t);
    if k < |log| && k < last {
      RowParses(log, sent, own, peer, k);
      assert log[k..][1..] == log[k + 1..];
      assert HasAdministrative(sent, k, Stop(last, |log|)) <==>
             Administrative(sent[k].kind) || HasAdministrative(sent, k + 1, Stop(last, |log|));
      if Administrative(sent[k].kind) {
        ThrowsFrom(log, sent, k + 1, last, if begin == 0 then k + 1 else begin, own, peer, sender, target, t);
      } else {
        CopyExists(Canonical(sent[k]), t);
        ThrowsFrom(log, sent, k + 1, last, 0, own, peer, sender, target, t);
      }
    }
  }

  lemma CopyExists(m: Message, t: nat)
    ensures PossDup(m, t).Some? <==> Get(m.fields, 52).Some?
  {
    hide With;
  }

  /** If a comp id is empty where the gap fills are made, a resend throws exactly when the range holds an
      administrative message; with both present it never does. */
  lemma ResendThrowsWithoutCompIds(
    log: seq<Stored>, sent: seq<Message>, b: nat, e: int, own: string, peer: string, sender: string, target: string,
    t: nat)
    requires Consecutive(log, sent, own, peer) && (sender == "" || target == "")
    requires 0 < b <= |log| && b <= e && Readable(sent, b - 1, e)
    ensures Resend(From(log, b), e, 0, 0, sender, target, t).threw <==> HasAdministrative(sent, b - 1, Stop(e, |log|))
  {
    hide Resend, Consecutive;
    ThrowsFrom(log, sent, b - 1, e, 0, own, peer, sender, target, t);
  }
}
