/** Outbound messages under consecutive numbers, and what the server sends when asked for some of them again:
    application messages as possible duplicates, runs of administrative ones as one gap fill each. */
module FixResend {
  import opened Options
  import opened FixText
  import opened FixCodec
  import opened FixSessions

  datatype Stored = Stored(number: int, wire: string)

  // ---------- what is stored ----------

  /** fix_sequence_number; None where it throws. */
  function NumberIn(m: Message): Option<Int32> {
    var text := Get(m.fields, 34);
    if text.None? then None else Stoi(text.value)
  }

  /** Can the store take the message: a positive number and a known type? Otherwise recording it throws. */
  predicate Recordable(m: Message) { NumberIn(m).Some? && NumberIn(m).value > 0 && !m.kind.Unknown? }

  function StoredOf(m: Message): Stored
    requires Recordable(m)
  {
    Stored(NumberIn(m).value, Wire(m))
  }

  /** The message number `k + 1` of a session, as it was sent. */
  ghost predicate SentAs(m: Message, k: nat, sender: string, target: string) {
    && Get(m.fields, 34) == Some(Decimal(k + 1)) && Get(m.fields, 49) == Some(sender)
    && Get(m.fields, 56) == Some(target) && Get(m.fields, 52).Some? && Clean(m) && !m.kind.Unknown?
  }

  /** The log holds message 1, 2, 3 and so on, each as it was sent. */
  ghost predicate Consecutive(log: seq<Stored>, sent: seq<Message>, sender: string, target: string) {
    && |log| == |sent|
    && forall k :: 0 <= k < |log| ==>
         log[k].number == k + 1 && log[k].wire == Wire(sent[k]) && SentAs(sent[k], k, sender, target)
  }

  // ---------- values stay free of separators ----------

  lemma WithIsClean(m: Message, tag: Int32, value: string)
    requires Clean(m) && Free(value, SOH)
    ensures Clean(With(m, tag, value))
  {
    hide Free;
    PutIsClean(m.fields, tag, value);
  }

  lemma {:induction false} PutIsClean(fields: seq<Field>, tag: Int32, value: string)
    requires Free(value, SOH) && forall k :: 0 <= k < |fields| ==> Free(fields[k].value, SOH)
    ensures forall k :: 0 <= k < |Put(fields, tag, value)| ==> Free(Put(fields, tag, value)[k].value, SOH)
    decreases |fields|
  {
    hide Free;
    if fields != [] {
      PutIsClean(fields[1..], tag, value);
    }
  }

  lemma {:induction false} GetIsClean(fields: seq<Field>, tag: int)
    requires forall k :: 0 <= k < |fields| ==> Free(fields[k].value, SOH)
    ensures Get(fields, tag).Some? ==> Free(Get(fields, tag).value, SOH)
    decreases |fields|
  {
    hide Free;
    if fields != [] && fields[0].tag != tag {
      GetIsClean(fields[1..], tag);
    }
  }

  lemma StampIsClean(m: Message, number: int, sender: string, target: string, t: nat)
    requires Clean(m) && Free(sender, SOH) && Free(target, SOH)
    ensures Clean(With(With(With(With(m, 34, Decimal(number)), 49, sender), 56, target), 52, Decimal(t)))
  {
    hide Clean, With, Free, Decimal;
    DecimalIsFree(number, SOH);
    DecimalIsFree(t, SOH);
    WithIsClean(m, 34, Decimal(number));
    WithIsClean(With(m, 34, Decimal(number)), 49, sender);
    WithIsClean(With(With(m, 34, Decimal(number)), 49, sender), 56, target);
    WithIsClean(With(With(With(m, 34, Decimal(number)), 49, sender), 56, target), 52, Decimal(t));
  }

  ghost predicate CleanSession(s: Session) { Free(s.sender, SOH) && Free(s.target, SOH) }

  lemma AdminIsClean(s: Session, kind: MessageType, t: nat)
    requires CleanSession(s)
    ensures Clean(Admin(s, kind, t))
  {
    hide With, Decimal;
    StampIsClean(BLANK.(kind := kind), s.next, s.sender, s.target, t);
  }

  lemma RejectIsClean(s: Session, text: string, t: nat)
    requires CleanSession(s) && Free(text, SOH)
    ensures Clean(With(Admin(s, Reject, t), 58, text))
  {
    hide Clean, Admin, With;
    AdminIsClean(s, Reject, t);
    WithIsClean(Admin(s, Reject, t), 58, text);
  }

  lemma GapIsClean(s: Session, sequence: int, t: nat)
    requires CleanSession(s)
    ensures Clean(Gap(s, sequence, t).result.response.value)
  {
    hide Clean, Admin, With, Decimal;
    AdminIsClean(s, ResendRequest, t);
    DecimalIsFree(s.expected, SOH);
    DecimalIsFree(sequence - 1, SOH);
    WithIsClean(Admin(s, ResendRequest, t), 7, Decimal(s.expected));
    WithIsClean(With(Admin(s, ResendRequest, t), 7, Decimal(s.expected)), 16, Decimal(sequence - 1));
  }

  lemma LogonIsClean(s: Session, m: Message, t: nat)
    requires CleanSession(s)
    ensures OnLogon(s, m, t).result.response.Some? ==> Clean(OnLogon(s, m, t).result.response.value)
  {
    hide Clean, Admin, With, Decimal, Get, Positive;
    RejectIsClean(s, "duplicate or unexpected logon", t);
    RejectIsClean(s, "missing or invalid HeartBtInt", t);
    var interval := Positive(Get(m.fields, 108));
    if interval.Some? {
      var s1 := s.(heartbeat := interval.value, state := Active);
      AdminIsClean(s1, Logon, t);
      DecimalIsFree(interval.value, SOH);
      WithIsClean(Admin(s1, Logon, t), 98, "0");
      WithIsClean(With(Admin(s1, Logon, t), 98, "0"), 108, Decimal(interval.value));
    }
  }

  lemma TestRequestIsClean(s: Session, m: Message, t: nat)
    requires CleanSession(s) && Clean(m)
    ensures OnTestRequest(s, m, t).result.response.Some? ==> Clean(OnTestRequest(s, m, t).result.response.value)
  {
    hide Admin, With, Get;
    FreeJoins("test request received ", "while session inactive", SOH);
    assert "test request received " + "while session inactive" == "test request received while session inactive";
    RejectIsClean(s, "test request received while session inactive", t);
    RejectIsClean(s, "missing TestReqID", t);
    AdminIsClean(s, Heartbeat, t);
    GetIsClean(m.fields, 112);
    if Get(m.fields, 112).Some? {
      WithIsClean(Admin(s, Heartbeat, t), 112, Get(m.fields, 112).value);
    }
  }

  /** A session answers clean messages with clean messages. */
  lemma ReceiveIsClean(s: Session, m: Message, t: nat)
    requires CleanSession(s) && Clean(m)
    ensures Receive(s, m, t).result.response.Some? ==> Clean(Receive(s, m, t).result.response.value)
  {
    hide Clean, Admin, With, Get, Positive, Process, Decimal;
    RejectIsClean(s, "unexpected SenderCompID", t);
    RejectIsClean(s, "unexpected TargetCompID", t);
    RejectIsClean(s, "missing or invalid MsgSeqNum", t);
    RejectIsClean(s, "incoming sequence number is too low", t);
    ProcessIsClean(s.(expected := s.expected + 1, lastReceived := t), m, t);
    var number := Positive(Get(m.fields, 34));
    if number.Some? {
      GapIsClean(s, number.value, t);
    }
  }

  lemma ProcessIsClean(s: Session, m: Message, t: nat)
    requires CleanSession(s) && Clean(m)
    ensures Process(s, m, t).result.response.Some? ==> Clean(Process(s, m, t).result.response.value)
  {
    hide Clean, Admin, With, Get, Positive, OnLogon, OnTestRequest;
    LogonIsClean(s, m, t);
    TestRequestIsClean(s, m, t);
    AdminIsClean(s, Logout, t);
    RejectIsClean(s, "session already terminated", t);
    RejectIsClean(s, "application message received before logon", t);
    RejectIsClean(s, "unsupported FIX message type", t);
  }

  // ---------- resending ----------

  /** prepare_fix_resend; None where it throws. */
  function PossDup(m: Message, t: nat): Option<Message> {
    var original := Get(m.fields, 52);
    if original.None? then None else Some(With(With(With(m, 43, "Y"), 122, original.value), 52, Decimal(t)))
  }

  /** create_fix_gap_fill; None where it throws. */
  function GapFill(number: int, to: int, sender: string, target: string, t: nat): Option<Message> {
    if number <= 0 || to <= number || sender == "" || target == "" then None
    else
      var m := BLANK.(kind := SequenceReset);
      Some(With(With(With(With(With(With(With(With(
        m, 34, Decimal(number)), 43, "Y"), 123, "Y"), 36, Decimal(to)), 49, sender), 56, target),
        52, Decimal(t)), 122, Decimal(t)))
  }

  datatype Sending = Sending(messages: seq<Message>, threw: bool)

  function Then(first: Sending, rest: Sending): Sending {
    if first.threw then first else Sending(first.messages + rest.messages, rest.threw)
  }

  function One(m: Option<Message>): Sending { if m.Some? then Sending([m.value], false) else Sending([], true) }

  /** Close a pending gap, if there is one. */
  function Flush(begin: int, end: int, sender: string, target: string, t: nat): Sending {
    if begin <= 0 || end < begin then Sending([], false) else One(GapFill(begin, end + 1, sender, target, t))
  }

  /** The resend loop over the rows that are left; `begin` and `end` are the pending gap, 0 for none. */
  function Resend(rows: seq<Stored>, last: int, begin: int, end: int, sender: string, target: string, t: nat): Sending
    decreases |rows|
  {
    if rows == [] || rows[0].number > last then Flush(begin, end, sender, target, t)
    else
      match Parse(rows[0].wire)
      case ParseFailed(_) => Resend(rows[1..], last, begin, end, sender, target, t)
      case Parsed(m) =>
        if Administrative(m.kind) then
          Resend(rows[1..], last, if begin == 0 then rows[0].number else begin, rows[0].number, sender, target, t)
        else
          Then(Flush(begin, end, sender, target, t),
               Then(One(PossDup(m, t)), Resend(rows[1..], last, 0, 0, sender, target, t)))
  }

  lemma ThenInto(ms: seq<Message>, a: Sending, b: Sending, c: Sending)
    ensures Then(Sending(ms, false), Then(a, Then(b, c))) ==
              if a.threw then Sending(ms + a.messages, true)
              else if b.threw then Sending(ms + a.messages + b.messages, true)
              else Then(Sending(ms + a.messages + b.messages, false), c)
  {
    assert ms + (a.messages + (b.messages + c.messages)) == ms + a.messages + b.messages + c.messages;
    assert ms + (a.messages + b.messages) == ms + a.messages + b.messages;
  }

  lemma StartSending(s: Sending)
    ensures Then(Sending([], false), s) == s
  {
    assert [] + s.messages == s.messages;
  }

  /** The loop as the server runs it, over the rows the store returned. */
  method ResendLoop(rows: seq<Stored>, last: int, sender: string, target: string, t: nat) returns (out: Sending)
    ensures out == Resend(rows, last, 0, 0, sender, target, t)
  {
    hide Parse, GapFill, PossDup, Then, Flush, One, Administrative;
    var begin, end := 0, 0;
    var messages: seq<Message> := [];
    var i := 0;
    assert rows[0..] == rows;
    StartSending(Resend(rows, last, 0, 0, sender, target, t));
    while i < |rows| && rows[i].number <= last
      invariant i <= |rows|
      invariant Resend(rows, last, 0, 0, sender, target, t) ==
                  Then(Sending(messages, false), Resend(rows[i..], last, begin, end, sender, target, t))
    {
      ghost var rest := rows[i..];
      assert rest[0] == rows[i] && rest[1..] == rows[i + 1..];
      var parsed := Parse(rows[i].wire);
      if parsed.Parsed? {
        if Administrative(parsed.message.kind) {
          if begin == 0 { begin := rows[i].number; }
          end := rows[i].number;
        } else {
          var flushed := Flush(begin, end, sender, target, t);
          var again := One(PossDup(parsed.message, t));
          ThenInto(messages, flushed, again, Resend(rows[i + 1..], last, 0, 0, sender, target, t));
          if flushed.threw { return Sending(messages + flushed.messages, true); }
          if again.threw { return Sending(messages + flushed.messages + again.messages, true); }
          messages := messages + flushed.messages + again.messages;
          begin, end := 0, 0;
        }
      }
      i := i + 1;
    }
    var flushed := Flush(begin, end, sender, target, t);
    ThenIs(messages, flushed);
    out := Sending(messages + flushed.messages, flushed.threw);
  }

  lemma ThenIs(ms: seq<Message>, s: Sending)
    ensures Then(Sending(ms, false), s) == Sending(ms + s.messages, s.threw)
  {
  }
}
