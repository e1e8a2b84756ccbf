/** The FIX session layer: comp ids, sequence numbers, and the answers to administrative messages. */
module FixSessions {
  import opened Options
  import opened FixText
  import opened FixCodec

  // ---------- fields of a message ----------

  /** The value of the first field with a tag. */
  function Get(fields: seq<Field>, tag: int): Option<string> {
    if fields == [] then None
    else if fields[0].tag == tag then Some(fields[0].value)
    else Get(fields[1..], tag)
  }

  /** The first field with the tag gets the value; without one, a field is added at the end. */
  function Put(fields: seq<Field>, tag: Int32, value: string): seq<Field> {
    if fields == [] then [Field(tag, value)]
    else if fields[0].tag == tag then [Field(tag, value)] + fields[1..]
    else [fields[0]] + Put(fields[1..], tag, value)
  }

  lemma {:induction false} GetAfterPut(fields: seq<Field>, tag: Int32, value: string, other: int)
    ensures Get(Put(fields, tag, value), other) == if other == tag then Some(value) else Get(fields, other)
    decreases |fields|
  {
    if fields != [] {
      GetAfterPut(fields[1..], tag, value, other);
      var after := Put(fields, tag, value);
      assert after[1..] == if fields[0].tag == tag then fields[1..] else Put(fields[1..], tag, value);
    }
  }

  function With(m: Message, tag: Int32, value: string): Message { m.(fields := Put(m.fields, tag, value)) }

  /** A positive int, all of the text. */
  function Positive(text: Option<string>): Option<int> {
    if text.Some? && ParseInt(text.value).Some? && ParseInt(text.value).value > 0 then Some(ParseInt(text.value).value)
    else None
  }

  // ---------- the session ----------

  datatype SessionState = Disconnected | AwaitingLogon | Active | LogoutPending | Terminated

  datatype RejectReason =
    | NoReason | InvalidState | InvalidSequenceNumber | MissingRequiredField | SenderMismatch | TargetMismatch
    | UnsupportedMessage | InvalidHeartbeatInterval

  datatype Session = Session(
    sender: string, target: string, heartbeat: int, state: SessionState,
    expected: int, next: int, lastReceived: nat, lastSent: nat)

  datatype Result = Result(
    accepted: bool, reason: RejectReason, response: Option<Message>, resend: Option<(int, int)>)

  datatype Step = Step(session: Session, result: Result)

  const BLANK: Message := Message("FIX.4.4", 0, Unknown, [], 0)

  /** create_admin_message takes the next outgoing number. */
  function Admin(s: Session, kind: MessageType, timestamp: nat): Message {
    With(With(With(With(BLANK.(kind := kind), 34, Decimal(s.next)), 49, s.sender), 56, s.target), 52,
        Decimal(timestamp))
  }

  function Sent(s: Session, timestamp: nat): Session { s.(next := s.next + 1, lastSent := timestamp) }

  function Answer(s: Session, m: Message, timestamp: nat): Step {
    Step(Sent(s, timestamp), Result(true, NoReason, Some(m), None))
  }

  function Rejected(s: Session, reason: RejectReason, text: string, timestamp: nat): Step {
    Step(Sent(s, timestamp), Result(false, reason, Some(With(Admin(s, Reject, timestamp), 58, text)), None))
  }

  function Refused(s: Session, reason: RejectReason): Step { Step(s, Result(false, reason, None, None)) }

  function Accepted(s: Session): Step { Step(s, Result(true, NoReason, None, None)) }

  function OnLogon(s: Session, m: Message, t: nat): Step {
    if !s.state.Disconnected? && !s.state.AwaitingLogon? then
      Rejected(s, InvalidState, "duplicate or unexpected logon", t)
    else if Positive(Get(m.fields, 108)).None? then
      Rejected(s, InvalidHeartbeatInterval, "missing or invalid HeartBtInt", t)
    else
      var heartbeat := Positive(Get(m.fields, 108)).value;
      var s1 := s.(heartbeat := heartbeat, state := Active);
      Answer(s1, With(With(Admin(s1, Logon, t), 98, "0"), 108, Decimal(heartbeat)), t)
  }

  function OnLogout(s: Session, t: nat): Step {
    if s.state.Terminated? then Rejected(s, InvalidState, "session already terminated", t)
    else if s.state.LogoutPending? then Accepted(s.(state := Terminated))
    else
      var answered := Answer(s, Admin(s, Logout, t), t);
      answered.(session := answered.session.(state := Terminated))
  }

  function OnHeartbeat(s: Session): Step { if s.state.Active? then Accepted(s) else Refused(s, InvalidState) }

  function OnTestRequest(s: Session, m: Message, t: nat): Step {
    var id := Get(m.fields, 112);
    if !s.state.Active? then Rejected(s, InvalidState, "test request received while session inactive", t)
    else if id.None? || id.value == "" then Rejected(s, MissingRequiredField, "missing TestReqID", t)
    else Answer(s, With(Admin(s, Heartbeat, t), 112, id.value), t)
  }

  /** An EndSeqNo of zero, "all that follow" in FIX 4.4, is not accepted here. */
  function OnResendRequest(s: Session, m: Message): Step {
    var begin, end := Get(m.fields, 7), Get(m.fields, 16);
    if !s.state.Active? then Refused(s, InvalidState)
    else if begin.None? || end.None? then Refused(s, MissingRequiredField)
    else if Positive(begin).None? || Positive(end).None? || Positive(end).value < Positive(begin).value then
      Refused(s, InvalidSequenceNumber)
    else Step(s, Result(true, NoReason, None, Some((Positive(begin).value, Positive(end).value))))
  }

  function OnSequenceReset(s: Session, m: Message): Step {
    var to := Positive(Get(m.fields, 36));
    if to.None? then Refused(s, MissingRequiredField)
    else if to.value < s.expected then Refused(s, InvalidSequenceNumber)
    else Accepted(s.(expected := to.value))
  }

  function OnApplication(s: Session, t: nat): Step {
    if s.state.Active? then Accepted(s) else Rejected(s, InvalidState, "application message received before logon", t)
  }

  /** What a message in its turn leads to; its number has been counted. */
  function Process(s: Session, m: Message, t: nat): Step {
    match m.kind
    case Logon => OnLogon(s, m, t)
    case Logout => OnLogout(s, t)
    case Heartbeat => OnHeartbeat(s)
    case TestRequest => OnTestRequest(s, m, t)
    case ResendRequest => OnResendRequest(s, m)
    case SequenceReset => OnSequenceReset(s, m)
    case NewOrderSingle => OnApplication(s, t)
    case OrderCancelRequest => OnApplication(s, t)
    case ExecutionReport => Rejected(s, UnsupportedMessage, "unsupported FIX message type", t)
    case Reject => Rejected(s, UnsupportedMessage, "unsupported FIX message type", t)
    case Unknown => Rejected(s, UnsupportedMessage, "unsupported FIX message type", t)
  }

  function Gap(s: Session, sequence: int, t: nat): Step {
    var request := With(With(Admin(s, ResendRequest, t), 7, Decimal(s.expected)), 16, Decimal(sequence - 1));
    Step(Sent(s, t), Result(false, InvalidSequenceNumber, Some(request), Some((s.expected, sequence - 1))))
  }

  function Receive(s: Session, m: Message, t: nat): Step {
    if Get(m.fields, 49) != Some(s.target) then Rejected(s, SenderMismatch, "unexpected SenderCompID", t)
    else if Get(m.fields, 56) != Some(s.sender) then Rejected(s, TargetMismatch, "unexpected TargetCompID", t)
    else
      match Positive(Get(m.fields, 34))
      case None => Rejected(s, MissingRequiredField, "missing or invalid MsgSeqNum", t)
      case Some(sequence) =>
        if sequence > s.expected then Gap(s, sequence, t)
        else if sequence < s.expected then Rejected(s, InvalidSequenceNumber, "incoming sequence number is too low", t)
        else Process(s.(expected := s.expected + 1, lastReceived := t), m, t)
  }

  /** prepare_outbound; None where it throws. */
  function Outbound(s: Session, m: Message, t: nat): Option<Message> {
    if !s.state.Active? && !m.kind.Logon? && !m.kind.Logout? && !m.kind.Reject? then None
    else Some(With(With(With(With(m, 34, Decimal(s.next)), 49, s.sender), 56, s.target), 52, Decimal(t)))
  }

  // ---------- what the receiver looks at survives the wire ----------

  lemma {:induction false} GetOfKept(fields: seq<Field>, tag: int)
    requires !Framing(tag)
    ensures Get(Kept(fields), tag) == Get(fields, tag)
    decreases |fields|
  {
    if fields != [] {
      var n := |fields| - 1;
      GetOfKept(fields[..n], tag);
      assert fields == fields[..n] + [fields[n]];
      GetJoins(fields[..n], [fields[n]], tag);
      GetJoins(Kept(fields[..n]), [fields[n]], tag);
      GetOne(fields[n], tag);
      assert Kept(fields[..n]) + [] == Kept(fields[..n]);
    }
  }

  lemma GetOne(f: Field, tag: int)
    ensures Get([f], tag) == if f.tag == tag then Some(f.value) else None
  {
    assert [f][1..] == [];
  }

  lemma {:induction false} GetJoins(a: seq<Field>, b: seq<Field>, tag: int)
    ensures Get(a + b, tag) == if Get(a, tag).Some? then Get(a, tag) else Get(b, tag)
    decreases |a|
  {
    if a == [] {
      assert a + b == b;
    } else {
      assert (a + b)[1..] == a[1..] + b;
      GetJoins(a[1..], b, tag);
    }
  }

  lemma GetOfCanonical(m: Message, tag: int)
    requires !Framing(tag)
    ensures Get(Canonical(m).fields, tag) == Get(m.fields, tag)
  {
    hide CheckSum, Body, Prefix;
    var head := [Field(35, Code(m.kind))];
    GetJoins(head, Kept(m.fields), tag);
    GetOne(head[0], tag);
    GetOfKept(m.fields, tag);
  }

  /** A message and what its encoding parses to are received alike. */
  lemma WireDoesNotMatter(s: Session, m: Message, t: nat)
    ensures Receive(s, Canonical(m), t) == Receive(s, m, t)
  {
    hide Canonical, Get, Positive, Admin, Put;
    GetOfCanonical(m, 34);
    GetOfCanonical(m, 49);
    GetOfCanonical(m, 56);
    GetOfCanonical(m, 7);
    GetOfCanonical(m, 16);
    GetOfCanonical(m, 36);
    GetOfCanonical(m, 108);
    GetOfCanonical(m, 112);
    CanonicalKind(m);
  }

  lemma CanonicalKind(m: Message)
    ensures Canonical(m).kind == m.kind
  {
    hide CheckSum, Body, Prefix, BodyFields;
  }

  // ---------- numbering ----------

  lemma PositiveDecimal(n: int)
    requires 0 < n <= INT_MAX
    ensures Positive(Some(Decimal(n))) == Some(n)
  {
    DecimalRoundTrip(n);
  }

  lemma AdminFields(s: Session, kind: MessageType, t: nat)
    ensures var m := Admin(s, kind, t);
            && m.kind == kind && Get(m.fields, 34) == Some(Decimal(s.next))
            && Get(m.fields, 49) == Some(s.sender) && Get(m.fields, 56) == Some(s.target)
            && Get(m.fields, 52) == Some(Decimal(t))
  {
    hide Decimal;
    StampedFields(BLANK.(kind := kind), s.next, s.sender, s.target, t);
  }

  /** The four fields every outgoing message is stamped with. */
  lemma StampedFields(m: Message, number: int, sender: string, target: string, t: nat)
    ensures var stamped := With(With(With(With(m, 34, Decimal(number)), 49, sender), 56, target), 52, Decimal(t));
            && stamped.kind == m.kind
            && Get(stamped.fields, 34) == Some(Decimal(number)) && Get(stamped.fields, 49) == Some(sender)
            && Get(stamped.fields, 56) == Some(target) && Get(stamped.fields, 52) == Some(Decimal(t))
            && forall tag :: tag != 34 && tag != 49 && tag != 56 && tag != 52 ==>
                 Get(stamped.fields, tag) == Get(m.fields, tag)
  {
    hide Decimal, Get, Put;
    var f0 := m.fields;
    var f1 := Put(f0, 34, Decimal(number));
    var f2 := Put(f1, 49, sender);
    var f3 := Put(f2, 56, target);
    forall tag: int
      ensures Get(f1, tag) == if tag == 34 then Some(Decimal(number)) else Get(f0, tag)
      ensures Get(f2, tag) == if tag == 49 then Some(sender) else Get(f1, tag)
      ensures Get(f3, tag) == if tag == 56 then Some(target) else Get(f2, tag)
      ensures Get(Put(f3, 52, Decimal(t)), tag) == if tag == 52 then Some(Decimal(t)) else Get(f3, tag)
    {
      GetAfterPut(f0, 34, Decimal(number), tag);
      GetAfterPut(f1, 49, sender, tag);
      GetAfterPut(f2, 56, target, tag);
      GetAfterPut(f3, 52, Decimal(t), tag);
    }
  }

  /** Stamped with the session's next number, as its own message. */
  ghost predicate Numbered(m: Message, s: Session) {
    && Get(m.fields, 34) == Some(Decimal(s.next)) && Get(m.fields, 49) == Some(s.sender)
    && Get(m.fields, 56) == Some(s.target) && Get(m.fields, 52).Some?
  }

  lemma ExtraField(m: Message, s: Session, tag: Int32, value: string)
    requires Numbered(m, s) && tag != 34 && tag != 49 && tag != 56 && tag != 52
    ensures Numbered(With(m, tag, value), s) && With(m, tag, value).kind == m.kind
  {
    hide Decimal, Get, Put;
    GetAfterPut(m.fields, tag, value, 34);
    GetAfterPut(m.fields, tag, value, 49);
    GetAfterPut(m.fields, tag, value, 56);
    GetAfterPut(m.fields, tag, value, 52);
  }

  /** Whatever is received, at most one message goes out; it carries the next outgoing number, and only then is
      that number used up. */
  lemma ReceiveNumbers(s: Session, m: Message, t: nat)
    ensures var step := Receive(s, m, t);
            && step.session.sender == s.sender && step.session.target == s.target
            && (step.result.response.None? ==> step.session.next == s.next)
            && (step.result.response.Some? ==>
                  step.session.next == s.next + 1 && Numbered(step.result.response.value, s))
            && (step.result.response.Some? ==> Administrative(step.result.response.value.kind))
  {
    hide Decimal, Get, Put, Positive, Numbered, Process, With, Admin;
    var counted := s.(expected := s.expected + 1, lastReceived := t);
    ProcessNumbers(counted, m, t);
    NumberedAlike(s, counted);
    RejectIsNumbered(s, "unexpected SenderCompID", t);
    RejectIsNumbered(s, "unexpected TargetCompID", t);
    RejectIsNumbered(s, "missing or invalid MsgSeqNum", t);
    RejectIsNumbered(s, "incoming sequence number is too low", t);
    var number := Positive(Get(m.fields, 34));
    if number.Some? {
      GapIsNumbered(s, number.value, t);
    }
  }

  lemma NumberedAlike(a: Session, b: Session)
    requires a.next == b.next && a.sender == b.sender && a.target == b.target
    ensures forall m :: Numbered(m, a) <==> Numbered(m, b)
  {
  }

  /** Administrative types, as the resend loop classifies them. */
  predicate Administrative(kind: MessageType) {
    kind.Logon? || kind.Logout? || kind.Heartbeat? || kind.TestRequest? || kind.ResendRequest? || kind.SequenceReset?
    || kind.Reject?
  }

  lemma AdminIsNumbered(s: Session, kind: MessageType, t: nat)
    ensures Numbered(Admin(s, kind, t), s) && Admin(s, kind, t).kind == kind
  {
    hide Admin, Get, Decimal;
    AdminFields(s, kind, t);
  }

  lemma RejectIsNumbered(s: Session, text: string, t: nat)
    ensures var m := With(Admin(s, Reject, t), 58, text); Numbered(m, s) && m.kind.Reject?
  {
    hide Admin, Numbered, With;
    AdminIsNumbered(s, Reject, t);
    ExtraField(Admin(s, Reject, t), s, 58, text);
  }

  lemma GapIsNumbered(s: Session, sequence: int, t: nat)
    ensures var m := Gap(s, sequence, t).result.response.value; Numbered(m, s) && m.kind.ResendRequest?
  {
    hide Admin, Numbered, With, Decimal;
    AdminIsNumbered(s, ResendRequest, t);
    ExtraField(Admin(s, ResendRequest, t), s, 7, Decimal(s.expected));
    ExtraField(With(Admin(s, ResendRequest, t), 7, Decimal(s.expected)), s, 16, Decimal(sequence - 1));
  }

  lemma ProcessNumbers(s: Session, m: Message, t: nat)
    ensures var step := Process(s, m, t);
            && step.session.sender == s.sender && step.session.target == s.target
            && (step.result.response.None? ==> step.session.next == s.next)
            && (step.result.response.Some? ==>
                  step.session.next == s.next + 1 && Numbered(step.result.response.value, s))
            && (step.result.response.Some? ==> Administrative(step.result.response.value.kind))
  {
    hide Decimal, Get, Put, Positive, Numbered, With, Admin;
    RejectIsNumbered(s, "duplicate or unexpected logon", t);
    RejectIsNumbered(s, "missing or invalid HeartBtInt", t);
    RejectIsNumbered(s, "session already terminated", t);
    RejectIsNumbered(s, "test request received while session inactive", t);
    RejectIsNumbered(s, "missing TestReqID", t);
    RejectIsNumbered(s, "application message received before logon", t);
    RejectIsNumbered(s, "unsupported FIX message type", t);
    AdminIsNumbered(s, Logout, t);
    LogonIsNumbered(s, m, t);
    var id := Get(m.fields, 112);
    if id.Some? {
      AdminIsNumbered(s, Heartbeat, t);
      ExtraField(Admin(s, Heartbeat, t), s, 112, id.value);
    }
  }

  lemma LogonIsNumbered(s: Session, m: Message, t: nat)
    ensures Positive(Get(m.fields, 108)).Some? ==>
              var s1 := s.(heartbeat := Positive(Get(m.fields, 108)).value, state := Active);
              var answer := With(With(Admin(s1, Logon, t), 98, "0"), 108, Decimal(s1.heartbeat));
              Numbered(answer, s) && answer.kind.Logon?
  {
    hide Decimal, Get, Put, Positive, Numbered, With, Admin;
    if Positive(Get(m.fields, 108)).Some? {
      var s1 := s.(heartbeat := Positive(Get(m.fields, 108)).value, state := Active);
      AdminIsNumbered(s1, Logon, t);
      ExtraField(Admin(s1, Logon, t), s1, 98, "0");
      ExtraField(With(Admin(s1, Logon, t), 98, "0"), s1, 108, Decimal(s1.heartbeat));
      NumberedAlike(s, s1);
    }
  }

  // ---------- the class ----------

  lemma PutPastOthers(fields: seq<Field>, i: nat, tag: Int32, value: string)
    requires i <= |fields| && forall k :: 0 <= k < i ==> fields[k].tag != tag
    ensures Put(fields, tag, value) == fields[..i] + Put(fields[i..], tag, value)
  {
    if i == 0 {
      assert fields[0..] == fields;
    } else {
      PutPastOthers(fields[1..], i - 1, tag, value);
      assert fields[1..][i - 1..] == fields[i..];
      assert [fields[0]] + fields[1..][..i - 1] == fields[..i];
    }
  }

  /** FixMessage::set */
  method SetField(fields: seq<Field>, tag: Int32, value: string) returns (r: seq<Field>)
    ensures r == Put(fields, tag, value)
  {
    var i := 0;
    while i < |fields| && fields[i].tag != tag
      invariant i <= |fields| && forall k :: 0 <= k < i ==> fields[k].tag != tag
    {
      i := i + 1;
    }
    PutPastOthers(fields, i, tag, value);
    if i < |fields| {
      r := fields[i := Field(tag, value)];
      assert r == fields[..i] + ([Field(tag, value)] + fields[i..][1..]);
    } else {
      r := fields + [Field(tag, value)];
      assert fields[i..] == [] && fields[..i] == fields;
    }
  }

  method SetIn(m: Message, tag: Int32, value: string) returns (r: Message)
    ensures r == With(m, tag, value)
  {
    var fields := SetField(m.fields, tag, value);
    r := m.(fields := fields);
  }

  class FixSession {
    const sender: string
    const target: string
    var heartbeat: int
    var state: SessionState
    var expected: int
    var next: int
    var lastReceived: nat
    var lastSent: nat

    function View(): Session
      reads this
    {
      Session(sender, target, heartbeat, state, expected, next, lastReceived, lastSent)
    }

    /** The source throws for an empty comp id or an interval that is not positive. */
    constructor (sender: string, target: string, heartbeat: int)
      requires sender != "" && target != "" && heartbeat > 0
      ensures View() == Session(sender, target, heartbeat, Disconnected, 1, 1, 0, 0)
    {
      this.sender, this.target, this.heartbeat := sender, target, heartbeat;
      state, expected, next, lastReceived, lastSent := Disconnected, 1, 1, 0, 0;
    }

    /** False where the source throws. */
    method RestoreSequenceState(incoming: int, outgoing: int, received: nat, sent: nat) returns (ok: bool)
      modifies this
      ensures ok == (incoming > 0 && outgoing > 0)
      ensures View() == if ok then old(View()).(expected := incoming, next := outgoing, lastReceived := received,
                lastSent := sent)
                        else old(View())
    {
      if incoming <= 0 || outgoing <= 0 { return false; }
      expected, next, lastReceived, lastSent := incoming, outgoing, received, sent;
      ok := true;
    }

    method Stamp(m: Message, timestamp: nat) returns (r: Message)
      modifies this`next, this`lastSent
      ensures r == With(With(With(With(m, 34, Decimal(old(next))), 49, sender), 56, target), 52, Decimal(timestamp))
      ensures next == old(next) + 1 && lastSent == timestamp
    {
      hide Decimal, With;
      var number := next;
      next := next + 1;
      r := SetIn(m, 34, Decimal(number));
      r := SetIn(r, 49, sender);
      r := SetIn(r, 56, target);
      r := SetIn(r, 52, Decimal(timestamp));
      lastSent := timestamp;
    }

    method CreateAdmin(kind: MessageType, timestamp: nat) returns (m: Message)
      modifies this`next, this`lastSent
      ensures m == Admin(old(View()), kind, timestamp) && View() == Sent(old(View()), timestamp)
    {
      hide Decimal, With;
      m := Stamp(BLANK.(kind := kind), timestamp);
    }

    method RejectWith(reason: RejectReason, text: string, timestamp: nat) returns (result: Result)
      modifies this`next, this`lastSent
      ensures var o := Rejected(old(View()), reason, text, timestamp); View() == o.session && result == o.result
    {
      hide Admin, With;
      var m := CreateAdmin(Reject, timestamp);
      m := SetIn(m, 58, text);
      result := Result(false, reason, Some(m), None);
    }

    method ProcessLogon(m: Message, t: nat) returns (result: Result)
      modifies this
      ensures var o := OnLogon(old(View()), m, t); View() == o.session && result == o.result
    {
      hide Admin, With, Get, Positive, Decimal;
      if !state.Disconnected? && !state.AwaitingLogon? {
        result := RejectWith(InvalidState, "duplicate or unexpected logon", t);
        return;
      }
      var interval := Positive(Get(m.fields, 108));
      if interval.None? {
        result := RejectWith(InvalidHeartbeatInterval, "missing or invalid HeartBtInt", t);
        return;
      }
      heartbeat := interval.value;
      state := Active;
      var response := CreateAdmin(Logon, t);
      response := SetIn(response, 98, "0");
      response := SetIn(response, 108, Decimal(heartbeat));
      result := Result(true, NoReason, Some(response), None);
    }

    method ProcessLogout(t: nat) returns (result: Result)
      modifies this
      ensures var o := OnLogout(old(View()), t); View() == o.session && result == o.result
    {
      hide Admin, With;
      if state.Terminated? {
        result := RejectWith(InvalidState, "session already terminated", t);
        return;
      }
      result := Result(true, NoReason, None, None);
      if !state.LogoutPending? {
        var response := CreateAdmin(Logout, t);
        result := result.(response := Some(response));
      }
      state := Terminated;
    }

    method ProcessTestRequest(m: Message, t: nat) returns (result: Result)
      modifies this
      ensures var o := OnTestRequest(old(View()), m, t); View() == o.session && result == o.result
    {
      hide Admin, With, Get;
      if !state.Active? {
        result := RejectWith(InvalidState, "test request received while session inactive", t);
        return;
      }
      var id := Get(m.fields, 112);
      if id.None? || id.value == "" {
        result := RejectWith(MissingRequiredField, "missing TestReqID", t);
        return;
      }
      var response := CreateAdmin(Heartbeat, t);
      response := SetIn(response, 112, id.value);
      result := Result(true, NoReason, Some(response), None);
    }

    method ProcessSequenceReset(m: Message) returns (result: Result)
      modifies this
      ensures var o := OnSequenceReset(old(View()), m); View() == o.session && result == o.result
    {
      hide Get, Positive;
      var to := Positive(Get(m.fields, 36));
      if to.None? { return Result(false, MissingRequiredField, None, None); }
      if to.value < expected { return Result(false, InvalidSequenceNumber, None, None); }
      expected := to.value;
      return Result(true, NoReason, None, None);
    }

    method ProcessInTurn(m: Message, t: nat) returns (result: Result)
      modifies this
      ensures var o := Process(old(View()), m, t); View() == o.session && result == o.result
    {
      hide Rejected, OnLogon, OnLogout, OnTestRequest, OnSequenceReset, Get, Positive;
      match m.kind {
        case Logon => result := ProcessLogon(m, t);
        case Logout => result := ProcessLogout(t);
        case Heartbeat =>
          result := if state.Active? then Result(true, NoReason, None, None)
              else Result(false, InvalidState, None, None);
        case TestRequest => result := ProcessTestRequest(m, t);
        case ResendRequest => result := OnResendRequest(View(), m).result;
        case SequenceReset => result := ProcessSequenceReset(m);
        case NewOrderSingle => result := Application(t);
        case OrderCancelRequest => result := Application(t);
        case ExecutionReport => result := RejectWith(UnsupportedMessage, "unsupported FIX message type", t);
        case Reject => result := RejectWith(UnsupportedMessage, "unsupported FIX message type", t);
        case Unknown => result := RejectWith(UnsupportedMessage, "unsupported FIX message type", t);
      }
    }

    method Application(t: nat) returns (result: Result)
      modifies this
      ensures var o := OnApplication(old(View()), t); View() == o.session && result == o.result
    {
      hide Rejected;
      if !state.Active? {
        result := RejectWith(InvalidState, "application message received before logon", t);
        return;
      }
      result := Result(true, NoReason, None, None);
    }

    method ReceiveMessage(m: Message, t: nat) returns (result: Result)
      modifies this
      ensures var o := Receive(old(View()), m, t); View() == o.session && result == o.result
    {
      hide Rejected, Process, Get, Positive, Admin, With, Decimal;
      if Get(m.fields, 49) != Some(target) {
        result := RejectWith(SenderMismatch, "unexpected SenderCompID", t);
        return;
      }
      if Get(m.fields, 56) != Some(sender) {
        result := RejectWith(TargetMismatch, "unexpected TargetCompID", t);
        return;
      }
      var sequence := Positive(Get(m.fields, 34));
      if sequence.None? {
        result := RejectWith(MissingRequiredField, "missing or invalid MsgSeqNum", t);
        return;
      }
      if sequence.value > expected {
        var request := CreateAdmin(ResendRequest, t);
        request := SetIn(request, 7, Decimal(expected));
        request := SetIn(request, 16, Decimal(sequence.value - 1));
        return Result(false, InvalidSequenceNumber, Some(request), Some((expected, sequence.value - 1)));
      }
      if sequence.value < expected {
        result := RejectWith(InvalidSequenceNumber, "incoming sequence number is too low", t);
        return;
      }
      expected := expected + 1;
      lastReceived := t;
      result := ProcessInTurn(m, t);
    }

    method PrepareOutbound(m: Message, t: nat) returns (r: Option<Message>)
      modifies this
      ensures r == Outbound(old(View()), m, t)
      ensures View() == if r.Some? then Sent(old(View()), t) else old(View())
    {
      hide With, Decimal;
      if !state.Active? && !m.kind.Logon? && !m.kind.Logout? && !m.kind.Reject? { return None; }
      var stamped := Stamp(m, t);
      r := Some(stamped);
    }
  }
}
