/** The FIX tag=value codec: encoding with body length and checksum, and the parser that checks both. */
module FixCodec {
  import opened Options
  import opened FixText

  datatype MessageType =
    | Logon | Logout | Heartbeat | TestRequest | ResendRequest | SequenceReset
    | NewOrderSingle | OrderCancelRequest | ExecutionReport | Reject | Unknown

  datatype Field = Field(tag: Int32, value: string)

  datatype Message = Message(begin: string, bodyLength: int, kind: MessageType, fields: seq<Field>, checksum: int)

  datatype ParseError =
    | TooFewFields | NoBeginString | NoBodyLength | BadBodyLength | NoCheckSum | BadCheckSum | CheckSumNotFound
    | CheckSumMismatch | NoBodyStart | BadBoundaries | BodyLengthMismatch | InvalidField | UnsupportedType

  datatype ParseResult = Parsed(message: Message) | ParseFailed(error: ParseError)

  function Code(t: MessageType): string {
    match t
    case Logon => "A" case Logout => "5" case Heartbeat => "0" case TestRequest => "1" case ResendRequest => "2"
    case SequenceReset => "4" case NewOrderSingle => "D" case OrderCancelRequest => "F" case ExecutionReport => "8"
    case Reject => "3" case Unknown => ""
  }

  function TypeOf(code: string): MessageType {
    if code == "A" then Logon else if code == "5" then Logout else if code == "0" then Heartbeat
    else if code == "1" then TestRequest else if code == "2" then ResendRequest else if code == "4" then SequenceReset
    else if code == "D" then NewOrderSingle else if code == "F" then OrderCancelRequest
    else if code == "8" then ExecutionReport else if code == "3" then Reject else Unknown
  }

  lemma TypeRoundTrip(t: MessageType)
    ensures TypeOf(Code(t)) == t
  {
  }

  // ---------- encoding ----------

  predicate Framing(tag: int) { tag == 8 || tag == 9 || tag == 10 || tag == 35 }

  /** What encode writes of a message's own fields. */
  function Kept(fields: seq<Field>): seq<Field> {
    if fields == [] then []
    else
      var last := fields[|fields| - 1];
      Kept(fields[..|fields| - 1]) + (if Framing(last.tag) then [] else [last])
  }

  function TextOf(f: Field): string { Decimal(f.tag) + "=" + f.value }

  function TextsOf(fields: seq<Field>): (texts: seq<string>)
    ensures |texts| == |fields| && forall k :: 0 <= k < |fields| ==> texts[k] == TextOf(fields[k])
  {
    if fields == [] then [] else TextsOf(fields[..|fields| - 1]) + [TextOf(fields[|fields| - 1])]
  }

  function BodyFields(m: Message): seq<Field> { [Field(35, Code(m.kind))] + Kept(m.fields) }

  function Body(m: Message): string { Fielded(TextsOf(BodyFields(m))) }

  function Sum(s: string): nat {
    if s == "" then 0 else Sum(s[..|s| - 1]) + s[|s| - 1] as int
  }

  /** The sum of all bytes modulo 256 (Appendix B of FIX 4.4, volume 1). */
  function CheckSum(s: string): (sum: nat)
    ensures sum < 256
  {
    Sum(s) % 256
  }

  function Prefix(m: Message): string {
    "8=" + m.begin + [SOH] + "9=" + Decimal(|Body(m)|) + [SOH] + Body(m)
  }

  function Trailer(m: Message): string { "10=" + Padded(CheckSum(Prefix(m))) }

  /** The wire form; encode throws for an unknown type. */
  function Wire(m: Message): string { Prefix(m) + Trailer(m) + [SOH] }

  // ---------- parsing ----------

  function ParseField(text: string): Option<Field> {
    var at := Find(text, "=", 0);
    if at == |text| || at == 0 then None
    else if ParseInt(text[..at]).None? then None
    else Some(Field(ParseInt(text[..at]).value, text[at + 1..]))
  }

  function ParseFields(texts: seq<string>): Option<seq<Field>> {
    if texts == [] then Some([])
    else
      var init, last := ParseFields(texts[..|texts| - 1]), ParseField(texts[|texts| - 1]);
      if init.None? || last.None? then None else Some(init.value + [last.value])
  }

  /** The last field 35 decides. */
  function KindOf(fields: seq<Field>): MessageType {
    if fields == [] then Unknown
    else if fields[|fields| - 1].tag == 35 then TypeOf(fields[|fields| - 1].value)
    else KindOf(fields[..|fields| - 1])
  }

  /** Where the second separator is; |wire| stands for npos. */
  function SecondSeparator(wire: string): (i: nat)
    ensures i <= |wire|
  {
    var first := Find(wire, [SOH], 0);
    if first == |wire| then |wire| else Find(wire, [SOH], first + 1)
  }

  /** The checks before the fields are read: begin string, body length and checksum, or why not. */
  datatype Envelope = Envelope(begin: string, bodyLength: int, checksum: int) | Broken(error: ParseError)

  predicate IsField(text: string, tag: int) { ParseField(text).Some? && ParseField(text).value.tag == tag }

  function Declared(text: string): Option<Int32> {
    if ParseField(text).Some? then ParseInt(ParseField(text).value.value) else None
  }

  function Open(wire: string, texts: seq<string>): Envelope {
    if |texts| < 4 then Broken(TooFewFields)
    else
      var n := |texts|;
      if !IsField(texts[0], 8) then Broken(NoBeginString)
      else if !IsField(texts[1], 9) then Broken(NoBodyLength)
      else if Declared(texts[1]).None? || Declared(texts[1]).value < 0 then Broken(BadBodyLength)
      else if !IsField(texts[n - 1], 10) then Broken(NoCheckSum)
      else if Declared(texts[n - 1]).None? || !(0 <= Declared(texts[n - 1]).value <= 255) then Broken(BadCheckSum)
      else
        var at := FindLast(wire, "10=", |wire|);
        if at == |wire| then Broken(CheckSumNotFound)
        else if CheckSum(wire[..at]) != Declared(texts[n - 1]).value then Broken(CheckSumMismatch)
        else if SecondSeparator(wire) == |wire| then Broken(NoBodyStart)
        else if at < SecondSeparator(wire) + 1 then Broken(BadBoundaries)
        else if at - (SecondSeparator(wire) + 1) != Declared(texts[1]).value then Broken(BodyLengthMismatch)
        else Envelope(ParseField(texts[0]).value.value, Declared(texts[1]).value, Declared(texts[n - 1]).value)
  }

  function Parse(wire: string): ParseResult {
    var texts := Split(wire);
    match Open(wire, texts)
    case Broken(error) => ParseFailed(error)
    case Envelope(begin, length, sum) =>
      if |texts| < 4 then ParseFailed(TooFewFields)
      else
        var fields := ParseFields(texts[2..|texts| - 1]);
        if fields.None? then ParseFailed(InvalidField)
        else if KindOf(fields.value).Unknown? then ParseFailed(UnsupportedType)
        else Parsed(Message(begin, length, KindOf(fields.value), fields.value, sum))
  }

  // ---------- what is checked ----------

  /** The last "10=" is at `at`. */
  ghost predicate TrailerAt(wire: string, at: nat) {
    at + 3 <= |wire| && wire[at..at + 3] == "10=" && forall j :: at < j < |wire| ==> !Matches(wire, "10=", j)
  }

  /** The body starts behind the second separator, the first being at `first`. */
  ghost predicate BodyAt(wire: string, first: nat, start: nat) {
    && first + 1 < start <= |wire| && wire[first] == SOH && wire[start - 1] == SOH
    && forall k :: 0 <= k < start - 1 && k != first ==> wire[k] != SOH
  }

  lemma TrailerIsFound(wire: string)
    ensures var at := FindLast(wire, "10=", |wire|); at < |wire| ==> TrailerAt(wire, at)
  {
    hide FindLast;
  }

  lemma BodyIsFound(wire: string) returns (first: nat)
    ensures var second := SecondSeparator(wire);
            second < |wire| ==> BodyAt(wire, first, second + 1)
  {
    first := Find(wire, [SOH], 0);
    forall k: nat ensures Matches(wire, [SOH], k) <==> k < |wire| && wire[k] == SOH {
      MatchesOne(wire, SOH, k);
    }
  }

  /** Only what is intact parses: the checksum that is declared last is the sum of all bytes before the last "10="
      modulo 256, and the body length that is declared second is the distance from behind the second separator to
      there. Any other number in either place is refused. */
  lemma OnlyIntactMessagesParse(wire: string) returns (first: nat, start: nat, at: nat)
    requires Parse(wire).Parsed?
    ensures var m, texts := Parse(wire).message, Split(wire);
            && BodyAt(wire, first, start) && TrailerAt(wire, at) && start <= at
            && m.checksum == Sum(wire[..at]) % 256 && m.bodyLength == at - start
            && |texts| >= 4
            && ParseField(texts[0]) == Some(Field(8, m.begin))
            && IsField(texts[1], 9) && ParseInt(ParseField(texts[1]).value.value) == Some(m.bodyLength)
            && IsField(texts[|texts| - 1], 10)
            && ParseInt(ParseField(texts[|texts| - 1]).value.value) == Some(m.checksum)
            && ParseFields(texts[2..|texts| - 1]) == Some(m.fields) && !m.kind.Unknown?
  {
    hide Split, ParseField, ParseFields, KindOf, Sum, Find, FindLast, SecondSeparator, ParseInt;
    TrailerIsFound(wire);
    first := BodyIsFound(wire);
    start, at := SecondSeparator(wire) + 1, FindLast(wire, "10=", |wire|);
  }

  // ---------- the round trip ----------

  /** Values and begin string contain no separator. */
  ghost predicate Clean(m: Message) {
    Free(m.begin, SOH) && forall k :: 0 <= k < |m.fields| ==> Free(m.fields[k].value, SOH)
  }

  lemma {:induction false} SplitIsFree(s: string)
    ensures forall text :: text in Split(s) ==> Free(text, SOH)
    decreases |s|
  {
    if s != "" {
      var end := Find(s, [SOH], 0);
      forall k | 0 <= k < end ensures s[k] != SOH {
        MatchesOne(s, SOH, k);
      }
      if end < |s| {
        SplitIsFree(s[end + 1..]);
      }
    }
  }

  lemma {:induction false} FieldsAreFree(texts: seq<string>)
    requires forall k :: 0 <= k < |texts| ==> Free(texts[k], SOH)
    requires ParseFields(texts).Some?
    ensures var fields := ParseFields(texts).value; forall k :: 0 <= k < |fields| ==> Free(fields[k].value, SOH)
    decreases |texts|
  {
    if texts != [] {
      FieldsAreFree(texts[..|texts| - 1]);
      FieldIsFree(texts[|texts| - 1]);
    }
  }

  lemma FieldIsFree(text: string)
    requires Free(text, SOH) && ParseField(text).Some?
    ensures Free(ParseField(text).value.value, SOH)
  {
  }

  /** What comes off the wire has no separator in its values. */
  lemma ParsedIsClean(wire: string)
    ensures Parse(wire).Parsed? ==> Clean(Parse(wire).message)
  {
    hide Split, ParseField, ParseFields, Free, KindOf;
    var texts := Split(wire);
    SplitIsFree(wire);
    assert forall k :: 0 <= k < |texts| ==> texts[k] in texts;
    if Parse(wire).Parsed? {
      FieldIsFree(texts[0]);
      FieldsAreFree(texts[2..|texts| - 1]);
    }
  }

  /** What parsing the encoding should give: the framing fields recomputed, type first. */
  function Canonical(m: Message): Message {
    Message(m.begin, |Body(m)|, m.kind, BodyFields(m), CheckSum(Prefix(m)))
  }

  lemma FreeJoins(a: string, b: string, c: char)
    requires Free(a, c) && Free(b, c)
    ensures Free(a + b, c)
  {
  }

  lemma DecimalIsFree(n: int, c: char)
    requires !IsDigit(c) && c != '-'
    ensures Free(Decimal(n), c)
  {
    DecimalIsPlain(n);
  }

  lemma {:induction false} KeptAreFields(fields: seq<Field>)
    ensures forall f :: f in Kept(fields) ==> f in fields && !Framing(f.tag)
    decreases |fields|
  {
    if fields != [] {
      KeptAreFields(fields[..|fields| - 1]);
    }
  }

  lemma TextIsClean(f: Field)
    requires Free(f.value, SOH)
    ensures TextOf(f) != "" && Free(TextOf(f), SOH)
  {
    DecimalIsFree(f.tag, SOH);
    FreeJoins(Decimal(f.tag), "=", SOH);
    FreeJoins(Decimal(f.tag) + "=", f.value, SOH);
  }

  lemma CodeIsClean(t: MessageType)
    ensures Free(Code(t), SOH)
  {
  }

  lemma BodyFieldsAreClean(m: Message)
    requires Clean(m)
    ensures forall k :: 0 <= k < |BodyFields(m)| ==> Free(BodyFields(m)[k].value, SOH)
  {
    hide Free;
    KeptAreFields(m.fields);
    CodeIsClean(m.kind);
    var kept := Kept(m.fields);
    forall k | 0 <= k < |kept| ensures Free(kept[k].value, SOH) {
      assert kept[k] in kept;
      assert kept[k] in m.fields;
    }
  }

  /** All fields on the wire, in order. */
  function WireTexts(m: Message): seq<string> {
    ["8=" + m.begin, "9=" + Decimal(|Body(m)|)] + TextsOf(BodyFields(m)) + [Trailer(m)]
  }

  lemma WireIsFielded(m: Message)
    ensures Wire(m) == Fielded(WireTexts(m))
  {
    hide CheckSum, Decimal, Padded, TextsOf;
    var head, middle, tail := ["8=" + m.begin, "9=" + Decimal(|Body(m)|)], TextsOf(BodyFields(m)), [Trailer(m)];
    FieldedJoins(head + middle, tail);
    FieldedJoins(head, middle);
    OneFielded(Trailer(m));
    assert head == ["8=" + m.begin] + ["9=" + Decimal(|Body(m)|)];
    FieldedJoins(["8=" + m.begin], ["9=" + Decimal(|Body(m)|)]);
    OneFielded("8=" + m.begin);
    OneFielded("9=" + Decimal(|Body(m)|));
    assert "8=" + m.begin + [SOH] + ("9=" + Decimal(|Body(m)|) + [SOH]) ==
             "8=" + m.begin + [SOH] + "9=" + Decimal(|Body(m)|) + [SOH];
    assert Prefix(m) == Fielded(head) + Body(m);
    assert Prefix(m) + (Trailer(m) + [SOH]) == Wire(m);
  }

  lemma OneFielded(text: string)
    ensures Fielded([text]) == text + [SOH]
  {
    assert [text][1..] == [];
    assert text + [SOH] + "" == text + [SOH];
  }

  lemma TextsAreClean(m: Message)
    requires Clean(m)
    ensures forall k :: 0 <= k < |WireTexts(m)| ==> WireTexts(m)[k] != "" && Free(WireTexts(m)[k], SOH)
  {
    hide Free, Decimal, Body, CheckSum, Padded, TextOf;
    BodyFieldsAreClean(m);
    var fields := BodyFields(m);
    var texts := TextsOf(fields);
    forall k | 0 <= k < |texts| ensures texts[k] != "" && Free(texts[k], SOH) {
      TextIsClean(fields[k]);
    }
    EnvelopeIsClean(m);
  }

  lemma EnvelopeIsClean(m: Message)
    requires Clean(m)
    ensures Free("8=" + m.begin, SOH) && Free("9=" + Decimal(|Body(m)|), SOH) && Free(Trailer(m), SOH)
  {
    hide Decimal, Body, CheckSum;
    DecimalIsFree(|Body(m)|, SOH);
    FreeJoins("8=", m.begin, SOH);
    FreeJoins("9=", Decimal(|Body(m)|), SOH);
    PaddedRoundTrip(CheckSum(Prefix(m)));
    FreeJoins("10=", Padded(CheckSum(Prefix(m))), SOH);
  }

  lemma WireSplits(m: Message)
    requires Clean(m)
    ensures Split(Wire(m)) == WireTexts(m)
  {
    hide Wire, WireTexts, Split, Free;
    WireIsFielded(m);
    TextsAreClean(m);
    var texts := WireTexts(m);
    forall k | 0 <= k < |texts| ensures texts[k] != "" && Free(texts[k], SOH) {
    }
    SplitUndoesFielded(texts);
  }

  /** A field that is written is read back, whatever is in its value. */
  lemma FieldRoundTrip(tag: Int32, value: string)
    ensures ParseField(Decimal(tag) + "=" + value) == Some(Field(tag, value))
  {
    hide Decimal, ParseInt;
    DecimalIsPlain(tag);
    DecimalIsFree(tag, '=');
    var text := Decimal(tag) + "=" + value;
    FindAfter("", Decimal(tag), value, '=');
    assert "" + Decimal(tag) + ['='] + value == text;
    DecimalRoundTrip(tag);
    assert text[..|Decimal(tag)|] == Decimal(tag) && text[|Decimal(tag)| + 1..] == value;
  }

  lemma FrameTags()
    ensures Decimal(8) == "8" && Decimal(9) == "9" && Decimal(10) == "10" && Decimal(35) == "35"
  {
  }

  lemma {:induction false} FieldsRoundTrip(fields: seq<Field>)
    ensures ParseFields(TextsOf(fields)) == Some(fields)
    decreases |fields|
  {
    hide ParseField, TextOf;
    if fields != [] {
      var n := |fields| - 1;
      FieldsRoundTrip(fields[..n]);
      assert TextsOf(fields)[..n] == TextsOf(fields[..n]);
      TextRoundTrip(fields[n]);
      assert fields == fields[..n] + [fields[n]];
    }
  }

  lemma TextRoundTrip(f: Field)
    ensures ParseField(TextOf(f)) == Some(f)
  {
    FieldRoundTrip(f.tag, f.value);
  }

  lemma {:induction false} KindStays(fields: seq<Field>, more: seq<Field>)
    requires forall f :: f in more ==> f.tag != 35
    ensures KindOf(fields + more) == KindOf(fields)
    decreases |more|
  {
    if more == [] {
      assert fields + more == fields;
    } else {
      var n := |more| - 1;
      assert (fields + more)[..|fields + more| - 1] == fields + more[..n];
      assert more[n] in more;
      KindStays(fields, more[..n]);
    }
  }

  lemma BodyKind(m: Message)
    ensures KindOf(BodyFields(m)) == m.kind
  {
    hide Code;
    KeptAreFields(m.fields);
    TypeRoundTrip(m.kind);
    KindStays([Field(35, Code(m.kind))], Kept(m.fields));
  }

  /** The last "10=" on the wire is the trailer's: only digits and the separator follow it. */
  lemma TrailerIsLast(m: Message)
    ensures FindLast(Wire(m), "10=", |Wire(m)|) == |Prefix(m)| < |Wire(m)|
  {
    hide CheckSum, Prefix;
    var wire, at := Wire(m), |Prefix(m)|;
    PaddedRoundTrip(CheckSum(Prefix(m)));
    var digits := Padded(CheckSum(Prefix(m)));
    assert wire == Prefix(m) + "10=" + digits + [SOH];
    TrailerMatches(Prefix(m), digits);
  }

  lemma TrailerMatches(prefix: string, digits: string)
    requires |digits| == 3 && AllDigits(digits)
    ensures var wire := prefix + "10=" + digits + [SOH];
            FindLast(wire, "10=", |wire|) == |prefix|
  {
    var wire := prefix + "10=" + digits + [SOH];
    assert wire[|prefix|..|prefix| + 3] == "10=";
    forall j | |prefix| < j < |wire| ensures !Matches(wire, "10=", j) {
      if j + 3 <= |wire| {
        assert wire[j..j + 3][2] == wire[j + 2];
        assert wire[j + 2] == if j - |prefix| < 4 then digits[j - |prefix| - 1] else SOH;
      }
    }
    FindLastIs(wire, "10=", |wire|, |prefix|);
  }

  lemma {:induction false} FindLastIs(s: string, pattern: string, end: nat, at: nat)
    requires pattern != "" && at < end <= |s| && Matches(s, pattern, at)
    requires forall j :: at < j < end ==> !Matches(s, pattern, j)
    ensures FindLast(s, pattern, end) == at
  {
  }

  /** The second separator is the one before the body. */
  lemma BodyStarts(m: Message)
    requires Clean(m)
    ensures SecondSeparator(Wire(m)) + 1 == |Prefix(m)| - |Body(m)| && SecondSeparator(Wire(m)) < |Wire(m)|
  {
    hide Decimal, Body, CheckSum, Find, Padded;
    var begin, length := "8=" + m.begin, "9=" + Decimal(|Body(m)|);
    var rest := Body(m) + Trailer(m) + [SOH];
    EnvelopeIsClean(m);
    var wire := Wire(m);
    assert wire == begin + [SOH] + length + [SOH] + rest;
    FindAfter("", begin, length + [SOH] + rest, SOH);
    assert "" + begin + [SOH] + (length + [SOH] + rest) == wire;
    FindAfter(begin + [SOH], length, rest, SOH);
  }

  lemma WireParts(m: Message)
    requires Clean(m)
    ensures var texts := Split(Wire(m));
            && |texts| >= 4
            && texts[0] == "8=" + m.begin && texts[1] == "9=" + Decimal(|Body(m)|) && texts[|texts| - 1] == Trailer(m)
            && texts[2..|texts| - 1] == TextsOf(BodyFields(m))
  {
    hide Decimal, Body, CheckSum, Wire, Split, Padded, TextOf;
    WireSplits(m);
    var texts := WireTexts(m);
    assert texts[2..|texts| - 1] == TextsOf(BodyFields(m));
  }

  lemma EnvelopeFields(m: Message)
    ensures ParseField("8=" + m.begin) == Some(Field(8, m.begin))
    ensures ParseField("9=" + Decimal(|Body(m)|)) == Some(Field(9, Decimal(|Body(m)|)))
    ensures ParseField(Trailer(m)) == Some(Field(10, Padded(CheckSum(Prefix(m)))))
  {
    hide ParseField, Body, CheckSum;
    FrameTags();
    FieldRoundTrip(8, m.begin);
    FieldRoundTrip(9, Decimal(|Body(m)|));
    FieldRoundTrip(10, Padded(CheckSum(Prefix(m))));
    assert "8" + "=" + m.begin == "8=" + m.begin;
    assert "9" + "=" + Decimal(|Body(m)|) == "9=" + Decimal(|Body(m)|);
    assert "10" + "=" + Padded(CheckSum(Prefix(m))) == Trailer(m);
  }

  lemma Opens(m: Message)
    requires Clean(m)
    ensures Open(Wire(m), Split(Wire(m))) ==
              if |Body(m)| <= INT_MAX then Envelope(m.begin, |Body(m)|, CheckSum(Prefix(m))) else Broken(BadBodyLength)
  {
    hide ParseField, Body, CheckSum, Wire, Split, Prefix, Trailer, Padded, Decimal, ParseInt, SecondSeparator, Free;
    WireParts(m);
    EnvelopeFields(m);
    DecimalRoundTrip(|Body(m)|);
    PaddedRoundTrip(CheckSum(Prefix(m)));
    TrailerIsLast(m);
    BodyStarts(m);
    PrefixOfWire(m);
  }

  lemma PrefixOfWire(m: Message)
    ensures |Prefix(m)| <= |Wire(m)| && Wire(m)[..|Prefix(m)|] == Prefix(m)
  {
    hide Prefix, Trailer;
  }

  /** Round trip: an encoding parses if and only if its body length fits an int, and then to the message that was
      encoded, its framing fields recomputed. */
  lemma ParseUndoesWire(m: Message)
    requires Clean(m) && !m.kind.Unknown?
    ensures Parse(Wire(m)) == if |Body(m)| <= INT_MAX then Parsed(Canonical(m)) else ParseFailed(BadBodyLength)
  {
    hide Open, Body, CheckSum, Wire, Split, Prefix, BodyFields, ParseFields, KindOf, TextsOf, Free;
    Opens(m);
    WireParts(m);
    FieldsRoundTrip(BodyFields(m));
    BodyKind(m);
  }

  /** Encoding again what was parsed gives the same bytes. */
  lemma WireOfCanonical(m: Message)
    ensures Wire(Canonical(m)) == Wire(m)
  {
    hide CheckSum;
    KeptOfBody(m);
  }

  lemma {:induction false} KeptIsStable(fields: seq<Field>)
    requires forall f :: f in fields ==> !Framing(f.tag)
    ensures Kept(fields) == fields
    decreases |fields|
  {
    if fields != [] {
      var n := |fields| - 1;
      assert fields[n] in fields;
      KeptIsStable(fields[..n]);
      assert fields == fields[..n] + [fields[n]];
    }
  }

  lemma {:induction false} KeptJoins(a: seq<Field>, b: seq<Field>)
    ensures Kept(a + b) == Kept(a) + Kept(b)
    decreases |b|
  {
    if b == [] {
      assert a + b == a;
    } else {
      assert (a + b)[..|a + b| - 1] == a + b[..|b| - 1];
      KeptJoins(a, b[..|b| - 1]);
    }
  }

  lemma KeptOfBody(m: Message)
    ensures Kept(BodyFields(m)) == Kept(m.fields)
  {
    var head := [Field(35, Code(m.kind))];
    KeptJoins(head, Kept(m.fields));
    assert head[..0] == [];
    assert Kept(head) == [];
    KeptAreFields(m.fields);
    KeptIsStable(Kept(m.fields));
    assert [] + Kept(m.fields) == Kept(m.fields);
  }

  // ---------- the loops ----------

  method ComputeCheckSum(s: string) returns (sum: nat)
    ensures sum == CheckSum(s)
  {
    var total := 0;
    for i := 0 to |s|
      invariant total == Sum(s[..i])
    {
      assert s[..i + 1][..i] == s[..i];
      total := total + s[i] as int;
    }
    assert s[..|s|] == s;
    sum := total % 256;
  }

  lemma BodyGrows(head: seq<Field>, fields: seq<Field>, i: nat)
    requires i < |fields|
    ensures Fielded(TextsOf(head + Kept(fields[..i + 1]))) ==
              Fielded(TextsOf(head + Kept(fields[..i])))
              + (if Framing(fields[i].tag) then "" else TextOf(fields[i]) + [SOH])
  {
    hide TextOf, Fielded;
    assert fields[..i + 1][..i] == fields[..i];
    var some := head + Kept(fields[..i]);
    if Framing(fields[i].tag) {
      assert Kept(fields[..i]) + [] == Kept(fields[..i]);
    } else {
      assert head + Kept(fields[..i + 1]) == some + [fields[i]];
      assert (some + [fields[i]])[..|some|] == some;
      FieldedJoins(TextsOf(some), [TextOf(fields[i])]);
      OneFielded(TextOf(fields[i]));
    }
  }

  /** The result is None where the source throws. */
  method Encode(m: Message) returns (wire: Option<string>)
    ensures wire == if m.kind.Unknown? then None else Some(Wire(m))
  {
    hide CheckSum, Fielded, TextOf, TextsOf, Kept, Decimal, Padded;
    var code := Code(m.kind);
    if code == "" { return None; }
    var body := "35=" + code + [SOH];
    ghost var head := [Field(35, code)];
    StartOfBody(code);
    assert m.fields[..0] == [];
    for i := 0 to |m.fields|
      invariant body == Fielded(TextsOf(head + Kept(m.fields[..i])))
    {
      BodyGrows(head, m.fields, i);
      if !Framing(m.fields[i].tag) {
        body := body + (Decimal(m.fields[i].tag) + "=" + m.fields[i].value + [SOH]);
        TextIs(m.fields[i]);
      } else {
        assert body + "" == body;
      }
    }
    assert m.fields[..|m.fields|] == m.fields;
    var prefix := "8=" + m.begin + [SOH] + "9=" + Decimal(|body|) + [SOH] + body;
    var checksum := ComputeCheckSum(prefix);
    wire := Some(prefix + ("10=" + Padded(checksum)) + [SOH]);
  }

  lemma TextIs(f: Field)
    ensures TextOf(f) == Decimal(f.tag) + "=" + f.value
  {
  }

  lemma StartOfBody(code: string)
    ensures Fielded(TextsOf([Field(35, code)] + Kept([]))) == "35=" + code + [SOH]
  {
    var f := Field(35, code);
    assert [f] + Kept([]) == [f] && [f][..0] == [];
    FrameTags();
    OneFielded(TextOf(f));
    assert "35" + "=" + code == "35=" + code;
    assert TextsOf([f]) == [TextOf(f)];
  }

  method ParseMessage(wire: string) returns (result: ParseResult)
    ensures result == Parse(wire)
  {
    hide Open, ParseField;
    var texts := SplitFields(wire);
    var envelope := Open(wire, texts);
    if envelope.Broken? { return ParseFailed(envelope.error); }
    FourFields(wire, texts);
    var body := texts[2..|texts| - 1];
    var kind, fields := Unknown, [];
    for i := 0 to |body|
      invariant ParseFields(body[..i]) == Some(fields) && kind == KindOf(fields)
    {
      assert body[..i + 1][..i] == body[..i];
      var parsed := ParseField(body[i]);
      if parsed.None? {
        StopsHere(body, i);
        return ParseFailed(InvalidField);
      }
      assert (fields + [parsed.value])[..|fields|] == fields;
      if parsed.value.tag == 35 { kind := TypeOf(parsed.value.value); }
      fields := fields + [parsed.value];
    }
    assert body[..|body|] == body;
    if kind.Unknown? { return ParseFailed(UnsupportedType); }
    result := Parsed(Message(envelope.begin, envelope.bodyLength, kind, fields, envelope.checksum));
  }

  lemma FourFields(wire: string, texts: seq<string>)
    ensures Open(wire, texts).Envelope? ==> |texts| >= 4
  {
  }

  lemma {:induction false} StopsHere(texts: seq<string>, i: nat)
    requires i < |texts| && ParseField(texts[i]).None?
    ensures ParseFields(texts).None?
    decreases |texts|
  {
    hide ParseField;
    if i < |texts| - 1 {
      StopsHere(texts[..|texts| - 1], i);
    }
  }
}
