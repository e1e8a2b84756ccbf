/** Framing: messages cut out of a byte stream that arrives in arbitrary chunks. */
module FixFraming {
  import opened Options
  import opened FixText
  import opened FixCodec

  const BEGIN: string := "8=FIX."
  const MARK: string := [SOH] + "10="

  datatype Extraction = Extraction(message: Option<string>, rest: string)

  /** extract_fix_message: skip to the begin string, find the checksum field and its end. */
  function Extract(buffer: string): (e: Extraction)
    ensures e.message.Some? ==> |e.rest| < |buffer|
  {
    var begin := Find(buffer, BEGIN, 0);
    if begin == |buffer| then Extraction(None, if |buffer| > 8192 then "" else buffer)
    else
      var b := buffer[begin..];
      var sum := Find(b, MARK, 0);
      if sum == |b| then Extraction(None, b)
      else
        var end := Find(b, [SOH], sum + |MARK|);
        if end == |b| then Extraction(None, b) else Extraction(Some(b[..end + 1]), b[end + 1..])
  }

  datatype Drained = Drained(messages: seq<string>, rest: string)

  /** Extract until nothing more comes. */
  function Drain(buffer: string): Drained
    decreases |buffer|
  {
    var e := Extract(buffer);
    if e.message.None? then Drained([], e.rest)
    else
      var more := Drain(e.rest);
      Drained([e.message.value] + more.messages, more.rest)
  }

  /** Chunks appended to the buffer one by one, each followed by a drain. */
  function Feed(buffer: string, chunks: seq<string>): Drained
    decreases |chunks|
  {
    if chunks == [] then Drained([], buffer)
    else
      var now := Drain(buffer + chunks[0]);
      var later := Feed(now.rest, chunks[1..]);
      Drained(now.messages + later.messages, later.rest)
  }

  function Concat(parts: seq<string>): string {
    if parts == [] then "" else parts[0] + Concat(parts[1..])
  }

  // ---------- what a frame is ----------

  /** A text the extractor recognises as one whole message. */
  ghost predicate IsFrame(w: string) {
    && |w| > |BEGIN| && w[..|BEGIN|] == BEGIN
    && var sum := Find(w, MARK, 0);
       sum + |MARK| < |w| && Find(w, [SOH], sum + |MARK|) == |w| - 1
  }

  lemma FindInPrefix(w: string, rest: string, pattern: string, from: nat)
    requires pattern != "" && from <= |w| && Find(w, pattern, from) < |w|
    ensures Find(w + rest, pattern, from) == Find(w, pattern, from)
  {
    var at := Find(w, pattern, from);
    var s := w + rest;
    assert s[at..at + |pattern|] == w[at..at + |pattern|];
    forall j | from <= j < at ensures !Matches(s, pattern, j) {
      assert !Matches(w, pattern, j);
      assert s[j..j + |pattern|] == w[j..j + |pattern|];
    }
    FindIs(s, pattern, from, at);
  }

  lemma FrameComesOut(w: string, rest: string)
    requires IsFrame(w)
    ensures Extract(w + rest) == Extraction(Some(w), rest)
  {
    hide Find;
    var s := w + rest;
    assert s[0..|BEGIN|] == BEGIN;
    FindIs(s, BEGIN, 0, 0);
    assert s[0..] == s;
    var sum := Find(w, MARK, 0);
    FindInPrefix(w, rest, MARK, 0);
    FindInPrefix(w, rest, [SOH], sum + |MARK|);
    assert s[..|w|] == w && s[|w|..] == rest;
  }

  lemma NoMatchInPrefix(w: string, p: string, pattern: string, from: nat, at: nat)
    requires pattern != "" && p <= w && from <= |p| && from <= at
    requires forall j :: from <= j < at ==> !Matches(w, pattern, j)
    requires |p| < at + |pattern|
    ensures Find(p, pattern, from) == |p|
  {
    forall j | from <= j < |p| ensures !Matches(p, pattern, j) {
      if j + |pattern| <= |p| {
        assert !Matches(w, pattern, j);
        assert w[j..j + |pattern|] == p[j..j + |pattern|];
      }
    }
    FindIs(p, pattern, from, |p|);
  }

  /** Nothing comes out of a frame that is not yet complete, and nothing is lost. */
  lemma PartialStays(w: string, p: string)
    requires IsFrame(w) && p < w
    ensures Extract(p) == Extraction(None, p)
  {
    hide Find;
    if |p| < |BEGIN| {
      FindIs(p, BEGIN, 0, |p|);
    } else {
      assert p[0..|BEGIN|] == w[..|BEGIN|];
      FindIs(p, BEGIN, 0, 0);
      assert p[0..] == p;
      var sum := Find(w, MARK, 0);
      if |p| < sum + |MARK| {
        NoMatchInPrefix(w, p, MARK, 0, sum);
      } else {
        assert p[sum..sum + |MARK|] == w[sum..sum + |MARK|];
        PartialMark(w, p, sum);
        NoMatchInPrefix(w, p, [SOH], sum + |MARK|, |w| - 1);
      }
    }
  }

  lemma PartialMark(w: string, p: string, sum: nat)
    requires p < w && sum + |MARK| <= |p| && sum == Find(w, MARK, 0)
    ensures Find(p, MARK, 0) == sum
  {
    forall j | 0 <= j < sum ensures !Matches(p, MARK, j) {
      if j + |MARK| <= |p| {
        assert !Matches(w, MARK, j);
        assert p[j..j + |MARK|] == w[j..j + |MARK|];
      }
    }
    assert p[sum..sum + |MARK|] == w[sum..sum + |MARK|];
    FindIs(p, MARK, 0, sum);
  }

  // ---------- encodings are frames ----------

  predicate StartsTrailer(text: string) { |text| >= 3 && text[..3] == "10=" }

  /** Among fields none of which after the first looks like a trailer, the mark does not occur. */
  lemma {:induction false} NoMarkInside(texts: seq<string>, tail: string)
    requires forall k :: 0 <= k < |texts| ==> texts[k] != "" && Free(texts[k], SOH)
    requires forall k :: 0 < k < |texts| ==> !StartsTrailer(texts[k])
    ensures forall j :: 0 <= j < |Fielded(texts)| - 1 ==> !Matches(Fielded(texts) + tail, MARK, j)
    decreases |texts|
  {
    hide StartsTrailer;
    if texts != [] {
      NoMarkInside(texts[1..], tail);
      var t, rest := texts[0], Fielded(texts[1..]) + tail;
      var s := Fielded(texts) + tail;
      assert s == t + [SOH] + rest;
      forall j | 0 <= j < |Fielded(texts)| - 1 ensures !Matches(s, MARK, j) {
        if j < |t| {
          NoMarkAt(s, j);
        } else if j == |t| {
          NextIsNoTrailer(texts[1..], tail);
          MarkAfter(t, rest);
        } else {
          MarkShifts(t, rest, j);
        }
      }
    }
  }

  lemma NoMarkAt(s: string, j: nat)
    requires j < |s| && s[j] != SOH
    ensures !Matches(s, MARK, j)
  {
    if j + |MARK| <= |s| {
      assert s[j..j + |MARK|][0] == s[j];
    }
  }

  lemma MarkAfter(t: string, rest: string)
    requires !StartsTrailer(rest)
    ensures !Matches(t + [SOH] + rest, MARK, |t|)
  {
    var s := t + [SOH] + rest;
    if |t| + 4 <= |s| {
      assert s[|t|..|t| + 4][1..] == rest[..3];
      assert MARK[1..] == "10=";
    }
  }

  lemma MarkShifts(t: string, rest: string, j: nat)
    requires j > |t|
    ensures Matches(t + [SOH] + rest, MARK, j) <==> Matches(rest, MARK, j - |t| - 1)
  {
    var s := t + [SOH] + rest;
    var i := j - |t| - 1;
    if i + 4 <= |rest| {
      assert s[j..j + 4] == rest[i..i + 4];
    }
  }

  lemma NextIsNoTrailer(texts: seq<string>, tail: string)
    requires texts != [] && texts[0] != "" && Free(texts[0], SOH) && !StartsTrailer(texts[0])
    ensures !StartsTrailer(Fielded(texts) + tail)
  {
    var t := texts[0];
    var s := Fielded(texts) + tail;
    assert s == t + [SOH] + Fielded(texts[1..]) + tail;
    if |s| >= 3 {
      if |t| >= 3 {
        assert s[..3] == t[..3];
      } else {
        assert s[..3][|t|] == SOH;
      }
    }
  }

  lemma OnlyTagTenStartsTrailer(f: Field)
    requires StartsTrailer(TextOf(f))
    ensures f.tag == 10
  {
    hide Decimal;
    var text := TextOf(f);
    TextRoundTrip(f);
    assert text[2] == text[..3][2] == '=';
    assert text[0] == text[..3][0] && text[1] == text[..3][1];
    forall j | 0 <= j < 2 ensures !Matches(text, "=", j) {
      MatchesOne(text, '=', j);
    }
    MatchesOne(text, '=', 2);
    FindIs(text, "=", 0, 2);
    assert text[..2] == "10";
    FrameTags();
    DecimalRoundTrip(10);
  }

  /** Known type, separators nowhere inside, and a begin string of the FIX family. */
  ghost predicate Sendable(m: Message) {
    Clean(m) && !m.kind.Unknown? && |m.begin| >= 4 && m.begin[..4] == "FIX."
  }

  function Untrailed(m: Message): seq<string> {
    ["8=" + m.begin, "9=" + Decimal(|Body(m)|)] + TextsOf(BodyFields(m))
  }

  lemma UntrailedHasNoTrailer(m: Message)
    requires Clean(m)
    ensures forall k :: 0 <= k < |Untrailed(m)| ==> Untrailed(m)[k] != "" && Free(Untrailed(m)[k], SOH)
    ensures forall k :: 0 < k < |Untrailed(m)| ==> !StartsTrailer(Untrailed(m)[k])
    ensures Fielded(Untrailed(m)) == Prefix(m)
  {
    hide Free, Decimal, Body, CheckSum, Padded, TextOf, StartsTrailer;
    TextsAreClean(m);
    var texts := Untrailed(m);
    assert WireTexts(m) == texts + [Trailer(m)];
    forall k | 0 <= k < |texts| ensures texts[k] != "" && Free(texts[k], SOH) {
      assert WireTexts(m)[k] == texts[k];
    }
    NoTrailerInBody(m);
    NinthIsNoTrailer(Decimal(|Body(m)|));
    PrefixIsFielded(m);
  }

  lemma NinthIsNoTrailer(length: string)
    ensures !StartsTrailer("9=" + length)
  {
    if |length| > 0 {
      assert ("9=" + length)[..3][0] == '9';
    }
  }

  lemma NoTrailerInBody(m: Message)
    ensures forall k :: 0 <= k < |BodyFields(m)| ==> !StartsTrailer(TextsOf(BodyFields(m))[k])
  {
    hide TextOf, StartsTrailer;
    KeptAreFields(m.fields);
    var fields := BodyFields(m);
    forall k | 0 <= k < |fields| ensures !StartsTrailer(TextsOf(fields)[k]) {
      assert k > 0 ==> fields[k] in Kept(m.fields);
      if StartsTrailer(TextOf(fields[k])) {
        OnlyTagTenStartsTrailer(fields[k]);
      }
    }
  }

  lemma PrefixIsFielded(m: Message)
    ensures Fielded(Untrailed(m)) == Prefix(m)
  {
    hide CheckSum, Decimal, Padded, TextsOf;
    var head := ["8=" + m.begin, "9=" + Decimal(|Body(m)|)];
    FieldedJoins(head, TextsOf(BodyFields(m)));
    assert head == ["8=" + m.begin] + ["9=" + Decimal(|Body(m)|)];
    FieldedJoins(["8=" + m.begin], ["9=" + Decimal(|Body(m)|)]);
    OneFielded("8=" + m.begin);
    OneFielded("9=" + Decimal(|Body(m)|));
    assert "8=" + m.begin + [SOH] + ("9=" + Decimal(|Body(m)|) + [SOH]) ==
             "8=" + m.begin + [SOH] + "9=" + Decimal(|Body(m)|) + [SOH];
  }

  /** The encoding of a sendable message is a frame: its trailer is where the mark first occurs. */
  lemma WireIsFrame(m: Message)
    requires Sendable(m)
    ensures IsFrame(Wire(m))
  {
    hide Free, Decimal, Body, CheckSum, Padded, Find, Clean;
    var wire, n := Wire(m), |Prefix(m)|;
    UntrailedHasNoTrailer(m);
    NoMarkInside(Untrailed(m), Trailer(m) + [SOH]);
    assert Prefix(m) + (Trailer(m) + [SOH]) == wire;
    PrefixEnds(m);
    assert wire[n - 1..n + 3] == MARK;
    FindIs(wire, MARK, 0, n - 1);
    PaddedRoundTrip(CheckSum(Prefix(m)));
    var digits := Padded(CheckSum(Prefix(m)));
    DigitsAreFree(digits);
    FindAfter(Prefix(m) + "10=", digits, "", SOH);
    assert Prefix(m) + "10=" + digits + [SOH] + "" == wire;
    assert wire[..6] == "8=" + m.begin[..4];
  }

  lemma DigitsAreFree(s: string)
    requires AllDigits(s)
    ensures Free(s, SOH)
  {
  }

  lemma PrefixEnds(m: Message)
    ensures |Prefix(m)| > 0 && Prefix(m)[|Prefix(m)| - 1] == SOH
  {
    hide Decimal, TextsOf, CheckSum;
    FieldedEnds(TextsOf(BodyFields(m)));
  }

  lemma {:induction false} FieldedEnds(texts: seq<string>)
    requires texts != []
    ensures Fielded(texts) != "" && Fielded(texts)[|Fielded(texts)| - 1] == SOH
    decreases |texts|
  {
    if |texts| > 1 {
      FieldedEnds(texts[1..]);
    }
  }

  // ---------- the stream ----------

  ghost predicate Frames(ws: seq<string>) { forall k :: 0 <= k < |ws| ==> IsFrame(ws[k]) }

  /** What a buffer can hold between reads: part of the next frame, or nothing when no frame is left. */
  ghost predicate Pending(buffer: string, ws: seq<string>) {
    if ws == [] then buffer == "" else buffer < ws[0]
  }

  lemma PendingStays(buffer: string, ws: seq<string>)
    requires Frames(ws) && Pending(buffer, ws)
    ensures Drain(buffer) == Drained([], buffer)
  {
    if ws == [] {
      assert Find("", BEGIN, 0) == 0;
    } else {
      PartialStays(ws[0], buffer);
    }
  }

  /** Any part of the stream drains into the frames it completes, and what is left is pending. */
  lemma {:induction false} DrainIsExact(s: string, ws: seq<string>, more: string) returns (k: nat)
    requires Frames(ws) && s + more == Concat(ws)
    ensures k <= |ws| && Drain(s).messages == ws[..k]
    ensures Pending(Drain(s).rest, ws[k..]) && Drain(s).rest + more == Concat(ws[k..])
    decreases |ws|
  {
    hide Extract, IsFrame;
    if ws == [] {
      assert |s| == 0;
      PendingStays(s, ws);
      k := 0;
      assert ws[0..] == ws;
    } else if |s| < |ws[0]| {
      assert s == Concat(ws)[..|s|] == ws[0][..|s|];
      PendingStays(s, ws);
      k := 0;
      assert ws[0..] == ws;
    } else {
      var w, rest := ws[0], s[|ws[0]|..];
      assert s[..|w|] == Concat(ws)[..|w|] == w;
      assert s == w + rest;
      assert rest + more == Concat(ws)[|w|..] == Concat(ws[1..]);
      FrameComesOut(w, rest);
      var j := DrainIsExact(rest, ws[1..], more);
      k := j + 1;
      assert ws[..k] == [w] + ws[1..][..j];
      assert ws[k..] == ws[1..][j..];
    }
  }

  lemma WholeIsNotPending(buffer: string, ws: seq<string>)
    requires Pending(buffer, ws)
    ensures buffer == Concat(ws) ==> ws == []
  {
    if ws != [] {
      assert |Concat(ws)| >= |ws[0]| > |buffer|;
    }
  }

  lemma {:induction false} FeedIsExact(buffer: string, chunks: seq<string>, ws: seq<string>)
    requires Frames(ws) && Pending(buffer, ws) && buffer + Concat(chunks) == Concat(ws)
    ensures Feed(buffer, chunks) == Drained(ws, "")
    decreases |chunks|
  {
    hide Drain, IsFrame;
    if chunks == [] {
      assert buffer + "" == buffer;
      WholeIsNotPending(buffer, ws);
    } else {
      var s, more := buffer + chunks[0], Concat(chunks[1..]);
      assert s + more == buffer + Concat(chunks);
      var k := DrainIsExact(s, ws, more);
      assert Frames(ws[k..]);
      FeedIsExact(Drain(s).rest, chunks[1..], ws[k..]);
      assert ws[..k] + ws[k..] == ws;
    }
  }

  function WiresOf(ms: seq<Message>): (ws: seq<string>)
    ensures |ws| == |ms| && forall k :: 0 <= k < |ms| ==> ws[k] == Wire(ms[k])
  {
    seq(|ms|, k requires 0 <= k < |ms| => Wire(ms[k]))
  }

  /** Framing is exact: however the concatenated encodings are cut into chunks, what comes out is each of them,
      in order, with nothing left over; and each parses back to its message when its length fits. */
  lemma StreamRoundTrip(ms: seq<Message>, chunks: seq<string>)
    requires forall k :: 0 <= k < |ms| ==> Sendable(ms[k])
    requires Concat(chunks) == Concat(WiresOf(ms))
    ensures Feed("", chunks) == Drained(WiresOf(ms), "")
    ensures forall k :: 0 <= k < |ms| && |Body(ms[k])| <= INT_MAX ==> Parse(WiresOf(ms)[k]) == Parsed(Canonical(ms[k]))
  {
    hide Wire, Parse, IsFrame, Body, Canonical, Feed, Sendable;
    var ws := WiresOf(ms);
    forall k | 0 <= k < |ms|
      ensures IsFrame(ws[k]) && (|Body(ms[k])| <= INT_MAX ==> Parse(ws[k]) == Parsed(Canonical(ms[k])))
    {
      WireIsFrame(ms[k]);
      SendableParts(ms[k]);
      ParseUndoesWire(ms[k]);
    }
    FrameIsNotEmpty(ws);
    assert "" + Concat(chunks) == Concat(chunks);
    FeedIsExact("", chunks, ws);
  }

  lemma SendableParts(m: Message)
    requires Sendable(m)
    ensures Clean(m) && !m.kind.Unknown?
  {
  }

  lemma FrameIsNotEmpty(ws: seq<string>)
    requires Frames(ws)
    ensures Pending("", ws)
  {
  }

  class Receiver {
    var buffer: string

    constructor ()
      ensures buffer == ""
    {
      buffer := "";
    }

    /** extract_fix_message, erasing from the buffer in place. */
    method ExtractMessage() returns (found: bool, message: string)
      modifies this
      ensures var e := Extract(old(buffer));
              buffer == e.rest && found == e.message.Some? && (found ==> message == e.message.value)
    {
      hide Find;
      message := "";
      var begin := Find(buffer, BEGIN, 0);
      if begin == |buffer| {
        if |buffer| > 8192 { buffer := ""; }
        return false, "";
      }
      assert buffer[0..] == buffer;
      if begin > 0 { buffer := buffer[begin..]; }
      var checksum := Find(buffer, MARK, 0);
      if checksum == |buffer| { return false, ""; }
      var end := Find(buffer, [SOH], checksum + |MARK|);
      if end == |buffer| { return false, ""; }
      message := buffer[..end + 1];
      buffer := buffer[end + 1..];
      found := true;
    }

    /** One read: append the bytes, then take out every complete message. */
    method Read(chunk: string) returns (messages: seq<string>)
      modifies this
      ensures messages == Drain(old(buffer) + chunk).messages && buffer == Drain(old(buffer) + chunk).rest
    {
      hide Extract;
      buffer := buffer + chunk;
      ghost var whole := buffer;
      messages := [];
      var found, message := ExtractMessage();
      ghost var before := whole;
      while found
        invariant found ==> |buffer| < |before|
        invariant if found then Drain(whole) ==
                  Drained(messages + [message] + Drain(buffer).messages, Drain(buffer).rest)
                  else Drain(whole) == Drained(messages, buffer)
        decreases found, |buffer|
      {
        messages := messages + [message];
        before := buffer;
        found, message := ExtractMessage();
        if found {
          assert messages + ([message] + Drain(buffer).messages) == messages + [message] + Drain(buffer).messages;
        } else {
          assert messages + [] == messages;
        }
      }
    }
  }

  // ---------- noise ----------

  /** Bytes before a message are skipped, as long as no begin string starts among them. */
  lemma NoiseIsSkipped(noise: string, w: string, rest: string)
    requires IsFrame(w) && forall j :: 0 <= j < |noise| ==> !Matches(noise + w + rest, BEGIN, j)
    ensures Extract(noise + w + rest) == Extraction(Some(w), rest)
  {
    hide Find;
    var buffer := noise + w + rest;
    assert buffer[|noise|..] == w + rest;
    assert buffer[|noise|..|noise| + |BEGIN|] == w[..|BEGIN|];
    FindIs(buffer, BEGIN, 0, |noise|);
    FrameComesOut(w, rest);
    assert (w + rest)[0..|BEGIN|] == BEGIN;
    FindIs(w + rest, BEGIN, 0, 0);
    assert (w + rest)[0..] == w + rest;
  }

  /** Without a begin string nothing comes out; what is buffered is kept until it is longer than 8192 bytes. */
  lemma NoiseIsDropped(buffer: string)
    requires forall j :: 0 <= j < |buffer| ==> !Matches(buffer, BEGIN, j)
    ensures Extract(buffer) == Extraction(None, if |buffer| <= 8192 then buffer else "")
  {
    hide Find;
    FindIs(buffer, BEGIN, 0, |buffer|);
  }
}
