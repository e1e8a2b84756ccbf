/** Text under the FIX codec: decimal numbers as the standard library writes and reads them, searching, and
    splitting at the field separator. A byte is a character below 256. */
module FixText {
  import opened Options

  const SOH: char := '\U{0001}'

  const INT_MAX: int := 0x7fff_ffff

  /** The values of a 32-bit int. */
  type Int32 = x: int | -0x8000_0000 <= x <= 0x7fff_ffff

  // ---------- decimal numbers ----------

  predicate IsDigit(c: char) { '0' <= c <= '9' }

  function DigitOf(n: nat): (c: char)
    requires n < 10
    ensures IsDigit(c) && ValueOf(c) == n
  {
    '0' + n as char
  }

  function ValueOf(c: char): nat
    requires IsDigit(c)
  {
    (c - '0') as nat
  }

  predicate AllDigits(s: string) { forall k :: 0 <= k < |s| ==> IsDigit(s[k]) }

  function Digits(n: nat): (s: string)
    ensures s != "" && AllDigits(s)
  {
    if n < 10 then [DigitOf(n)] else Digits(n / 10) + [DigitOf(n % 10)]
  }

  function Decimal(n: int): string { if n < 0 then "-" + Digits(0 - n) else Digits(n) }

  function DigitsValue(s: string): nat
    requires AllDigits(s)
  {
    if s == "" then 0 else 10 * DigitsValue(s[..|s| - 1]) + ValueOf(s[|s| - 1])
  }

  predicate FitsInt(n: int) { -0x8000_0000 <= n <= INT_MAX }

  /** from_chars for an int, all of the text: an optional minus, then digits, in range. */
  function ParseInt(s: string): Option<Int32> {
    if s != "" && s[0] == '-' then
      if s[1..] != "" && AllDigits(s[1..]) && FitsInt(0 - DigitsValue(s[1..])) then Some(0 - DigitsValue(s[1..]))
          else None
    else if s != "" && AllDigits(s) && FitsInt(DigitsValue(s)) then Some(DigitsValue(s))
    else None
  }

  predicate IsSpace(c: char) { c == ' ' || '\t' <= c <= '\r' }

  function SkipSpaces(s: string): string { if s != "" && IsSpace(s[0]) then SkipSpaces(s[1..]) else s }

  function LeadingDigits(s: string): (d: string)
    ensures AllDigits(d)
  {
    if s == "" || !IsDigit(s[0]) then "" else [s[0]] + LeadingDigits(s[1..])
  }

  /** stoi: spaces, a sign and digits, whatever comes after them; None where it throws. */
  function Stoi(s: string): Option<Int32> {
    var t := SkipSpaces(s);
    var digits := LeadingDigits(if t != "" && (t[0] == '-' || t[0] == '+') then t[1..] else t);
    var n := if t != "" && t[0] == '-' then 0 - DigitsValue(digits) else DigitsValue(digits);
    if digits == "" || !FitsInt(n) then None else Some(n)
  }

  lemma {:induction false} DigitsLead(s: string)
    requires AllDigits(s)
    ensures LeadingDigits(s) == s
    decreases |s|
  {
    if s != "" {
      DigitsLead(s[1..]);
    }
  }

  /** Where from_chars reads all of a text, stoi reads the same. */
  lemma StoiAgrees(s: string)
    ensures ParseInt(s).Some? ==> Stoi(s) == ParseInt(s)
  {
    if ParseInt(s).Some? {
      if s[0] == '-' {
        DigitsLead(s[1..]);
      } else {
        DigitsLead(s);
      }
    }
  }

  lemma {:induction false} DigitsRoundTrip(n: nat)
    ensures DigitsValue(Digits(n)) == n
    decreases n
  {
    if n < 10 {
      assert [DigitOf(n)][..0] == "";
    } else {
      DigitsRoundTrip(n / 10);
      var s := Digits(n / 10) + [DigitOf(n % 10)];
      assert s[..|s| - 1] == Digits(n / 10);
    }
  }

  /** A number that is written is read back if and only if it fits. */
  lemma DecimalRoundTrip(n: int)
    ensures ParseInt(Decimal(n)) == if FitsInt(n) then Some(n) else None
  {
    if n < 0 {
      DigitsRoundTrip(0 - n);
      assert Decimal(n)[1..] == Digits(0 - n);
    } else {
      DigitsRoundTrip(n);
      assert IsDigit(Digits(n)[0]);
    }
  }

  lemma DecimalIsPlain(n: int)
    ensures Decimal(n) != "" && forall k :: 0 <= k < |Decimal(n)| ==> IsDigit(Decimal(n)[k]) || Decimal(n)[k] == '-'
  {
  }

  /** Three digits, as setw(3) with fill '0' writes a checksum. */
  function Padded(n: nat): string
    requires n < 256
  {
    [DigitOf(n / 100), DigitOf(n / 10 % 10), DigitOf(n % 10)]
  }

  lemma PaddedRoundTrip(n: nat)
    requires n < 256
    ensures |Padded(n)| == 3 && AllDigits(Padded(n)) && ParseInt(Padded(n)) == Some(n)
  {
    hide DigitsValue, Digits, Stoi;
    var s := Padded(n);
    ThreeDigits(s);
    assert 100 * (n / 100) + 10 * (n / 10 % 10) + n % 10 == n;
  }

  lemma ThreeDigits(s: string)
    requires |s| == 3 && AllDigits(s)
    ensures DigitsValue(s) == 100 * ValueOf(s[0]) + 10 * ValueOf(s[1]) + ValueOf(s[2])
  {
    hide DigitsValue;
    AppendDigit("", s[0]);
    AppendDigit([s[0]], s[1]);
    AppendDigit([s[0], s[1]], s[2]);
    assert "" + [s[0]] == [s[0]] && [s[0]] + [s[1]] == [s[0], s[1]] && [s[0], s[1]] + [s[2]] == s;
  }

  lemma AppendDigit(s: string, c: char)
    requires AllDigits(s) && IsDigit(c)
    ensures AllDigits(s + [c]) && DigitsValue(s + [c]) == 10 * DigitsValue(s) + ValueOf(c)
    ensures DigitsValue("") == 0
  {
    assert (s + [c])[..|s|] == s;
  }

  // ---------- searching ----------

  predicate Matches(s: string, pattern: string, at: nat) {
    at + |pattern| <= |s| && s[at..at + |pattern|] == pattern
  }

  /** The first match at or after `from`; |s| stands for npos. */
  function Find(s: string, pattern: string, from: nat): (i: nat)
    requires pattern != "" && from <= |s|
    ensures from <= i <= |s|
    ensures i < |s| ==> Matches(s, pattern, i)
    ensures forall j :: from <= j < i ==> !Matches(s, pattern, j)
    decreases |s| - from
  {
    if from == |s| || Matches(s, pattern, from) then from else Find(s, pattern, from + 1)
  }

  /** The last match that starts before `end`; |s| stands for npos. */
  function FindLast(s: string, pattern: string, end: nat): (i: nat)
    requires pattern != "" && end <= |s|
    ensures i <= |s|
    ensures i < |s| ==> i < end && Matches(s, pattern, i) && forall j :: i < j < end ==> !Matches(s, pattern, j)
    ensures i == |s| ==> forall j :: 0 <= j < end ==> !Matches(s, pattern, j)
  {
    if end == 0 then |s| else if Matches(s, pattern, end - 1) then end - 1 else FindLast(s, pattern, end - 1)
  }

  lemma FindIs(s: string, pattern: string, from: nat, at: nat)
    requires pattern != "" && from <= at <= |s|
    requires at < |s| ==> Matches(s, pattern, at)
    requires forall j :: from <= j < at ==> !Matches(s, pattern, j)
    ensures Find(s, pattern, from) == at
  {
  }

  predicate Free(s: string, c: char) { forall k :: 0 <= k < |s| ==> s[k] != c }

  lemma MatchesOne(s: string, c: char, at: nat)
    ensures Matches(s, [c], at) <==> at < |s| && s[at] == c
  {
    if at < |s| {
      assert s[at..at + 1] == [s[at]];
    }
  }

  /** The first separator after a text without one is right behind it. */
  lemma FindAfter(a: string, b: string, c: string, mark: char)
    requires Free(b, mark)
    ensures Find(a + b + [mark] + c, [mark], |a|) == |a| + |b|
  {
    var s := a + b + [mark] + c;
    forall j | |a| <= j < |a| + |b| ensures !Matches(s, [mark], j) {
      MatchesOne(s, mark, j);
      assert s[j] == b[j - |a|];
    }
    MatchesOne(s, mark, |a| + |b|);
    FindIs(s, [mark], |a|, |a| + |b|);
  }

  // ---------- splitting ----------

  /** The fields between separators, empty ones dropped. */
  function Split(s: string): seq<string>
    decreases |s|
  {
    if s == "" then []
    else
      var end := Find(s, [SOH], 0);
      if end == |s| then [s]
      else (if end > 0 then [s[..end]] else []) + Split(s[end + 1..])
  }

  lemma SplitField(field: string, rest: string)
    requires field != "" && Free(field, SOH)
    ensures Split(field + [SOH] + rest) == [field] + Split(rest)
  {
    var s := field + [SOH] + rest;
    FindAfter("", field, rest, SOH);
    assert "" + field + [SOH] + rest == s;
    assert s[..|field|] == field && s[|field| + 1..] == rest;
  }

  function Fielded(fields: seq<string>): string {
    if fields == [] then "" else fields[0] + [SOH] + Fielded(fields[1..])
  }

  /** Splitting undoes writing fields one after the other. */
  lemma {:induction false} SplitUndoesFielded(fields: seq<string>)
    requires forall k :: 0 <= k < |fields| ==> fields[k] != "" && Free(fields[k], SOH)
    ensures Split(Fielded(fields)) == fields
    decreases |fields|
  {
    hide Split;
    if fields == [] {
      SplitNothing();
    } else {
      SplitUndoesFielded(fields[1..]);
      SplitField(fields[0], Fielded(fields[1..]));
    }
  }

  lemma SplitNothing()
    ensures Split("") == []
  {
  }

  lemma {:induction false} FieldedJoins(a: seq<string>, b: seq<string>)
    ensures Fielded(a + b) == Fielded(a) + Fielded(b)
    decreases |a|
  {
    if a == [] {
      assert a + b == b;
    } else {
      assert (a + b)[1..] == a[1..] + b;
      FieldedJoins(a[1..], b);
    }
  }

  method SplitFields(input: string) returns (fields: seq<string>)
    ensures fields == Split(input)
  {
    hide Find;
    fields := [];
    var start := 0;
    assert input[0..] == input;
    while start < |input|
      invariant start <= |input| && fields + Split(input[start..]) == Split(input)
      decreases |input| - start
    {
      var end := Find(input, [SOH], start);
      FindInRest(input, start);
      if end == |input| {
        fields := fields + [input[start..]];
        return;
      }
      if end > start {
        fields := fields + [input[start..end]];
      }
      assert input[start..][end - start + 1..] == input[end + 1..];
      start := end + 1;
    }
  }

  /** Searching on from a position is searching what is left. */
  lemma FindInRest(s: string, from: nat)
    requires from < |s|
    ensures Find(s, [SOH], from) - from == Find(s[from..], [SOH], 0)
    ensures s[from..][..Find(s, [SOH], from) - from] == s[from..Find(s, [SOH], from)]
  {
    hide Matches, Find;
    var at := Find(s, [SOH], from);
    forall j | 0 <= j <= at - from ensures Matches(s[from..], [SOH], j) == Matches(s, [SOH], from + j) {
      MatchesOne(s[from..], SOH, j);
      MatchesOne(s, SOH, from + j);
    }
    FindIs(s[from..], [SOH], 0, at - from);
  }
}
