/**
 Reading a dump of the log back. Numbers are read in decimal; the text of a call is read from both of its
 ends, so that its format may be anything; and the calls of a dump are told apart by their lines.
 */
module LogReader {
  import opened Basics
  import opened LogSlot
  import opened RingLog

  /// ## Numbers

  predicate IsDigit(c: char) {
    '0' <= c <= '9'
  }

  predicate AllDigits(s: string) {
    forall i :: 0 <= i < |s| ==> IsDigit(s[i])
  }

  function Parse(s: string): nat
    requires AllDigits(s)
  {
    if s == "" then 0 else 10 * Parse(s[..|s| - 1]) + (s[|s| - 1] as int - '0' as int)
  }

  lemma DigitIs(n: nat)
    requires n < 10
    ensures var c := "0123456789"[n]; IsDigit(c) && c as int - '0' as int == n
  {
  }

  // A number is written in digits, without a leading zero unless it is zero, and read back as it was.
  lemma {:induction false} DecimalIsRead(n: nat)
    ensures var s := Decimal(n); s != "" && AllDigits(s) && Parse(s) == n && (s[0] == '0' <==> n == 0)
  {
    DigitIs(n % 10);
    if n >= 10 {
      DecimalIsRead(n / 10);
      var s := Decimal(n);
      assert s[..|s| - 1] == Decimal(n / 10);
    } else {
      assert Decimal(n)[..0] == "";
    }
  }

  /// ## The ends of a text

  predicate InList(c: char, commas: bool) {
    IsDigit(c) || (commas && c == ',')
  }

  predicate Listed(s: string, commas: bool) {
    forall i :: 0 <= i < |s| ==> InList(s[i], commas)
  }

  // How many characters at the end of a text are digits, or digits and commas.
  function Tail(s: string, commas: bool): (n: nat)
    ensures n <= |s|
  {
    if s == "" || !InList(s[|s| - 1], commas) then 0 else Tail(s[..|s| - 1], commas) + 1
  }

  // How many characters at the start of a text are digits.
  function Lead(s: string): (n: nat)
    ensures n <= |s|
  {
    if s == "" || !IsDigit(s[0]) then 0 else Lead(s[1..]) + 1
  }

  lemma TailMore(s: string, c: char, commas: bool)
    requires InList(c, commas)
    ensures Tail(s + [c], commas) == Tail(s, commas) + 1
  {
    assert (s + [c])[..|s|] == s;
  }

  lemma {:induction false} TailIs(a: string, b: string, commas: bool)
    requires Listed(b, commas) && (a == "" || !InList(a[|a| - 1], commas))
    ensures Tail(a + b, commas) == |b|
  {
    if b == "" {
      assert a + b == a;
    } else {
      var front, last := b[..|b| - 1], b[|b| - 1];
      TailIs(a, front, commas);
      TailMore(a + front, last, commas);
      assert a + b == (a + front) + [last];
    }
  }

  lemma {:induction false} LeadIs(a: string, b: string)
    requires AllDigits(a) && (b == "" || !IsDigit(b[0]))
    ensures Lead(a + b) == |a|
  {
    if a == "" {
      assert a + b == b;
    } else {
      LeadIs(a[1..], b);
      assert (a + b)[1..] == a[1..] + b;
    }
  }

  predicate Ends(s: string, end: string) {
    |end| <= |s| && s[|s| - |end|..] == end
  }

  predicate Starts(s: string, start: string) {
    start <= s
  }

  lemma EndOf(a: string, b: string)
    ensures Ends(a + b, b) && (a + b)[..|a + b| - |b|] == a
  {
  }

  lemma StartOf(a: string, b: string)
    ensures Starts(a + b, a) && (a + b)[|a|..] == b
  {
  }

  /// ## A list of numbers

  predicate IsList(s: string) {
    Listed(s, true)
  }

  // The numbers of a list, from its end; without any it is empty.
  function ParseList(s: string): (r: seq<nat>)
    decreases |s|
  {
    var n := Tail(s, false);
    TailDigits(s);
    if n == |s| then if s == "" then [] else [Parse(s)]
    else ParseList(s[..|s| - n - 1]) + [Parse(s[|s| - n..])]
  }

  lemma {:induction false} TailDigits(s: string)
    ensures AllDigits(s[|s| - Tail(s, false)..])
  {
    if s != "" && IsDigit(s[|s| - 1]) {
      var n := Tail(s, false);
      TailDigits(s[..|s| - 1]);
      assert s[|s| - n..] == s[..|s| - 1][|s| - n..] + [s[|s| - 1]];
    }
  }

  lemma {:induction false} ListIsRead(vals: seq<nat>)
    ensures IsList(Joined(Decimals(vals), ",")) && ParseList(Joined(Decimals(vals), ",")) == vals
  {
    if vals != [] {
      var n := |vals| - 1;
      DecimalsSplit(vals);
      if n == 0 {
        OneIsRead(vals);
      } else {
        ListIsRead(vals[..n]);
        LastIsRead(Joined(Decimals(vals[..n]), ","), vals);
      }
    }
  }

  lemma DecimalsSplit(vals: seq<nat>)
    requires vals != []
    ensures var n := |vals| - 1;
      Joined(Decimals(vals), ",")
        == if n == 0 then Decimal(vals[n]) else Joined(Decimals(vals[..n]), ",") + "," + Decimal(vals[n])
  {
    var n := |vals| - 1;
    assert Decimals(vals)[..n] == Decimals(vals[..n]);
  }

  lemma OneIsRead(vals: seq<nat>)
    requires |vals| == 1
    ensures IsList(Decimal(vals[0])) && ParseList(Decimal(vals[0])) == vals
  {
    var s := Decimal(vals[0]);
    DecimalIsRead(vals[0]);
    TailIs("", s, false);
    assert "" + s == s;
  }

  // The last of several numbers, behind the others and a comma.
  lemma LastIsRead(front: string, vals: seq<nat>)
    requires |vals| > 1 && IsList(front) && ParseList(front) == vals[..|vals| - 1]
    ensures var s := front + "," + Decimal(vals[|vals| - 1]); IsList(s) && ParseList(s) == vals
  {
    var last := Decimal(vals[|vals| - 1]);
    var s := front + "," + last;
    DecimalIsRead(vals[|vals| - 1]);
    TailIs(front + ",", last, false);
    assert s[..|s| - |last| - 1] == front && s[|s| - |last|..] == last;
    assert vals == vals[..|vals| - 1] + [vals[|vals| - 1]];
  }

  /// ## One call

  datatype Parsed = Parsed(index: nat, format: string, time: nat, vals: seq<nat>)

  const BEFORE_INDEX := "{ \"index\": "
  const BEFORE_FORMAT := ", \"format\": \""
  const BEFORE_TIME := "\", \"timestamp\": "
  const BEFORE_VALS := ", \"vals\": ["
  const AFTER_VALS := "]}"

  // The text without its last list of numbers, and that list.
  function CutList(s: string, commas: bool): (r: (string, string))
    ensures r.0 + r.1 == s
  {
    var n := |s| - Tail(s, commas);
    (s[..n], s[n..])
  }

  function CutEnd(s: string, end: string): Option<string> {
    if Ends(s, end) then Some(s[..|s| - |end|]) else None
  }

  // What is before the values, and the values.
  function ReadVals(s: string): Option<(string, seq<nat>)> {
    match CutEnd(s, AFTER_VALS)
    case None => None
    case Some(inner) =>
      var (front, list) := CutList(inner, true);
      match CutEnd(front, BEFORE_VALS)
      case None => None
      case Some(rest) => Some((rest, ParseList(list)))
  }

  // What is before the time, and the time.
  function ReadTime(s: string): Option<(string, nat)> {
    var (front, number) := CutList(s, false);
    TailDigits(s);
    match CutEnd(front, BEFORE_TIME)
    case None => None
    case Some(rest) => if number == "" then None else Some((rest, Parse(number)))
  }

  // The index and the format at the start.
  function ReadStart(s: string): Option<(nat, string)> {
    if !Starts(s, BEFORE_INDEX) then None
    else
      var rest := s[|BEFORE_INDEX|..];
      var n := Lead(rest);
      LeadDigits(rest);
      if n == 0 || !Starts(rest[n..], BEFORE_FORMAT) then None
      else Some((Parse(rest[..n]), rest[n..][|BEFORE_FORMAT|..]))
  }

  lemma {:induction false} LeadDigits(s: string)
    ensures AllDigits(s[..Lead(s)])
  {
    if s != "" && IsDigit(s[0]) {
      var n := Lead(s);
      LeadDigits(s[1..]);
      assert s[..n] == [s[0]] + s[1..][..n - 1];
    }
  }

  // The reader of the text of a call.
  function ReadCall(s: string): Option<Parsed> {
    match ReadVals(s)
    case None => None
    case Some((front, vals)) =>
      match ReadTime(front)
      case None => None
      case Some((start, time)) =>
        match ReadStart(start)
        case None => None
        case Some((index, format)) => Some(Parsed(index, format, time, vals))
  }

  lemma ValsAreRead(front: string, vals: seq<nat>)
    ensures ReadVals(front + BEFORE_VALS + Joined(Decimals(vals), ",") + AFTER_VALS) == Some((front, vals))
  {
    var list := Joined(Decimals(vals), ",");
    var inner := front + BEFORE_VALS + list;
    EndOf(inner, AFTER_VALS);
    ListIsRead(vals);
    EndsWithout(front, BEFORE_VALS, true);
    TailIs(front + BEFORE_VALS, list, true);
    EndOf(front + BEFORE_VALS, list);
    EndOf(front, BEFORE_VALS);
  }

  // The last character of two joined texts is that of the second.
  lemma EndsWithout(a: string, b: string, commas: bool)
    requires b != "" && !InList(b[|b| - 1], commas)
    ensures var s := a + b; s != "" && !InList(s[|s| - 1], commas)
  {
    assert (a + b)[|a + b| - 1] == b[|b| - 1];
  }

  lemma TimeIsRead(front: string, time: nat)
    ensures ReadTime(front + BEFORE_TIME + Decimal(time)) == Some((front, time))
  {
    var number := Decimal(time);
    DecimalIsRead(time);
    EndsWithout(front, BEFORE_TIME, false);
    TailIs(front + BEFORE_TIME, number, false);
    EndOf(front + BEFORE_TIME, number);
    EndOf(front, BEFORE_TIME);
  }

  lemma StartIsRead(index: nat, format: string)
    ensures ReadStart(BEFORE_INDEX + Decimal(index) + BEFORE_FORMAT + format) == Some((index, format))
  {
    var number := Decimal(index);
    var behind := BEFORE_FORMAT + format;
    DecimalIsRead(index);
    assert BEFORE_INDEX + number + BEFORE_FORMAT + format == BEFORE_INDEX + (number + behind);
    StartOf(BEFORE_INDEX, number + behind);
    LeadIs(number, behind);
    StartOf(number, behind);
    StartOf(BEFORE_FORMAT, format);
  }

  // Whatever the format is, the text of a call is read back as its index, format, time and values.
  lemma JsonIsRead(index: nat, format: string, time: nat, vals: seq<nat>)
    ensures ReadCall(Json(index, format, time, vals)) == Some(Parsed(index, format, time, vals))
  {
    var start := BEFORE_INDEX + Decimal(index) + BEFORE_FORMAT + format;
    var front := start + BEFORE_TIME + Decimal(time);
    JsonIs(index, format, time, vals);
    ValsAreRead(front, vals);
    TimeIsRead(start, time);
    StartIsRead(index, format);
  }

  lemma JsonIs(index: nat, format: string, time: nat, vals: seq<nat>)
    ensures Json(index, format, time, vals)
      == BEFORE_INDEX + Decimal(index) + BEFORE_FORMAT + format + BEFORE_TIME + Decimal(time)
        + BEFORE_VALS + Joined(Decimals(vals), ",") + AFTER_VALS
  {
  }

  /// ## The dump

  predicate OneLine(s: string) {
    forall i :: 0 <= i < |s| ==> s[i] != '\n'
  }

  // The length of the last line of a text.
  function LastLine(s: string): (n: nat)
    ensures n <= |s|
  {
    if s == "" || s[|s| - 1] == '\n' then 0 else LastLine(s[..|s| - 1]) + 1
  }

  lemma LastLineMore(s: string, c: char)
    requires c != '\n'
    ensures LastLine(s + [c]) == LastLine(s) + 1
  {
    assert (s + [c])[..|s|] == s;
  }

  lemma {:induction false} LastLineIs(a: string, b: string)
    requires OneLine(b) && (a == "" || a[|a| - 1] == '\n')
    ensures LastLine(a + b) == |b|
  {
    if b == "" {
      assert a + b == a;
    } else {
      var front, last := b[..|b| - 1], b[|b| - 1];
      LastLineIs(a, front);
      LastLineMore(a + front, last);
      assert a + b == (a + front) + [last];
    }
  }

  const BETWEEN := ",\n"

  // The lines of a text, all but the last of which end with a comma.
  function ReadLines(s: string): seq<string>
    decreases |s|
  {
    var n := LastLine(s);
    if s == "" then []
    else if |s| < n + |BETWEEN| then [s]
    else ReadLines(s[..|s| - n - |BETWEEN|]) + [s[|s| - n..]]
  }

  predicate EachOneLine(texts: seq<string>) {
    forall i :: 0 <= i < |texts| ==> OneLine(texts[i]) && texts[i] != ""
  }

  lemma OneLineIsRead(s: string)
    requires OneLine(s) && s != ""
    ensures ReadLines(s) == [s]
  {
    LastLineIs("", s);
    assert "" + s == s;
  }

  lemma MoreLinesAreRead(front: string, last: string)
    requires OneLine(last)
    ensures ReadLines(front + BETWEEN + last) == ReadLines(front) + [last]
  {
    var s := front + BETWEEN + last;
    LastLineIs(front + BETWEEN, last);
    assert s[..|s| - |last| - |BETWEEN|] == front && s[|s| - |last|..] == last;
  }

  lemma {:induction false} LinesAreRead(texts: seq<string>)
    requires EachOneLine(texts)
    ensures ReadLines(Joined(texts, BETWEEN)) == texts
  {
    if texts != [] {
      var n := |texts| - 1;
      assert texts == texts[..n] + [texts[n]];
      if n == 0 {
        OneLineIsRead(texts[0]);
      } else {
        LinesAreRead(texts[..n]);
        MoreLinesAreRead(Joined(texts[..n], BETWEEN), texts[n]);
      }
    }
  }

  const OPENING := "{\"logs\":[\n"
  const CLOSING := "\n]}"

  // The reader of a dump.
  function ReadDump(s: string): Option<seq<Option<Parsed>>> {
    match CutEnd(s, CLOSING)
    case None => None
    case Some(front) =>
      if !Starts(front, OPENING) then None
      else
        var lines := ReadLines(front[|OPENING|..]);
        Some(seq(|lines|, i requires 0 <= i < |lines| => ReadCall(lines[i])))
  }

  lemma JoinedOneLine(a: string, b: string)
    requires OneLine(a) && OneLine(b)
    ensures OneLine(a + b)
  {
  }

  lemma NumbersOneLine(n: nat, vals: seq<nat>)
    ensures OneLine(Decimal(n)) && OneLine(Joined(Decimals(vals), ","))
  {
    DecimalIsRead(n);
    ListIsRead(vals);
  }

  lemma JsonOneLine(index: nat, format: string, time: nat, vals: seq<nat>)
    requires OneLine(format)
    ensures OneLine(Json(index, format, time, vals)) && Json(index, format, time, vals) != ""
  {
    NumbersOneLine(index, vals);
    NumbersOneLine(time, []);
    var start := BEFORE_INDEX + Decimal(index) + BEFORE_FORMAT + format;
    JoinedOneLine(BEFORE_INDEX + Decimal(index) + BEFORE_FORMAT, format);
    JoinedOneLine(start + BEFORE_TIME, Decimal(time));
    JoinedOneLine(start + BEFORE_TIME + Decimal(time) + BEFORE_VALS, Joined(Decimals(vals), ","));
    JsonIs(index, format, time, vals);
  }

  // What a call is in a dump: its values are those that fitted into its slot.
  function ParsedOf(c: Call, esz: nat): Parsed
    requires esz >= HEADER
  {
    Parsed(c.index, c.entry.format, c.time, Shown(c.vals, esz))
  }

  lemma {:induction false} TextsAt(calls: seq<Call>, esz: nat, i: nat)
    requires esz >= HEADER && i < |calls|
    ensures Texts(calls, esz)[i] == Text(calls[i], esz)
  {
    if i < |calls| - 1 {
      TextsAt(calls[..|calls| - 1], esz, i);
    }
  }

  lemma TextsOneLine(calls: seq<Call>, esz: nat)
    requires esz >= HEADER && forall i :: 0 <= i < |calls| ==> OneLine(calls[i].entry.format)
    ensures EachOneLine(Texts(calls, esz))
  {
    forall i | 0 <= i < |calls| ensures OneLine(Texts(calls, esz)[i]) && Texts(calls, esz)[i] != "" {
      var c := calls[i];
      TextsAt(calls, esz, i);
      JsonOneLine(c.index, c.entry.format, c.time, Shown(c.vals, esz));
    }
  }

  // The lines between the ends of a dump.
  lemma BodyIsRead(texts: seq<string>)
    requires EachOneLine(texts)
    ensures ReadDump(OPENING + Joined(texts, BETWEEN) + CLOSING)
      == Some(seq(|texts|, i requires 0 <= i < |texts| => ReadCall(texts[i])))
  {
    var body := Joined(texts, BETWEEN);
    EndOf(OPENING + body, CLOSING);
    StartOf(OPENING, body);
    LinesAreRead(texts);
  }

  lemma CallsAreRead(calls: seq<Call>, esz: nat)
    requires esz >= HEADER && forall i :: 0 <= i < |calls| ==> OneLine(calls[i].entry.format)
    ensures var r := ReadDump(OPENING + Joined(Texts(calls, esz), BETWEEN) + CLOSING);
      && r.Some? && |r.value| == |calls|
      && forall i :: 0 <= i < |calls| ==> r.value[i] == Some(ParsedOf(calls[i], esz))
  {
    var texts := Texts(calls, esz);
    TextsOneLine(calls, esz);
    BodyIsRead(texts);
    forall i | 0 <= i < |calls| ensures ReadCall(texts[i]) == Some(ParsedOf(calls[i], esz)) {
      CallIsRead(calls, esz, i);
    }
  }

  lemma CallIsRead(calls: seq<Call>, esz: nat, i: nat)
    requires esz >= HEADER && i < |calls|
    ensures ReadCall(Texts(calls, esz)[i]) == Some(ParsedOf(calls[i], esz))
  {
    var c := calls[i];
    TextsAt(calls, esz, i);
    JsonIsRead(c.index, c.entry.format, c.time, Shown(c.vals, esz));
  }

  // A dump is read back as the last calls, as many as the ring has slots, oldest first, each with its
  // own index, format, time and values, as long as no format breaks the line.
  lemma DumpIsRead(calls: seq<Call>, esz: nat, emax: nat)
    requires esz >= HEADER && forall i :: 0 <= i < |calls| ==> OneLine(calls[i].entry.format)
    ensures var r := ReadDump(Dump(calls, esz, emax));
      && r.Some? && |r.value| == Min(|calls|, emax)
      && forall i :: 0 <= i < |r.value| ==> r.value[i] == Some(ParsedOf(calls[|calls| - |r.value| + i], esz))
  {
    CallsAreRead(calls[Oldest(|calls|, emax)..], esz);
  }
}
