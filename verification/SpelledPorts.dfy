/**
 How ports and lists of them are spelled (port.go): what every text denotes, byte by
 byte, and that the lists read and the lists printed are those.
 */
module SpelledPorts {
  import opened Ipfw
  import opened Lex
  import opened Numbers
  import opened Keywords
  import opened Ports
  import opened SpelledGroups

  // ------------------------------------------------------------------------ a port

  /** A piece of a port name: a byte, or a dash behind a backslash. */
  datatype Unit = Byte(c: char) | Dash

  /** A port as text: its pieces, and perhaps a backslash with nothing behind it. */
  datatype PortSpelling = PortSpelling(units: seq<Unit>, backslash: bool)

  predicate IsNameByte(c: char) {
    'a' <= c <= 'z' || 'A' <= c <= 'Z' || '0' <= c <= '9'
  }

  function UnitsText(units: seq<Unit>): string {
    if units == [] then ""
    else (match units[0] case Byte(c) => [c] case Dash => "\\-") + UnitsText(units[1..])
  }

  function TextOf(p: PortSpelling): string {
    UnitsText(p.units) + if p.backslash then "\\" else ""
  }

  predicate UnitsSpelled(units: seq<Unit>) {
    forall k :: 0 <= k < |units| && units[k].Byte? ==> IsNameByte(units[k].c)
  }

  predicate PortSpelled(p: PortSpelling) {
    UnitsSpelled(p.units) && TextOf(p) != ""
  }

  predicate Digits(t: string) {
    t != "" && forall k :: 0 <= k < |t| ==> '0' <= t[k] <= '9'
  }

  /** A digit before so many zeros. */
  function Worth(digit: nat, zeros: nat): nat {
    if zeros == 0 then digit else 10 * Worth(digit, zeros - 1)
  }

  /** The value of digits, place by place. */
  function Value(t: string): nat
    requires forall k :: 0 <= k < |t| ==> '0' <= t[k] <= '9'
  {
    if t == "" then 0 else Worth(t[0] as int - '0' as int, |t| - 1) + Value(t[1..])
  }

  /** The port a text denotes: a number of sixteen bits, or else a name. */
  function Denoted(t: string): Port {
    if Digits(t) && Value(t) <= 65535 then Port("", Value(t)) else Port(t, 0)
  }

  lemma {:induction false} ValueIsDecimal(t: string)
    requires AllDigits(t)
    ensures Value(t) == Decimal(t)
  {
    if t != "" {
      var last := |t| - 1;
      ValueIsDecimal(t[..last]);
      LastDigit(t);
    }
  }

  /** One more digit makes the others ten times as much. */
  lemma {:induction false} LastDigit(t: string)
    requires AllDigits(t) && t != ""
    ensures Value(t) == 10 * Value(t[..|t| - 1]) + Digit(t[|t| - 1])
  {
    var last := |t| - 1;
    if last == 0 {
      assert t[1..] == "" && t[..0] == "";
    } else {
      var rest, middle := t[1..], t[1..last];
      LastDigit(rest);
      assert rest[..last - 1] == middle == t[..last][1..];
    }
  }

  /** What a text denotes is decided as the reader does. */
  lemma DenotedIs(t: string)
    requires t != ""
    ensures Denoted(t) == if PlainNumber(t) then Port("", ParseUint(t, 0xffff).value.0) else Port(t, 0)
  {
    var n := DigitRun(t);
    if n == |t| {
      assert t[..n] == t;
      ValueIsDecimal(t);
    } else {
      assert !Digits(t);
    }
  }

  /** Names are the texts so spelled. */
  lemma {:induction false} UnitsAreName(units: seq<Unit>, backslash: bool)
    requires UnitsSpelled(units)
    ensures var t := TextOf(PortSpelling(units, backslash)); PortText(t) && EndsInBackslash(t) == backslash
    decreases |units|
  {
    var t := TextOf(PortSpelling(units, backslash));
    if units != [] {
      var rest := TextOf(PortSpelling(units[1..], backslash));
      UnitsAreName(units[1..], backslash);
      var n := if units[0].Dash? then 2 else 1;
      assert t[n..] == rest;
      assert rest != "" ==> t[|t| - 1] == rest[|rest| - 1];
    }
  }

  lemma {:induction false} NameHasUnits(t: string) returns (p: PortSpelling)
    requires PortText(t)
    ensures UnitsSpelled(p.units) && TextOf(p) == t
    decreases |t|
  {
    if t == "" || t == "\\" {
      p := PortSpelling([], t == "\\");
    } else {
      var n := if t[0] == '\\' then 2 else 1;
      var rest := NameHasUnits(t[n..]);
      p := PortSpelling([if n == 2 then Dash else Byte(t[0])] + rest.units, rest.backslash);
      assert p.units[1..] == rest.units;
      assert t == t[..n] + t[n..];
    }
  }

  /** What ends a port: anything but a byte of one, a dash only behind a whole piece. */
  predicate EndsPort(p: PortSpelling, rest: string) {
    rest == "" || (!IsNameByte(rest[0]) && rest[0] != '\\' && (rest[0] == '-' ==> !p.backslash))
  }

  lemma PortIsRead(p: PortSpelling, rest: string)
    requires PortSpelled(p) && EndsPort(p, rest)
    ensures ParsePort(TextOf(p) + rest) == Ok((Denoted(TextOf(p)), rest))
  {
    hide PortText, NameEnd, ParseUint, PlainNumber, Denoted, EndsInBackslash;
    var t := TextOf(p);
    UnitsAreName(p.units, p.backslash);
    NameEndOf(t, rest);
    assert (t + rest)[..|t|] == t && (t + rest)[|t|..] == rest;
    DenotedIs(t);
  }

  /** Nothing that could start a port. */
  lemma NoPortIsRead(s: string)
    requires s == "" || (!IsNameByte(s[0]) && s[0] != '\\')
    ensures ParsePort(s) == Err(Fail(ExpectedPort, s))
  {
  }

  /** A backslash escapes nothing but a dash. */
  lemma EscapeIsRefused(units: seq<Unit>, c: char, rest: string)
    requires UnitsSpelled(units) && (IsNameByte(c) || c == '\\')
    ensures ParsePort(UnitsText(units) + (['\\', c] + rest)) == Err(Fail(UnexpectedEscape, ['\\', c] + rest))
  {
    NameBreaks(units, c, rest);
  }

  lemma {:induction false} NameBreaks(units: seq<Unit>, c: char, rest: string)
    requires UnitsSpelled(units) && (IsNameByte(c) || c == '\\')
    ensures NameEnd(UnitsText(units) + (['\\', c] + rest)) == Err(|UnitsText(units)|)
    decreases |units|
  {
    hide NameEnd;
    var tail := ['\\', c] + rest;
    if units == [] {
      assert UnitsText(units) + tail == tail;
      EscapeBreaks(c, rest);
    } else {
      NameBreaks(units[1..], c, rest);
      PieceIsRead(units[0], UnitsText(units[1..]) + tail);
      var piece := match units[0] case Byte(b) => [b] case Dash => "\\-";
      assert UnitsText(units) + tail == piece + (UnitsText(units[1..]) + tail);
    }
  }

  lemma EscapeBreaks(c: char, rest: string)
    requires IsNameByte(c) || c == '\\'
    ensures NameEnd(['\\', c] + rest) == Err(0)
  {
  }

  lemma PieceIsRead(u: Unit, s: string)
    requires u.Byte? ==> IsNameByte(u.c)
    ensures match u
            case Byte(c) => NameEnd([c] + s) == Further(1, NameEnd(s))
            case Dash => NameEnd("\\-" + s) == Further(2, NameEnd(s))
  {
    match u
    case Byte(c) => assert ([c] + s)[1..] == s;
    case Dash => assert ("\\-" + s)[2..] == s;
  }

  // ---------------------------------------------------------------------- a range

  datatype RangeSpelling = Lone(port: PortSpelling) | Span(lo: PortSpelling, hi: PortSpelling)

  predicate RangeSpelled(r: RangeSpelling) {
    match r
    case Lone(port) => PortSpelled(port)
    case Span(lo, hi) => PortSpelled(lo) && PortSpelled(hi) && !lo.backslash
  }

  function RangeText(r: RangeSpelling): string {
    match r
    case Lone(port) => TextOf(port)
    case Span(lo, hi) => TextOf(lo) + "-" + TextOf(hi)
  }

  /** A port alone is a range of its own. */
  function RangeOf(r: RangeSpelling): PortRange {
    match r
    case Lone(port) => PortRange(Denoted(TextOf(port)), Denoted(TextOf(port)))
    case Span(lo, hi) => PortRange(Denoted(TextOf(lo)), Denoted(TextOf(hi)))
  }

  predicate EndsRange(r: RangeSpelling, rest: string) {
    match r
    case Lone(port) => EndsPort(port, rest) && !("-" <= rest)
    case Span(_, hi) => EndsPort(hi, rest)
  }

  lemma RangeIsRead(r: RangeSpelling, rest: string)
    requires RangeSpelled(r) && EndsRange(r, rest)
    ensures ParsePortRange(RangeText(r) + rest) == Ok((RangeOf(r), rest))
  {
    hide ParsePort, Denoted, PortSpelled, TextOf;
    match r
    case Lone(port) => PortIsRead(port, rest);
    case Span(lo, hi) =>
      var tail := "-" + (TextOf(hi) + rest);
      assert RangeText(r) + rest == TextOf(lo) + tail;
      PortIsRead(lo, tail);
      assert tail[1..] == TextOf(hi) + rest;
      PortIsRead(hi, rest);
  }

  /** A range starts with a byte of a port. */
  lemma RangeBegins(r: RangeSpelling)
    requires RangeSpelled(r)
    ensures RangeText(r) != "" && (IsNameByte(RangeText(r)[0]) || RangeText(r)[0] == '\\')
  {
  }

  // ----------------------------------------------------------------------- a list

  /** Ranges and what stands between them. */
  predicate ListSpelled(rs: seq<RangeSpelling>, gaps: seq<string>) {
    && rs != [] && |gaps| == |rs| - 1
    && (forall i :: 0 <= i < |rs| ==> RangeSpelled(rs[i]))
    && forall i :: 0 <= i < |gaps| ==> CommaGap(gaps[i])
  }

  function ListText(rs: seq<RangeSpelling>, gaps: seq<string>): string
    requires |gaps| == |rs| - 1
  {
    RangeText(rs[0]) + if |rs| == 1 then "" else "," + gaps[0] + ListText(rs[1..], gaps[1..])
  }

  /** What can follow a list: a text that does not go on with it, or the end of the line
      behind a last comma. */
  predicate EndsList(rs: seq<RangeSpelling>, tail: string, rest: string)
    requires rs != []
  {
    if tail == "" then EndsRange(rs[|rs| - 1], rest) && !("," <= rest)
    else tail[0] == ',' && CommaGap(tail[1..]) && (rest == "" || rest[0] == '\n')
  }

  /** How one range of a list is read, and what follows it. */
  lemma OneOfList(rs: seq<RangeSpelling>, gaps: seq<string>, tail: string, rest: string) returns (after: string)
    requires ListSpelled(rs, gaps) && EndsList(rs, tail, rest)
    ensures ParsePortRange(ListText(rs, gaps) + tail + rest) == Ok((RangeOf(rs[0]), after))
    ensures |rs| == 1 && tail == "" ==> after == rest && AfterComma(after).None?
    ensures |rs| == 1 && tail != "" ==> AfterComma(after) == Some(rest) && ListEnded(rest)
    ensures |rs| > 1 ==>
      var next := ListText(rs[1..], gaps[1..]) + tail + rest; AfterComma(after) == Some(next) && !ListEnded(next)
  {
    hide RangeSpelled, RangeText, RangeOf, ParsePortRange, AfterComma, ListEnded, EndsRange, ListText, CommaGap;
    if |rs| == 1 {
      after := LastOfList(rs, gaps, tail, rest);
    } else {
      var next := ListText(rs[1..], gaps[1..]) + tail + rest;
      after := "," + (gaps[0] + next);
      LaterBegin(rs[1..], gaps[1..], tail, rest);
      TextSplits(rs, gaps, tail, rest);
      CommaTakes(gaps[0], next);
      CommaEndsRange(rs[0], after);
    }
    RangeIsRead(rs[0], after);
  }

  lemma TextSplits(rs: seq<RangeSpelling>, gaps: seq<string>, tail: string, rest: string)
    requires |gaps| == |rs| - 1 > 0
    ensures ListText(rs, gaps) + tail + rest == RangeText(rs[0]) + ("," + (gaps[0] + (ListText(rs[1..], gaps[1..]) + tail + rest)))
  {
    hide RangeText;
    Regrouped(RangeText(rs[0]), ",", gaps[0], ListText(rs[1..], gaps[1..]), tail, rest);
  }

  lemma Regrouped(a: string, b: string, c: string, d: string, e: string, f: string)
    ensures a + (b + c + d) + e + f == a + (b + (c + (d + e + f)))
  {
    assert b + c + d + e + f == b + (c + (d + e + f));
  }

  lemma LaterBegin(rs: seq<RangeSpelling>, gaps: seq<string>, tail: string, rest: string)
    requires ListSpelled(rs, gaps)
    ensures var next := ListText(rs, gaps) + tail + rest;
            next != "" && (next[0] == '\\' || IsNameByte(next[0])) && !ListEnded(next)
  {
    hide RangeText, RangeSpelled;
    RangeBegins(rs[0]);
    assert (ListText(rs, gaps) + tail + rest)[0] == RangeText(rs[0])[0];
  }

  lemma LastOfList(rs: seq<RangeSpelling>, gaps: seq<string>, tail: string, rest: string) returns (after: string)
    requires ListSpelled(rs, gaps) && |rs| == 1 && EndsList(rs, tail, rest)
    ensures ListText(rs, gaps) + tail + rest == RangeText(rs[0]) + after && EndsRange(rs[0], after)
    ensures if tail == "" then after == rest && AfterComma(after).None? else AfterComma(after) == Some(rest) && ListEnded(rest)
  {
    hide RangeText, AfterComma, CommaGap, EndsRange;
    after := tail + rest;
    assert RangeText(rs[0]) + "" == RangeText(rs[0]);
    assert ListText(rs, gaps) + tail + rest == RangeText(rs[0]) + after;
    if tail == "" {
      assert after == rest;
      NoComma(rest);
    } else {
      CommaTakes(tail[1..], rest);
      assert after == "," + (tail[1..] + rest);
      CommaEndsRange(rs[0], after);
    }
  }

  lemma CommaEndsRange(r: RangeSpelling, after: string)
    requires "," <= after
    ensures EndsRange(r, after)
  {
  }

  function MatchesOf(rs: seq<RangeSpelling>, neg: bool): (ms: seq<PortMatch>)
    ensures |ms| == |rs| && forall i :: 0 <= i < |rs| ==> ms[i] == PortMatch(neg, RangeOf(rs[i]).lo, RangeOf(rs[i]).hi)
  {
    seq(|rs|, i requires 0 <= i < |rs| => PortMatch(neg, RangeOf(rs[i]).lo, RangeOf(rs[i]).hi))
  }

  /** A list is read range by range, up to the first that the state refuses. */
  lemma {:induction false} ListIsRead(
    rs: seq<RangeSpelling>, gaps: seq<string>, tail: string, rest: string, neg: bool,
    refuses: (seq<PortMatch>, PortMatch) -> bool, tokens: seq<PortMatch>, k: nat)
    requires ListSpelled(rs, gaps) && EndsList(rs, tail, rest) && TakesUpTo(refuses, tokens, MatchesOf(rs, neg), k)
    ensures PortList(ListText(rs, gaps) + tail + rest, neg, refuses, tokens) ==
            if k == |rs| then Parsed(tokens + MatchesOf(rs, neg), Ok(rest))
            else Parsed(tokens + MatchesOf(rs, neg)[..k], Err(Fail(StateFailure, ListText(rs[k..], gaps[k..]) + tail + rest)))
    decreases |rs|
  {
    hide ParsePortRange, ListText, RangeOf, TakesUpTo, AfterComma, ListEnded, EndsRange, RangeSpelled, CommaGap, MatchesOf;
    var after := OneOfList(rs, gaps, tail, rest);
    var ms := MatchesOf(rs, neg);
    TakesFirst(refuses, tokens, ms, k);
    if k == 0 {
      assert rs[0..] == rs && gaps[0..] == gaps && tokens + ms[..0] == tokens;
    } else if |rs| == 1 {
      HasTaken(refuses, tokens, ms, k);
      assert ms == [ms[0]];
    } else {
      FirstMatch(rs, neg);
      ListIsRead(rs[1..], gaps[1..], tail, rest, neg, refuses, tokens + [ms[0]], k - 1);
      HasTaken(refuses, tokens, ms, k);
      LaterOnes(tokens, ms, k);
      assert rs[1..][k - 1..] == rs[k..];
      assert k < |rs| ==> gaps[1..][k - 1..] == gaps[k..];
    }
  }

  lemma FirstMatch(rs: seq<RangeSpelling>, neg: bool)
    requires rs != []
    ensures MatchesOf(rs, neg)[1..] == MatchesOf(rs[1..], neg)
  {
  }

  /** A section is a list behind a `not`, or one that does not start with it. */
  lemma SectionIsRead(
    not: string, rs: seq<RangeSpelling>, gaps: seq<string>, tail: string, rest: string,
    refuses: (seq<PortMatch>, PortMatch) -> bool, tokens: seq<PortMatch>, k: nat)
    requires not == "" || ("not" <= not && |not| > 3 && Spaces(not[3..]))
    requires ListSpelled(rs, gaps) && EndsList(rs, tail, rest) && TakesUpTo(refuses, tokens, MatchesOf(rs, not != ""), k)
    requires var text := ListText(rs, gaps) + tail + rest;
             not == "" ==> !("not" <= text && |text| > 3 && (text[3] == ' ' || text[3] == '\t'))
    ensures PortSection(not + (ListText(rs, gaps) + tail + rest), refuses, tokens) ==
            if k == |rs| then Parsed(tokens + MatchesOf(rs, not != ""), Ok(rest))
            else Parsed(tokens + MatchesOf(rs, not != "")[..k], Err(Fail(StateFailure, ListText(rs[k..], gaps[k..]) + tail + rest)))
  {
    hide NotWS1, ListText, PortList, MatchesOf, TakesUpTo, EndsList;
    var text := ListText(rs, gaps) + tail + rest;
    LaterBegin(rs, gaps, tail, rest);
    if not == "" {
      NoNotIsRead(text);
      assert not + text == text;
    } else {
      NotIsRead(not[3..], text);
      assert not == "not" + not[3..];
    }
    ListIsRead(rs, gaps, tail, rest, not != "", refuses, tokens, k);
  }

  // --------------------------------------------------------------- what is printed

  /** The spelling the printer chooses: no zero in front of a number. */
  predicate Canonical(t: string) {
    Digits(t) && Value(t) <= 65535 ==> t == "0" || t[0] != '0'
  }

  lemma {:induction false} PrintHasNoZeros(n: nat)
    ensures Print(n) == "0" || Print(n)[0] != '0'
    ensures Print(n) == "0" <==> n == 0
    decreases n
  {
    if n >= 10 {
      PrintHasNoZeros(n / 10);
      assert Print(n)[0] == Print(n / 10)[0];
    }
  }

  lemma PrintedPortIs(port: Port) returns (p: PortSpelling)
    requires PrintPort(port).Ok?
    ensures PrintPort(port).value == TextOf(p) && PortSpelled(p) && Canonical(TextOf(p)) && Denoted(TextOf(p)) == port
    ensures p.backslash <==> EndsInBackslash(port.name)
  {
    hide PortText, TextOf, PortNameText, ParseUint;
    var t := PrintPort(port).value;
    PrintedPort(port);
    p := NameHasUnits(t);
    UnitsAreName(p.units, p.backslash);
    DenotedIs(t);
    if port.name == "" {
      PrintHasNoZeros(port.number);
    } else {
      NameIsNoNumber(port.name);
    }
  }

  lemma NameIsNoNumber(name: string)
    requires PortNameText(name)
    ensures !PlainNumber(name) && Denoted(name) == Port(name, 0) && Canonical(name)
  {
    DenotedIs(name);
  }

  /** The spelling of a range: the ends once when they are equal and no dash is forced. */
  lemma PrintedRangeIs(m: PortMatch, force: bool) returns (r: RangeSpelling)
    requires PrintRange(m, force).Ok?
    ensures PrintRange(m, force).value == RangeText(r) && RangeSpelled(r) && RangeOf(r) == PortRange(m.lo, m.hi)
    ensures r.Lone? <==> m.lo == m.hi && !force
    ensures CanonicalRange(r)
  {
    hide PrintPort, Denoted, TextOf, PortSpelled, Canonical;
    var lo := PrintedPortIs(m.lo);
    if m.lo == m.hi && !force {
      r := Lone(lo);
    } else {
      var hi := PrintedPortIs(m.hi);
      r := Span(lo, hi);
    }
  }

  predicate CanonicalRange(r: RangeSpelling) {
    match r case Lone(port) => Canonical(TextOf(port)) case Span(lo, hi) => Canonical(TextOf(lo)) && Canonical(TextOf(hi))
  }

  function NoGaps(n: nat): seq<string> { seq(n, _ => "") }

  lemma {:induction false} PrintedListIs(ms: seq<PortMatch>, force: bool) returns (rs: seq<RangeSpelling>)
    requires ms != [] && PrintList(ms, force).Ok?
    ensures |rs| == |ms| && ListSpelled(rs, NoGaps(|ms| - 1)) && PrintList(ms, force).value == ListText(rs, NoGaps(|ms| - 1))
    ensures forall i :: 0 <= i < |ms| ==>
      && RangeOf(rs[i]) == PortRange(ms[i].lo, ms[i].hi) && CanonicalRange(rs[i])
      && (rs[i].Lone? <==> ms[i].lo == ms[i].hi && !(i == 0 && force))
    decreases |ms|
  {
    hide PrintRange, RangeOf, RangeText, RangeSpelled, CanonicalRange;
    var first := PrintedRangeIs(ms[0], force);
    if |ms| == 1 {
      rs := [first];
      assert RangeText(first) + "" == RangeText(first);
    } else {
      var rest := PrintedListIs(ms[1..], false);
      rs := [first] + rest;
      assert rs[1..] == rest && NoGaps(|ms| - 1)[1..] == NoGaps(|ms| - 2);
      assert forall i :: 0 < i < |ms| ==> ms[i] == ms[1..][i - 1];
      assert ListText(rs, NoGaps(|ms| - 1)) == RangeText(first) + ("," + "" + ListText(rest, NoGaps(|ms| - 2)));
    }
  }

  /** The printed section: a `not` and one space, and the ranges with bare commas. Equal
      ends are written once, but for a first name that would read as something else. */
  lemma PrintedPortsAre(ms: seq<PortMatch>, side: Side) returns (rs: seq<RangeSpelling>)
    requires ms != [] && PrintPorts(ms, side).Ok?
    ensures |rs| == |ms| && ListSpelled(rs, NoGaps(|ms| - 1))
    ensures PrintPorts(ms, side).value == (if ms[0].neg then "not " else "") + ListText(rs, NoGaps(|ms| - 1))
    ensures forall i :: 0 <= i < |ms| ==>
      && ms[i] == PortMatch(ms[0].neg, RangeOf(rs[i]).lo, RangeOf(rs[i]).hi) && CanonicalRange(rs[i])
      && (rs[i].Lone? <==> ms[i].lo == ms[i].hi && !(i == 0 && ReadsAsWord(ms[0].lo.name, side)))
  {
    hide PrintList, CanonicalRange, RangeOf, ListSpelled, ListText, StartsOption;
    rs := PrintedListIs(ms, NeedsRange(ms[0].lo, side));
  }

  /** The keyword between the sides, a negation, or on the way to the options one of those. */
  predicate ReadsAsWord(name: string, side: Side) {
    name == "not" || name == "to" || (side == DestinationSide && StartsOption(name))
  }

  // ---------------------------------------------------------- what is not printed

  /** A port with both a name and a number is not printed, nor a name that is no text of
      a port or denotes a number. */
  lemma PortIsRefused(port: Port)
    ensures var named := port.name != "";
            var sound := (exists p :: PortSpelled(p) && TextOf(p) == port.name) && Denoted(port.name) == Port(port.name, 0);
            && (PrintPort(port) == Err(UnexpectedBody) <==> named && port.number != 0)
            && (PrintPort(port) == Err(InvalidName) <==> named && port.number == 0 && !sound)
            && (PrintPort(port).Ok? <==> !named || (port.number == 0 && sound))
  {
    hide PortText, TextOf, ParseUint, Denoted;
    if port.name != "" {
      NameIsSound(port.name);
    }
  }

  lemma NameIsSound(name: string)
    requires name != ""
    ensures PortNameText(name) <==> (exists p :: PortSpelled(p) && TextOf(p) == name) && Denoted(name) == Port(name, 0)
  {
    hide TextOf, PortText, PlainNumber, ParseUint, Denoted;
    DenotedIs(name);
    if PortText(name) {
      var p := NameHasUnits(name);
      assert PortSpelled(p);
    }
    forall p | PortSpelled(p) && TextOf(p) == name ensures PortText(name) {
      UnitsAreName(p.units, p.backslash);
    }
  }

  /** The first range that is not printed: what is written before it, and its error. */
  lemma {:induction false} RangesBreak(ms: seq<PortMatch>, force: bool) returns (k: nat)
    requires ms != [] && PrintList(ms, force).Err?
    ensures k < |ms| && forall j :: 0 <= j < k ==> PrintRange(ms[j], force && j == 0).Ok?
    ensures var r := PrintRange(ms[k], force && k == 0);
            && r.Err? && PrintList(ms, force) == Err(r.error) && (k > 0 ==> PrintList(ms[..k], force).Ok?)
            && PartOfList(ms, force) ==
                 (if k == 0 then "" else PrintList(ms[..k], force).value + ",") + PartOfRange(ms[k], force && k == 0)
    decreases |ms|
  {
    hide PrintRange, PartOfRange;
    k := 0;
    if PrintRange(ms[0], force).Ok? {
      var n := RangesBreak(ms[1..], false);
      k := n + 1;
      assert ms[..k][1..] == ms[1..][..n] && ms[..k][0] == ms[0];
    }
  }

  /** What is written of a range that is not printed: its first port and the dash, as far
      as they are sound. A backslash cannot stand before a dash. */
  lemma RangeBreaks(m: PortMatch, force: bool)
    requires PrintRange(m, force).Err?
    ensures var lo, hi := PrintPort(m.lo), PrintPort(m.hi);
            if lo.Err? then PrintRange(m, force) == lo && PartOfRange(m, force) == ""
            else if m.lo.name != "" && m.lo.name[|m.lo.name| - 1] == '\\' then
              PrintRange(m, force) == Err(InvalidName) && PartOfRange(m, force) == lo.value
            else hi.Err? && PrintRange(m, force) == hi && PartOfRange(m, force) == lo.value + "-"
  {
    hide PrintPort;
  }

  /** A section is not printed when its ranges differ in their negation, or when one of
      them is not. */
  lemma SectionIsRefused(ms: seq<PortMatch>, side: Side) returns (k: nat)
    requires ms != [] && PrintPorts(ms, side).Err?
    ensures k < |ms|
    ensures var not := if ms[0].neg then "not " else "";
            var force := ReadsAsWord(ms[0].lo.name, side);
            if exists i :: 0 <= i < |ms| && ms[i].neg != ms[0].neg then
              PrintPorts(ms, side) == Err(InconsistentNegation) && PartOfPorts(ms, side) == ""
            else
              && PrintRange(ms[k], force && k == 0).Err? && PrintPorts(ms, side) == Err(PrintRange(ms[k], force && k == 0).error)
              && (k > 0 ==> PrintList(ms[..k], force).Ok?)
              && PartOfPorts(ms, side) ==
                   not + ((if k == 0 then "" else PrintList(ms[..k], force).value + ",") + PartOfRange(ms[k], force && k == 0))
  {
    hide PrintRange, PartOfRange, PrintList, PartOfList, StartsOption;
    k := 0;
    if OneNegation(ms) {
      k := RangesBreak(ms, NeedsRange(ms[0].lo, side));
    }
  }
}
