/**
 Port sections: how they are read (port.go) and how they are printed (format.go).

 Names are kept as written. Their dashes are escaped, so that a bare dash can only
 separate the ends of a range.
 */
module Ports {
  import opened Ipfw
  import opened Numbers
  import opened Lex
  import opened Keywords

  predicate IsPortByte(c: char) {
    'a' <= c <= 'z' || 'A' <= c <= 'Z' || '0' <= c <= '9'
  }

  predicate IsWordByte(c: char) {
    IsPortByte(c) || c == '-' || c == '\\'
  }

  predicate EndsInBackslash(t: string) {
    t != "" && t[|t| - 1] == '\\'
  }

  // ------------------------------------------------------------------ port names

  /** The bytes of a name: port bytes, escaped dashes and at most a last backslash. */
  predicate PortText(t: string) {
    || t == ""
    || (IsPortByte(t[0]) && PortText(t[1..]))
    || (t[0] == '\\' && (|t| == 1 || (t[1] == '-' && PortText(t[2..]))))
  }

  /** Whether what follows a name does not go on with it. */
  predicate EndsName(t: string, rest: string) {
    rest == "" || !IsWordByte(rest[0]) || (rest[0] == '-' && !EndsInBackslash(t))
  }

  /** Where the name at the front of a text ends, or the backslash that escapes
      something else than a dash. */
  function NameEnd(s: string): (r: Result<nat, nat>)
    ensures r.Ok? ==> r.value <= |s|
    ensures r.Err? ==> r.error + 1 < |s| && s[r.error] == '\\' && IsWordByte(s[r.error + 1]) && s[r.error + 1] != '-'
  {
    if s == "" || s[0] == '-' || !IsWordByte(s[0]) then Ok(0)
    else if s[0] != '\\' then Further(1, NameEnd(s[1..]))
    else if |s| == 1 || !IsWordByte(s[1]) then Ok(1)
    else if s[1] == '-' then Further(2, NameEnd(s[2..]))
    else Err(0)
  }

  function Further(n: nat, r: Result<nat, nat>): Result<nat, nat> {
    match r
    case Ok(k) => Ok(n + k)
    case Err(k) => Err(n + k)
  }

  /** A name reads up to what ends it. */
  lemma {:induction false} NameEndOf(t: string, rest: string)
    requires PortText(t) && EndsName(t, rest)
    ensures NameEnd(t + rest) == Ok(|t|)
  {
    if t == "" {
      assert t + rest == rest;
    } else if t != "\\" {
      var n := if t[0] == '\\' then 2 else 1;
      assert (t + rest)[n..] == t[n..] + rest;
      NameEndOf(t[n..], rest);
    } else if rest != "" {
      assert (t + rest)[1] == rest[0];
    }
  }

  /** What is read is a name and what ends it. */
  lemma {:induction false} NameEndIs(s: string)
    requires NameEnd(s).Ok?
    ensures var n := NameEnd(s).value; PortText(s[..n]) && EndsName(s[..n], s[n..])
  {
    if s != "" && s[0] != '-' && IsWordByte(s[0]) && !(s[0] == '\\' && (|s| == 1 || !IsWordByte(s[1]))) {
      var k := if s[0] == '\\' then 2 else 1;
      NameEndIs(s[k..]);
      var n := NameEnd(s).value;
      assert s[..n][k..] == s[k..][..n - k] && s[n..] == s[k..][n - k..];
    }
  }

  predicate PlainNumber(t: string) {
    var number := ParseUint(t, 0xffff);
    number.Some? && number.value.1 == ""
  }

  /** Not empty, well escaped and not a number that fits. */
  predicate PortNameText(t: string) {
    t != "" && PortText(t) && !PlainNumber(t)
  }

  method IsPortNameText(text: string) returns (r: bool)
    ensures r == PortNameText(text)
  {
    var idx := 0;
    while idx < |text|
      invariant 0 <= idx
      invariant PortText(text) <==> idx >= |text| || PortText(text[idx..])
    {
      if IsPortByte(text[idx]) {
        idx := idx + 1;
      } else if text[idx] == '\\' {
        if idx + 1 < |text| && text[idx + 1] != '-' {
          return false;
        }
        idx := idx + 2;
      } else {
        return false;
      }
    }
    var number, after, ok := ReadUint(text, 0xffff);
    return text != "" && !(ok && after == "");
  }

  // ---------------------------------------------------------------------- reading

  /** The port at the front of a text and what follows it. */
  function ParsePort(s: string): (r: Result<(Port, string), Fail>)
    ensures r.Ok? ==> |r.value.1| < |s|
  {
    match NameEnd(s)
    case Err(at) => Err(Fail(UnexpectedEscape, s[at..]))
    case Ok(n) =>
      if n == 0 then Err(Fail(ExpectedPort, s))
      else if PlainNumber(s[..n]) then
        Ok((Port("", ParseUint(s[..n], 0xffff).value.0), s[n..]))
      else Ok((Port(s[..n], 0), s[n..]))
  }

  /** One more byte of a name, or an escaped dash. */
  lemma NameGoesOn(s: string, idx: nat)
    requires idx < |s|
    ensures IsPortByte(s[idx]) ==> NameFrom(s, idx) == NameFrom(s, idx + 1)
    ensures "\\-" <= s[idx..] ==> NameFrom(s, idx) == NameFrom(s, idx + 2)
  {
    assert s[idx..][1..] == s[idx + 1..];
    if "\\-" <= s[idx..] {
      assert s[idx..][2..] == s[idx + 2..];
    }
  }

  /** The end of a name, the part before an index being read. */
  function NameFrom(s: string, idx: nat): Result<nat, nat>
    requires idx <= |s|
  {
    Further(idx, NameEnd(s[idx..]))
  }

  lemma NameStops(s: string, idx: nat)
    requires idx <= |s|
    ensures idx == |s| || s[idx] == '-' || !IsWordByte(s[idx]) ==> NameFrom(s, idx) == Ok(idx)
    ensures idx < |s| && s[idx] == '\\' && (idx + 1 == |s| || !IsWordByte(s[idx + 1])) ==> NameFrom(s, idx) == Ok(idx + 1)
    ensures idx + 1 < |s| && s[idx] == '\\' && IsWordByte(s[idx + 1]) && s[idx + 1] != '-' ==> NameFrom(s, idx) == Err(idx)
  {
  }

  /** Computes `ParsePort` byte by byte, a flag remembering a backslash that has not
      met its dash yet. */
  method ReadPort(s: string) returns (r: Result<(Port, string), Fail>)
    ensures r == ParsePort(s)
  {
    hide NameEnd, NameFrom, ParseUint;
    assert NameFrom(s, 0) == NameEnd(s) by { WholeName(s); }
    var idx, escaped := 0, false;
    while idx < |s|
      invariant 0 <= idx <= |s|
      invariant escaped ==> idx > 0 && s[idx - 1] == '\\' && NameEnd(s) == NameFrom(s, idx - 1)
      invariant !escaped ==> NameEnd(s) == NameFrom(s, idx)
    {
      var c := s[idx];
      if !IsPortByte(c) && c != '-' && c != '\\' {
        break;
      }
      if escaped {
        if c != '-' {
          NameStops(s, idx - 1);
          return Err(Fail(UnexpectedEscape, s[idx - 1..]));
        }
        NameGoesOn(s, idx - 1);
        escaped := false;
      } else if c == '\\' {
        escaped := true;
      } else if c == '-' {
        break;
      } else {
        NameGoesOn(s, idx);
      }
      idx := idx + 1;
    }
    NameStops(s, if escaped then idx - 1 else idx);
    assert NameEnd(s) == Ok(idx);
    var name, rest := s[..idx], s[idx..];
    if name == "" {
      return Err(Fail(ExpectedPort, s));
    }
    var number, after, ok := ReadUint(name, 0xffff);
    if ok && after == "" {
      return Ok((Port("", number), rest));
    }
    return Ok((Port(name, 0), rest));
  }

  lemma WholeName(s: string)
    ensures NameFrom(s, 0) == NameEnd(s)
  {
    assert s[0..] == s;
  }

  function ParsePortRange(s: string): (r: Result<(PortRange, string), Fail>)
    ensures r.Ok? ==> |r.value.1| < |s|
  {
    match ParsePort(s)
    case Err(e) => Err(e)
    case Ok((lo, rest)) =>
      if !("-" <= rest) then Ok((PortRange(lo, lo), rest))
      else match ParsePort(rest[1..])
        case Err(e) => Err(e)
        case Ok((hi, end)) => Ok((PortRange(lo, hi), end))
  }

  method ReadPortRange(s: string) returns (r: Result<(PortRange, string), Fail>)
    ensures r == ParsePortRange(s)
  {
    var low := ReadPort(s);
    if low.Err? {
      return Err(low.error);
    }
    var (lo, rest) := low.value;
    if !("-" <= rest) {
      return Ok((PortRange(lo, lo), rest));
    }
    var high := ReadPort(rest[1..]);
    if high.Err? {
      return Err(high.error);
    }
    return Ok((PortRange(lo, high.value.0), high.value.1));
  }

  function MatchOf(neg: bool, range: PortRange): PortMatch { PortMatch(neg, range.lo, range.hi) }

  /** The comma list of ranges at the front of a text. */
  function PortList(s: string, neg: bool, refuses: (seq<PortMatch>, PortMatch) -> bool, tokens: seq<PortMatch>)
    : Parsed<PortMatch>
    decreases |s|
  {
    match ParsePortRange(s)
    case Err(e) => Parsed(tokens, Err(e))
    case Ok((range, rest)) =>
      if refuses(tokens, MatchOf(neg, range)) then Parsed(tokens, Err(Fail(StateFailure, s)))
      else
        var more := tokens + [MatchOf(neg, range)];
        match AfterComma(rest)
        case None => Parsed(more, Ok(rest))
        case Some(next) => if ListEnded(next) then Parsed(more, Ok(next)) else PortList(next, neg, refuses, more)
  }

  /** A port section: a list negated as a whole. */
  function PortSection(s: string, refuses: (seq<PortMatch>, PortMatch) -> bool, tokens: seq<PortMatch>): Parsed<PortMatch> {
    var (rest, neg) := NotWS1(s);
    PortList(rest, neg, refuses, tokens)
  }

  /** Leaves in the state the tokens of `PortSection`, which on a failure are those of
      the ranges before it. */
  method ParsePorts(s: string, sink: Sink<PortMatch>) returns (rest: string, failure: Option<Fail>)
    modifies sink
    ensures Parsed(sink.tokens, Outcome(rest, failure)) == PortSection(s, sink.refuses, old(sink.tokens))
    ensures failure.Some? ==> rest == s
  {
    var (list, neg) := NotWS1(s);
    rest := list;
    while true
      invariant PortList(rest, neg, sink.refuses, sink.tokens) == PortSection(s, sink.refuses, old(sink.tokens))
      decreases |rest|
    {
      var range := ReadPortRange(rest);
      if range.Err? {
        return s, Some(range.error);
      }
      var taken := sink.Push(MatchOf(neg, range.value.0));
      if !taken {
        return s, Some(Fail(StateFailure, rest));
      }
      var after := range.value.1;
      if !("," <= after) {
        return after, None;
      }
      rest := SkipCommaSpace(after[1..]);
      if ListEnded(rest) {
        return rest, None;
      }
    }
  }

  // --------------------------------------------------------------------- printing

  function PrintPort(port: Port): Result<string, FormatError> {
    if port.name == "" then Ok(Print(port.number))
    else if port.number != 0 then Err(UnexpectedBody)
    else if !PortNameText(port.name) then Err(InvalidName)
    else Ok(port.name)
  }

  /** Equal ends are written once, unless the caller forces the dash. */
  function PrintRange(m: PortMatch, forceRange: bool): Result<string, FormatError> {
    match PrintPort(m.lo)
    case Err(e) => Err(e)
    case Ok(lo) =>
      if m.lo == m.hi && !forceRange then Ok(lo)
      else if EndsInBackslash(m.lo.name) then Err(InvalidName)
      else match PrintPort(m.hi)
        case Err(e) => Err(e)
        case Ok(hi) => Ok(lo + "-" + hi)
  }

  predicate NeedsRange(port: Port, side: Side) {
    || port.name == "not" || port.name == "to"
    || (side == DestinationSide && StartsOption(port.name))
  }

  function PrintList(ms: seq<PortMatch>, forceRange: bool): Result<string, FormatError>
    requires ms != []
  {
    match PrintRange(ms[0], forceRange)
    case Err(e) => Err(e)
    case Ok(text) => if |ms| == 1 then Ok(text) else Then(text + ",", PrintList(ms[1..], false))
  }

  predicate OneNegation(ms: seq<PortMatch>) {
    forall i :: 0 <= i < |ms| ==> ms[i].neg == ms[0].neg
  }

  /** The text of a section, of ranges sharing their negation. */
  function PrintPorts(ms: seq<PortMatch>, side: Side): Result<string, FormatError>
    requires ms != []
  {
    if !OneNegation(ms) then Err(InconsistentNegation)
    else Then(if ms[0].neg then "not " else "", PrintList(ms, NeedsRange(ms[0].lo, side)))
  }

  /** What a range leaves behind when it cannot be printed. */
  function PartOfRange(m: PortMatch, forceRange: bool): string {
    match PrintPort(m.lo)
    case Err(_) => ""
    case Ok(lo) => if (m.lo == m.hi && !forceRange) || EndsInBackslash(m.lo.name) then lo else lo + "-"
  }

  /** The text of a list up to where it cannot be printed. */
  function PartOfList(ms: seq<PortMatch>, forceRange: bool): string
    requires ms != []
  {
    match PrintRange(ms[0], forceRange)
    case Err(_) => PartOfRange(ms[0], forceRange)
    case Ok(text) => if |ms| == 1 then text else text + "," + PartOfList(ms[1..], false)
  }

  /** The text of a section that cannot be printed, up to where it cannot. */
  function PartOfPorts(ms: seq<PortMatch>, side: Side): string
    requires ms != []
  {
    if !OneNegation(ms) then ""
    else (if ms[0].neg then "not " else "") + PartOfList(ms, NeedsRange(ms[0].lo, side))
  }

  /** Appends a range, or the part of it that can be printed. */
  method AppendPortMatch(dst: string, m: PortMatch, forceRange: bool) returns (out: string, failure: Option<FormatError>)
    ensures (out, failure) == Appended(dst, PrintRange(m, forceRange), PartOfRange(m, forceRange))
  {
    var lo := PrintPort(m.lo);
    if lo.Err? {
      assert dst + "" == dst;
      return dst, Some(lo.error);
    }
    out := dst + lo.value;
    if m.lo == m.hi && !forceRange {
      return out, None;
    }
    if EndsInBackslash(m.lo.name) {
      return out, Some(InvalidName);
    }
    out := out + "-";
    assert out == dst + (lo.value + "-");
    var hi := PrintPort(m.hi);
    if hi.Err? {
      return out, Some(hi.error);
    }
    assert out + hi.value == dst + (lo.value + "-" + hi.value);
    return out + hi.value, None;
  }

  /** Appends a section, or the part of it before the first range that cannot be printed. */
  method AppendPorts(dst: string, ms: seq<PortMatch>, side: Side) returns (out: string, failure: Option<FormatError>)
    requires ms != []
    ensures (out, failure) == Appended(dst, PrintPorts(ms, side), PartOfPorts(ms, side))
  {
    hide PrintRange, PartOfRange, NeedsRange, Appended, PrintPorts, PartOfPorts, PrintList, PartOfList;
    for idx := 0 to |ms|
      invariant forall k :: 0 <= k < idx ==> ms[k].neg == ms[0].neg
    {
      if ms[idx].neg != ms[0].neg {
        TwoNegations(dst, ms, side);
        return dst, Some(InconsistentNegation);
      }
    }
    out := dst;
    if ms[0].neg {
      out := out + "not ";
    }
    SectionOpens(dst, ms, side);
    for idx := 0 to |ms|
      invariant Appended(dst, PrintPorts(ms, side), PartOfPorts(ms, side)) == Rest(out, ms, idx, side)
    {
      if idx > 0 {
        out := out + ",";
      }
      ghost var before := out;
      var forced := idx == 0 && NeedsRange(ms[idx].lo, side);
      out, failure := AppendPortMatch(out, ms[idx], forced);
      ListStep(before, ms, idx, forced);
      if failure.Some? {
        return;
      }
    }
    failure := None;
  }

  lemma TwoNegations(dst: string, ms: seq<PortMatch>, side: Side)
    requires ms != [] && !OneNegation(ms)
    ensures Appended(dst, PrintPorts(ms, side), PartOfPorts(ms, side)) == (dst, Some(InconsistentNegation))
  {
    assert dst + "" == dst;
  }

  /** A section is its negation and then its ranges. */
  lemma SectionOpens(dst: string, ms: seq<PortMatch>, side: Side)
    requires ms != [] && OneNegation(ms)
    ensures Appended(dst, PrintPorts(ms, side), PartOfPorts(ms, side)) == Rest(if ms[0].neg then dst + "not " else dst, ms, 0, side)
  {
    hide PrintList, PartOfList, NeedsRange, Appended;
    var force := NeedsRange(ms[0].lo, side);
    AppendedTwice(dst, if ms[0].neg then "not " else "", PrintList(ms, force), PartOfList(ms, force));
    assert ms[0..] == ms && dst + "" == dst;
  }

  /** What a text ends as once the ranges from an index on are printed after it. */
  ghost function Rest(text: string, ms: seq<PortMatch>, idx: nat, side: Side): (string, Option<FormatError>)
    requires idx <= |ms| && ms != []
  {
    if idx == |ms| then (text, None)
    else
      var force := idx == 0 && NeedsRange(ms[0].lo, side);
      Appended(if idx == 0 then text else text + ",", PrintList(ms[idx..], force), PartOfList(ms[idx..], force))
  }

  /** One range of a list, and the comma before what is left of it. */
  lemma ListStep(text: string, ms: seq<PortMatch>, idx: nat, force: bool)
    requires idx < |ms|
    ensures var list := Appended(text, PrintList(ms[idx..], force), PartOfList(ms[idx..], force));
            var (out, failure) := Appended(text, PrintRange(ms[idx], force), PartOfRange(ms[idx], force));
            if failure.Some? then list == (out, failure)
            else if idx + 1 == |ms| then list == (out, None)
            else list == Appended(out + ",", PrintList(ms[idx + 1..], false), PartOfList(ms[idx + 1..], false))
  {
    hide PrintRange, PartOfRange;
    var range := PrintRange(ms[idx], force);
    assert ms[idx..][1..] == ms[idx + 1..];
    if range.Ok? && idx + 1 < |ms| {
      AppendedTwice(text, range.value + ",", PrintList(ms[idx + 1..], false), PartOfList(ms[idx + 1..], false));
      assert text + (range.value + ",") == text + range.value + ",";
    }
  }

  // ------------------------------------------------- what is printed is read back

  lemma {:induction false} DigitsArePortText(t: string)
    requires AllDigits(t)
    ensures PortText(t)
  {
    if t != "" {
      DigitsArePortText(t[1..]);
    }
  }

  /** A printed port is a name, never ending in a backslash when it is a number. */
  lemma PrintedPort(port: Port)
    requires PrintPort(port).Ok?
    ensures var t := PrintPort(port).value;
            && t != "" && PortText(t) && (EndsInBackslash(t) <==> EndsInBackslash(port.name))
            && PlainNumber(t) == (port.name == "")
            && (port.name == "" ==> ParseUint(t, 0xffff) == Some((port.number as nat, "")))
  {
    if port.name == "" {
      var t := Print(port.number);
      DigitsArePortText(t);
      assert t[..|t|] == t;
      RunIs(t, |t|);
    }
  }

  lemma PortReadsBack(port: Port, rest: string)
    requires PrintPort(port).Ok? && EndsName(PrintPort(port).value, rest)
    ensures ParsePort(PrintPort(port).value + rest) == Ok((port, rest))
  {
    hide PortText, ParseUint, PortNameText;
    var t := PrintPort(port).value;
    PrintedPort(port);
    NameEndOf(t, rest);
    assert (t + rest)[..|t|] == t && (t + rest)[|t|..] == rest;
  }

  /** What follows a section that does not go on with it. */
  predicate EndsSection(rest: string) {
    rest == "" || (!IsWordByte(rest[0]) && rest[0] != ',')
  }

  lemma RangeReadsBack(m: PortMatch, forceRange: bool, rest: string)
    requires PrintRange(m, forceRange).Ok? && (rest == "" || !IsWordByte(rest[0]))
    ensures ParsePortRange(PrintRange(m, forceRange).value + rest) == Ok((PortRange(m.lo, m.hi), rest))
    ensures PrintRange(m, forceRange).value != ""
  {
    hide ParsePort, PrintPort;
    PrintedPort(m.lo);
    var lo := PrintPort(m.lo).value;
    if m.lo == m.hi && !forceRange {
      PortReadsBack(m.lo, rest);
    } else {
      PrintedPort(m.hi);
      var hi := PrintPort(m.hi).value;
      assert (lo + "-" + hi) + rest == lo + ("-" + (hi + rest));
      PortReadsBack(m.lo, "-" + (hi + rest));
      assert ("-" + (hi + rest))[1..] == hi + rest;
      PortReadsBack(m.hi, rest);
    }
  }

  /** A printed list starts with a port byte or a backslash. */
  lemma PrintedStart(ms: seq<PortMatch>, forceRange: bool)
    requires ms != [] && PrintList(ms, forceRange).Ok?
    ensures var t := PrintList(ms, forceRange).value; t != "" && (IsPortByte(t[0]) || t[0] == '\\')
  {
    PrintedPort(ms[0].lo);
  }

  lemma CommaReads(next: string)
    requires next != "" && (IsPortByte(next[0]) || next[0] == '\\')
    ensures AfterComma("," + next) == Some(next) && !ListEnded(next)
  {
    RunEnds(next, 0, IsCommaSpace);
    assert ("," + next)[1..] == next;
  }

  lemma NoCommaReads(rest: string)
    requires EndsSection(rest)
    ensures AfterComma(rest).None?
  {
  }

  lemma TakesOne(refuses: (seq<PortMatch>, PortMatch) -> bool, tokens: seq<PortMatch>, m: PortMatch)
    requires TakesAll(refuses)
    ensures !refuses(tokens, m)
  {
  }

  /** What a list goes on with behind a range that is taken. */
  lemma RangeThen(s: string, range: PortRange, rest: string, neg: bool, refuses: (seq<PortMatch>, PortMatch) -> bool, tokens: seq<PortMatch>)
    requires ParsePortRange(s) == Ok((range, rest)) && !refuses(tokens, MatchOf(neg, range))
    ensures var more := tokens + [MatchOf(neg, range)];
            PortList(s, neg, refuses, tokens) ==
              match AfterComma(rest)
              case None => Parsed(more, Ok(rest))
              case Some(next) => if ListEnded(next) then Parsed(more, Ok(next)) else PortList(next, neg, refuses, more)
  {
    hide ParsePortRange, AfterComma, ListEnded;
  }

  lemma {:induction false} ListReadsBack(
    ms: seq<PortMatch>, forceRange: bool, rest: string, neg: bool,
    refuses: (seq<PortMatch>, PortMatch) -> bool, tokens: seq<PortMatch>)
    requires ms != [] && PrintList(ms, forceRange).Ok? && EndsSection(rest)
    requires TakesAll(refuses) && forall m :: m in ms ==> m.neg == neg
    ensures PortList(PrintList(ms, forceRange).value + rest, neg, refuses, tokens) == Parsed(tokens + ms, Ok(rest))
    decreases ms
  {
    hide PrintRange, ParsePortRange, PrintPort, PortList, AfterComma, TakesAll, ListEnded;
    var text := PrintRange(ms[0], forceRange).value;
    var range := PortRange(ms[0].lo, ms[0].hi);
    assert ms[0] == MatchOf(neg, range) && !refuses(tokens, ms[0]) by {
      TakesOne(refuses, tokens, ms[0]);
    }
    if |ms| == 1 {
      RangeReadsBack(ms[0], forceRange, rest);
      RangeThen(text + rest, range, rest, neg, refuses, tokens);
      assert ms == [ms[0]];
      NoCommaReads(rest);
    } else {
      var more := PrintList(ms[1..], false).value;
      var tail := "," + (more + rest);
      assert (text + "," + more) + rest == text + tail;
      RangeReadsBack(ms[0], forceRange, tail);
      PrintedStart(ms[1..], false);
      CommaReads(more + rest);
      RangeThen(text + tail, range, tail, neg, refuses, tokens);
      ListReadsBack(ms[1..], false, rest, neg, refuses, tokens + [ms[0]]);
      assert tokens + [ms[0]] + ms[1..] == tokens + ms;
    }
  }

  /** Printing and then parsing a port section is the identity and leaves the rest:
      escapes, names of digits and the names that read as keywords included. */
  lemma PrintedPortsReadBack(ms: seq<PortMatch>, side: Side, rest: string, refuses: (seq<PortMatch>, PortMatch) -> bool)
    requires ms != [] && PrintPorts(ms, side).Ok? && EndsSection(rest) && TakesAll(refuses)
    ensures PortSection(PrintPorts(ms, side).value + rest, refuses, []) == Parsed(ms, Ok(rest))
  {
    hide PrintList, PortList, NeedsRange;
    var force := NeedsRange(ms[0].lo, side);
    var t := PrintList(ms, force).value;
    PrintedStart(ms, force);
    ListReadsBack(ms, force, rest, ms[0].neg, refuses, []);
    assert [] + ms == ms;
    if ms[0].neg {
      assert ("not " + t) + rest == "not " + (t + rest);
      assert ("not " + (t + rest))[3..] == " " + (t + rest);
      RunOf(" ", t + rest, IsWS);
    } else {
      assert "" + t == t;
      NeverNotNorTo(ms, side, rest);
    }
  }

  // -------------------------------------------- what the forced ranges are there for

  lemma {:induction false} PortTextIsWord(t: string)
    requires PortText(t)
    ensures All(t, IsWordByte)
    ensures '\\' !in t ==> '-' !in t
  {
    if t != "" && |t| > 1 {
      var n := if t[0] == '\\' then 2 else 1;
      PortTextIsWord(t[n..]);
      assert forall k :: n <= k < |t| ==> t[k] == t[n..][k - n];
      assert t == t[..n] + t[n..];
    }
  }

  lemma RangeIsWord(m: PortMatch, forceRange: bool)
    requires PrintRange(m, forceRange).Ok?
    ensures All(PrintRange(m, forceRange).value, IsWordByte)
  {
    hide PrintPort, PortText;
    PrintedPort(m.lo);
    PortTextIsWord(PrintPort(m.lo).value);
    if m.lo != m.hi || forceRange {
      PrintedPort(m.hi);
      PortTextIsWord(PrintPort(m.hi).value);
    }
  }

  /** The text of a list starts with the word of its first range. */
  lemma FirstWord(ms: seq<PortMatch>, forceRange: bool, rest: string) returns (word: string, tail: string)
    requires ms != [] && PrintList(ms, forceRange).Ok? && EndsSection(rest)
    ensures PrintRange(ms[0], forceRange) == Ok(word) && PrintList(ms, forceRange).value + rest == word + tail
    ensures All(word, IsWordByte) && (tail == "" || !IsWordByte(tail[0]))
    ensures if |ms| == 1 then tail == rest else tail != "" && tail[0] == ','
  {
    hide PrintRange;
    word := PrintRange(ms[0], forceRange).value;
    RangeIsWord(ms[0], forceRange);
    if |ms| == 1 {
      tail := rest;
    } else {
      tail := "," + (PrintList(ms[1..], false).value + rest);
      assert word + "," + PrintList(ms[1..], false).value + rest == word + tail;
    }
  }

  /** A word of the grammar at the front of a text is the first word of it. */
  lemma WordsAgree(word: string, tail: string, keyword: string)
    requires All(word, IsWordByte) && (tail == "" || !IsWordByte(tail[0]))
    requires All(keyword, IsWordByte) && keyword <= word + tail
    requires (word + tail)[|keyword|..] == "" || !IsWordByte((word + tail)[|keyword|])
    ensures keyword == word && (word + tail)[|keyword|..] == tail
  {
    var s := word + tail;
    assert s[..|word|] == word && s[|word|..] == tail;
    RunEnds(s, |word|, IsWordByte);
    RunEnds(s, |keyword|, IsWordByte);
  }

  /** Letters and dashes printed for a range are a name, or two around the dash. */
  lemma RangeOfWord(m: PortMatch, forceRange: bool, word: string)
    requires PrintRange(m, forceRange) == Ok(word) && '\\' !in word && word != "" && !IsDigit(word[0])
    ensures m.lo.name != "" && m.lo.number == 0
    ensures '-' !in word ==> m.lo == m.hi && !forceRange && m.lo.name == word
    ensures '-' in word ==>
      && |m.lo.name| < |word| && word[|m.lo.name|] == '-' && word[..|m.lo.name|] == m.lo.name
      && PrintPort(m.hi) == Ok(word[|m.lo.name| + 1..])
  {
    var lo := PrintPort(m.lo).value;
    PrintedPort(m.lo);
    assert lo[0] == word[0];
    assert forall c :: c in lo ==> c in word;
    PortTextIsWord(lo);
    if m.lo != m.hi || forceRange {
      assert '-' in word;
    }
  }

  /** The ranges that spell an option. */
  predicate SpellsOption(m: PortMatch) {
    PortRange(m.lo, m.hi) in {
      PortRange(Port("src", 0), Port("port", 0)),
      PortRange(Port("dst", 0), Port("port", 0)),
      PortRange(Port("keep", 0), Port("state", 0))}
  }

  /** Neither the negation nor the `to` of the grammar is read from a printed list. */
  lemma NeverNotNorTo(ms: seq<PortMatch>, side: Side, rest: string)
    requires ms != [] && PrintPorts(ms, side).Ok? && EndsSection(rest)
    ensures var s := PrintList(ms, NeedsRange(ms[0].lo, side)).value + rest;
            && !NotWS1(s).1
            && !("to" <= s && Run(s[2..], IsWS) > 0)
  {
    hide PrintRange, PrintPort, StartsOption, PortText, PrintList, IsWordByte;
    var force := NeedsRange(ms[0].lo, side);
    var s := PrintList(ms, force).value + rest;
    var word, tail := FirstWord(ms, force, rest);
    if NotWS1(s).1 {
      BlankEnds(s, 3);
      NotWordOf(ms[0], force, word, tail, "not");
    } else if "to" <= s && Run(s[2..], IsWS) > 0 {
      BlankEnds(s, 2);
      NotWordOf(ms[0], force, word, tail, "to");
    }
  }

  lemma BlankEnds(s: string, n: nat)
    requires n < |s| && IsWS(s[n])
    ensures !IsWordByte(s[n])
  {
  }

  /** A word that forces the dash is not the first of a list. */
  lemma NotWordOf(m: PortMatch, force: bool, word: string, tail: string, keyword: string)
    requires keyword in {"not", "to"} && PrintRange(m, force) == Ok(word) && (keyword == m.lo.name ==> force)
    requires All(word, IsWordByte) && (tail == "" || !IsWordByte(tail[0]))
    requires |keyword| < |word + tail| && !IsWordByte((word + tail)[|keyword|])
    ensures !(keyword <= word + tail)
  {
    hide PrintRange, PrintPort;
    if keyword <= word + tail {
      WordsAgree(word, tail, keyword);
      RangeOfWord(m, force, word);
    }
  }

  lemma KeywordShape(keyword: string)
    requires keyword in KEYWORDS
    ensures keyword != "" && !IsDigit(keyword[0]) && '\\' !in keyword && All(keyword, IsWordByte)
    ensures '-' in keyword ==> keyword in {"src-port", "dst-port", "keep-state"}
  {
    if keyword in {"src-port", "dst-port", "keep-state"} {
      DashedShape(keyword);
    } else if keyword in {"icmptypes", "icmptype", "icmp6types", "icmp6type", "proto", "tcpflags", "tcpflgs", "via"} {
      ArgumentShape(keyword);
    } else {
      PlainShape(keyword);
    }
  }

  lemma DashedShape(keyword: string)
    requires keyword in {"src-port", "dst-port", "keep-state"}
    ensures keyword != "" && !IsDigit(keyword[0]) && '\\' !in keyword && All(keyword, IsWordByte)
  {
  }

  lemma ArgumentShape(keyword: string)
    requires keyword in {"icmptypes", "icmptype", "icmp6types", "icmp6type", "proto", "tcpflags", "tcpflgs", "via"}
    ensures keyword != "" && !IsDigit(keyword[0]) && '\\' !in keyword && All(keyword, IsWordByte) && '-' !in keyword
  {
  }

  lemma PlainShape(keyword: string)
    requires keyword in {"antispoof", "diverted", "established", "estab", "fragment", "frag", "in", "out"}
    ensures keyword != "" && !IsDigit(keyword[0]) && '\\' !in keyword && All(keyword, IsWordByte) && '-' !in keyword
  {
  }

  lemma BoundaryEnds(rest: string)
    requires Boundary(rest)
    ensures rest == "" || (!IsWordByte(rest[0]) && rest[0] != ',')
  {
  }

  /** A printed destination section is mistaken for an option exactly when it is one
      range around a dash that spells an option. */
  lemma MistakenForOption(ms: seq<PortMatch>, rest: string)
    requires ms != [] && PrintPorts(ms, DestinationSide).Ok? && EndsSection(rest)
    ensures var s := PrintList(ms, NeedsRange(ms[0].lo, DestinationSide)).value + rest;
            StartsOption(s) <==> |ms| == 1 && SpellsOption(ms[0]) && Boundary(rest)
  {
    hide PrintRange, PrintPort, StartsOption, PortText, Boundary, PrintList, KEYWORDS;
    var m := ms[0];
    var force := NeedsRange(m.lo, DestinationSide);
    var s := PrintList(ms, force).value + rest;
    var word, tail := FirstWord(ms, force, rest);
    PrintedStart(ms, force);
    StartsOptionIff(s);
    if StartsOption(s) {
      var keyword :| keyword in KEYWORDS && OptionKeyword(s, keyword);
      KeywordShape(keyword);
      BoundaryEnds(s[|keyword|..]);
      WordsAgree(word, tail, keyword);
      RangeOfWord(m, force, word);
      KeywordRange(m, force, keyword);
    }
    if |ms| == 1 && SpellsOption(m) && Boundary(rest) {
      SpelledWord(m, force, word);
      assert s[..|word|] == word && s[|word|..] == rest;
      assert OptionKeyword(s, word);
    }
  }

  /** A range that the formatter writes as a keyword. */
  lemma SomeRangeIsMistaken()
    ensures var m := PortMatch(false, Port("src", 0), Port("port", 0));
            PrintPorts([m], DestinationSide) == Ok("src-port") && StartsOption("src-port")
  {
    var m := PortMatch(false, Port("src", 0), Port("port", 0));
    LettersAreNames();
    hide PortNameText;
    assert !NeedsRange(m.lo, DestinationSide) by { NoOptionIsSrc(); }
    assert "src" + "-" + "port" == "src-port";
    assert PrintRange(m, false) == Ok("src-port");
    assert PrintList([m], false) == Ok("src-port");
    assert "" + "src-port" == "src-port";
    assert PrintPorts([m], DestinationSide) == Ok("" + "src-port");
    assert "src-port"[8..] == "" && OptionKeyword("src-port", "src-port");
    KeywordStarts("src-port", "src-port");
  }

  lemma LettersAreNames()
    ensures PortNameText("src") && PortNameText("port")
  {
    assert "src"[1..] == "rc" && "rc"[1..] == "c" && "c"[1..] == "";
    assert "port"[1..] == "ort" && "ort"[1..] == "rt" && "rt"[1..] == "t" && "t"[1..] == "";
    assert PortText("c") && PortText("rc") && PortText("t") && PortText("rt") && PortText("ort");
  }

  lemma NoOptionIsSrc()
    ensures !StartsOption("src")
  {
  }

  lemma KeywordRange(m: PortMatch, force: bool, keyword: string)
    ensures keyword in KEYWORDS && PrintRange(m, force) == Ok(keyword) && force == NeedsRange(m.lo, DestinationSide) ==>
      SpellsOption(m)
  {
    hide KEYWORDS, StartsOption, PortText, PrintRange, PrintPort;
    if keyword in KEYWORDS && PrintRange(m, force) == Ok(keyword) && force == NeedsRange(m.lo, DestinationSide) {
      KeywordShape(keyword);
      RangeOfWord(m, force, keyword);
      StartsOptionIff(keyword);
      assert keyword[|keyword|..] == "" && OptionKeyword(keyword, keyword);
      var k := |m.lo.name|;
      assert '-' in keyword;
      SplitAtDash(keyword, k);
      HiIs(m.hi, keyword[k + 1..]);
    }
  }

  lemma SplitAtDash(keyword: string, k: nat)
    requires keyword in {"src-port", "dst-port", "keep-state"} && k < |keyword| && keyword[k] == '-'
    ensures (keyword[..k], keyword[k + 1..]) in {("src", "port"), ("dst", "port"), ("keep", "state")}
  {
    if keyword == "keep-state" {
      assert k == 4 && keyword[..k] == "keep" && keyword[k + 1..] == "state";
    } else if keyword == "src-port" {
      assert k == 3 && keyword[..k] == "src" && keyword[k + 1..] == "port";
    } else {
      assert k == 3 && keyword[..k] == "dst" && keyword[k + 1..] == "port";
    }
  }

  lemma HiIs(port: Port, name: string)
    requires PrintPort(port) == Ok(name) && name != "" && !IsDigit(name[0])
    ensures port == Port(name, 0)
  {
    var number := Print(port.number);
    assert number != "" && IsDigit(number[0]);
  }

  lemma SpelledWord(m: PortMatch, force: bool, word: string)
    requires SpellsOption(m) && PrintRange(m, force) == Ok(word)
    ensures word in KEYWORDS
  {
    hide PortNameText;
    assert m.lo.name + "-" + m.hi.name in KEYWORDS by {
      assert "src" + "-" + "port" == "src-port" && "dst" + "-" + "port" == "dst-port" && "keep" + "-" + "state" == "keep-state";
    }
  }

  // ------------------------------------------------- what is read is printed again

  /** Ports as they are read: a number without a name, or a name that reads back. */
  lemma ReadPortPrints(s: string)
    requires ParsePort(s).Ok?
    ensures PrintPort(ParsePort(s).value.0).Ok?
    ensures "-" <= ParsePort(s).value.1 ==> !EndsInBackslash(ParsePort(s).value.0.name)
  {
    NameEndIs(s);
  }

  /** Every range of a list reads as one that prints, whatever else goes wrong. */
  lemma {:induction false} ReadListPrints(
    s: string, neg: bool, refuses: (seq<PortMatch>, PortMatch) -> bool, tokens: seq<PortMatch>)
    requires forall m :: m in tokens ==> m.neg == neg && RangePrints(m)
    ensures forall m :: m in PortList(s, neg, refuses, tokens).tokens ==> m.neg == neg && RangePrints(m)
    decreases |s|
  {
    hide ParsePort, PrintPort;
    match ParsePortRange(s)
    case Err(_) =>
    case Ok((range, rest)) =>
      ReadPortPrints(s);
      var (_, afterLo) := ParsePort(s).value;
      if "-" <= afterLo {
        ReadPortPrints(afterLo[1..]);
      }
      var m := MatchOf(neg, range);
      assert RangePrints(m);
      var next := AfterComma(rest);
      if !refuses(tokens, m) && next.Some? && !ListEnded(next.value) {
        ReadListPrints(next.value, neg, refuses, tokens + [m]);
      }
  }

  ghost predicate RangePrints(m: PortMatch) {
    PrintPort(m.lo).Ok? && PrintPort(m.hi).Ok? && (m.lo == m.hi || !EndsInBackslash(m.lo.name))
  }

  lemma {:induction false} ListPrints(ms: seq<PortMatch>, forceRange: bool)
    requires ms != [] && forall m :: m in ms ==> RangePrints(m)
    requires forceRange ==> !EndsInBackslash(ms[0].lo.name)
    ensures PrintList(ms, forceRange).Ok?
  {
    assert RangePrints(ms[0]);
    if |ms| > 1 {
      ListPrints(ms[1..], false);
    }
  }

  /** The names whose dash is forced never end in a backslash. */
  lemma ForcedNames(port: Port, side: Side)
    requires NeedsRange(port, side) && PrintPort(port).Ok?
    ensures !EndsInBackslash(port.name)
  {
    var name := port.name;
    if StartsOption(name) && name != "not" && name != "to" {
      StartsOptionIff(name);
      PortTextIsWord(name);
      assert IsWordByte(name[0]);
      var keyword :| keyword in KEYWORDS && OptionKeyword(name, keyword);
      hide KEYWORDS, StartsOption, PortText;
      KeywordShape(keyword);
      BoundaryEnds(name[|keyword|..]);
      assert name == name + "";
      WordsAgree(name, "", keyword);
    }
  }

  /** Whatever a section reads as prints again, on either side, and reads back the same. */
  lemma ReadPortsPrintAndReadBack(
    s: string, side: Side, rest: string, refuses: (seq<PortMatch>, PortMatch) -> bool,
    again: (seq<PortMatch>, PortMatch) -> bool)
    requires EndsSection(rest) && TakesAll(again)
    ensures var ms := PortSection(s, refuses, []).tokens;
            ms != [] ==>
              PrintPorts(ms, side).Ok? && PortSection(PrintPorts(ms, side).value + rest, again, []) == Parsed(ms, Ok(rest))
  {
    hide PortList, PrintPort, PrintList, NeedsRange;
    var (list, neg) := NotWS1(s);
    ReadListPrints(list, neg, refuses, []);
    var ms := PortSection(s, refuses, []).tokens;
    if ms != [] {
      assert ms[0] in ms;
      if NeedsRange(ms[0].lo, side) {
        ForcedNames(ms[0].lo, side);
      }
      ListPrints(ms, NeedsRange(ms[0].lo, side));
      PrintedPortsReadBack(ms, side, rest, again);
    }
  }
}
