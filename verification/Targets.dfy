/**
 Source and destination sections: how they are read (target.go) and how they are
 printed (format.go).

 A section is one address, a comma list of addresses or a group of them in braces,
 numbered by match pattern. The pattern wraps at sixteen bits, on both ways.
 */
module Targets {
  import opened Ipfw
  import opened Lex
  import opened Numbers

  predicate IsTargetByte(c: char) { !IsASCIISpace(c) && c != '}' && c != ',' }

  predicate IsLetter(c: char) { 'a' <= c <= 'z' || 'A' <= c <= 'Z' }

  predicate IsNetwork4Byte(c: char) { IsDigit(c) || c == '.' || c == '/' }

  predicate IsNetwork6Byte(c: char) {
    IsDigit(c) || 'a' <= c <= 'f' || 'A' <= c <= 'F' || c == ':' || c == '.' || c == '/'
  }

  predicate IsHostnameByte(c: char) { c == '.' || IsLetter(c) || IsDigit(c) || c == '-' || c == '_' }

  // ----------------------------------------------------------------------- shapes

  predicate Network6Text(t: string) { ':' in t && All(t, IsNetwork6Byte) }

  predicate Network4Text(t: string) { t != "" && All(t, IsNetwork4Byte) }

  predicate HostnameText(t: string) {
    && All(t, IsHostnameByte) && '.' in t
    && exists k :: 0 <= k < |t| && IsLetter(t[k])
  }

  method IsHostnameText(token: string) returns (r: bool)
    ensures r == HostnameText(token)
  {
    var hasDot, hasLetter := false, false;
    for idx := 0 to |token|
      invariant All(token[..idx], IsHostnameByte)
      invariant hasDot <==> '.' in token[..idx]
      invariant hasLetter <==> exists k :: 0 <= k < idx && IsLetter(token[k])
    {
      var c := token[idx];
      assert token[..idx + 1] == token[..idx] + [c];
      if c == '.' {
        hasDot := true;
      } else if IsLetter(c) {
        hasLetter := true;
      } else if !(IsDigit(c) || c == '-' || c == '_') {
        return false;
      }
    }
    assert token[..|token|] == token;
    return hasDot && hasLetter;
  }

  /** The text between `table(` and the first closing parenthesis, and the index past
      that parenthesis. */
  function TableName(token: string): (r: Option<(string, nat)>)
    ensures r.Some? ==> r.value.1 <= |token| && |r.value.0| + 7 == r.value.1
  {
    if !("table(" <= token) then None
    else
      var inside := token[6..];
      var closing := IndexOf(inside, ')');
      if closing == |inside| then None else Some((inside[..closing], 6 + closing + 1))
  }

  /** A failure and its offset within the token. */
  datatype ShapeError = ShapeError(kind: FailKind, at: nat)

  /** Judges a token that `TableName` takes, and no other. */
  function ClassifyTable(token: string): (r: Option<Result<string, ShapeError>>)
    ensures r.Some? && r.value.Err? ==> r.value.error.at <= |token|
  {
    match TableName(token)
    case None => None
    case Some((inside, end)) =>
      var comma := IndexOf(inside, ',');
      if comma == 0 then Some(Err(ShapeError(ExpectedTableName, 0)))
      else if comma + 1 == |inside| then Some(Err(ShapeError(ExpectedTableValue, end - 1)))
      else if end != |token| then Some(Err(ShapeError(ExpectedTarget, end)))
      else Some(Ok(inside))
  }

  /** A quoted hostname without its quotes. */
  function ClassifyQuoted(token: string): Result<string, ShapeError> {
    if |token| < 2 || token[|token| - 1] != '\'' then Err(ShapeError(ExpectedHostnameEscapeClose, 0))
    else
      var name := token[1..|token| - 1];
      if HostnameText(name) then Ok(name) else Err(ShapeError(ExpectedHostname, 0))
  }

  /** Kind and text of a token. The tests exclude one another or stand in order. */
  function Classify(token: string): (r: Result<(TargetKind, string), ShapeError>)
    ensures r.Err? ==> r.error.at <= |token|
  {
    if token == "" || token[0] == '{' || token == "not" then Err(ShapeError(ExpectedTarget, 0))
    else if token == "any" then Ok((TargetAny, ""))
    else if token == "me6" then Ok((TargetMe6, ""))
    else if token == "me" then Ok((TargetMe, ""))
    else match ClassifyTable(token)
      case Some(Err(e)) => Err(e)
      case Some(Ok(inside)) => Ok((TargetTable, inside))
      case None =>
        if Network6Text(token) then Ok((TargetNetwork6, token))
        else if Network4Text(token) then Ok((TargetNetwork4, token))
        else if token[0] == '`' then
          match ClassifyQuoted(token)
          case Err(e) => Err(e)
          case Ok(name) => Ok((TargetHostname, name))
        else if HostnameText(token) then Ok((TargetHostname, token))
        else Ok((TargetCustom, token))
  }

  /** Whether a target can be a member of a list. An unclosed table lookup, which
      its comma cut, cannot. */
  predicate IsListTarget(t: Target) {
    match t.kind
    case TargetHostname | TargetNetwork4 | TargetNetwork6 => true
    case TargetCustom => !("table(" <= t.text)
    case _ => false
  }

  predicate MixedFamilies(head: TargetKind, kind: TargetKind) {
    || (head == TargetNetwork4 && kind == TargetNetwork6)
    || (head == TargetNetwork6 && kind == TargetNetwork4)
  }

  // ---------------------------------------------------------------------- reading

  /** A negation, which a `not` before the end of an alternative is too. */
  function TargetNot(s: string): (r: (string, bool))
    ensures |r.0| <= |s| && (r.1 ==> |r.0| < |s|) && (!r.1 ==> r.0 == s)
  {
    if "not" <= s && (s[3..] == "" || s[3] == '}' || IsASCIISpace(s[3])) then (After(s[3..], IsWS), true)
    else (s, false)
  }

  /** A token and what follows it. */
  function ScanToken(s: string): (r: (string, string))
    ensures r.0 + r.1 == s
  {
    (s[..Run(s, IsTargetByte)], After(s, IsTargetByte))
  }

  /** The first token of an element, the whole table lookup when its value is closed. */
  function ElementToken(s: string): (r: (string, string))
    ensures r.0 + r.1 == s
  {
    var (token, after) := ScanToken(s);
    if !("," <= after && "table(" <= token) then (token, after)
    else
      var afterValue := After(after, IsTableValueByte);
      if !(")" <= afterValue) then (token, after)
      else
        var end := After(afterValue, IsTargetByte);
        SuffixOf(s, token, after, afterValue, end);
        (s[..|s| - |end|], end)
  }

  /** What is left of what is left of a text ends the text. */
  lemma SuffixOf(s: string, token: string, after: string, afterValue: string, end: string)
    requires s == token + after
    requires |afterValue| <= |after| && after[|after| - |afterValue|..] == afterValue
    requires |end| <= |afterValue| && afterValue[|afterValue| - |end|..] == end
    ensures s[|s| - |end|..] == end && s[..|s| - |end|] + end == s
  {
  }

  /** What the parsers share: the negation and number of a pattern, and the state. */
  datatype Ctx = Ctx(neg: bool, pattern: uint16, refuses: (seq<Target>, Target) -> bool)

  function TargetOf(ctx: Ctx, kind: TargetKind, text: string): Target {
    Target(ctx.neg, ctx.pattern, kind, text)
  }

  /** One member of a list and what follows it. */
  function ListMember(rest: string, ctx: Ctx, family: TargetKind, tokens: seq<Target>): (r: Result<(Target, string), Fail>)
    ensures r.Ok? ==> |r.value.1| <= |rest|
  {
    var (token, after) := ScanToken(rest);
    match Classify(token)
    case Err(e) => Err(Fail(ExpectedTarget, rest[e.at..]))
    case Ok((kind, text)) =>
      var target := TargetOf(ctx, kind, text);
      if !IsListTarget(target) || MixedFamilies(family, kind) then Err(Fail(ExpectedTarget, rest))
      else if ctx.refuses(tokens, target) then Err(Fail(StateFailure, rest))
      else Ok((target, after))
  }

  /** The members of a list after one of them. */
  function Members(s: string, ctx: Ctx, family: TargetKind, tokens: seq<Target>): (r: Parsed<Target>)
    ensures tokens <= r.tokens
    ensures r.outcome.Ok? ==> |r.outcome.value| <= |s|
    decreases |s|
  {
    match AfterComma(s)
    case None => Parsed(tokens, Ok(s))
    case Some(rest) =>
      if ListEnded(rest) then Parsed(tokens, Ok(rest))
      else match ListMember(rest, ctx, family, tokens)
        case Err(e) => Parsed(tokens, Err(e))
        case Ok((target, after)) => Members(after, ctx, family, tokens + [target])
  }

  /** An element past its negation: one target, or a list of them. */
  function Unsigned(s: string, ctx: Ctx, tokens: seq<Target>): (r: Parsed<Target>)
    ensures tokens <= r.tokens
    ensures r.outcome.Ok? ==> |r.outcome.value| <= |s|
  {
    var (token, after) := ElementToken(s);
    match Classify(token)
    case Err(e) => Parsed(tokens, Err(Fail(e.kind, s[e.at..])))
    case Ok((kind, text)) =>
      var target := TargetOf(ctx, kind, text);
      if ctx.refuses(tokens, target) then Parsed(tokens, Err(Fail(StateFailure, s)))
      else if !IsListTarget(target) then Parsed(tokens + [target], Ok(after))
      else Members(after, ctx, kind, tokens + [target])
  }

  /** One element of a group. */
  function Element(s: string, pattern: uint16, refuses: (seq<Target>, Target) -> bool, tokens: seq<Target>): (r: Parsed<Target>)
    ensures tokens <= r.tokens
    ensures r.outcome.Ok? ==> |r.outcome.value| <= |s|
  {
    var (rest, neg) := TargetNot(s);
    Unsigned(rest, Ctx(neg, pattern, refuses), tokens)
  }

  /** The elements of a group from one on, numbered on from its pattern. */
  function Elements(g: Group, s: string, pattern: uint16, refuses: (seq<Target>, Target) -> bool, tokens: seq<Target>): (r: Parsed<Target>)
    ensures tokens <= r.tokens
    decreases |s|, 1
  {
    AfterElement(g, Element(s, pattern, refuses, tokens), pattern, refuses)
  }

  /** What follows an element. */
  function AfterElement(g: Group, e: Parsed<Target>, pattern: uint16, refuses: (seq<Target>, Target) -> bool): (r: Parsed<Target>)
    ensures e.tokens <= r.tokens
    decreases if e.outcome.Ok? then |e.outcome.value| else 0, 0
  {
    match e.outcome
    case Err(_) => e
    case Ok(after) =>
      match Next(g, after)
      case Missing(at) => Parsed(e.tokens, Err(Fail(ExpectedOr, at)))
      case End(rest) => Parsed(e.tokens, Ok(rest))
      case More(rest) => Elements(g, rest, ToUint16(pattern + 1), refuses, e.tokens)
  }

  /** A target section: one element, or a group of them. */
  function Section(s: string, refuses: (seq<Target>, Target) -> bool, tokens: seq<Target>): Parsed<Target> {
    var (g, rest) := OpenGroup(s, HeaderPosition);
    Elements(g, rest, 0, refuses, tokens)
  }

  /** Hands the members of a list to the state. */
  method ParseTargetElement(s: string, sink: Sink<Target>, pattern: uint16) returns (r: string, failure: Option<Fail>)
    modifies sink
    ensures Parsed(sink.tokens, Outcome(r, failure)) == Element(s, pattern, sink.refuses, old(sink.tokens))
    ensures failure.Some? ==> r == s
  {
    hide Classify, IsListTarget, MixedFamilies, ListEnded;
    var (rest, neg) := TargetNot(s);
    ghost var ctx := Ctx(neg, pattern, sink.refuses);
    var (token, after) := ElementToken(rest);
    var shape := Classify(token);
    if shape.Err? {
      return s, Some(Fail(shape.error.kind, rest[shape.error.at..]));
    }
    var (family, text) := shape.value;
    var target := Target(neg, pattern, family, text);
    var taken := sink.Push(target);
    if !taken {
      return s, Some(Fail(StateFailure, rest));
    }
    if !IsListTarget(target) {
      return after, None;
    }
    while true
      invariant Members(after, ctx, family, sink.tokens) == Element(s, pattern, sink.refuses, old(sink.tokens))
      decreases |after|
    {
      if !("," <= after) {
        return after, None;
      }
      rest := SkipCommaSpace(after[1..]);
      if ListEnded(rest) {
        return rest, None;
      }
      var next := ScanToken(rest);
      token, after := next.0, next.1;
      shape := Classify(token);
      if shape.Err? {
        return s, Some(Fail(ExpectedTarget, rest[shape.error.at..]));
      }
      target := Target(neg, pattern, shape.value.0, shape.value.1);
      if !IsListTarget(target) || MixedFamilies(family, target.kind) {
        return s, Some(Fail(ExpectedTarget, rest));
      }
      taken := sink.Push(target);
      if !taken {
        return s, Some(Fail(StateFailure, rest));
      }
    }
  }

  method ParseTargets(s: string, sink: Sink<Target>) returns (rest: string, failure: Option<Fail>)
    modifies sink
    ensures Parsed(sink.tokens, Outcome(rest, failure)) == Section(s, sink.refuses, old(sink.tokens))
    ensures failure.Some? ==> rest == s
  {
    hide Element;
    var (g, start) := OpenGroup(s, HeaderPosition);
    rest := start;
    var pattern: uint16 := 0;
    while true
      invariant Elements(g, rest, pattern, sink.refuses, sink.tokens) == Section(s, sink.refuses, old(sink.tokens))
      decreases |rest|
    {
      var after;
      after, failure := ParseTargetElement(rest, sink, pattern);
      if failure.Some? {
        return s, failure;
      }
      match Next(g, after) {
        case Missing(at) => return s, Some(Fail(ExpectedOr, at));
        case End(end) => return end, None;
        case More(more) => rest := more;
      }
      pattern := ToUint16(pattern + 1);
    }
  }

  // --------------------------------------------------------------------- printing

  predicate IsTableRefByte(c: char) { IsTargetByte(c) && c != ')' && c != '#' }

  predicate TableRefText(t: string) { t != "" && All(t, IsTableRefByte) }

  predicate TableValueText(t: string) { t != "" && '#' !in t && All(t, IsTableValueByte) }

  /** What the formatter demands of custom text. `PrintedShape` shows that it is enough
      for `Classify` to say `TargetCustom` again. */
  predicate CustomTargetText(t: string) {
    && t != "" && t !in {"any", "me", "me6", "not"} && t[0] != '`' && t[0] != '{' && '#' !in t
    && TableName(t).None? && !Network6Text(t) && !Network4Text(t) && !HostnameText(t)
    && All(t, IsTargetByte)
  }

  /** The name of a lookup and the value it asks for, if any. */
  predicate LookupText(t: string) {
    var comma := IndexOf(t, ',');
    TableRefText(t[..comma]) && (comma < |t| ==> TableValueText(t[comma + 1..]))
  }

  function Checked(ok: bool, text: string): Result<string, FormatError> {
    if ok then Ok(text) else Err(InvalidName)
  }

  function PrintTarget(t: Target): Result<string, FormatError> {
    match t.kind
    case TargetAny => Checked(t.text == "", "any")
    case TargetMe => Checked(t.text == "", "me")
    case TargetMe6 => Checked(t.text == "", "me6")
    case TargetTable => Checked(LookupText(t.text), "table(" + t.text + ")")
    case TargetNetwork4 => Checked(Network4Text(t.text), t.text)
    case TargetNetwork6 => Checked(Network6Text(t.text), t.text)
    case TargetHostname => Checked(HostnameText(t.text), t.text)
    case TargetCustom => Checked(CustomTargetText(t.text), t.text)
    case TargetNone => Err(UnknownTargetKind)
  }

  function Not(t: Target): string { if t.neg then "not " else "" }

  /** What stands between a target and the one before it, the first of its pattern
      being at `head`. */
  function Link(ts: seq<Target>, i: nat, head: nat): Result<string, FormatError>
    requires head <= i < |ts|
  {
    if ts[i].pattern != ts[head].pattern then
      if ts[i].pattern == ToUint16(ts[head].pattern + 1) then Ok(" or " + Not(ts[i])) else Err(BrokenOrChain)
    else if i == 0 then Ok(Not(ts[0]))
    else if !IsListTarget(ts[i]) || !IsListTarget(ts[head]) then Err(BrokenOrChain)
    else if ts[i].neg != ts[head].neg then Err(InconsistentNegation)
    else if MixedFamilies(ts[head].kind, ts[i].kind) then Err(BrokenOrChain)
    else Ok(",")
  }

  /** A target with what stands before it. */
  function Piece(ts: seq<Target>, i: nat, head: nat): Result<string, FormatError>
    requires head <= i < |ts|
  {
    match Link(ts, i, head)
    case Err(e) => Err(e)
    case Ok(link) => Then(link, PrintTarget(ts[i]))
  }

  function NextHead(ts: seq<Target>, i: nat, head: nat): (r: nat)
    requires head <= i < |ts|
    ensures r <= i
  {
    if ts[i].pattern == ts[head].pattern then head else i
  }

  function PrintFrom(ts: seq<Target>, i: nat, head: nat): Result<string, FormatError>
    requires head <= i <= |ts|
    decreases |ts| - i
  {
    if i == |ts| then Ok("")
    else match Piece(ts, i, head)
      case Err(e) => Err(e)
      case Ok(text) => Then(text, PrintFrom(ts, i + 1, NextHead(ts, i, head)))
  }

  predicate Braced(ts: seq<Target>) {
    exists i :: 0 < i < |ts| && ts[i].pattern != ts[i - 1].pattern
  }

  function Closed(braced: bool, r: Result<string, FormatError>): Result<string, FormatError> {
    match r
    case Err(e) => Err(e)
    case Ok(text) => Ok(text + if braced then " }" else "")
  }

  /** The text of a section. */
  function PrintTargets(ts: seq<Target>): Result<string, FormatError> {
    if ts == [] || ts[0].pattern != 0 then Err(BrokenOrChain)
    else Then(if Braced(ts) then "{ " else "", Closed(Braced(ts), PrintFrom(ts, 0, 0)))
  }

  /** The text from a target on, up to one that cannot be printed. */
  function PartFrom(ts: seq<Target>, i: nat, head: nat): string
    requires head <= i <= |ts|
    decreases |ts| - i
  {
    if i == |ts| then ""
    else match Link(ts, i, head)
      case Err(_) => ""
      case Ok(link) =>
        match PrintTarget(ts[i])
        case Err(_) => link
        case Ok(text) => link + text + PartFrom(ts, i + 1, NextHead(ts, i, head))
  }

  /** The text of a section up to a target that cannot be printed. */
  function PartOfTargets(ts: seq<Target>): string {
    if ts == [] || ts[0].pattern != 0 then "" else (if Braced(ts) then "{ " else "") + PartFrom(ts, 0, 0)
  }

  /** What a text ends as once the targets from an index on are appended to it. */
  ghost function WithRest(text: string, ts: seq<Target>, i: nat, head: nat): (string, Option<FormatError>)
    requires head <= i <= |ts|
  {
    Appended(text, PrintFrom(ts, i, head), PartFrom(ts, i, head))
  }

  /** What stands before a target, the target and what is left. */
  lemma TargetStep(text: string, ts: seq<Target>, i: nat, head: nat)
    requires head <= i < |ts|
    ensures match Link(ts, i, head)
            case Err(e) => WithRest(text, ts, i, head) == (text, Some(e))
            case Ok(link) =>
              match PrintTarget(ts[i])
              case Err(e) => WithRest(text, ts, i, head) == (text + link, Some(e))
              case Ok(own) =>
                WithRest(text, ts, i, head) == WithRest(text + link + own, ts, i + 1, NextHead(ts, i, head))
  {
    hide Link, PrintTarget;
    assert text + "" == text;
    var link := Link(ts, i, head);
    if link.Ok? && PrintTarget(ts[i]).Ok? {
      var own := PrintTarget(ts[i]).value;
      AppendedTwice(text, link.value + own, PrintFrom(ts, i + 1, NextHead(ts, i, head)), PartFrom(ts, i + 1, NextHead(ts, i, head)));
      assert text + (link.value + own) == text + link.value + own;
    }
  }

  /** Appends what stands between a target and the one before it, and finds the first
      target of its pattern. */
  method AppendLink(dst: string, ts: seq<Target>, idx: nat, first: nat)
    returns (out: string, head: nat, failure: Option<FormatError>)
    requires first <= idx < |ts| && (first == idx ==> idx == 0)
    ensures match Link(ts, idx, first)
            case Err(e) => failure == Some(e) && out == dst
            case Ok(link) => failure == None && out == dst + link && head == NextHead(ts, idx, first)
  {
    var target := ts[idx];
    out, head := dst, first;
    if target.pattern == ts[head].pattern {
      if idx > 0 {
        if !IsListTarget(target) || !IsListTarget(ts[head]) {
          return out, head, Some(BrokenOrChain);
        }
        if target.neg != ts[head].neg {
          return out, head, Some(InconsistentNegation);
        }
        if MixedFamilies(ts[head].kind, target.kind) {
          return out, head, Some(BrokenOrChain);
        }
        out := out + ",";
      }
    } else {
      if target.pattern != ToUint16(ts[head].pattern + 1) {
        return out, head, Some(BrokenOrChain);
      }
      out := out + " or ";
      head := idx;
    }
    assert dst + "" == dst;
    if idx == head && target.neg {
      assert out + "not " == if idx == 0 then dst + "not " else dst + (" or " + "not ");
      out := out + "not ";
    }
    failure := None;
  }

  /** Appends a section, or the part of it before the first target that cannot be
      printed. */
  method AppendTargets(dst: string, ts: seq<Target>) returns (out: string, failure: Option<FormatError>)
    ensures (out, failure) == Appended(dst, PrintTargets(ts), PartOfTargets(ts))
  {
    hide Link, PrintTarget, IsListTarget;
    if |ts| == 0 || ts[0].pattern != 0 {
      assert dst + "" == dst;
      return dst, Some(BrokenOrChain);
    }
    var braced := false;
    for idx := 1 to |ts|
      invariant forall k :: 0 < k < idx ==> ts[k].pattern == ts[k - 1].pattern
    {
      if ts[idx].pattern != ts[idx - 1].pattern {
        braced := true;
        break;
      }
    }
    assert braced <==> Braced(ts);
    out := if braced then dst + "{ " else dst;
    ghost var start := out;
    Opened(dst, ts);
    var head: nat := 0;
    for idx := 0 to |ts|
      invariant head <= idx && (head == idx ==> idx == 0)
      invariant WithRest(start, ts, 0, 0) == WithRest(out, ts, idx, head)
    {
      TargetStep(out, ts, idx, head);
      out, head, failure := AppendLink(out, ts, idx, head);
      if failure.Some? {
        return;
      }
      var text := PrintTarget(ts[idx]);
      if text.Err? {
        return out, Some(text.error);
      }
      out := out + text.value;
    }
    assert out + "" == out;
    if braced {
      out := out + " }";
    }
    failure := None;
  }

  /** A section is what follows its brace, and the brace that closes it. */
  lemma Opened(dst: string, ts: seq<Target>)
    requires ts != [] && ts[0].pattern == 0
    ensures var start := if Braced(ts) then dst + "{ " else dst;
            var (out, failure) := WithRest(start, ts, 0, 0);
            Appended(dst, PrintTargets(ts), PartOfTargets(ts)) ==
              if failure.Some? then (out, failure) else (if Braced(ts) then out + " }" else out, None)
  {
    hide Braced, PrintFrom, PartFrom;
    var opening := if Braced(ts) then "{ " else "";
    var all := PrintFrom(ts, 0, 0);
    assert dst + opening == if Braced(ts) then dst + "{ " else dst;
    AppendedTwice(dst, opening, Closed(Braced(ts), all), PartFrom(ts, 0, 0));
    if all.Ok? {
      assert dst + opening + (all.value + " }") == dst + opening + all.value + " }";
      assert all.value + "" == all.value;
    }
  }

  // ------------------------------------------------------- one target reads back

  /** Whether a text does not go on with a target. */
  predicate EndsTarget(v: string) { v == "" || !IsTargetByte(v[0]) }

  /** What can follow a section that is not braced. */
  predicate EndsTargets(rest: string) { EndsTarget(rest) && !("," <= rest) }

  lemma ScanStops(t: string, v: string)
    requires All(t, IsTargetByte) && EndsTarget(v)
    ensures ScanToken(t + v) == (t, v)
  {
    RunOf(t, v, IsTargetByte);
    assert (t + v)[..|t|] == t;
  }

  /** The names of networks and hosts hold neither space nor any of the bytes the
      grammar knows, and the shapes exclude each other. */
  lemma PlainShapes(t: string)
    requires Network4Text(t) || Network6Text(t) || HostnameText(t)
    ensures t != "" && All(t, IsTargetByte) && t[0] !in {'{', '`', VERTICAL_TAB} && '#' !in t && !("table(" <= t)
    ensures t !in {"any", "me", "me6", "not"}
    ensures Network6Text(t) ==> !HostnameText(t)
    ensures Network4Text(t) ==> !Network6Text(t) && !HostnameText(t)
  {
    assert |t| > 5 ==> t[5] != '(';
  }

  /** The text of a lookup holds no closing parenthesis, and reads back. */
  lemma LookupReads(t: string)
    requires LookupText(t)
    ensures ClassifyTable("table(" + t + ")") == Some(Ok(t))
    ensures ')' !in t && '#' !in t
  {
    var comma := IndexOf(t, ',');
    var name := t[..comma];
    assert forall k :: 0 <= k < comma ==> t[k] == name[k];
    if comma < |t| {
      var value := t[comma + 1..];
      assert forall k :: comma < k < |t| ==> t[k] == value[k - comma - 1];
    }
    var token := "table(" + t + ")";
    assert token[6..] == t + ")";
    FirstIndex(t + ")", ')', |t|);
    assert (t + ")")[..|t|] == t;
  }

  lemma FirstIndex(s: string, c: char, n: nat)
    requires n < |s| && s[n] == c && forall k :: 0 <= k < n ==> s[k] != c
    ensures IndexOf(s, c) == n
  {
  }

  /** A printed target classifies back, whatever its kind. */
  lemma PrintedShape(t: Target)
    requires PrintTarget(t).Ok?
    ensures var text := PrintTarget(t).value;
            && text != "" && text != "not" && IsTargetByte(text[0]) && text[0] != '{'
            && Classify(text) == Ok((t.kind, t.text))
            && (t.kind != TargetTable ==> All(text, IsTargetByte))
            && (IsListTarget(t) ==> text == t.text && !("table(" <= text))
  {
    hide Network4Text, Network6Text, HostnameText, LookupText, TableName;
    var text := PrintTarget(t).value;
    match t.kind {
      case TargetTable =>
        LookupReads(t.text);
        assert text[0] == 't' && text[1] == 'a' && text[5] == '(';
      case TargetNetwork4 | TargetNetwork6 | TargetHostname =>
        PlainShapes(text);
        NotATable(text);
      case _ =>
    }
  }

  lemma NotATable(token: string)
    requires !("table(" <= token)
    ensures ClassifyTable(token).None?
  {
  }

  lemma HeadToken(t: Target, v: string)
    requires PrintTarget(t).Ok? && EndsTarget(v) && ("," <= v ==> IsListTarget(t))
    ensures ElementToken(PrintTarget(t).value + v) == (PrintTarget(t).value, v)
  {
    hide LookupText, Classify;
    var text := PrintTarget(t).value;
    PrintedShape(t);
    if t.kind == TargetTable {
      TableToken(t.text, v);
    } else {
      WholeToken(text, v);
    }
  }

  lemma TableRefBytes(name: string)
    requires TableRefText(name)
    ensures All("table(" + name, IsTargetByte) && All("table(" + name + ")", IsTargetByte)
  {
  }

  /** The token that a comma cut is scanned again up to what ends the lookup. */
  lemma ClosedToken(first: string, value: string, v: string)
    requires All(first, IsTargetByte) && "table(" <= first && All(value, IsTableValueByte) && EndsTarget(v)
    ensures ElementToken(first + "," + value + ")" + v) == (first + "," + value + ")", v)
  {
    hide All;
    var after := "," + value + ")" + v;
    var s := first + "," + value + ")" + v;
    assert s == first + after && after == ("," + value) + (")" + v);
    ScanStops(first, after);
    ValueRuns(value, v);
    assert s[..|s| - |v|] == first + "," + value + ")";
  }

  lemma ValueRuns(value: string, v: string)
    requires All(value, IsTableValueByte) && EndsTarget(v)
    ensures After(("," + value) + (")" + v), IsTableValueByte) == ")" + v
    ensures After(")" + v, IsTargetByte) == v
  {
    RunOf("," + value, ")" + v, IsTableValueByte);
    RunOf(")", v, IsTargetByte);
  }

  lemma TableToken(t: string, v: string)
    requires LookupText(t) && EndsTarget(v) && !("," <= v)
    ensures ElementToken("table(" + t + ")" + v) == ("table(" + t + ")", v)
  {
    hide IndexOf, All, ElementToken;
    var comma := IndexOf(t, ',');
    var name := t[..comma];
    TableRefBytes(name);
    if comma == |t| {
      assert name == t;
      WholeToken("table(" + t + ")", v);
    } else {
      var value := t[comma + 1..];
      assert t == name + "," + value;
      ClosedToken("table(" + name, value, v);
      assert "table(" + t + ")" == "table(" + name + "," + value + ")";
    }
  }

  lemma WholeToken(token: string, v: string)
    requires All(token, IsTargetByte) && EndsTarget(v) && ("," <= v ==> !("table(" <= token))
    ensures ElementToken(token + v) == (token, v)
  {
    ScanStops(token, v);
  }

  lemma NotReads(t: Target, v: string)
    requires PrintTarget(t).Ok? && EndsTarget(v)
    ensures TargetNot(Not(t) + PrintTarget(t).value + v) == (PrintTarget(t).value + v, t.neg)
  {
    hide Classify, PrintTarget;
    var text := PrintTarget(t).value;
    PrintedShape(t);
    var s := Not(t) + text + v;
    if t.neg {
      assert s[3..] == " " + (text + v);
      RunOf(" ", text + v, IsWS);
    } else {
      assert s == text + v;
      UnsignedStart(t, v);
      assert "not" <= s ==> s[3] == text[3];
    }
  }

  /** What starts with a `not` goes on with it. */
  lemma UnsignedStart(t: Target, v: string)
    requires PrintTarget(t).Ok? && EndsTarget(v)
    ensures var text := PrintTarget(t).value;
            "not" <= text + v ==> |text| > 3 && IsTargetByte(text[3]) && text[3] != '}'
  {
    hide Classify, LookupText, CustomTargetText, Network4Text, Network6Text, HostnameText;
    var text := PrintTarget(t).value;
    var s := text + v;
    PrintedShape(t);
    if t.kind == TargetTable {
      assert s[0] == text[0] == 't';
    } else if |text| < 3 && v != "" {
      assert s[|text|] == v[0];
      assert s[1] == v[0] || s[2] == v[0];
    } else if |text| == 3 {
      assert s[..3] == text;
    }
  }

  /** What reads on after a member of the pattern that starts with a target. */
  function AfterMember(head: Target, v: string, refuses: (seq<Target>, Target) -> bool, tokens: seq<Target>): (r: Parsed<Target>)
    ensures r.outcome.Ok? ==> |r.outcome.value| <= |v|
  {
    if IsListTarget(head) then Members(v, Ctx(head.neg, head.pattern, refuses), head.kind, tokens) else Parsed(tokens, Ok(v))
  }

  /** The first target of a pattern reads back. */
  lemma HeadReads(t: Target, v: string, refuses: (seq<Target>, Target) -> bool, tokens: seq<Target>)
    requires PrintTarget(t).Ok? && EndsTarget(v) && ("," <= v ==> IsListTarget(t)) && TakesAll(refuses)
    ensures Element(Not(t) + PrintTarget(t).value + v, t.pattern, refuses, tokens) == AfterMember(t, v, refuses, tokens + [t])
  {
    hide Classify, PrintTarget, TargetNot, ElementToken, Members, IsListTarget;
    PrintedShape(t);
    NotReads(t, v);
    HeadToken(t, v);
    assert t == TargetOf(Ctx(t.neg, t.pattern, refuses), t.kind, t.text);
  }

  // --------------------------------------------------------- a section reads back

  /** A target that shares its pattern with the one before it. */
  predicate Later(ts: seq<Target>, k: nat)
    requires k < |ts|
  {
    k > 0 && ts[k].pattern == ts[k - 1].pattern
  }

  predicate StartsWithTab(t: Target) { t.text != "" && t.text[0] == VERTICAL_TAB }

  ghost predicate NoLaterTab(ts: seq<Target>, i: nat) {
    forall k: nat :: i <= k < |ts| && Later(ts, k) ==> !StartsWithTab(ts[k])
  }

  /** A member never starts with what a comma takes. */
  lemma MemberStart(rest: string, ctx: Ctx, family: TargetKind, tokens: seq<Target>)
    requires rest != "" && rest[0] != VERTICAL_TAB
    ensures var m := ListMember(rest, ctx, family, tokens); m.Ok? ==> !StartsWithTab(m.value.0)
  {
    hide Classify, IsListTarget;
    var (token, after) := ScanToken(rest);
    assert token + after == rest;
    var m := ListMember(rest, ctx, family, tokens);
    if m.Ok? {
      ListKinds(m.value.0);
      ListShape(token);
    }
  }

  /** A member read after a comma never starts with a vertical tab, the comma taking it. */
  lemma MembersLoseTabs(s: string, ctx: Ctx, family: TargetKind, tokens: seq<Target>)
    requires "," <= s
    ensures var r := Members(s, ctx, family, tokens);
            || (|tokens| < |r.tokens| && !StartsWithTab(r.tokens[|tokens|]))
            || (r.tokens == tokens && (r.outcome.Ok? ==> ListEnded(r.outcome.value)))
  {
    hide ListMember, StartsWithTab;
    var rest := AfterComma(s).value;
    if !ListEnded(rest) {
      MemberStart(rest, ctx, family, tokens);
      var m := ListMember(rest, ctx, family, tokens);
      if m.Ok? {
        assert (tokens + [m.value.0])[|tokens|] == m.value.0;
      }
    }
  }

  /** The text of a list target is its token, unless that is a quoted hostname. */
  lemma ListShape(token: string)
    requires Classify(token).Ok? && Classify(token).value.0 in {TargetHostname, TargetNetwork4, TargetNetwork6, TargetCustom}
    ensures token != "" && var text := Classify(token).value.1;
            text == token || (text != "" && text[0] != VERTICAL_TAB && HostnameText(text))
  {
    var text := Classify(token).value.1;
    if HostnameText(text) {
      PlainShapes(text);
    }
  }

  lemma SeparatorReads(g: Group, w: string)
    requires g == Group(true, HeaderPosition) && w != "" && !IsLineSpace(w[0])
    ensures Next(g, " or " + w) == More(w)
  {
    RunOf(" ", "or " + w, IsLineSpace);
    assert " or " + w == " " + ("or " + w);
    assert ("or " + w)[2..] == " " + w;
    RunOf(" ", w, IsLineSpace);
  }

  lemma CloseReads(g: Group, rest: string)
    requires g.braced
    ensures Next(g, " }" + rest) == End(rest)
  {
    assert " }" + rest == " " + ("}" + rest);
    RunOf(" ", "}" + rest, IsLineSpace);
    assert ("}" + rest)[1..] == rest;
  }

  /** A comma and the member after it, unless the comma takes the first byte of it. */
  lemma MemberReads(t: Target, v: string, head: Target, refuses: (seq<Target>, Target) -> bool, tokens: seq<Target>)
    requires PrintTarget(t).Ok? && EndsTarget(v) && TakesAll(refuses)
    requires IsListTarget(t) && IsListTarget(head) && !MixedFamilies(head.kind, t.kind)
    requires head.neg == t.neg && head.pattern == t.pattern && !StartsWithTab(t)
    ensures AfterMember(head, "," + (PrintTarget(t).value + v), refuses, tokens) == AfterMember(head, v, refuses, tokens + [t])
  {
    hide Classify, PrintTarget, IsListTarget;
    PrintedShape(t);
    assert t.kind != TargetTable by { ListKinds(t); }
    var text := PrintTarget(t).value;
    var rest := text + v;
    assert ("," + rest)[1..] == rest;
    RunEnds(rest, 0, IsCommaSpace);
    ScanStops(text, v);
    assert t == TargetOf(Ctx(t.neg, t.pattern, refuses), t.kind, t.text);
  }

  lemma ListKinds(t: Target)
    requires IsListTarget(t)
    ensures t.kind in {TargetHostname, TargetNetwork4, TargetNetwork6, TargetCustom}
  {
  }

  /** Whether the text after a target of the pattern reads as the targets from an
      index on. */
  ghost predicate ReadsOn(
    ts: seq<Target>, i: nat, head: nat, v: string, rest: string, refuses: (seq<Target>, Target) -> bool)
    requires head < i <= |ts|
  {
    AfterElement(Group(Braced(ts), HeaderPosition), AfterMember(ts[head], v, refuses, ts[..i]), ts[head].pattern, refuses)
      == Parsed(ts, Ok(rest))
  }

  /** The targets from an index on, printed after those of a pattern, are read on
      after them, exactly when the commas take no byte of them. */
  lemma {:induction false} ReadOn(
    ts: seq<Target>, i: nat, head: nat, tail: string, rest: string, refuses: (seq<Target>, Target) -> bool)
    requires 0 < i <= |ts| && head < i && PrintFrom(ts, i, head).Ok? && TakesAll(refuses)
    requires forall k :: head <= k < i ==> ts[k].pattern == ts[head].pattern
    requires if Braced(ts) then tail == " }" + rest else tail == rest && EndsTargets(rest)
    ensures ReadsOn(ts, i, head, PrintFrom(ts, i, head).value + tail, rest, refuses) <==> NoLaterTab(ts, i)
    decreases |ts| - i
  {
    hide PrintTarget, IsListTarget, NoLaterTab, Braced, Piece, StartsWithTab, MixedFamilies, ReadsOn, TakesAll, IsTargetByte, Not, EndsTarget, PrintFrom;
    if i == |ts| {
      NothingPrinted(ts, head, tail);
      EndReads(ts, head, tail, rest, refuses);
    } else {
      var next, text, more := TextSplits(ts, i, head, tail);
      EndsWell(ts, tail, rest);
      ContinuesWell(ts, i + 1, next, tail);
      TabsFrom(ts, i);
      if ts[i].pattern == ts[head].pattern {
        if StartsWithTab(ts[i]) {
          TabIsLost(ts, i, head, "," + (text + more), rest, refuses);
        } else {
          MemberStep(ts, i, head, more, rest, refuses);
          ReadOn(ts, i + 1, head, tail, rest, refuses);
        }
      } else {
        PatternStep(ts, i, head, more, rest, refuses);
        ReadOn(ts, i + 1, i, tail, rest, refuses);
      }
    }
  }

  lemma NothingPrinted(ts: seq<Target>, head: nat, tail: string)
    requires head <= |ts|
    ensures PrintFrom(ts, |ts|, head) == Ok("") && "" + tail == tail
  {
  }

  /** What the text of the targets from an index on starts with. */
  lemma TextSplits(ts: seq<Target>, i: nat, head: nat, tail: string) returns (next: nat, text: string, more: string)
    requires head < i < |ts| && PrintFrom(ts, i, head).Ok?
    ensures next == (if ts[i].pattern == ts[head].pattern then head else i)
    ensures PrintTarget(ts[i]) == Ok(text) && PrintFrom(ts, i + 1, next).Ok? && more == PrintFrom(ts, i + 1, next).value + tail
    ensures var v := PrintFrom(ts, i, head).value + tail;
            if ts[i].pattern == ts[head].pattern then
              && v == "," + (text + more) && ts[i].neg == ts[head].neg
              && IsListTarget(ts[i]) && IsListTarget(ts[head]) && !MixedFamilies(ts[head].kind, ts[i].kind)
            else
              v == " or " + (Not(ts[i]) + text + more) && ts[i].pattern == ToUint16(ts[head].pattern + 1)
  {
    hide PrintTarget, IsListTarget, MixedFamilies, Not;
    PieceReads(ts, i, head);
    next := NextHead(ts, i, head);
    text := PrintTarget(ts[i]).value;
    more := PrintFrom(ts, i + 1, next).value + tail;
    hide Piece;
    var v := PrintFrom(ts, i, head).value + tail;
    assert v == Piece(ts, i, head).value + more;
    assert ts[i].pattern == ts[head].pattern ==> v == "," + (text + more);
    assert ts[i].pattern != ts[head].pattern ==> v == " or " + (Not(ts[i]) + text + more);
  }

  lemma MemberStep(ts: seq<Target>, i: nat, head: nat, more: string, rest: string, refuses: (seq<Target>, Target) -> bool)
    requires head < i < |ts| && PrintTarget(ts[i]).Ok? && EndsTarget(more) && TakesAll(refuses)
    requires IsListTarget(ts[i]) && IsListTarget(ts[head]) && !MixedFamilies(ts[head].kind, ts[i].kind)
    requires ts[head].neg == ts[i].neg && ts[head].pattern == ts[i].pattern && !StartsWithTab(ts[i])
    ensures ReadsOn(ts, i, head, "," + (PrintTarget(ts[i]).value + more), rest, refuses) ==
            ReadsOn(ts, i + 1, head, more, rest, refuses)
  {
    hide AfterElement, AfterMember, PrintTarget, MixedFamilies, IsListTarget, StartsWithTab, Braced, TakesAll, EndsTarget;
    MemberReads(ts[i], more, ts[head], refuses, ts[..i]);
    assert ts[..i] + [ts[i]] == ts[..i + 1];
  }

  lemma PatternStep(ts: seq<Target>, i: nat, head: nat, more: string, rest: string, refuses: (seq<Target>, Target) -> bool)
    requires head < i < |ts| && PrintTarget(ts[i]).Ok? && EndsTarget(more) && TakesAll(refuses)
    requires "," <= more ==> IsListTarget(ts[i])
    requires ts[i].pattern == ToUint16(ts[head].pattern + 1) && ts[i].pattern != ts[i - 1].pattern
    ensures ReadsOn(ts, i, head, " or " + (Not(ts[i]) + PrintTarget(ts[i]).value + more), rest, refuses) ==
            ReadsOn(ts, i + 1, i, more, rest, refuses)
  {
    hide PrintTarget, Element, Braced, Next, AfterMember;
    PatternsDiffer(ts, i);
    var w := Not(ts[i]) + PrintTarget(ts[i]).value + more;
    assert (" or " + w)[0] == ' ';
    AfterLast(ts[head], " or " + w, refuses, ts[..i]);
    ElementStart(ts[i], more);
    SeparatorReads(Group(true, HeaderPosition), w);
    HeadReads(ts[i], more, refuses, ts[..i]);
    assert AfterElement(Group(true, HeaderPosition), Parsed(ts[..i], Ok(" or " + w)), ts[head].pattern, refuses)
        == Elements(Group(true, HeaderPosition), w, ts[i].pattern, refuses, ts[..i]);
    assert ts[..i] + [ts[i]] == ts[..i + 1];
  }

  lemma EndReads(ts: seq<Target>, head: nat, tail: string, rest: string, refuses: (seq<Target>, Target) -> bool)
    requires head < |ts| && if Braced(ts) then tail == " }" + rest else tail == rest && EndsTargets(rest)
    ensures ReadsOn(ts, |ts|, head, tail, rest, refuses) && NoLaterTab(ts, |ts|)
  {
    assert ts[..|ts|] == ts;
    assert Braced(ts) ==> tail[0] == ' ';
    AfterLast(ts[head], tail, refuses, ts);
    if Braced(ts) {
      CloseReads(Group(true, HeaderPosition), rest);
    }
  }

  lemma EndsWell(ts: seq<Target>, tail: string, rest: string)
    requires if Braced(ts) then tail == " }" + rest else tail == rest && EndsTargets(rest)
    ensures EndsTarget(tail) && !("," <= tail)
  {
  }

  /** What the printed piece of a target says of it. */
  lemma PieceReads(ts: seq<Target>, i: nat, head: nat)
    requires head < i < |ts| && Piece(ts, i, head).Ok?
    ensures PrintTarget(ts[i]).Ok?
    ensures var text := PrintTarget(ts[i]).value;
            if ts[i].pattern == ts[head].pattern then
              && Piece(ts, i, head).value == "," + text && ts[i].neg == ts[head].neg
              && IsListTarget(ts[i]) && IsListTarget(ts[head]) && !MixedFamilies(ts[head].kind, ts[i].kind)
            else
              && Piece(ts, i, head).value == " or " + Not(ts[i]) + text
              && ts[i].pattern == ToUint16(ts[head].pattern + 1)
  {
  }

  /** What is printed after a target does not go on with it, and a comma only follows
      a member of a list. */
  lemma ContinuesWell(ts: seq<Target>, i: nat, head: nat, tail: string)
    requires head < i <= |ts| && PrintFrom(ts, i, head).Ok? && EndsTarget(tail) && !("," <= tail)
    ensures var v := PrintFrom(ts, i, head).value + tail; EndsTarget(v) && ("," <= v ==> IsListTarget(ts[head]))
  {
    hide PrintTarget, IsListTarget;
    if i < |ts| {
      var p := Piece(ts, i, head).value;
      assert PrintFrom(ts, i, head).value + tail == p + (PrintFrom(ts, i + 1, NextHead(ts, i, head)).value + tail);
      PieceReads(ts, i, head);
    } else {
      assert "" + tail == tail;
    }
  }

  lemma AfterLast(head: Target, v: string, refuses: (seq<Target>, Target) -> bool, tokens: seq<Target>)
    requires !("," <= v)
    ensures AfterMember(head, v, refuses, tokens) == Parsed(tokens, Ok(v))
  {
  }

  lemma TabsFrom(ts: seq<Target>, i: nat)
    requires i < |ts|
    ensures NoLaterTab(ts, i) <==> NoLaterTab(ts, i + 1) && (Later(ts, i) ==> !StartsWithTab(ts[i]))
  {
  }

  lemma PatternsDiffer(ts: seq<Target>, i: nat)
    requires 0 < i < |ts| && ts[i].pattern != ts[i - 1].pattern
    ensures Braced(ts)
  {
  }

  lemma ElementStart(t: Target, v: string)
    requires PrintTarget(t).Ok?
    ensures var w := Not(t) + PrintTarget(t).value + v; w != "" && !IsASCIISpace(w[0]) && w[0] != '{'
  {
    hide Classify, PrintTarget;
    PrintedShape(t);
  }

  /** A later member that starts with a vertical tab does not read back. */
  lemma TabIsLost(ts: seq<Target>, i: nat, head: nat, v: string, rest: string, refuses: (seq<Target>, Target) -> bool)
    requires head < i < |ts| && IsListTarget(ts[head]) && "," <= v && StartsWithTab(ts[i])
    ensures !ReadsOn(ts, i, head, v, rest, refuses)
  {
    hide Members, StartsWithTab, Braced, Elements;
    var g := Group(Braced(ts), HeaderPosition);
    var ctx := Ctx(ts[head].neg, ts[head].pattern, refuses);
    MembersLoseTabs(v, ctx, ts[head].kind, ts[..i]);
    var r := Members(v, ctx, ts[head].kind, ts[..i]);
    var all := AfterElement(g, r, ts[head].pattern, refuses);
    assert r.tokens <= all.tokens;
    if i < |r.tokens| {
      assert all.tokens[i] == r.tokens[i] != ts[i];
    } else if r.outcome.Ok? {
      NothingFollows(g, r.outcome.value);
      assert |all.tokens| == i;
    }
  }

  /** No element follows the end of a line. */
  lemma NothingFollows(g: Group, s: string)
    requires ListEnded(s)
    ensures !Next(g, s).More?
  {
    assert s == "" || !IsLineSpace(s[0]);
    RunEnds(s, 0, IsLineSpace);
  }

  /** Printing and then parsing a target section is the identity and leaves the rest,
      exactly when no member of a list after its first starts with a vertical tab. */
  lemma PrintedTargetsReadBackIff(ts: seq<Target>, rest: string, refuses: (seq<Target>, Target) -> bool)
    requires PrintTargets(ts).Ok? && TakesAll(refuses) && (!Braced(ts) ==> EndsTargets(rest))
    ensures Section(PrintTargets(ts).value + rest, refuses, []) == Parsed(ts, Ok(rest)) <==> NoLaterTab(ts, 0)
  {
    hide PrintTarget, Element, AfterMember, NoLaterTab, Braced, StartsWithTab, PrintTargets, TakesAll, PrintFrom, OpenGroup;
    var g := Group(Braced(ts), HeaderPosition);
    var tail := if Braced(ts) then " }" + rest else rest;
    FirstPiece(ts, tail, rest);
    var more := PrintFrom(ts, 1, 0).value + tail;
    EndsWell(ts, tail, rest);
    ContinuesWell(ts, 1, 0, tail);
    ElementStart(ts[0], more);
    OpenReads(g, Not(ts[0]) + PrintTarget(ts[0]).value + more);
    HeadReads(ts[0], more, refuses, []);
    assert [] + [ts[0]] == ts[..1];
    ReadOn(ts, 1, 0, tail, rest, refuses);
    TabsFrom(ts, 0);
  }

  lemma FirstPiece(ts: seq<Target>, tail: string, rest: string)
    requires PrintTargets(ts).Ok?
    requires if Braced(ts) then tail == " }" + rest else tail == rest
    ensures ts != [] && ts[0].pattern == 0 && PrintTarget(ts[0]).Ok? && PrintFrom(ts, 1, 0).Ok?
    ensures PrintTargets(ts).value + rest ==
            (if Braced(ts) then "{ " else "") + (Not(ts[0]) + PrintTarget(ts[0]).value + (PrintFrom(ts, 1, 0).value + tail))
  {
    hide Braced, PrintTarget;
    assert Piece(ts, 0, 0).Ok?;
    assert PrintFrom(ts, 0, 0).value == Not(ts[0]) + PrintTarget(ts[0]).value + PrintFrom(ts, 1, 0).value;
  }

  lemma OpenReads(g: Group, w: string)
    requires g.position == HeaderPosition && w != "" && !IsASCIISpace(w[0]) && w[0] != '{'
    ensures OpenGroup((if g.braced then "{ " else "") + w, HeaderPosition) == (g, w)
  {
    if g.braced {
      assert ("{ " + w)[1..] == " " + w;
      RunOf(" ", w, IsLineSpace);
    } else {
      assert "" + w == w;
    }
  }

  /** A list the formatter accepts and its own text does not give back. */
  lemma TabsAreNeeded(refuses: (seq<Target>, Target) -> bool)
    requires TakesAll(refuses)
    ensures var ts := [Target(false, 0, TargetCustom, "a"), Target(false, 0, TargetCustom, [VERTICAL_TAB, 'b'])];
            && PrintTargets(ts).Ok?
            && Section(PrintTargets(ts).value, refuses, []) != Parsed(ts, Ok(""))
  {
    hide CustomTargetText, TakesAll, Section;
    var ts := [Target(false, 0, TargetCustom, "a"), Target(false, 0, TargetCustom, [VERTICAL_TAB, 'b'])];
    CustomLetters();
    assert PrintFrom(ts, 2, 0).Ok? && PrintTarget(ts[0]).Ok? && PrintTarget(ts[1]).Ok?;
    assert Piece(ts, 1, 0).Ok? && Piece(ts, 0, 0).Ok?;
    assert PrintFrom(ts, 1, 0).Ok?;
    assert PrintFrom(ts, 0, 0).Ok?;
    assert EndsTargets("");
    PrintedTargetsReadBackIff(ts, "", refuses);
    assert PrintTargets(ts).value + "" == PrintTargets(ts).value;
    assert Later(ts, 1) && StartsWithTab(ts[1]);
  }

  lemma CustomLetters()
    ensures CustomTargetText("a") && CustomTargetText([VERTICAL_TAB, 'b'])
  {
    assert !("table(" <= "a");
  }
}
