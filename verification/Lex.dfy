/**
 The lexical pieces of the grammar (lex.go): byte classes, runs of bytes, the
 separators of lists and groups, what a parser reports, and the state it hands the
 tokens to.
 */
module Lex {
  import opened Ipfw

  // --------------------------------------------------------------- byte classes

  const VERTICAL_TAB := '\U{0B}'
  const FORM_FEED := '\U{0C}'

  predicate IsWS(c: char) { c == ' ' || c == '\t' }

  /** White space, a vertical tab not being one. */
  predicate IsASCIISpace(c: char) {
    c == ' ' || c == '\t' || c == '\n' || c == '\r' || c == FORM_FEED
  }

  predicate IsLineSpace(c: char) { c != '\n' && IsASCIISpace(c) }

  /** What is skipped after a comma, a vertical tab included and a newline not. */
  predicate IsCommaSpace(c: char) {
    c == ' ' || c == '\t' || c == FORM_FEED || c == VERTICAL_TAB || c == '\r'
  }

  predicate IsTableValueByte(c: char) { !IsASCIISpace(c) && c != ')' }

  // ----------------------------------------------------------------------- runs

  predicate All(s: string, f: char -> bool) {
    forall k :: 0 <= k < |s| ==> f(s[k])
  }

  /** How many bytes of the class a text starts with. */
  function Run(s: string, f: char -> bool): (n: nat)
    ensures n <= |s| && All(s[..n], f) && (n < |s| ==> !f(s[n]))
  {
    if s == "" || !f(s[0]) then 0
    else
      var n := 1 + Run(s[1..], f);
      assert forall k :: 0 < k < n ==> s[k] == s[1..][k - 1];
      n
  }

  function After(s: string, f: char -> bool): string { s[Run(s, f)..] }

  method TakeWhile(s: string, f: char -> bool) returns (taken: string, rest: string)
    ensures taken + rest == s && rest == After(s, f)
    ensures All(taken, f) && (rest != "" ==> !f(rest[0]))
  {
    var idx := 0;
    while idx < |s| && f(s[idx])
      invariant 0 <= idx <= |s| && All(s[..idx], f)
    {
      idx := idx + 1;
    }
    RunEnds(s, idx, f);
    return s[..idx], s[idx..];
  }

  /** A run is where the class ends. */
  lemma RunEnds(s: string, n: nat, f: char -> bool)
    requires n <= |s| && All(s[..n], f) && (n < |s| ==> !f(s[n]))
    ensures Run(s, f) == n
  {
    var run := Run(s, f);
    assert forall k :: 0 <= k < n ==> s[..n][k] == s[k];
    assert forall k :: 0 <= k < run ==> s[..run][k] == s[k];
  }

  /** The run of a text of the class and one that does not go on with it. */
  lemma RunOf(t: string, rest: string, f: char -> bool)
    requires All(t, f) && (rest == "" || !f(rest[0]))
    ensures Run(t + rest, f) == |t| && After(t + rest, f) == rest
  {
    assert (t + rest)[..|t|] == t;
    RunEnds(t + rest, |t|, f);
  }

  method SkipCommaSpace(s: string) returns (rest: string)
    ensures rest == After(s, IsCommaSpace)
  {
    var idx := 0;
    while idx < |s|
      invariant 0 <= idx <= |s| && All(s[..idx], IsCommaSpace)
    {
      if !IsCommaSpace(s[idx]) {
        break;
      }
      idx := idx + 1;
    }
    RunEnds(s, idx, IsCommaSpace);
    return s[idx..];
  }

  predicate ListEnded(s: string) { s == "" || s[0] == '\n' }

  predicate AtTokenEnd(s: string) { s == "" || IsASCIISpace(s[0]) }

  /** What a comma at the front of a text leads to, past the spaces it takes. */
  function AfterComma(s: string): (r: Option<string>)
    ensures r.Some? ==> |r.value| < |s| && s[|s| - |r.value|..] == r.value
  {
    if "," <= s then Some(After(s[1..], IsCommaSpace)) else None
  }

  // ------------------------------------------------------------------- negation

  /** A `not` and the white space after it. */
  function NotWS1(s: string): (r: (string, bool))
    ensures |r.0| <= |s| && (r.1 <==> |r.0| < |s|)
    ensures r.1 <==> "not " <= s || "not\t" <= s
  {
    if "not" <= s && Run(s[3..], IsWS) > 0 then (After(s[3..], IsWS), true) else (s, false)
  }

  // --------------------------------------------------------------------- groups

  /** Which alias of `or` a group knows: the deprecated `o` before the options, `|`
      in them. */
  datatype Position = HeaderPosition | TrailingPosition

  datatype Group = Group(braced: bool, position: Position)

  /** What follows an element of a group. */
  datatype Following = More(rest: string) | End(rest: string) | Missing(at: string)

  function OpenGroup(s: string, position: Position): (r: (Group, string))
    ensures |r.1| <= |s| && r.0.position == position && (r.0.braced <==> "{" <= s)
  {
    if "{" <= s then (Group(true, position), After(s[1..], IsLineSpace)) else (Group(false, position), s)
  }

  function Alias(position: Position): string {
    if position == HeaderPosition then "o" else "|"
  }

  /** What follows a separator, which has to be a whole token. */
  function Separator(s: string, position: Position): Option<string> {
    if "or" <= s && AtTokenEnd(s[2..]) then Some(s[2..])
    else if Alias(position) <= s && AtTokenEnd(s[1..]) then Some(s[1..])
    else None
  }

  /** How a list goes on behind an element. Without braces it never does. */
  function Next(g: Group, s: string): (r: Following)
    ensures r.More? ==> |r.rest| < |s|
  {
    if !g.braced then End(s)
    else
      var rest := After(s, IsLineSpace);
      if "}" <= rest then End(rest[1..])
      else match Separator(rest, g.position)
        case None => Missing(rest)
        case Some(after) => More(After(after, IsLineSpace))
  }

  /** A group goes on after spaces and a whole separator. */
  lemma SeparatorGoesOn(g: Group, spaces: string, separator: string, after: string)
    requires g.braced && Separates(g, spaces, separator, after)
    ensures Next(g, spaces + separator + after) == More(After(after, IsLineSpace))
  {
    hide Separator, IsLineSpace;
    assert spaces + separator + after == spaces + (separator + after);
    WholeSeparator(g, spaces, separator, after);
    RunOf(spaces, separator + after, IsLineSpace);
  }

  lemma WholeSeparator(g: Group, spaces: string, separator: string, after: string)
    requires Separates(g, spaces, separator, after)
    ensures Separator(separator + after, g.position) == Some(after)
    ensures !IsLineSpace((separator + after)[0]) && (separator + after)[0] != '}'
  {
    hide Run, All;
    var s := separator + after;
    assert s[0] == separator[0] && s[|separator|..] == after;
    assert after != "" ==> s[|separator|] == after[0];
  }

  /** Only a whole separator makes a group go on: `or`, or the alias of its position. */
  lemma GoesOnAfterSeparator(g: Group, s: string) returns (spaces: string, separator: string, after: string)
    requires Next(g, s).More?
    ensures g.braced && s == spaces + separator + after && Separates(g, spaces, separator, after)
  {
    hide IsLineSpace, Separator, All, AtTokenEnd;
    var rest := After(s, IsLineSpace);
    spaces := s[..Run(s, IsLineSpace)];
    separator, after := SeparatorParts(g, rest);
    assert s == spaces + rest;
  }

  lemma SeparatorParts(g: Group, s: string) returns (separator: string, after: string)
    requires Separator(s, g.position).Some?
    ensures s == separator + after && Separates(g, "", separator, after)
  {
    after := Separator(s, g.position).value;
    separator := s[..|s| - |after|];
  }

  /** Spaces, a separator of the group and the end of its token. */
  ghost predicate Separates(g: Group, spaces: string, separator: string, after: string) {
    && All(spaces, IsLineSpace) && AtTokenEnd(after)
    && (separator == "or" || (separator == "o" && g.position.HeaderPosition?) || (separator == "|" && g.position.TrailingPosition?))
  }

  // -------------------------------------------------------------------- outcomes

  datatype FailKind =
    | ExpectedPort
    | UnexpectedEscape
    | ExpectedTarget
    | ExpectedTableName
    | ExpectedTableValue
    | ExpectedHostname
    | ExpectedHostnameEscapeClose
    | ExpectedOr
    | ExpectedWhitespace
    | UnknownOption
    | DynamicStateInGroup
    | DuplicateDynamicState
    | LeafFailure
    | StateFailure

  /** What went wrong, and the text left where it did. */
  datatype Fail = Fail(kind: FailKind, at: string)

  datatype FormatError =
    | BrokenOrChain
    | InconsistentNegation
    | InvalidName
    | UnexpectedBody
    | UnknownTargetKind

  /** A text before one that is printed, or the error of that one. */
  function Then(text: string, r: Result<string, FormatError>): Result<string, FormatError> {
    match r
    case Ok(more) => Ok(text + more)
    case Err(e) => Err(e)
  }

  /** A text before one that is printed, or before the part of it. */
  function Appended(dst: string, r: Result<string, FormatError>, part: string): (string, Option<FormatError>) {
    match r
    case Ok(text) => (dst + text, None)
    case Err(e) => (dst + part, Some(e))
  }

  lemma AppendedTwice(dst: string, a: string, r: Result<string, FormatError>, part: string)
    ensures Appended(dst, Then(a, r), a + part) == Appended(dst + a, r, part)
  {
    assert dst + (a + part) == dst + a + part;
    if r.Ok? {
      assert dst + (a + r.value) == dst + a + r.value;
    }
  }

  /** What a section parser did: the tokens the state took, all of them, and the
      text after the section or the failure. */
  datatype Parsed<T> = Parsed(tokens: seq<T>, outcome: Result<string, Fail>)

  /** The outcome of a method that returns what it left and its failure. */
  function Outcome(rest: string, failure: Option<Fail>): Result<string, Fail> {
    match failure
    case Some(e) => Err(e)
    case None => Ok(rest)
  }

  /** The state of a caller, which keeps what it takes and may refuse a token, for
      what it is or for those before it. */
  class Sink<T> {
    var tokens: seq<T>
    const refuses: (seq<T>, T) -> bool

    constructor (refuses: (seq<T>, T) -> bool)
      ensures tokens == [] && this.refuses == refuses
    {
      tokens := [];
      this.refuses := refuses;
    }

    method Push(token: T) returns (taken: bool)
      modifies this
      ensures taken == !refuses(old(tokens), token)
      ensures tokens == if taken then old(tokens) + [token] else old(tokens)
    {
      taken := !refuses(tokens, token);
      if taken {
        tokens := tokens + [token];
      }
    }
  }

  /** The state that refuses nothing. */
  ghost predicate TakesAll<T(!new)>(refuses: (seq<T>, T) -> bool) {
    forall tokens: seq<T>, token: T :: !refuses(tokens, token)
  }
}
