/**
 Reading options (opt.go) and numbering them by block and pattern.

 The arguments of the options other than ports are read by functions that are not
 part of this model, which take some of the text or fail.
 */
module Options {
  import opened Ipfw
  import opened Lex
  import opened Keywords
  import Ports

  // ----------------------------------------------------------------------- places

  const BRACED := 0x1_0000_0000

  /** A block number, a pattern number and a flag for braces, as digits of one number
      in base 2^16. */
  type Place = x: nat | x < 2 * BRACED

  predicate IsBraced(p: Place) { p / BRACED % 2 != 0 }

  function Block(p: Place): uint16 { p / TWO16 % TWO16 }

  function Pattern(p: Place): uint16 { p % TWO16 }

  /** The digits of a block that has no pattern yet. */
  function FirstPlace(blocks: uint16, braced: bool): (p: Place)
    ensures Block(p) == blocks && Pattern(p) == 0 && IsBraced(p) == braced
  {
    blocks * TWO16 + if braced then BRACED else 0
  }

  /** The next pattern stays in its block, even when its number wraps. */
  function NextPlace(p: Place): (r: Place)
    ensures Block(r) == Block(p) && Pattern(r) == ToUint16(Pattern(p) + 1) && IsBraced(r) == IsBraced(p)
  {
    LowBits(p, (Pattern(p) + 1) % TWO16);
    p - p % TWO16 + (Pattern(p) + 1) % TWO16
  }

  lemma LowBits(p: Place, low: uint16)
    ensures var r := p - p % TWO16 + low; r / TWO16 == p / TWO16 && r % TWO16 == low && r / BRACED == p / BRACED
  {
    var high := p / TWO16;
    var r := p - p % TWO16 + low;
    assert r == high * TWO16 + low;
    assert r / TWO16 == high;
    assert r / BRACED == high / TWO16 && p / BRACED == high / TWO16;
  }

  const NO_PORTS := PortRange(Port("", 0), Port("", 0))

  const NO_PROTO := Proto("", 0)

  const NO_TYPES := TypeSet(0, 0, 0, 0)

  const NO_VIA := Via(ViaUnset, "", "")

  /** An option without arguments that has the numbers of the place. */
  function OptAt(p: Place, neg: bool, kind: OptKind): Opt {
    Opt(neg, Block(p), Pattern(p), kind, "", "", NO_PORTS, NO_PROTO, NO_TYPES, 0, 0, NO_VIA)
  }

  /** The arguments of an option under other numbers, negation and kind. */
  function Placed(p: Place, neg: bool, kind: OptKind, args: Opt): Opt {
    args.(neg := neg, block := Block(p), pattern := Pattern(p), kind := kind)
  }

  // ------------------------------------------------------------- foreign functions

  /** An argument that was read: its fields, where a refusal points and how much of
      the text it takes. */
  datatype Argument = Argument(fields: Opt, at: nat, length: nat) | Malformed(at: nat)

  /** An answer of the hook: an option and the length of text it claims, or a failure. */
  datatype Answer = Answer(opt: Opt, length: int, failed: bool)

  /** The functions the parser calls: the readers of arguments, the hook if there is
      one, and the state. */
  datatype Env = Env(
    argument: (OptKind, string) -> Argument,
    hook: Option<string -> Answer>,
    refuses: (seq<Opt>, Opt) -> bool)

  function Drop(s: string, n: int): (r: string)
    ensures |r| <= |s|
    ensures 0 < n && s != "" ==> |r| < |s|
  {
    if n <= 0 then s else if n >= |s| then "" else s[n..]
  }

  // ----------------------------------------------------------------------- reading

  /** What a parser of options did: the options the state took, whether one created
      state, and the text left or the failure. */
  datatype Read = Read(tokens: seq<Opt>, seen: bool, outcome: Result<string, Fail>)

  function Failed(tokens: seq<Opt>, seen: bool, kind: FailKind, at: string): Read {
    Read(tokens, seen, Err(Fail(kind, at)))
  }

  /** An option that creates state stands alone, and at most one does. */
  function Invalid(seen: bool, kind: OptKind, p: Place): Option<FailKind> {
    if kind != OptKeepState then None
    else if IsBraced(p) then Some(DynamicStateInGroup)
    else if seen then Some(DuplicateDynamicState)
    else None
  }

  /** Hands an option to the state. */
  function Give(tokens: seq<Opt>, seen: bool, opt: Opt, env: Env, at: string, rest: string): Read {
    if env.refuses(tokens, opt) then Failed(tokens, seen, StateFailure, at) else Read(tokens + [opt], seen, Ok(rest))
  }

  /** The ranges of a port list, members of one pattern. */
  function PortMembers(s: string, head: Opt, env: Env, seen: bool, tokens: seq<Opt>): (r: Read)
    ensures r.outcome.Ok? ==> |r.outcome.value| < |s|
    decreases |s|
  {
    match Ports.ParsePortRange(s)
    case Err(e) => Read(tokens, seen, Err(e))
    case Ok((range, rest)) =>
      var opt := head.(ports := range);
      if env.refuses(tokens, opt) then Failed(tokens, seen, StateFailure, s)
      else match AfterComma(rest)
        case None => Read(tokens + [opt], seen, Ok(rest))
        case Some(next) =>
          if ListEnded(next) then Read(tokens + [opt], seen, Ok(next))
          else PortMembers(next, head, env, seen, tokens + [opt])
  }

  function PortsOption(s: string, head: Opt, env: Env, seen: bool, tokens: seq<Opt>): (r: Read)
    ensures r.outcome.Ok? ==> |r.outcome.value| <= |s|
  {
    if Run(s, IsWS) == 0 then Failed(tokens, seen, ExpectedWhitespace, s)
    else PortMembers(After(s, IsWS), head, env, seen, tokens)
  }

  /** An option the hook reads, its negation and place being the parser's. */
  function CustomOption(s: string, neg: bool, p: Place, env: Env, seen: bool, tokens: seq<Opt>): (r: Read)
    ensures r.outcome.Ok? ==> |r.outcome.value| <= |s| && (s != "" ==> |r.outcome.value| < |s|)
  {
    match env.hook
    case None => Failed(tokens, seen, UnknownOption, s)
    case Some(hook) =>
      var answer := hook(s);
      if answer.failed then Failed(tokens, seen, LeafFailure, Drop(s, answer.length))
      else if answer.length <= 0 || s == "" then Failed(tokens, seen, UnknownOption, s)
      else
        var opt := Placed(p, neg, answer.opt.kind, answer.opt);
        match Invalid(seen, opt.kind, p)
        case Some(kind) => Failed(tokens, seen, kind, s)
        case None => Give(tokens, seen || opt.kind == OptKeepState, opt, env, s, Drop(s, answer.length))
  }

  /** An option whose argument another function reads past the keyword. */
  function ArgumentRead(s: string, n: nat, kind: OptKind, neg: bool, p: Place, env: Env, seen: bool, tokens: seq<Opt>): (r: Read)
    requires n <= |s|
    ensures r.outcome.Ok? ==> |r.outcome.value| <= |s| - n
  {
    match env.argument(kind, s[n..])
    case Malformed(at) => Failed(tokens, seen, LeafFailure, Drop(s, at))
    case Argument(fields, at, length) =>
      Give(tokens, seen, Placed(p, neg, kind, fields), env, Drop(s, at), Drop(s[n..], length))
  }

  /** One option, negated or not. */
  function OneOption(s: string, p: Place, env: Env, seen: bool, tokens: seq<Opt>): (r: Read)
    ensures r.outcome.Ok? ==> |r.outcome.value| <= |s| && (s != "" ==> |r.outcome.value| < |s|)
  {
    var (rest, neg) := NotWS1(s);
    var (kind, n) := ArgumentOption(rest);
    match Invalid(seen, kind, p)
    case Some(bad) => Failed(tokens, seen, bad, rest)
    case None =>
      match kind
      case OptUnset =>
        (match KeywordOption(rest)
         case Some((keyword, after)) => Give(tokens, seen, OptAt(p, neg, keyword), env, rest, after)
         case None => CustomOption(rest, neg, p, env, seen, tokens))
      case OptSourcePort | OptDestinationPort => PortsOption(rest[n..], OptAt(p, neg, kind), env, seen, tokens)
      case _ => ArgumentRead(rest, n, kind, neg, p, env, seen || kind == OptKeepState, tokens)
  }

  /** The options of a group from one on, each a pattern of its own. */
  function GroupFrom(g: Group, s: string, p: Place, env: Env, seen: bool, tokens: seq<Opt>): (r: Read)
    ensures r.outcome.Ok? ==> |r.outcome.value| <= |s| && (s != "" ==> |r.outcome.value| < |s|)
    decreases |s|
  {
    var o := OneOption(s, p, env, seen, tokens);
    match o.outcome
    case Err(_) => o
    case Ok(after) =>
      match Next(g, after)
      case Missing(at) => Failed(o.tokens, o.seen, ExpectedOr, at)
      case End(rest) => Read(o.tokens, o.seen, Ok(rest))
      case More(rest) => GroupFrom(g, rest, NextPlace(p), env, o.seen, o.tokens)
  }

  /** The next block: an option, or a group of them. */
  function OptionGroup(s: string, blocks: uint16, env: Env, seen: bool, tokens: seq<Opt>): (r: Read)
    ensures r.outcome.Ok? ==> |r.outcome.value| <= |s| && (s != "" ==> |r.outcome.value| < |s|)
  {
    var (g, rest) := OpenGroup(s, TrailingPosition);
    GroupFrom(g, rest, FirstPlace(blocks, g.braced), env, seen, tokens)
  }

  predicate LineEnded(s: string) { s == "" || s[0] == '\n' || "\r\n" <= s }

  /** What a parser of whole blocks did: what `Read` says, and the number of the block
      after them. */
  datatype Listed = Listed(tokens: seq<Opt>, seen: bool, blocks: uint16, outcome: Result<string, Fail>)

  /** The option list, its blocks numbered on. */
  function OptionList(s: string, blocks: uint16, env: Env, seen: bool, tokens: seq<Opt>): (r: Listed)
    decreases |s|
  {
    if LineEnded(s) then Listed(tokens, seen, blocks, Ok(s))
    else
      var o := OptionGroup(s, blocks, env, seen, tokens);
      match o.outcome
      case Err(_) => Listed(o.tokens, o.seen, blocks, o.outcome)
      case Ok(after) =>
        var next := ToUint16(blocks + 1);
        if Run(after, IsWS) == 0 then Listed(o.tokens, o.seen, next, o.outcome)
        else OptionList(After(after, IsWS), next, env, o.seen, o.tokens)
  }

  /** A comment right behind the last token of a rule, a block of its own. */
  function TrailingComment(s: string, blocks: uint16, env: Env, seen: bool, tokens: seq<Opt>): Listed {
    var text := After(s, IsWS);
    if !("//" <= text) then Listed(tokens, seen, blocks, Ok(s))
    else
      var o := ArgumentRead(text, 2, OptComment, false, FirstPlace(blocks, false), env, seen, tokens);
      Listed(o.tokens, o.seen, if o.outcome.Ok? then ToUint16(blocks + 1) else blocks, o.outcome)
  }

  /** All options of one rule: its list, when the grammar reached one, and the comment
      behind it. A rule that is a comment, or one without a body, has no list. */
  function RuleOptions(s: string, listed: bool, env: Env): Listed {
    var list := if listed then OptionList(s, 0, env, false, []) else Listed([], false, 0, Ok(s));
    match list.outcome
    case Err(_) => list
    case Ok(rest) => TrailingComment(rest, list.blocks, env, list.seen, list.tokens)
  }

  // ------------------------------------------------------------------ the parsers

  /** The state of a parse across blocks: the number of the next one, and whether a
      `keep-state` was accepted. */
  class OptionContext {
    var blocks: uint16
    var dynamicStateSeen: bool

    constructor ()
      ensures blocks == 0 && !dynamicStateSeen
    {
      blocks, dynamicStateSeen := 0, false;
    }

    /** Where the block that comes next would begin. */
    function First(braced: bool): (p: Place)
      reads this
      ensures Block(p) == blocks && Pattern(p) == 0 && IsBraced(p) == braced
    {
      FirstPlace(blocks, braced)
    }

    method EndBlock()
      modifies this`blocks
      ensures blocks == ToUint16(old(blocks) + 1)
    {
      blocks := ToUint16(blocks + 1);
    }

    /** Fails as `Invalid` says, and remembers a `keep-state` that did not. */
    method Validate(kind: OptKind, p: Place) returns (failure: Option<FailKind>)
      modifies this`dynamicStateSeen
      ensures failure == Invalid(old(dynamicStateSeen), kind, p)
      ensures dynamicStateSeen == (old(dynamicStateSeen) || (failure.None? && kind == OptKeepState))
    {
      if kind != OptKeepState {
        return None;
      }
      if IsBraced(p) {
        return Some(DynamicStateInGroup);
      }
      if dynamicStateSeen {
        return Some(DuplicateDynamicState);
      }
      dynamicStateSeen := true;
      return None;
    }
  }

  method ParsePortsOption(s: string, head: Opt, env: Env, ghost seen: bool, sink: Sink<Opt>)
    returns (rest: string, failure: Option<Fail>)
    requires env.refuses == sink.refuses
    modifies sink
    ensures Read(sink.tokens, seen, Outcome(rest, failure)) == PortsOption(s, head, env, seen, old(sink.tokens))
    ensures failure.Some? ==> rest == s
  {
    if Run(s, IsWS) == 0 {
      return s, Some(Fail(ExpectedWhitespace, s));
    }
    rest := After(s, IsWS);
    while true
      invariant PortMembers(rest, head, env, seen, sink.tokens) == PortsOption(s, head, env, seen, old(sink.tokens))
      decreases |rest|
    {
      var range := Ports.ReadPortRange(rest);
      if range.Err? {
        return s, Some(range.error);
      }
      var taken := sink.Push(head.(ports := range.value.0));
      if !taken {
        return s, Some(Fail(StateFailure, rest));
      }
      var after := range.value.1;
      if !("," <= after) {
        return after, None;
      }
      rest := SkipCommaSpace(after[1..]);
      if ListEnded(rest) {
        return rest, None;
      }
    }
  }

  method GiveOption(opt: Opt, env: Env, sink: Sink<Opt>, ghost seen: bool, s: string, at: string, after: string)
    returns (rest: string, failure: Option<Fail>)
    requires env.refuses == sink.refuses
    modifies sink
    ensures Read(sink.tokens, seen, Outcome(rest, failure)) == Give(old(sink.tokens), seen, opt, env, at, after)
    ensures failure.Some? ==> rest == s
  {
    var taken := sink.Push(opt);
    if !taken {
      return s, Some(Fail(StateFailure, at));
    }
    return after, None;
  }

  method ParseCustomOption(ctx: OptionContext, s: string, neg: bool, p: Place, env: Env, sink: Sink<Opt>)
    returns (rest: string, failure: Option<Fail>)
    requires env.refuses == sink.refuses
    modifies ctx`dynamicStateSeen, sink
    ensures Read(sink.tokens, ctx.dynamicStateSeen, Outcome(rest, failure))
         == CustomOption(s, neg, p, env, old(ctx.dynamicStateSeen), old(sink.tokens))
    ensures failure.Some? ==> rest == s
  {
    if env.hook.None? {
      return s, Some(Fail(UnknownOption, s));
    }
    var answer := env.hook.value(s);
    if answer.failed {
      return s, Some(Fail(LeafFailure, Drop(s, answer.length)));
    }
    if answer.length <= 0 || s == "" {
      return s, Some(Fail(UnknownOption, s));
    }
    var opt := Placed(p, neg, answer.opt.kind, answer.opt);
    var invalid := ctx.Validate(opt.kind, p);
    if invalid.Some? {
      return s, Some(Fail(invalid.value, s));
    }
    rest, failure := GiveOption(opt, env, sink, ctx.dynamicStateSeen, s, s, Drop(s, answer.length));
  }

  /** Computes `ArgumentRead`, past a keyword of `n` bytes. */
  method ParseArgumentOption(s: string, n: nat, kind: OptKind, neg: bool, p: Place, env: Env, ghost seen: bool, sink: Sink<Opt>)
    returns (rest: string, failure: Option<Fail>)
    requires n <= |s| && env.refuses == sink.refuses
    modifies sink
    ensures Read(sink.tokens, seen, Outcome(rest, failure)) == ArgumentRead(s, n, kind, neg, p, env, seen, old(sink.tokens))
    ensures failure.Some? ==> rest == s
  {
    var argument := env.argument(kind, s[n..]);
    if argument.Malformed? {
      return s, Some(Fail(LeafFailure, Drop(s, argument.at)));
    }
    var opt := Placed(p, neg, kind, argument.fields);
    rest, failure := GiveOption(opt, env, sink, seen, s, Drop(s, argument.at), Drop(s[n..], argument.length));
  }

  /** Parses one option, negated or not. */
  method ParseOption(ctx: OptionContext, s: string, p: Place, env: Env, sink: Sink<Opt>)
    returns (rest: string, failure: Option<Fail>)
    requires env.refuses == sink.refuses
    modifies ctx`dynamicStateSeen, sink
    ensures Read(sink.tokens, ctx.dynamicStateSeen, Outcome(rest, failure))
         == OneOption(s, p, env, old(ctx.dynamicStateSeen), old(sink.tokens))
    ensures failure.Some? ==> rest == s
  {
    hide ArgumentOption, KeywordOption, CustomOption, PortsOption, ArgumentRead, Give, NotWS1, Block, Pattern, IsBraced, Drop;
    var (start, neg) := NotWS1(s);
    var (kind, n) := ArgumentOption(start);
    var invalid := ctx.Validate(kind, p);
    if invalid.Some? {
      return s, Some(Fail(invalid.value, start));
    }
    if kind == OptUnset {
      var keyword := KeywordOption(start);
      if keyword.Some? {
        rest, failure := GiveOption(OptAt(p, neg, keyword.value.0), env, sink, ctx.dynamicStateSeen, start, start, keyword.value.1);
      } else {
        rest, failure := ParseCustomOption(ctx, start, neg, p, env, sink);
      }
    } else if kind == OptSourcePort || kind == OptDestinationPort {
      rest, failure := ParsePortsOption(start[n..], OptAt(p, neg, kind), env, ctx.dynamicStateSeen, sink);
    } else {
      rest, failure := ParseArgumentOption(start, n, kind, neg, p, env, ctx.dynamicStateSeen, sink);
    }
    if failure.Some? {
      rest := s;
    }
  }

  /** Computes `OptionGroup`, the block number going up on success alone. */
  method ParseOptionGroup(ctx: OptionContext, s: string, env: Env, sink: Sink<Opt>)
    returns (rest: string, failure: Option<Fail>)
    requires env.refuses == sink.refuses
    modifies ctx, sink
    ensures Read(sink.tokens, ctx.dynamicStateSeen, Outcome(rest, failure))
         == OptionGroup(s, old(ctx.blocks), env, old(ctx.dynamicStateSeen), old(sink.tokens))
    ensures failure.Some? ==> rest == s
    ensures ctx.blocks == if failure.Some? then old(ctx.blocks) else ToUint16(old(ctx.blocks) + 1)
  {
    hide OneOption, Next, NextPlace, FirstPlace, Block, Pattern;
    var (g, start) := OpenGroup(s, TrailingPosition);
    rest := start;
    var p := ctx.First(g.braced);
    while true
      invariant ctx.blocks == old(ctx.blocks)
      invariant GroupFrom(g, rest, p, env, ctx.dynamicStateSeen, sink.tokens)
             == OptionGroup(s, old(ctx.blocks), env, old(ctx.dynamicStateSeen), old(sink.tokens))
      decreases |rest|
    {
      var after;
      after, failure := ParseOption(ctx, rest, p, env, sink);
      if failure.Some? {
        return s, failure;
      }
      match Next(g, after) {
        case Missing(at) => return s, Some(Fail(ExpectedOr, at));
        case End(end) =>
          ctx.EndBlock();
          return end, None;
        case More(more) => rest := more;
      }
      p := NextPlace(p);
    }
  }

  /** Computes `OptionList` from the numbers of the context. */
  method ParseOptions(ctx: OptionContext, s: string, env: Env, sink: Sink<Opt>)
    returns (rest: string, failure: Option<Fail>)
    requires env.refuses == sink.refuses
    modifies ctx, sink
    ensures Listed(sink.tokens, ctx.dynamicStateSeen, ctx.blocks, Outcome(rest, failure))
         == OptionList(s, old(ctx.blocks), env, old(ctx.dynamicStateSeen), old(sink.tokens))
    ensures failure.Some? ==> rest == s
  {
    hide OptionGroup;
    rest := s;
    while !LineEnded(rest)
      invariant OptionList(rest, ctx.blocks, env, ctx.dynamicStateSeen, sink.tokens)
             == OptionList(s, old(ctx.blocks), env, old(ctx.dynamicStateSeen), old(sink.tokens))
      decreases |rest|
    {
      var after;
      after, failure := ParseOptionGroup(ctx, rest, env, sink);
      if failure.Some? {
        return s, failure;
      }
      if Run(after, IsWS) == 0 {
        return after, None;
      }
      rest := After(after, IsWS);
    }
    return rest, None;
  }

  /** Computes `TrailingComment`, leaving a text without a comment alone. */
  method ParseTrailingComment(ctx: OptionContext, s: string, env: Env, sink: Sink<Opt>)
    returns (rest: string, failure: Option<Fail>)
    requires env.refuses == sink.refuses
    modifies ctx, sink
    ensures Listed(sink.tokens, ctx.dynamicStateSeen, ctx.blocks, Outcome(rest, failure))
         == TrailingComment(s, old(ctx.blocks), env, old(ctx.dynamicStateSeen), old(sink.tokens))
    ensures failure.Some? ==> rest == s
  {
    hide ArgumentRead, FirstPlace, Block, Pattern, IsBraced, After, All, ToUint16;
    var taken, text := TakeWhile(s, IsWS);
    if !("//" <= text) {
      return s, None;
    }
    rest, failure := ParseArgumentOption(text, 2, OptComment, false, ctx.First(false), env, ctx.dynamicStateSeen, sink);
    if failure.Some? {
      return s, failure;
    }
    ctx.EndBlock();
  }
}
