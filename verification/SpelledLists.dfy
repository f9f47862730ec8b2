/**
 How the option list of a rule is spelled (opt.go): options on their own or in braces,
 and the block and pattern every one of them gets.
 */
module SpelledLists {
  import opened Ipfw
  import opened Lex
  import opened Options
  import opened SpelledGroups
  import opened SpelledPorts
  import opened SpelledOptions

  // --------------------------------------------------------------------- one option

  /** An option past its negation. */
  datatype Word =
    | Plain(kind: OptKind, keyword: string)
    | Argued(kind: OptKind, keyword: string, text: string)
    | OfPorts(kind: OptKind, keyword: string, spaces: string, rs: seq<RangeSpelling>, gaps: seq<string>, tail: string)

  datatype Member = Member(not: string, word: Word)

  predicate CreatesState(m: Member) { m.word.kind == OptKeepState }

  /** The text of an option and of what follows it. */
  function MemberText(m: Member, rest: string): string
    requires m.word.OfPorts? ==> |m.word.gaps| == |m.word.rs| - 1
  {
    m.not + (m.word.keyword +
      match m.word
      case Plain(_, _) => rest
      case Argued(_, _, text) => text + rest
      case OfPorts(_, _, spaces, rs, gaps, tail) => spaces + (ListText(rs, gaps) + tail + rest))
  }

  /** Whether a member is spelled so before a text, and its argument reads up to there. */
  predicate Fits(m: Member, rest: string, env: Env) {
    && IsNot(m.not)
    && match m.word
       case Plain(kind, keyword) => IsPlainKeyword(keyword, kind) && EndsWord(rest)
       case Argued(kind, keyword, text) =>
         && IsArgumentKeyword(keyword, kind) && (kind == OptComment || EndsWord(text + rest))
         && var r := env.argument(kind, text + rest); r.Argument? && r.length == |text|
       case OfPorts(kind, keyword, spaces, rs, gaps, tail) =>
         && IsPortsKeyword(keyword, kind) && Spaces(spaces) && spaces != "" && ListSpelled(rs, gaps) && EndsList(rs, tail, rest)
  }

  /** The options a member stands for: one, or one for each of its ranges. */
  function MemberOpts(m: Member, rest: string, env: Env, block: uint16, pattern: uint16): seq<Opt>
    requires Fits(m, rest, env)
  {
    match m.word
    case Plain(kind, _) => [PlainOpt(m.not != "", block, pattern, kind)]
    case Argued(kind, _, text) =>
      [env.argument(kind, text + rest).fields.(neg := m.not != "", block := block, pattern := pattern, kind := kind)]
    case OfPorts(kind, _, _, rs, _, _) => PortOpts(PlainOpt(m.not != "", block, pattern, kind), rs)
  }

  lemma AllAreTaken(refuses: (seq<Opt>, Opt) -> bool, tokens: seq<Opt>, more: seq<Opt>)
    requires TakesAll(refuses)
    ensures TakesUpTo(refuses, tokens, more, |more|)
  {
  }

  lemma MemberIsRead(m: Member, rest: string, p: Place, env: Env, seen: bool, tokens: seq<Opt>)
    requires Fits(m, rest, env) && TakesAll(env.refuses) && (CreatesState(m) ==> !seen && !IsBraced(p))
    ensures OneOption(MemberText(m, rest), p, env, seen, tokens) ==
            Read(tokens + MemberOpts(m, rest, env, Block(p), Pattern(p)), seen || CreatesState(m), Ok(rest))
  {
    hide IsNot, EndsWord, OneOption, Block, Pattern, IsBraced, ListText, ListSpelled, EndsList, Spaces, PortOpts, TakesUpTo;
    match m.word {
      case Plain(kind, keyword) => PlainIsRead(m.not, keyword, kind, rest, p, env, seen, tokens);
      case Argued(kind, keyword, text) =>
        ArgumentIsRead(m.not, keyword, kind, text + rest, p, env, seen, tokens);
        BehindText(text, rest);
      case OfPorts(kind, keyword, spaces, rs, gaps, tail) =>
        var opts := PortOpts(PlainOpt(m.not != "", Block(p), Pattern(p), kind), rs);
        AllAreTaken(env.refuses, tokens, opts);
        PortsAreRead(m.not, keyword, kind, spaces, rs, gaps, tail, rest, p, env, seen, tokens, |rs|);
    }
  }

  lemma BehindText(text: string, rest: string)
    ensures Behind(text + rest, |text|) == rest
  {
    assert text == "" ==> text + rest == rest;
  }

  /** An option starts with a letter or a slash. */
  lemma MemberBegins(m: Member, rest: string)
    requires IsNot(m.not) && (m.word.OfPorts? ==> |m.word.gaps| == |m.word.rs| - 1)
    requires var w := m.word; IsPlainKeyword(w.keyword, w.kind) || IsArgumentKeyword(w.keyword, w.kind) || IsPortsKeyword(w.keyword, w.kind)
    ensures var s := MemberText(m, rest); s != "" && ('a' <= s[0] <= 'z' || s[0] == '/')
  {
    hide ListText, IsPlainKeyword, IsArgumentKeyword, IsPortsKeyword;
    KeywordBegins(m.word.keyword, m.word.kind);
  }

  lemma KeywordBegins(keyword: string, kind: OptKind)
    requires IsPlainKeyword(keyword, kind) || IsArgumentKeyword(keyword, kind) || IsPortsKeyword(keyword, kind)
    ensures keyword != "" && ('a' <= keyword[0] <= 'z' || keyword[0] == '/')
  {
  }

  // ------------------------------------------------------------------------ a group

  /** The text of a group behind its brace, up to an end. */
  function GroupText(ms: seq<Member>, joints: seq<Joint>, end: string): string
    requires |joints| == |ms| - 1 && AllSized(ms)
    decreases |ms|, 1
  {
    MemberText(ms[0], BehindFirst(ms, joints, end))
  }

  function BehindFirst(ms: seq<Member>, joints: seq<Joint>, end: string): string
    requires |joints| == |ms| - 1 && AllSized(ms)
    decreases |ms|, 0
  {
    if |ms| == 1 then end else joints[0].before + joints[0].separator + joints[0].behind + GroupText(ms[1..], joints[1..], end)
  }

  predicate AllSized(ms: seq<Member>) {
    forall i :: 0 <= i < |ms| && ms[i].word.OfPorts? ==> |ms[i].word.gaps| == |ms[i].word.rs| - 1
  }

  /** Options that create state have no place in a group. */
  predicate GroupFits(ms: seq<Member>, joints: seq<Joint>, end: string, env: Env) {
    && |joints| == |ms| - 1 && AllSized(ms)
    && Fits(ms[0], BehindFirst(ms, joints, end), env) && !CreatesState(ms[0])
    && (|ms| > 1 ==> IsJoint(joints[0], TrailingPosition) && GroupFits(ms[1..], joints[1..], end, env))
  }

  /** The options of a group, a pattern for each member, the number wrapping at 2^16. */
  function GroupOpts(ms: seq<Member>, joints: seq<Joint>, end: string, env: Env, block: uint16, pattern: uint16): seq<Opt>
    requires GroupFits(ms, joints, end, env)
  {
    MemberOpts(ms[0], BehindFirst(ms, joints, end), env, block, pattern)
      + if |ms| == 1 then [] else GroupOpts(ms[1..], joints[1..], end, env, block, (pattern + 1) % 65536)
  }

  lemma {:induction false} GroupIsRead(
    ms: seq<Member>, joints: seq<Joint>, before: string, rest: string, p: Place, env: Env, seen: bool, tokens: seq<Opt>)
    requires GroupFits(ms, joints, before + "}" + rest, env) && Gap(before) && TakesAll(env.refuses)
    ensures GroupFrom(Group(true, TrailingPosition), GroupText(ms, joints, before + "}" + rest), p, env, seen, tokens) ==
            Read(tokens + GroupOpts(ms, joints, before + "}" + rest, env, Block(p), Pattern(p)), seen, Ok(rest))
    decreases |ms|
  {
    hide OneOption, MemberText, Fits, MemberOpts, Block, Pattern, NextPlace, Next, AllSized, IsSeparator, Gap;
    var end := before + "}" + rest;
    MemberIsRead(ms[0], BehindFirst(ms, joints, end), p, env, seen, tokens);
    var own := MemberOpts(ms[0], BehindFirst(ms, joints, end), env, Block(p), Pattern(p));
    if |ms| == 1 {
      GroupCloses(TrailingPosition, before, rest);
      assert tokens + own == tokens + GroupOpts(ms, joints, end, env, Block(p), Pattern(p));
    } else {
      var next := GroupText(ms[1..], joints[1..], end);
      GroupBegins(ms[1..], joints[1..], end, env);
      GroupGoesOn(TrailingPosition, joints[0].before, joints[0].separator, joints[0].behind, next);
      GroupIsRead(ms[1..], joints[1..], before, rest, NextPlace(p), env, seen, tokens + own);
      var more := GroupOpts(ms[1..], joints[1..], end, env, Block(p), Pattern(NextPlace(p)));
      assert tokens + own + more == tokens + (own + more);
    }
  }

  lemma GroupBegins(ms: seq<Member>, joints: seq<Joint>, end: string, env: Env)
    requires GroupFits(ms, joints, end, env)
    ensures var s := GroupText(ms, joints, end); Begins(s) && !("{" <= s)
  {
    hide MemberText;
    MemberBegins(ms[0], BehindFirst(ms, joints, end));
  }

  // ------------------------------------------------------------------------- a list

  datatype Spelled = Single(m: Member) | Braced(behind: string, ms: seq<Member>, joints: seq<Joint>, before: string)

  predicate BlockSized(b: Spelled) {
    match b
    case Single(m) => AllSized([m])
    case Braced(_, ms, joints, _) => |joints| == |ms| - 1 && AllSized(ms)
  }

  function BlockText(b: Spelled, rest: string): string
    requires BlockSized(b)
  {
    match b
    case Single(m) =>
      assert [m][0] == m;
      MemberText(m, rest)
    case Braced(behind, ms, joints, before) => "{" + behind + GroupText(ms, joints, before + "}" + rest)
  }

  predicate BlockFits(b: Spelled, rest: string, env: Env) {
    && BlockSized(b)
    && match b
       case Single(m) => Fits(m, rest, env)
       case Braced(behind, ms, joints, before) => Gap(behind) && Gap(before) && GroupFits(ms, joints, before + "}" + rest, env)
  }

  function BlockOpts(b: Spelled, rest: string, env: Env, block: uint16): seq<Opt>
    requires BlockFits(b, rest, env)
  {
    match b
    case Single(m) => MemberOpts(m, rest, env, block, 0)
    case Braced(_, ms, joints, before) => GroupOpts(ms, joints, before + "}" + rest, env, block, 0)
  }

  predicate BlockState(b: Spelled) { b.Single? && CreatesState(b.m) }

  lemma BlockIsRead(b: Spelled, rest: string, blocks: uint16, env: Env, seen: bool, tokens: seq<Opt>)
    requires BlockFits(b, rest, env) && TakesAll(env.refuses) && (BlockState(b) ==> !seen)
    ensures OptionGroup(BlockText(b, rest), blocks, env, seen, tokens) ==
            Read(tokens + BlockOpts(b, rest, env, blocks), seen || BlockState(b), Ok(rest))
  {
    hide OneOption, MemberText, MemberOpts, GroupText, GroupOpts, GroupFits, FirstPlace, Block, Pattern, IsBraced, Gap, IsNot;
    match b {
      case Single(m) =>
        MemberStarts(m, rest, env);
        NothingOpens(TrailingPosition, BlockText(b, rest));
        AloneEnds(TrailingPosition, rest);
        MemberIsRead(m, rest, FirstPlace(blocks, false), env, seen, tokens);
      case Braced(behind, ms, joints, before) =>
        GroupBegins(ms, joints, before + "}" + rest, env);
        GroupOpens(TrailingPosition, behind, GroupText(ms, joints, before + "}" + rest));
        GroupIsRead(ms, joints, before, rest, FirstPlace(blocks, true), env, seen, tokens);
    }
  }

  lemma MemberStarts(m: Member, rest: string, env: Env)
    requires Fits(m, rest, env)
    ensures !("{" <= MemberText(m, rest))
  {
    hide MemberText;
    MemberBegins(m, rest);
  }

  predicate BlocksSized(bs: seq<Spelled>) {
    forall i :: 0 <= i < |bs| ==> BlockSized(bs[i])
  }

  /** Blocks, each with the white space behind it. */
  function OptionsText(bs: seq<Spelled>, gaps: seq<string>, rest: string): string
    requires |gaps| == |bs| && BlocksSized(bs)
  {
    if bs == [] then rest else BlockText(bs[0], gaps[0] + OptionsText(bs[1..], gaps[1..], rest))
  }

  /** The end of a text or of a line. */
  predicate EndsLine(rest: string) {
    rest == "" || rest[0] == '\n' || (|rest| > 1 && rest[0] == '\r' && rest[1] == '\n')
  }

  /** Blocks are apart, at most one creates state, and only the end of a line stands behind
      the white space of the last of them. */
  predicate OptionsFit(bs: seq<Spelled>, gaps: seq<string>, rest: string, env: Env, seen: bool) {
    && |gaps| == |bs| && BlocksSized(bs)
    && if bs == [] then EndsLine(rest)
       else
         && BlockFits(bs[0], gaps[0] + OptionsText(bs[1..], gaps[1..], rest), env) && (BlockState(bs[0]) ==> !seen)
         && Spaces(gaps[0])
         && if gaps[0] == "" then |bs| == 1 && (rest != "" ==> rest[0] != ' ' && rest[0] != '\t')
            else OptionsFit(bs[1..], gaps[1..], rest, env, seen || BlockState(bs[0]))
  }

  /** The options of a list, a number for each block, wrapping at 2^16. */
  function ListOpts(bs: seq<Spelled>, gaps: seq<string>, rest: string, env: Env, seen: bool, blocks: uint16): seq<Opt>
    requires OptionsFit(bs, gaps, rest, env, seen)
  {
    if bs == [] then []
    else
      BlockOpts(bs[0], gaps[0] + OptionsText(bs[1..], gaps[1..], rest), env, blocks)
        + if gaps[0] == "" then [] else ListOpts(bs[1..], gaps[1..], rest, env, seen || BlockState(bs[0]), (blocks + 1) % 65536)
  }

  predicate SomeState(bs: seq<Spelled>) {
    exists i :: 0 <= i < |bs| && BlockState(bs[i])
  }

  /** A list is read block by block, in order and whole. */
  lemma {:induction false} OptionsAreRead(
    bs: seq<Spelled>, gaps: seq<string>, rest: string, blocks: uint16, env: Env, seen: bool, tokens: seq<Opt>)
    requires OptionsFit(bs, gaps, rest, env, seen) && TakesAll(env.refuses)
    ensures OptionList(OptionsText(bs, gaps, rest), blocks, env, seen, tokens) ==
            Listed(tokens + ListOpts(bs, gaps, rest, env, seen, blocks), seen || SomeState(bs), (blocks + |bs|) % 65536, Ok(rest))
    decreases |bs|
  {
    hide OptionList, OptionsText, BlockText, BlockFits, BlockOpts, BlockState, Spaces, SomeState, BlockSized, EndsLine, TakesAll;
    if bs == [] {
      NothingIsListed(rest, blocks, env, seen, tokens);
      NoText(gaps, rest);
    } else {
      FirstIsListed(bs, gaps, rest, blocks, env, seen, tokens);
      StateOfFirst(bs);
      var own := BlockOpts(bs[0], gaps[0] + OptionsText(bs[1..], gaps[1..], rest), env, blocks);
      if gaps[0] == "" {
        assert own + [] == own && bs[1..] == [];
      } else {
        OptionsAreRead(bs[1..], gaps[1..], rest, (blocks + 1) % 65536, env, seen || BlockState(bs[0]), tokens + own);
        var more := ListOpts(bs[1..], gaps[1..], rest, env, seen || BlockState(bs[0]), (blocks + 1) % 65536);
        assert tokens + own + more == tokens + (own + more);
      }
    }
  }

  lemma NoText(gaps: seq<string>, rest: string)
    requires gaps == []
    ensures OptionsText([], gaps, rest) == rest
  {
  }

  /** The first block of a list, and what the list goes on with. */
  lemma FirstIsListed(bs: seq<Spelled>, gaps: seq<string>, rest: string, blocks: uint16, env: Env, seen: bool, tokens: seq<Opt>)
    requires bs != [] && OptionsFit(bs, gaps, rest, env, seen) && TakesAll(env.refuses)
    ensures var next := OptionsText(bs[1..], gaps[1..], rest);
            var more, created := tokens + BlockOpts(bs[0], gaps[0] + next, env, blocks), seen || BlockState(bs[0]);
            OptionList(OptionsText(bs, gaps, rest), blocks, env, seen, tokens) ==
              if gaps[0] == "" then Listed(more, created, (blocks + 1) % 65536, Ok(rest))
              else OptionList(next, (blocks + 1) % 65536, env, created, more)
  {
    hide OptionGroup, OptionList, BlockText, BlockFits, BlockOpts, BlockState, Spaces, LineEnded, EndsLine, TakesAll;
    var next := OptionsText(bs[1..], gaps[1..], rest);
    BlockIsRead(bs[0], gaps[0] + next, blocks, env, seen, tokens);
    BlockBegins(bs[0], gaps[0] + next, env);
    if gaps[0] == "" {
      assert bs[1..] == [] && gaps[0] + next == rest;
      ListStops(OptionsText(bs, gaps, rest), rest, blocks, env, seen, tokens);
    } else {
      OptionsBegin(bs[1..], gaps[1..], rest, env, seen || BlockState(bs[0]));
      ListGoesOn(OptionsText(bs, gaps, rest), gaps[0], next, blocks, env, seen, tokens);
    }
  }

  lemma NothingIsListed(rest: string, blocks: uint16, env: Env, seen: bool, tokens: seq<Opt>)
    requires EndsLine(rest)
    ensures OptionList(rest, blocks, env, seen, tokens) == Listed(tokens, seen, blocks, Ok(rest))
    ensures tokens + [] == tokens && !SomeState([])
  {
  }

  lemma ListStops(s: string, rest: string, blocks: uint16, env: Env, seen: bool, tokens: seq<Opt>)
    requires !LineEnded(s) && OptionGroup(s, blocks, env, seen, tokens).outcome == Ok(rest)
    requires rest != "" ==> rest[0] != ' ' && rest[0] != '\t'
    ensures var o := OptionGroup(s, blocks, env, seen, tokens);
            OptionList(s, blocks, env, seen, tokens) == Listed(o.tokens, o.seen, (blocks + 1) % 65536, Ok(rest))
  {
    hide OptionGroup;
    SpacesAreTaken("", rest);
    assert "" + rest == rest;
  }

  lemma ListGoesOn(s: string, gap: string, next: string, blocks: uint16, env: Env, seen: bool, tokens: seq<Opt>)
    requires !LineEnded(s) && OptionGroup(s, blocks, env, seen, tokens).outcome == Ok(gap + next)
    requires Spaces(gap) && gap != "" && (next != "" ==> next[0] != ' ' && next[0] != '\t')
    ensures var o := OptionGroup(s, blocks, env, seen, tokens);
            OptionList(s, blocks, env, seen, tokens) == OptionList(next, (blocks + 1) % 65536, env, o.seen, o.tokens)
  {
    hide OptionGroup, Spaces;
    SpacesAreTaken(gap, next);
  }

  lemma BlockBegins(b: Spelled, rest: string, env: Env)
    requires BlockFits(b, rest, env)
    ensures var s := BlockText(b, rest); s != "" && !LineEnded(s) && s[0] != ' ' && s[0] != '\t'
  {
    hide MemberText, GroupText, GroupFits;
    match b {
      case Single(m) =>
        MemberBegins(m, rest);
        assert BlockText(b, rest) == MemberText(m, rest);
      case Braced(_, _, _, _) => assert BlockText(b, rest)[0] == '{';
    }
  }

  lemma OptionsBegin(bs: seq<Spelled>, gaps: seq<string>, rest: string, env: Env, seen: bool)
    requires OptionsFit(bs, gaps, rest, env, seen)
    ensures var s := OptionsText(bs, gaps, rest); s != "" ==> s[0] != ' ' && s[0] != '\t'
  {
    hide BlockText, BlockFits;
    if bs != [] {
      BlockBegins(bs[0], gaps[0] + OptionsText(bs[1..], gaps[1..], rest), env);
    }
  }

  lemma StateOfFirst(bs: seq<Spelled>)
    requires bs != []
    ensures SomeState(bs) <==> BlockState(bs[0]) || SomeState(bs[1..])
    ensures !SomeState([])
  {
    assert forall i :: 0 < i < |bs| ==> bs[i] == bs[1..][i - 1];
  }

  // ---------------------------------------------------------- the comment of a rule

  /** A comment behind a rule is one more option, in a block of its own. */
  lemma CommentIsRead(spaces: string, text: string, blocks: uint16, env: Env, seen: bool, tokens: seq<Opt>)
    requires Spaces(spaces)
    ensures TrailingComment(spaces + ("//" + text), blocks, env, seen, tokens) ==
            match env.argument(OptComment, text)
            case Malformed(at) => Listed(tokens, seen, blocks, Err(Fail(LeafFailure, Behind("//" + text, at))))
            case Argument(fields, at, length) =>
              var opt := fields.(neg := false, block := blocks, pattern := 0, kind := OptComment);
              if env.refuses(tokens, opt) then Listed(tokens, seen, blocks, Err(Fail(StateFailure, Behind("//" + text, at))))
              else Listed(tokens + [opt], seen, (blocks + 1) % 65536, Ok(Behind(text, length)))
  {
    hide FirstPlace, Block, Pattern, IsBraced;
    SpacesAreTaken(spaces, "//" + text);
    assert ("//" + text)[2..] == text;
  }

  /** Any other text behind a rule is left alone. */
  lemma NoCommentIsRead(spaces: string, rest: string, blocks: uint16, env: Env, seen: bool, tokens: seq<Opt>)
    requires Spaces(spaces) && (rest == "" || (rest[0] != ' ' && rest[0] != '\t'))
    requires !(|rest| > 1 && rest[0] == '/' && rest[1] == '/')
    ensures TrailingComment(spaces + rest, blocks, env, seen, tokens) == Listed(tokens, seen, blocks, Ok(spaces + rest))
  {
    SpacesAreTaken(spaces, rest);
  }
}
