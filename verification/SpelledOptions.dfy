/**
 How options are spelled (opt.go): the keywords of every kind, what ends them, and
 that a list of options so spelled is read as those options, block by block.
 */
module SpelledOptions {
  import opened Ipfw
  import opened Lex
  import opened Keywords
  import opened Options
  import opened SpelledGroups
  import opened SpelledPorts
  import Ports

  // ------------------------------------------------------------------- the keywords

  /** The keywords of the kinds without an argument. */
  predicate IsPlainKeyword(keyword: string, kind: OptKind) {
    match kind
    case OptAntiSpoof => keyword == "antispoof"
    case OptDiverted => keyword == "diverted"
    case OptEstablished => keyword == "established" || keyword == "estab"
    case OptFrag => keyword == "frag" || keyword == "fragment"
    case OptIn => keyword == "in"
    case OptOut => keyword == "out"
    case _ => false
  }

  /** The keywords of the kinds with an argument that is no list of ports. */
  predicate IsArgumentKeyword(keyword: string, kind: OptKind) {
    match kind
    case OptComment => keyword == "//"
    case OptICMPTypes => keyword == "icmptypes" || keyword == "icmptype"
    case OptICMP6Types => keyword == "icmp6types" || keyword == "icmp6type"
    case OptKeepState => keyword == "keep-state"
    case OptProto => keyword == "proto"
    case OptTCPFlags => keyword == "tcpflags" || keyword == "tcpflgs"
    case OptVia => keyword == "via"
    case _ => false
  }

  predicate IsPortsKeyword(keyword: string, kind: OptKind) {
    match kind
    case OptSourcePort => keyword == "src-port"
    case OptDestinationPort => keyword == "dst-port"
    case _ => false
  }

  /** What ends a keyword: the end of the text, white space, a closing brace, a comment,
      or a bar that is a token. */
  predicate EndsWord(rest: string) {
    || rest == "" || Blank(rest[0]) || rest[0] == '}' || (|rest| > 1 && rest[0] == '/' && rest[1] == '/')
    || (rest[0] == '|' && (|rest| == 1 || Blank(rest[1])))
  }

  lemma EndsWordIs(rest: string)
    ensures EndsWord(rest) <==> Boundary(rest)
  {
  }

  lemma KeywordThen(keyword: string, rest: string)
    ensures keyword <= keyword + rest && (keyword + rest)[|keyword|..] == rest
    ensures keyword != "" ==> (keyword + rest)[0] == keyword[0]
  {
  }

  /** The bytes of keywords, none of which ends one. */
  predicate Wordy(t: string) {
    forall k :: 0 <= k < |t| ==> 'a' <= t[k] <= 'z' || t[k] == '-' || t[k] == '6'
  }

  /** Where a keyword ends, no other stands. */
  lemma OnlyItself(keyword: string, rest: string, other: string)
    requires Wordy(keyword) && Wordy(other) && EndsWord(rest)
    ensures OptionKeyword(keyword + rest, other) <==> keyword == other
  {
    var s := keyword + rest;
    EndsWordIs(rest);
    KeywordThen(keyword, rest);
    assert s[..|keyword|] == keyword;
    assert rest != "" ==> s[|keyword|] == rest[0];
    assert |other| < |keyword| ==> s[|other|..][0] == keyword[|other|];
  }

  lemma KeywordsAreWordy()
    ensures Wordy("antispoof") && Wordy("diverted") && Wordy("established") && Wordy("estab") && Wordy("frag") && Wordy("fragment")
    ensures Wordy("in") && Wordy("out") && Wordy("icmptypes") && Wordy("icmptype") && Wordy("icmp6types") && Wordy("icmp6type")
    ensures Wordy("keep-state") && Wordy("proto") && Wordy("tcpflags") && Wordy("tcpflgs") && Wordy("via")
    ensures Wordy("src-port") && Wordy("dst-port")
  {
  }

  /** Every keyword the reader looks for is there exactly when it is the one spelled. */
  lemma OnlyOne(keyword: string, rest: string)
    requires Wordy(keyword) && EndsWord(rest)
    ensures forall other :: other in KEYWORDS ==> (OptionKeyword(keyword + rest, other) <==> keyword == other)
  {
    hide OptionKeyword;
    KeywordsAreWordy();
    forall other | other in KEYWORDS ensures OptionKeyword(keyword + rest, other) <==> keyword == other {
      AllAreWordy(other);
      OnlyItself(keyword, rest, other);
    }
  }

  lemma AllAreWordy(keyword: string)
    requires keyword in KEYWORDS
    ensures Wordy(keyword)
  {
    KeywordsAreWordy();
    hide Wordy;
  }

  /** A plain keyword is told as its kind and nothing else. */
  lemma PlainIsTold(keyword: string, kind: OptKind, rest: string)
    requires IsPlainKeyword(keyword, kind) && EndsWord(rest)
    ensures ArgumentOption(keyword + rest) == (OptUnset, 0) && KeywordOption(keyword + rest) == Some((kind, rest))
  {
    hide EndsWord, Boundary, OptionKeyword, Wordy;
    KeywordsAreWordy();
    OnlyOne(keyword, rest);
    KeywordThen(keyword, rest);
  }

  /** A keyword that wants an argument is told as its kind, by its length. */
  lemma ArgumentIsTold(keyword: string, kind: OptKind, rest: string)
    requires IsArgumentKeyword(keyword, kind) || IsPortsKeyword(keyword, kind)
    requires kind == OptComment || EndsWord(rest)
    ensures ArgumentOption(keyword + rest) == (kind, |keyword|)
  {
    hide ArgumentOption, EndsWord;
    if kind == OptComment {
      CommentIsTold(rest);
    } else if kind == OptICMPTypes || kind == OptICMP6Types {
      TypesAreTold(keyword, kind, rest);
    } else {
      OthersAreTold(keyword, kind, rest);
    }
  }

  lemma CommentIsTold(rest: string)
    ensures ArgumentOption("//" + rest) == (OptComment, 2)
  {
  }

  lemma TypesAreTold(keyword: string, kind: OptKind, rest: string)
    requires IsArgumentKeyword(keyword, kind) && (kind == OptICMPTypes || kind == OptICMP6Types) && EndsWord(rest)
    ensures ArgumentOption(keyword + rest) == (kind, |keyword|)
  {
    hide EndsWord, Boundary, OptionKeyword, Wordy;
    KeywordsAreWordy();
    OnlyOne(keyword, rest);
    KeywordThen(keyword, rest);
  }

  lemma OthersAreTold(keyword: string, kind: OptKind, rest: string)
    requires IsArgumentKeyword(keyword, kind) || IsPortsKeyword(keyword, kind)
    requires kind != OptComment && kind != OptICMPTypes && kind != OptICMP6Types && EndsWord(rest)
    ensures ArgumentOption(keyword + rest) == (kind, |keyword|)
  {
    hide EndsWord, Boundary, OptionKeyword, Wordy;
    KeywordsAreWordy();
    OnlyOne(keyword, rest);
    KeywordThen(keyword, rest);
  }

  /** No keyword of any kind and no comment: the hook is asked. */
  lemma NothingIsTold(s: string)
    requires !("//" <= s)
    requires forall kind, n: nat :: n <= |s| && EndsWord(s[n..]) ==>
               !IsPlainKeyword(s[..n], kind) && !IsArgumentKeyword(s[..n], kind) && !IsPortsKeyword(s[..n], kind)
    ensures ArgumentOption(s) == (OptUnset, 0) && KeywordOption(s).None?
  {
    hide KEYWORDS, EndsWord, OptionKeyword, IsPlainKeyword, IsArgumentKeyword, IsPortsKeyword, ArgumentOption, KeywordOption;
    StartsOptionIff(s);
    if StartsOption(s) {
      var keyword :| keyword in KEYWORDS && OptionKeyword(s, keyword);
      KeywordIsThere(s, keyword);
      var kind := KindOfKeyword(keyword);
    }
  }

  lemma KeywordIsThere(s: string, keyword: string)
    requires OptionKeyword(s, keyword)
    ensures |keyword| <= |s| && s[..|keyword|] == keyword && EndsWord(s[|keyword|..])
  {
    EndsWordIs(s[|keyword|..]);
  }

  lemma KindOfKeyword(keyword: string) returns (kind: OptKind)
    requires keyword in KEYWORDS
    ensures IsPlainKeyword(keyword, kind) || IsArgumentKeyword(keyword, kind) || IsPortsKeyword(keyword, kind)
  {
    match keyword {
      case "src-port" => kind := OptSourcePort;
      case "dst-port" => kind := OptDestinationPort;
      case "keep-state" => kind := OptKeepState;
      case "icmptypes" | "icmptype" => kind := OptICMPTypes;
      case "icmp6types" | "icmp6type" => kind := OptICMP6Types;
      case "proto" => kind := OptProto;
      case "tcpflags" | "tcpflgs" => kind := OptTCPFlags;
      case "via" => kind := OptVia;
      case "antispoof" => kind := OptAntiSpoof;
      case "diverted" => kind := OptDiverted;
      case "established" | "estab" => kind := OptEstablished;
      case "fragment" | "frag" => kind := OptFrag;
      case "in" => kind := OptIn;
      case _ => kind := OptOut;
    }
  }

  // --------------------------------------------------------------------- one option

  /** An option of a kind without arguments, field by field. */
  function PlainOpt(neg: bool, block: uint16, pattern: uint16, kind: OptKind): Opt {
    Opt(neg, block, pattern, kind, "", "", PortRange(Port("", 0), Port("", 0)), Proto("", 0), TypeSet(0, 0, 0, 0), 0, 0,
        Via(ViaUnset, "", ""))
  }

  lemma NotThen(t: string, s: string)
    requires IsNot(t) && (s != "" ==> s[0] != ' ' && s[0] != '\t')
    requires t == "" ==> |s| < 4 || s[0] != 'n' || s[1] != 'o' || s[2] != 't' || (s[3] != ' ' && s[3] != '\t')
    ensures NotWS1(t + s) == (s, t != "")
  {
    if t == "" {
      assert t + s == s;
      NoNotIsRead(s);
    } else {
      assert t == "not" + t[3..];
      NotIsRead(t[3..], s);
    }
  }

  /** A plain option reaches the state with its kind, its negation and its place,
      and leaves what stands behind it. */
  lemma PlainIsRead(not: string, keyword: string, kind: OptKind, rest: string, p: Place, env: Env, seen: bool, tokens: seq<Opt>)
    requires IsNot(not) && IsPlainKeyword(keyword, kind) && EndsWord(rest)
    ensures var opt := PlainOpt(not != "", Block(p), Pattern(p), kind);
            OneOption(not + (keyword + rest), p, env, seen, tokens) ==
              if env.refuses(tokens, opt) then Read(tokens, seen, Err(Fail(StateFailure, keyword + rest)))
              else Read(tokens + [opt], seen, Ok(rest))
  {
    hide IsNot, EndsWord, ArgumentOption, KeywordOption, NotWS1, Block, Pattern;
    KeywordThen(keyword, rest);
    NotThen(not, keyword + rest);
    PlainIsTold(keyword, kind, rest);
  }

  /** What is left of a text behind a number of bytes. */
  function Behind(s: string, n: int): string {
    if n <= 0 then s else if n < |s| then s[n..] else ""
  }

  /** An argument is read from right behind its keyword, and what was read of it becomes
      an option of the kind, the negation and the place. */
  lemma ArgumentIsRead(not: string, keyword: string, kind: OptKind, rest: string, p: Place, env: Env, seen: bool, tokens: seq<Opt>)
    requires IsNot(not) && IsArgumentKeyword(keyword, kind) && (kind == OptComment || EndsWord(rest))
    requires kind == OptKeepState ==> !seen && !IsBraced(p)
    ensures var after := seen || kind == OptKeepState;
            OneOption(not + (keyword + rest), p, env, seen, tokens) ==
              match env.argument(kind, rest)
              case Malformed(at) => Read(tokens, after, Err(Fail(LeafFailure, Behind(keyword + rest, at))))
              case Argument(fields, at, length) =>
                var opt := fields.(neg := not != "", block := Block(p), pattern := Pattern(p), kind := kind);
                if env.refuses(tokens, opt) then Read(tokens, after, Err(Fail(StateFailure, Behind(keyword + rest, at))))
                else Read(tokens + [opt], after, Ok(Behind(rest, length)))
  {
    hide IsNot, EndsWord, ArgumentOption, NotWS1, Block, Pattern, IsBraced;
    KeywordThen(keyword, rest);
    NotThen(not, keyword + rest);
    ArgumentIsTold(keyword, kind, rest);
  }

  /** A second `keep-state`, or one in braces, is refused before its argument is read. */
  lemma StateIsRefused(not: string, rest: string, p: Place, env: Env, seen: bool, tokens: seq<Opt>)
    requires IsNot(not) && EndsWord(rest) && (seen || IsBraced(p))
    ensures OneOption(not + ("keep-state" + rest), p, env, seen, tokens) ==
            Read(tokens, seen, Err(Fail(if IsBraced(p) then DynamicStateInGroup else DuplicateDynamicState, "keep-state" + rest)))
  {
    hide IsNot, EndsWord, ArgumentOption, NotWS1, IsBraced;
    KeywordThen("keep-state", rest);
    NotThen(not, "keep-state" + rest);
    ArgumentIsTold("keep-state", OptKeepState, rest);
  }

  /** Any other text is the hook's, and unknown without one. */
  lemma OthersAreCustom(not: string, s: string, p: Place, env: Env, seen: bool, tokens: seq<Opt>)
    requires IsNot(not) && s != "" && s[0] != ' ' && s[0] != '\t' && !("//" <= s)
    requires not == "" ==> |s| < 4 || s[0] != 'n' || s[1] != 'o' || s[2] != 't' || (s[3] != ' ' && s[3] != '\t')
    requires forall kind, n: nat :: n <= |s| && EndsWord(s[n..]) ==>
               !IsPlainKeyword(s[..n], kind) && !IsArgumentKeyword(s[..n], kind) && !IsPortsKeyword(s[..n], kind)
    ensures OneOption(not + s, p, env, seen, tokens) ==
            match env.hook
            case None => Read(tokens, seen, Err(Fail(UnknownOption, s)))
            case Some(hook) =>
              var answer := hook(s);
              var state := answer.opt.kind == OptKeepState;
              if answer.failed then Read(tokens, seen, Err(Fail(LeafFailure, Behind(s, answer.length))))
              else if answer.length <= 0 then Read(tokens, seen, Err(Fail(UnknownOption, s)))
              else if state && IsBraced(p) then Read(tokens, seen, Err(Fail(DynamicStateInGroup, s)))
              else if state && seen then Read(tokens, seen, Err(Fail(DuplicateDynamicState, s)))
              else
                var opt := answer.opt.(neg := not != "", block := Block(p), pattern := Pattern(p));
                if env.refuses(tokens, opt) then Read(tokens, seen || state, Err(Fail(StateFailure, s)))
                else Read(tokens + [opt], seen || state, Ok(Behind(s, answer.length)))
  {
    hide IsNot, EndsWord, ArgumentOption, KeywordOption, NotWS1, Block, Pattern, IsBraced, IsPlainKeyword, IsArgumentKeyword, IsPortsKeyword;
    NotThen(not, s);
    NothingIsTold(s);
  }

  // ------------------------------------------------------------------ lists of ports

  function PortOpts(head: Opt, rs: seq<RangeSpelling>): (r: seq<Opt>)
    ensures |r| == |rs| && forall i :: 0 <= i < |rs| ==> r[i] == head.(ports := RangeOf(rs[i]))
  {
    seq(|rs|, i requires 0 <= i < |rs| => head.(ports := RangeOf(rs[i])))
  }

  /** The ranges of an option are read as those of a section, members of one pattern. */
  lemma {:induction false} PortMembersAreRead(
    rs: seq<RangeSpelling>, gaps: seq<string>, tail: string, rest: string, head: Opt, env: Env, seen: bool, tokens: seq<Opt>, k: nat)
    requires ListSpelled(rs, gaps) && EndsList(rs, tail, rest) && TakesUpTo(env.refuses, tokens, PortOpts(head, rs), k)
    ensures PortMembers(ListText(rs, gaps) + tail + rest, head, env, seen, tokens) ==
            if k == |rs| then Read(tokens + PortOpts(head, rs), seen, Ok(rest))
            else Read(tokens + PortOpts(head, rs)[..k], seen, Err(Fail(StateFailure, ListText(rs[k..], gaps[k..]) + tail + rest)))
    decreases |rs|
  {
    hide Ports.ParsePortRange, ListText, RangeOf, TakesUpTo, AfterComma, ListEnded, EndsRange, RangeSpelled, CommaGap, PortOpts;
    var after := OneOfList(rs, gaps, tail, rest);
    var opts := PortOpts(head, rs);
    FirstPortOpt(head, rs);
    TakesFirst(env.refuses, tokens, opts, k);
    HasTaken(env.refuses, tokens, opts, k);
    if k == 0 {
      assert rs[0..] == rs && gaps[0..] == gaps && tokens + opts[..0] == tokens;
    } else if |rs| == 1 {
      assert opts == [opts[0]];
    } else {
      PortMembersAreRead(rs[1..], gaps[1..], tail, rest, head, env, seen, tokens + [opts[0]], k - 1);
      LaterOnes(tokens, opts, k);
      assert rs[1..][k - 1..] == rs[k..];
      assert k < |rs| ==> gaps[1..][k - 1..] == gaps[k..];
    }
  }

  lemma FirstPortOpt(head: Opt, rs: seq<RangeSpelling>)
    requires rs != []
    ensures PortOpts(head, rs)[0] == head.(ports := RangeOf(rs[0])) && PortOpts(head, rs)[1..] == PortOpts(head, rs[1..])
  {
  }

  /** An option of ports, its ranges behind white space. */
  lemma PortsAreRead(
    not: string, keyword: string, kind: OptKind, spaces: string, rs: seq<RangeSpelling>, gaps: seq<string>, tail: string, rest: string,
    p: Place, env: Env, seen: bool, tokens: seq<Opt>, k: nat)
    requires IsNot(not) && IsPortsKeyword(keyword, kind) && Spaces(spaces) && spaces != ""
    requires ListSpelled(rs, gaps) && EndsList(rs, tail, rest)
    requires TakesUpTo(env.refuses, tokens, PortOpts(PlainOpt(not != "", Block(p), Pattern(p), kind), rs), k)
    ensures var opts := PortOpts(PlainOpt(not != "", Block(p), Pattern(p), kind), rs);
            OneOption(not + (keyword + (spaces + (ListText(rs, gaps) + tail + rest))), p, env, seen, tokens) ==
              if k == |rs| then Read(tokens + opts, seen, Ok(rest))
              else Read(tokens + opts[..k], seen, Err(Fail(StateFailure, ListText(rs[k..], gaps[k..]) + tail + rest)))
  {
    hide IsNot, OneOption, Block, Pattern, TakesUpTo, PortMembers, PortOpts, ListText, EndsList;
    LaterBegin(rs, gaps, tail, rest);
    PortsBehindSpaces(not, keyword, kind, spaces, ListText(rs, gaps) + tail + rest, p, env, seen, tokens);
    PortMembersAreRead(rs, gaps, tail, rest, PlainOpt(not != "", Block(p), Pattern(p), kind), env, seen, tokens, k);
  }

  lemma PortsBehindSpaces(
    not: string, keyword: string, kind: OptKind, spaces: string, list: string, p: Place, env: Env, seen: bool, tokens: seq<Opt>)
    requires IsNot(not) && IsPortsKeyword(keyword, kind) && Spaces(spaces) && spaces != ""
    requires list == "" || (list[0] != ' ' && list[0] != '\t')
    ensures OneOption(not + (keyword + (spaces + list)), p, env, seen, tokens) ==
            PortMembers(list, PlainOpt(not != "", Block(p), Pattern(p), kind), env, seen, tokens)
  {
    hide IsNot, ArgumentOption, NotWS1, Block, Pattern, PortMembers, EndsWord, Spaces;
    KeywordThen(keyword, spaces + list);
    NotThen(not, keyword + (spaces + list));
    SpacesEnd(spaces, list);
    ArgumentIsTold(keyword, kind, spaces + list);
    SpacesAreTaken(spaces, list);
  }

  lemma SpacesEnd(spaces: string, list: string)
    requires Spaces(spaces) && spaces != ""
    ensures EndsWord(spaces + list)
  {
  }

  lemma SpacesAreTaken(spaces: string, list: string)
    requires Spaces(spaces) && (list == "" || (list[0] != ' ' && list[0] != '\t'))
    ensures Run(spaces + list, IsWS) == |spaces| && After(spaces + list, IsWS) == list
  {
    assert All(spaces, IsWS);
    RunOf(spaces, list, IsWS);
  }

  /** Without white space behind it, or without a port, a keyword of ports is refused. */
  lemma PortsAreWanted(not: string, keyword: string, kind: OptKind, spaces: string, rest: string, p: Place, env: Env, seen: bool, tokens: seq<Opt>)
    requires IsNot(not) && IsPortsKeyword(keyword, kind) && Spaces(spaces) && EndsWord(spaces + rest)
    requires rest == "" || (!IsNameByte(rest[0]) && rest[0] != '\\' && rest[0] != ' ' && rest[0] != '\t')
    ensures OneOption(not + (keyword + (spaces + rest)), p, env, seen, tokens) ==
            Read(tokens, seen, Err(if spaces == "" then Fail(ExpectedWhitespace, rest) else Fail(ExpectedPort, rest)))
  {
    hide IsNot, ArgumentOption, NotWS1, Block, Pattern, EndsWord, Ports.ParsePort;
    KeywordThen(keyword, spaces + rest);
    NotThen(not, keyword + (spaces + rest));
    ArgumentIsTold(keyword, kind, spaces + rest);
    SpacesAreTaken(spaces, rest);
    NoPortIsRead(rest);
    if spaces == "" {
      assert spaces + rest == rest;
    }
  }
}
