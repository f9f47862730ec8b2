/**
 What the formatter requires of the places of options (format.go), and that the
 parser (opt.go) gives every option list such places, up to its end or to a failure.
 The scans of the machine rely on them.
 */
module OptionPlaces {
  import opened Ipfw
  import opened Lex
  import opened Keywords
  import opened Options
  import Semantics
  import Meaning
  import Ports

  // ------------------------------------------------------- what the formatter checks

  /** An option in the pattern of the one before it, in the next pattern of its block
      or in the next block. */
  predicate Follows(prev: Opt, opt: Opt) {
    || (opt.block == prev.block && (opt.pattern == prev.pattern || opt.pattern == ToUint16(prev.pattern + 1)))
    || (opt.block == ToUint16(prev.block + 1) && opt.pattern == 0)
  }

  predicate PlacesValid(opts: seq<Opt>) {
    && (opts != [] ==> opts[0].block == 0 && opts[0].pattern == 0)
    && forall k :: 0 < k < |opts| ==> Follows(opts[k - 1], opts[k])
  }

  method ValidateOptionPlaces(opts: seq<Opt>) returns (failure: Option<FormatError>)
    ensures failure == if PlacesValid(opts) then None else Some(BrokenOrChain)
  {
    for idx := 0 to |opts|
      invariant PlacesValid(opts[..idx])
    {
      var opt := opts[idx];
      if idx == 0 {
        if opt.block != 0 || opt.pattern != 0 {
          return Some(BrokenOrChain);
        }
      } else {
        var prev := opts[idx - 1];
        var sameBlock := opt.block == prev.block && (opt.pattern == prev.pattern || opt.pattern == ToUint16(prev.pattern + 1));
        var nextBlock := opt.block == ToUint16(prev.block + 1) && opt.pattern == 0;
        if !sameBlock && !nextBlock {
          assert !Follows(opts[idx - 1], opts[idx]);
          return Some(BrokenOrChain);
        }
      }
    }
    assert opts[..|opts|] == opts;
    return None;
  }

  /** Counters of blocks and of the patterns within them, from zero on: an option counts
      neither, one pattern, or one block. */
  ghost predicate Counts(blocks: seq<nat>, patterns: seq<nat>) {
    && |blocks| == |patterns|
    && (blocks != [] ==> blocks[0] == 0 && patterns[0] == 0)
    && forall k :: 0 < k < |blocks| ==>
         if blocks[k] == blocks[k - 1] then patterns[k] == patterns[k - 1] || patterns[k] == patterns[k - 1] + 1
         else blocks[k] == blocks[k - 1] + 1 && patterns[k] == 0
  }

  /** The places of options are such counters, of which sixteen bits are kept. */
  ghost predicate Counted(opts: seq<Opt>, blocks: seq<nat>, patterns: seq<nat>) {
    && Counts(blocks, patterns) && |blocks| == |opts|
    && forall k :: 0 <= k < |opts| ==> opts[k].block == blocks[k] % 65536 && opts[k].pattern == patterns[k] % 65536
  }

  /** The formatter takes exactly the places that count on. */
  lemma CountedIsValid(opts: seq<Opt>, blocks: seq<nat>, patterns: seq<nat>)
    requires Counted(opts, blocks, patterns)
    ensures PlacesValid(opts)
  {
    hide Follows;
    forall k | 0 < k < |opts| ensures Follows(opts[k - 1], opts[k]) {
      OneOnFollows(opts[k - 1], opts[k], blocks[k - 1], blocks[k], patterns[k - 1], patterns[k]);
    }
  }

  lemma OneOnFollows(prev: Opt, opt: Opt, b: nat, nextB: nat, p: nat, nextP: nat)
    requires prev.block == b % 65536 && prev.pattern == p % 65536 && opt.block == nextB % 65536 && opt.pattern == nextP % 65536
    requires if nextB == b then nextP == p || nextP == p + 1 else nextB == b + 1 && nextP == 0
    ensures Follows(prev, opt)
  {
  }

  lemma {:induction false} ValidIsCounted(opts: seq<Opt>) returns (blocks: seq<nat>, patterns: seq<nat>)
    requires PlacesValid(opts)
    ensures Counted(opts, blocks, patterns)
  {
    hide Follows;
    blocks, patterns := [], [];
    if opts != [] {
      var n := |opts| - 1;
      blocks, patterns := ValidIsCounted(opts[..n]);
      if n == 0 {
        blocks, patterns := [0], [0];
      } else {
        assert opts[..n][n - 1] == opts[n - 1];
        var b, p := OneOn(opts[n - 1], opts[n], blocks[n - 1], patterns[n - 1]);
        blocks, patterns := blocks + [b], patterns + [p];
      }
    }
  }

  lemma OneOn(prev: Opt, opt: Opt, b: nat, p: nat) returns (nextB: nat, nextP: nat)
    requires Follows(prev, opt) && prev.block == b % 65536 && prev.pattern == p % 65536
    ensures if nextB == b then nextP == p || nextP == p + 1 else nextB == b + 1 && nextP == 0
    ensures opt.block == nextB % 65536 && opt.pattern == nextP % 65536
  {
    if opt.block == prev.block && opt.pattern == prev.pattern {
      nextB, nextP := b, p;
    } else if opt.block == prev.block && opt.pattern == ToUint16(prev.pattern + 1) {
      nextB, nextP := b, p + 1;
    } else {
      nextB, nextP := b + 1, 0;
    }
  }

  predicate InGroup(opts: seq<Opt>, k: nat)
    requires k < |opts|
  {
    opts[k].pattern > 0 || (k + 1 < |opts| && opts[k + 1].block == opts[k].block)
  }

  /** An option that creates state where the formatter does not take one: in a group,
      or when an earlier one does. */
  ghost predicate Offends(opts: seq<Opt>, k: nat)
    requires k < |opts|
  {
    opts[k].kind == OptKeepState && (InGroup(opts, k) || exists j :: 0 <= j < k && opts[j].kind == OptKeepState)
  }

  ghost predicate StateValid(opts: seq<Opt>) {
    forall k: nat :: k < |opts| ==> !Offends(opts, k)
  }

  /** Nothing but the first offence decides the failure. */
  method ValidateStateOptions(opts: seq<Opt>) returns (failure: Option<FailKind>)
    ensures match failure
            case None => StateValid(opts)
            case Some(kind) => exists k: nat :: k < |opts| && Offends(opts, k) && (forall j: nat :: j < k ==> !Offends(opts, j))
                                 && kind == if InGroup(opts, k) then DynamicStateInGroup else DuplicateDynamicState
  {
    var seen := false;
    for idx := 0 to |opts|
      invariant forall j: nat :: j < idx ==> !Offends(opts, j)
      invariant seen <==> exists j :: 0 <= j < idx && opts[j].kind == OptKeepState
    {
      if opts[idx].kind == OptKeepState {
        if InGroup(opts, idx) {
          assert Offends(opts, idx);
          return Some(DynamicStateInGroup);
        }
        if seen {
          assert Offends(opts, idx);
          return Some(DuplicateDynamicState);
        }
        seen := true;
      }
    }
    return None;
  }

  /** A list passes exactly when no option that creates state is in a group and there
      is one of them at most. */
  lemma StateValidIff(opts: seq<Opt>)
    ensures StateValid(opts) <==>
      && (forall k: nat :: k < |opts| && opts[k].kind == OptKeepState ==>
            opts[k].pattern == 0 && (k + 1 < |opts| ==> opts[k + 1].block != opts[k].block))
      && (forall j: nat, k: nat :: j < k < |opts| ==> !(opts[j].kind == OptKeepState && opts[k].kind == OptKeepState))
  {
    if !StateValid(opts) {
      var k: nat :| k < |opts| && Offends(opts, k);
    }
    forall k: nat | StateValid(opts) && k < |opts| && opts[k].kind == OptKeepState
      ensures !InGroup(opts, k) && forall j: nat :: j < k ==> opts[j].kind != OptKeepState
    {
      assert !Offends(opts, k);
    }
  }

  /** The index past the pattern an option starts. */
  function PatternRun(opts: seq<Opt>, head: nat, i: nat): (r: nat)
    requires head < i <= |opts|
    ensures i <= r <= |opts|
    ensures forall k :: i <= k < r ==> Meaning.SamePattern(opts[head], opts[k])
    ensures r < |opts| ==> !Meaning.SamePattern(opts[head], opts[r])
    decreases |opts| - i
  {
    if i == |opts| || !Meaning.SamePattern(opts[head], opts[i]) then i else PatternRun(opts, head, i + 1)
  }

  method NextOptionPattern(opts: seq<Opt>, idx: nat) returns (next: nat)
    requires idx < |opts|
    ensures next == PatternRun(opts, idx, idx + 1)
  {
    next := idx + 1;
    while next < |opts| && Meaning.SamePattern(opts[idx], opts[next])
      invariant idx < next <= |opts|
      invariant PatternRun(opts, idx, idx + 1) == PatternRun(opts, idx, next)
    {
      next := next + 1;
    }
  }

  /** An option without an argument of another kind than its own. */
  predicate Bare(opt: Opt) {
    && (opt.text != "" ==> opt.kind == OptKeepState || opt.kind == OptComment)
    && opt.arg == ""
    && (opt.ports != NO_PORTS ==> opt.kind == OptSourcePort || opt.kind == OptDestinationPort)
    && (opt.proto != NO_PROTO ==> opt.kind == OptProto)
    && (opt.types != NO_TYPES ==> opt.kind == OptICMPTypes || opt.kind == OptICMP6Types)
    && (opt.flagsSet != 0 || opt.flagsClear != 0 ==> opt.kind == OptTCPFlags)
    && (opt.via != NO_VIA ==> opt.kind == OptVia)
  }

  /** What the formatter holds against a second option in the same place. */
  function ListMemberError(head: Opt, member: Opt): Option<FormatError> {
    if (head.kind != OptSourcePort && head.kind != OptDestinationPort) || member.kind != head.kind then Some(BrokenOrChain)
    else if member.neg != head.neg then Some(InconsistentNegation)
    else if !Bare(member) then Some(UnexpectedBody)
    else None
  }

  /** A list none of these checks rejects. */
  ghost predicate Accepted(opts: seq<Opt>) {
    && PlacesValid(opts)
    && StateValid(opts)
    && forall i: nat, k: nat :: i < k < |opts| && k < PatternRun(opts, i, i + 1) ==> ListMemberError(opts[i], opts[k]) == None
  }

  // -------------------------------------------------------- what the parser keeps

  predicate IsPorts(opt: Opt) { opt.kind == OptSourcePort || opt.kind == OptDestinationPort }

  /** An option as it may stand after those before it. */
  ghost predicate LawfulAt(opts: seq<Opt>, k: nat)
    requires k < |opts|
  {
    var opt := opts[k];
    && (k == 0 ==> opt.block == 0 && opt.pattern == 0)
    && (opt.kind == OptKeepState ==> opt.pattern == 0 && forall j :: 0 <= j < k ==> opts[j].kind != OptKeepState)
    && (k > 0 ==>
          var prev := opts[k - 1];
          && Follows(prev, opt)
          && (prev.kind == OptKeepState ==> opt.block != prev.block)
          && (opt.kind == OptKeepState ==> opt.block != prev.block)
          && (Meaning.SamePattern(prev, opt) ==> IsPorts(prev) && opt.kind == prev.kind && opt.neg == prev.neg && Bare(opt)))
  }

  ghost predicate Lawful(opts: seq<Opt>) {
    forall k: nat :: k < |opts| ==> LawfulAt(opts, k)
  }

  lemma LawfulGrows(opts: seq<Opt>, opt: Opt)
    requires Lawful(opts) && LawfulAt(opts + [opt], |opts|)
    ensures Lawful(opts + [opt])
  {
    hide Follows, Bare;
    forall k: nat | k < |opts| ensures LawfulAt(opts + [opt], k) {
      assert LawfulAt(opts, k);
    }
  }

  /** Where the next pattern stands after the options so far. */
  ghost predicate Ready(opts: seq<Opt>, p: Place, seen: bool) {
    && Lawful(opts)
    && (!seen ==> forall j :: 0 <= j < |opts| ==> opts[j].kind != OptKeepState)
    && (if opts == [] then Block(p) == 0 && Pattern(p) == 0
        else
          var last := opts[|opts| - 1];
          if Block(p) == last.block then
            Pattern(p) == ToUint16(last.pattern + 1) && IsBraced(p) && last.kind != OptKeepState
          else Block(p) == ToUint16(last.block + 1) && Pattern(p) == 0)
    && (!IsBraced(p) ==> Pattern(p) == 0)
  }

  /** What an option leaves that stands in the place. */
  ghost predicate Stands(r: Read, p: Place) {
    && Lawful(r.tokens)
    && (!r.seen ==> forall j :: 0 <= j < |r.tokens| ==> r.tokens[j].kind != OptKeepState)
    && (r.outcome.Ok? ==>
          r.tokens != [] && var last := r.tokens[|r.tokens| - 1];
            last.block == Block(p) && last.pattern == Pattern(p) && (last.kind == OptKeepState ==> !IsBraced(p)))
  }

  lemma GivenIsLawful(opts: seq<Opt>, opt: Opt, p: Place, seen: bool)
    requires Ready(opts, p, seen) && opt.block == Block(p) && opt.pattern == Pattern(p)
    requires opt.kind == OptKeepState ==> !seen && !IsBraced(p)
    ensures Lawful(opts + [opt])
  {
    hide Block, Pattern, IsBraced, Lawful, Bare;
    assert forall j :: 0 <= j < |opts| ==> (opts + [opt])[j] == opts[j];
    LawfulGrows(opts, opt);
  }

  lemma GiveStands(opts: seq<Opt>, opt: Opt, p: Place, seen: bool, after: bool, env: Env, at: string, rest: string)
    requires Ready(opts, p, seen) && opt.block == Block(p) && opt.pattern == Pattern(p)
    requires opt.kind == OptKeepState ==> !seen && !IsBraced(p)
    requires after == (seen || opt.kind == OptKeepState)
    ensures Stands(Give(opts, after, opt, env, at, rest), p)
  {
    hide Block, Pattern, IsBraced, Lawful, LawfulAt;
    GivenIsLawful(opts, opt, p, seen);
  }

  /** The members of a port list stand in one pattern. */
  lemma {:induction false} PortMembersStand(
    s: string, p: Place, neg: bool, kind: OptKind, env: Env, seen: bool, opts: seq<Opt>, first: bool)
    requires kind == OptSourcePort || kind == OptDestinationPort
    requires if first then Ready(opts, p, seen)
             else Stands(Read(opts, seen, Ok("")), p) && exists range :: opts[|opts| - 1] == OptAt(p, neg, kind).(ports := range)
    ensures Stands(PortMembers(s, OptAt(p, neg, kind), env, seen, opts), p)
    decreases |s|
  {
    hide Block, Pattern, IsBraced, Lawful, LawfulAt, AfterComma, ListEnded, Ports.ParsePortRange;
    var head := OptAt(p, neg, kind);
    var range := Ports.ParsePortRange(s);
    if range.Ok? {
      var opt := head.(ports := range.value.0);
      if first {
        GivenIsLawful(opts, opt, p, seen);
      } else {
        MemberIsLawful(opts, opt);
      }
      var next := AfterComma(range.value.1);
      if next.Some? && !env.refuses(opts, opt) && !ListEnded(next.value) {
        PortMembersStand(next.value, p, neg, kind, env, seen, opts + [opt], false);
      }
    }
  }

  lemma MemberIsLawful(opts: seq<Opt>, opt: Opt)
    requires opts != [] && Lawful(opts) && IsPorts(opt) && Bare(opt)
    requires var last := opts[|opts| - 1];
             Meaning.SamePattern(last, opt) && last.kind == opt.kind && last.neg == opt.neg
    ensures Lawful(opts + [opt])
  {
    hide Bare, Lawful;
    LawfulGrows(opts, opt);
  }

  lemma OptionStands(s: string, p: Place, env: Env, seen: bool, opts: seq<Opt>)
    requires Ready(opts, p, seen)
    ensures Stands(OneOption(s, p, env, seen, opts), p)
  {
    hide ArgumentOption, KeywordOption, NotWS1, PortMembers, Give, Lawful, IsBraced, Block, Pattern, Bare;
    var (rest, neg) := NotWS1(s);
    var (kind, n) := ArgumentOption(rest);
    KeepStateIsNoKeyword(rest);
    if Invalid(seen, kind, p).None? {
      if kind == OptUnset {
        match KeywordOption(rest) {
          case Some((keyword, after)) => GiveStands(opts, OptAt(p, neg, keyword), p, seen, seen, env, rest, after);
          case None => CustomStands(rest, neg, p, env, seen, opts);
        }
      } else if kind == OptSourcePort || kind == OptDestinationPort {
        if Run(rest[n..], IsWS) > 0 {
          PortMembersStand(After(rest[n..], IsWS), p, neg, kind, env, seen, opts, true);
        }
      } else {
        ArgumentStands(rest, n, kind, neg, p, env, seen, opts);
      }
    }
  }

  lemma KeepStateIsNoKeyword(s: string)
    ensures var keyword := KeywordOption(s); keyword.Some? ==> keyword.value.0 != OptKeepState
  {
  }

  lemma CustomStands(s: string, neg: bool, p: Place, env: Env, seen: bool, opts: seq<Opt>)
    requires Ready(opts, p, seen)
    ensures Stands(CustomOption(s, neg, p, env, seen, opts), p)
  {
    hide Give, Lawful, IsBraced, Block, Pattern;
    if env.hook.Some? {
      var answer := env.hook.value(s);
      var opt := Placed(p, neg, answer.opt.kind, answer.opt);
      if Invalid(seen, opt.kind, p).None? {
        GiveStands(opts, opt, p, seen, seen || opt.kind == OptKeepState, env, s, Drop(s, answer.length));
      }
    }
  }

  lemma ArgumentStands(s: string, n: nat, kind: OptKind, neg: bool, p: Place, env: Env, seen: bool, opts: seq<Opt>)
    requires n <= |s| && Ready(opts, p, seen) && Invalid(seen, kind, p).None?
    ensures Stands(ArgumentRead(s, n, kind, neg, p, env, seen || kind == OptKeepState, opts), p)
  {
    hide Give, Lawful, IsBraced, Block, Pattern;
    match env.argument(kind, s[n..])
    case Malformed(_) =>
    case Argument(fields, at, length) =>
      GiveStands(opts, Placed(p, neg, kind, fields), p, seen, seen || kind == OptKeepState, env, Drop(s, at), Drop(s[n..], length));
  }

  lemma {:induction false} GroupStands(g: Group, s: string, p: Place, env: Env, seen: bool, opts: seq<Opt>)
    requires Ready(opts, p, seen) && g.braced == IsBraced(p)
    ensures var r := GroupFrom(g, s, p, env, seen, opts);
            exists q :: Block(q) == Block(p) && IsBraced(q) == IsBraced(p) && Stands(r, q)
    decreases |s|
  {
    hide OneOption, Lawful, Block, Pattern, IsBraced, NextPlace;
    OptionStands(s, p, env, seen, opts);
    var o := OneOption(s, p, env, seen, opts);
    if o.outcome.Ok? {
      match Next(g, o.outcome.value) {
        case Missing(_) =>
          assert Stands(GroupFrom(g, s, p, env, seen, opts), p);
        case End(_) =>
          assert Stands(GroupFrom(g, s, p, env, seen, opts), p);
        case More(rest) =>
          var next := NextPlace(p);
          assert Ready(o.tokens, next, o.seen);
          GroupStands(g, rest, next, env, o.seen, o.tokens);
      }
    } else {
      assert Stands(GroupFrom(g, s, p, env, seen, opts), p);
    }
  }

  /** The options so far, the next block being numbered. */
  ghost predicate ReadyForBlock(opts: seq<Opt>, blocks: uint16, seen: bool) {
    forall braced :: Ready(opts, FirstPlace(blocks, braced), seen)
  }

  lemma {:induction false} ListStands(s: string, blocks: uint16, env: Env, seen: bool, opts: seq<Opt>)
    requires ReadyForBlock(opts, blocks, seen)
    ensures var r := OptionList(s, blocks, env, seen, opts);
            Lawful(r.tokens) && (r.outcome.Ok? ==> ReadyForBlock(r.tokens, r.blocks, r.seen))
    decreases |s|
  {
    hide GroupFrom, Lawful, Block, Pattern, IsBraced, FirstPlace, Ready, ReadyForBlock;
    ReadyIsLawful(opts, blocks, seen);
    if !LineEnded(s) {
      var (g, rest) := OpenGroup(s, TrailingPosition);
      var p := FirstPlace(blocks, g.braced);
      assert Ready(opts, p, seen) by { ReadyHere(opts, blocks, seen, g.braced); }
      GroupStands(g, rest, p, env, seen, opts);
      var o := OptionGroup(s, blocks, env, seen, opts);
      var q :| Block(q) == Block(p) && IsBraced(q) == IsBraced(p) && Stands(o, q);
      if o.outcome.Ok? {
        NextBlock(o, q, blocks);
        if Run(o.outcome.value, IsWS) > 0 {
          ListStands(After(o.outcome.value, IsWS), ToUint16(blocks + 1), env, o.seen, o.tokens);
        }
      }
    }
  }

  lemma ReadyHere(opts: seq<Opt>, blocks: uint16, seen: bool, braced: bool)
    requires ReadyForBlock(opts, blocks, seen)
    ensures Ready(opts, FirstPlace(blocks, braced), seen)
  {
  }

  lemma ReadyIsLawful(opts: seq<Opt>, blocks: uint16, seen: bool)
    requires ReadyForBlock(opts, blocks, seen)
    ensures Lawful(opts)
  {
    assert Ready(opts, FirstPlace(blocks, false), seen);
  }

  lemma NextBlock(o: Read, q: Place, blocks: uint16)
    requires Stands(o, q) && o.outcome.Ok? && Block(q) == blocks
    ensures ReadyForBlock(o.tokens, ToUint16(blocks + 1), o.seen)
  {
    hide Lawful, Block, Pattern, IsBraced, FirstPlace;
  }

  // ---------------------------------------------------------- nothing is rejected

  lemma LawfulState(opts: seq<Opt>)
    requires Lawful(opts)
    ensures StateValid(opts)
  {
    hide Follows, Bare;
    forall k: nat | k < |opts| ensures !Offends(opts, k) {
      assert LawfulAt(opts, k);
      assert k + 1 < |opts| ==> LawfulAt(opts, k + 1);
    }
  }

  lemma {:induction false} LawfulRun(opts: seq<Opt>, i: nat, k: nat)
    requires Lawful(opts) && i < |opts| && i < k < PatternRun(opts, i, i + 1)
    ensures ListMemberError(opts[i], opts[k]) == None && opts[k].kind == opts[i].kind
    decreases k
  {
    hide Bare, Follows;
    assert LawfulAt(opts, k);
    if k > i + 1 {
      LawfulRun(opts, i, k - 1);
    }
  }

  lemma LawfulIsAccepted(opts: seq<Opt>)
    requires Lawful(opts)
    ensures Accepted(opts)
  {
    hide Follows, Bare, ListMemberError, Offends;
    LawfulState(opts);
    forall i: nat, k: nat | i < k < |opts| && k < PatternRun(opts, i, i + 1) ensures ListMemberError(opts[i], opts[k]) == None {
      LawfulRun(opts, i, k);
    }
    forall k: nat | 0 < k < |opts| ensures Follows(opts[k - 1], opts[k]) {
      assert LawfulAt(opts, k);
    }
    assert opts != [] ==> LawfulAt(opts, 0);
    assert PlacesValid(opts);
  }

  /** The options of a rule are lawful, the list as far as it was read and the comment
      behind it. */
  lemma RuleIsLawful(s: string, listed: bool, env: Env)
    ensures Lawful(RuleOptions(s, listed, env).tokens)
  {
    hide OptionList, TrailingComment, Lawful, ReadyForBlock;
    NothingRead();
    var list := if listed then OptionList(s, 0, env, false, []) else Listed([], false, 0, Ok(s));
    if listed {
      ListStands(s, 0, env, false, []);
    } else {
      ReadyIsLawful([], 0, false);
    }
    if list.outcome.Ok? {
      CommentStands(list.outcome.value, list.blocks, env, list.seen, list.tokens);
    }
  }

  lemma NothingRead()
    ensures ReadyForBlock([], 0, false)
  {
  }

  lemma CommentStands(s: string, blocks: uint16, env: Env, seen: bool, opts: seq<Opt>)
    requires ReadyForBlock(opts, blocks, seen)
    ensures Lawful(TrailingComment(s, blocks, env, seen, opts).tokens)
  {
    hide ArgumentRead, Lawful, Block, Pattern, IsBraced, FirstPlace, Ready, ReadyForBlock;
    ReadyIsLawful(opts, blocks, seen);
    var text := After(s, IsWS);
    if "//" <= text {
      var p := FirstPlace(blocks, false);
      ReadyHere(opts, blocks, seen, false);
      ArgumentStands(text, 2, OptComment, false, p, env, seen, opts);
    }
  }

  /** Every option list the parser emits, all of it or the part before a comment, a
      failure or any other point, passes the checks of the formatter. */
  lemma ParsedOptionsAreAccepted(s: string, listed: bool, env: Env, n: nat)
    requires n <= |RuleOptions(s, listed, env).tokens|
    ensures Accepted(RuleOptions(s, listed, env).tokens[..n])
  {
    hide RuleOptions, Accepted;
    RuleIsLawful(s, listed, env);
    var opts := RuleOptions(s, listed, env).tokens;
    LawfulPrefix(opts, n);
    LawfulIsAccepted(opts[..n]);
  }

  lemma LawfulPrefix(opts: seq<Opt>, n: nat)
    requires Lawful(opts) && n <= |opts|
    ensures Lawful(opts[..n])
  {
    hide Follows, Bare;
    forall k: nat | k < n ensures LawfulAt(opts[..n], k) {
      assert LawfulAt(opts, k);
    }
  }

  // ------------------------------------------------------- what the machine relies on

  /** No block number is less than the one before it, so that none wrapped. */
  predicate BlocksGoUp(opts: seq<Opt>) {
    forall k :: 0 < k < |opts| ==> opts[k - 1].block <= opts[k].block
  }

  /** No pattern number within a block is less than the one before it. */
  predicate PatternsGoUp(opts: seq<Opt>) {
    forall k :: 0 < k < |opts| && opts[k - 1].block == opts[k].block ==> opts[k - 1].pattern <= opts[k].pattern
  }

  lemma {:induction false} BlocksAscend(opts: seq<Opt>, i: nat, k: nat)
    requires BlocksGoUp(opts) && i <= k < |opts|
    ensures opts[i].block <= opts[k].block
    decreases k
  {
    if i < k {
      BlocksAscend(opts, i, k - 1);
    }
  }

  lemma {:induction false} PatternsAscend(opts: seq<Opt>, i: nat, k: nat)
    requires BlocksGoUp(opts) && PatternsGoUp(opts) && i <= k < |opts| && opts[i].block == opts[k].block
    ensures opts[i].pattern <= opts[k].pattern
    decreases k
  {
    if i < k {
      BlocksAscend(opts, i, k - 1);
      BlocksAscend(opts, k - 1, k);
      PatternsAscend(opts, i, k - 1);
    }
  }

  lemma PlaceStep(opts: seq<Opt>, k: nat)
    requires Lawful(opts) && 0 < k < |opts|
    ensures Follows(opts[k - 1], opts[k]) && opts[0].block == 0 && opts[0].pattern == 0
    ensures Meaning.SamePattern(opts[k - 1], opts[k]) ==> opts[k - 1].neg == opts[k].neg
  {
    hide Bare, Follows;
    assert LawfulAt(opts, k) && LawfulAt(opts, 0);
  }

  /** The blocks of lawful options are contiguous exactly when no block number wrapped. */
  lemma ContiguousIff(opts: seq<Opt>)
    requires Lawful(opts)
    ensures Meaning.ContiguousBlocks(opts) <==> BlocksGoUp(opts)
  {
    hide Lawful;
    if BlocksGoUp(opts) {
      forall i: nat, j: nat, k: nat | i < j < k < |opts| && opts[i].block == opts[k].block
        ensures opts[j].block == opts[i].block
      {
        BlocksAscend(opts, i, j);
        BlocksAscend(opts, j, k);
      }
    }
    forall k: nat | Meaning.ContiguousBlocks(opts) && 0 < k < |opts| ensures opts[k - 1].block <= opts[k].block {
      PlaceStep(opts, k);
      assert opts[k].block == 0 && k > 1 ==> opts[k - 1].block == opts[0].block;
    }
  }

  /** A block has an option of pattern zero before each of its options. */
  lemma {:induction false} BlockStart(opts: seq<Opt>, k: nat) returns (f: nat)
    requires Lawful(opts) && k < |opts|
    ensures f <= k && opts[f].block == opts[k].block && opts[f].pattern == 0
    decreases k
  {
    hide Lawful;
    f := k;
    if opts[k].pattern != 0 && k > 0 {
      PlaceStep(opts, k);
      f := BlockStart(opts, k - 1);
    } else if k == 0 {
      FirstPlaceIsZero(opts);
    }
  }

  lemma FirstPlaceIsZero(opts: seq<Opt>)
    requires Lawful(opts) && opts != []
    ensures opts[0].pattern == 0
  {
    assert LawfulAt(opts, 0);
  }

  /** Blocks and patterns stand together under one negation exactly when no number
      wrapped, which takes more than 2^16 blocks, or patterns of a block. */
  lemma WellPlacedIff(opts: seq<Opt>)
    requires Lawful(opts)
    ensures Meaning.WellPlaced(opts) <==> BlocksGoUp(opts) && PatternsGoUp(opts)
  {
    hide Lawful, Meaning.ContiguousBlocks;
    ContiguousIff(opts);
    if BlocksGoUp(opts) && PatternsGoUp(opts) {
      ForwardIsWellPlaced(opts);
    }
    if Meaning.WellPlaced(opts) {
      forall k: nat | 0 < k < |opts| && opts[k - 1].block == opts[k].block ensures opts[k - 1].pattern <= opts[k].pattern {
        NoWrapAt(opts, k);
      }
    }
  }

  lemma NoWrapAt(opts: seq<Opt>, k: nat)
    requires Lawful(opts) && Meaning.WellPlaced(opts) && 0 < k < |opts| && opts[k - 1].block == opts[k].block
    ensures opts[k - 1].pattern <= opts[k].pattern
  {
    hide Lawful;
    PlaceStep(opts, k);
    var f := BlockStart(opts, k - 1);
    if opts[k].pattern == 0 && f < k - 1 {
      assert Meaning.SamePattern(opts[f], opts[k]);
      assert Meaning.SamePattern(opts[f], opts[k - 1]);
    }
  }

  lemma ForwardIsWellPlaced(opts: seq<Opt>)
    requires Lawful(opts) && BlocksGoUp(opts) && PatternsGoUp(opts)
    ensures Meaning.WellPlaced(opts)
  {
    hide Lawful;
    ContiguousIff(opts);
    forall i: nat, j: nat, k: nat | i < j < k < |opts| && Meaning.SamePattern(opts[i], opts[k])
      ensures Meaning.SamePattern(opts[i], opts[j])
    {
      PatternsAscend(opts, i, j);
      PatternsAscend(opts, j, k);
    }
    forall i: nat, j: nat | i < j < |opts| && Meaning.SamePattern(opts[i], opts[j]) ensures opts[i].neg == opts[j].neg {
      OneSignOn(opts, i, j);
    }
  }

  lemma {:induction false} OneSignOn(opts: seq<Opt>, i: nat, k: nat)
    requires Lawful(opts) && BlocksGoUp(opts) && PatternsGoUp(opts)
    requires i <= k < |opts| && Meaning.SamePattern(opts[i], opts[k])
    ensures opts[i].neg == opts[k].neg
    decreases k
  {
    hide Lawful, BlocksGoUp, PatternsGoUp;
    if i < k {
      BlocksAscend(opts, i, k - 1);
      BlocksAscend(opts, k - 1, k);
      PatternsAscend(opts, i, k - 1);
      PatternsAscend(opts, k - 1, k);
      PlaceStep(opts, k);
      OneSignOn(opts, i, k - 1);
    }
  }

  /** Parsed options mean what they say: when no number wrapped, the machine's scan of
      them holds exactly when every block has a pattern that holds. */
  lemma ParsedOptionsMean(s: string, listed: bool, env: Env, ck: Semantics.Check)
    ensures var opts := RuleOptions(s, listed, env).tokens;
            BlocksGoUp(opts) && PatternsGoUp(opts) ==>
              (Semantics.OptionsSeen(ck, opts, 0).holds <==> forall a: nat :: a < |opts| ==> Meaning.BlockHolds(ck, opts, a))
  {
    hide RuleOptions, Lawful;
    RuleIsLawful(s, listed, env);
    var opts := RuleOptions(s, listed, env).tokens;
    WellPlacedIff(opts);
    if BlocksGoUp(opts) && PatternsGoUp(opts) {
      Meaning.OptionsMeaning(ck, opts);
    }
  }
}
