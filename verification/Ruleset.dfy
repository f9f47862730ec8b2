/**
 From the text of rules to the verdict on a packet: the options a parser reads (opt.go,
 parser.go) and a resolver numbers (vmstate.go) have the blocks that a build (vm/vm.go)
 relies on, so that its machine means the ruleset as written.
 */
module Ruleset {
  import opened Ipfw
  import opened Semantics
  import opened Machine
  import opened Builder
  import opened Build
  import Meaning
  import Options
  import OptionPlaces
  import Resolver

  /** Where the options of a line come from: the text after what the rest of the grammar
      read, whether it reached an option list, and the functions the parser called. */
  datatype Origin = Origin(text: string, listed: bool, env: Options.Env)

  function RawOptions(origin: Origin): seq<Opt> {
    Options.RuleOptions(origin.text, origin.listed, origin.env).tokens
  }

  function OptionsOf(line: Line): seq<Opt> { BodyOfTokens(line.tokens).options }

  /** The options of a line are those read from its text, by numbers. */
  ghost predicate ReadFrom(line: Line, origin: Origin, names: Resolver.Environment) {
    && |OptionsOf(line)| == |RawOptions(origin)|
    && forall k :: 0 <= k < |OptionsOf(line)| ==> Resolver.ResolveOption(names, RawOptions(origin)[k]) == Ok(OptionsOf(line)[k])
  }

  /** Every instruction is read from its text. */
  ghost predicate AllRead(lines: seq<Line>, origins: seq<Origin>, names: Resolver.Environment) {
    && |lines| == |origins|
    && forall n :: 0 <= n < |lines| && lines[n].kind.InstructionLine? ==> ReadFrom(lines[n], origins[n], names)
  }

  /** No rule has so many blocks that their numbers wrap. */
  predicate NoneWraps(lines: seq<Line>) {
    forall n :: 0 <= n < |lines| && lines[n].kind.InstructionLine? ==> OptionPlaces.BlocksGoUp(OptionsOf(lines[n]))
  }

  /** The blocks of a line are contiguous exactly when their numbers do not wrap. */
  lemma LineIsBlocked(line: Line, origin: Origin, names: Resolver.Environment)
    requires ReadFrom(line, origin, names)
    ensures Meaning.ContiguousBlocks(OptionsOf(line)) <==> OptionPlaces.BlocksGoUp(OptionsOf(line))
  {
    hide Options.RuleOptions, OptionPlaces.Lawful;
    OptionPlaces.RuleIsLawful(origin.text, origin.listed, origin.env);
    OptionPlaces.ContiguousIff(RawOptions(origin));
    SameBlocks(line, origin, names);
  }

  /** Resolving moves no option. */
  lemma SameBlocks(line: Line, origin: Origin, names: Resolver.Environment)
    requires ReadFrom(line, origin, names)
    ensures Meaning.ContiguousBlocks(OptionsOf(line)) <==> Meaning.ContiguousBlocks(RawOptions(origin))
    ensures OptionPlaces.BlocksGoUp(OptionsOf(line)) <==> OptionPlaces.BlocksGoUp(RawOptions(origin))
  {
    hide RawOptions, OptionsOf, Resolver.ResolveOption;
    assert forall k :: 0 <= k < |OptionsOf(line)| ==> OptionsOf(line)[k].block == RawOptions(origin)[k].block;
  }

  /** Every instruction of the history is a line, and every instruction line is in it. */
  lemma {:induction false} HistoryIsLines(lines: seq<Line>, n: nat)
    requires n <= |lines|
    ensures WellBlocked(History(lines, n)) <==>
            forall m :: 0 <= m < n && lines[m].kind.InstructionLine? ==> Meaning.ContiguousBlocks(OptionsOf(lines[m]))
  {
    hide Meaning.ContiguousBlocks;
    if n > 0 {
      HistoryIsLines(lines, n - 1);
      var before, h := History(lines, n - 1), History(lines, n);
      assert forall k :: 0 <= k < |before| ==> h[k] == before[k];
      if lines[n - 1].kind.InstructionLine? {
        assert h[|before|] == Instruction(lines[n - 1].tokens, lines[n - 1].kind.record);
      }
    }
  }

  /** The blocks of a whole ruleset that was parsed and resolved are contiguous exactly
      when no rule has so many that their numbers wrap. */
  lemma RulesetIsBlocked(lines: seq<Line>, origins: seq<Origin>, names: Resolver.Environment)
    requires AllRead(lines, origins, names)
    ensures WellBlocked(History(lines, |lines|)) <==> NoneWraps(lines)
  {
    hide Meaning.ContiguousBlocks, OptionPlaces.BlocksGoUp, ReadFrom, WellBlocked, OptionsOf;
    HistoryIsLines(lines, |lines|);
    forall n: nat | n < |lines| && lines[n].kind.InstructionLine?
      ensures Meaning.ContiguousBlocks(OptionsOf(lines[n])) <==> OptionPlaces.BlocksGoUp(OptionsOf(lines[n]))
    {
      LineIsBlocked(lines[n], origins[n], names);
    }
  }

  /** What a check of a packet against a ruleset comes to: the failure of its build, or
      the verdict of the ruleset as written. */
  ghost predicate CheckOutcome(
    lines: seq<Line>, custom: bool, policy: Policy, site: Site, verdict: Action, ctx: Context, pkt: Packet,
    r: Result<Action, Failure>)
  {
    var h := History(lines, |lines|);
    match r
    case Err(failure) => BuildOutcome(lines, custom, policy, Err(failure))
    case Ok(action) =>
      && (policy == RejectUnresolved ==> NoneDangling(h))
      && Forward(SourceCode(h)) && Forward(KeptCode(h))
      && action == Run(SourceCheck(h, site, ctx, pkt), KeptCode(h), 0, verdict).action
      && (NoneWraps(lines) ==> action == Run(SourceCheck(h, site, ctx, pkt), SourceCode(h), 0, verdict).action)
  }

  /** Builds a ruleset that was parsed and resolved and checks a packet against it. */
  method CheckRuleset(
    lines: seq<Line>, ghost origins: seq<Origin>, ghost names: Resolver.Environment,
    custom: bool, policy: Policy, site: Site, verdict: Action, ctx: Context, pkt: Packet)
    returns (r: Result<Action, Failure>)
    requires TotalTokens(lines, |lines|) < TWO32 && AllRead(lines, origins, names)
    ensures CheckOutcome(lines, custom, policy, site, verdict, ctx, pkt, r)
  {
    hide Run, SourceCode, KeptCode, WellBlocked, NoneWraps, AllRead, NoneDangling, LineRefusal, FirstDangling;
    var built := Build.Build(lines, custom, policy, site, verdict);
    if built.Err? {
      return Err(built.error);
    }
    RulesetIsBlocked(lines, origins, names);
    var action := CheckPacket(built.value, History(lines, |lines|), ctx, pkt);
    return Ok(action);
  }
}
