/**
 A whole build (vm/vm.go) and what it is worth: checking a packet against the built
 machine is evaluating the ruleset as it was written, bodies with their comments,
 jumps searched among its own numbers and labels.
 */
module Build {
  import opened Ipfw
  import opened Numbers
  import opened Semantics
  import opened Meaning
  import opened Machine
  import opened Builder

  /** What the parser and the resolver hand the builder for one line: the tokens of
      its body, pushed before the kind of the record is known, and the record. */
  datatype Line = Line(tokens: seq<Token>, kind: LineKind)

  datatype LineKind =
    | InstructionLine(record: Record)
    | LabelLine(name: string)
    | TableLine(accepted: bool)
    | BlankLine
    | UnknownLine

  datatype Policy = RejectUnresolved | FallThrough

  datatype Failure = AtLine(index: nat, error: BuildError) | AtJump(record: Record)

  // ------------------------------------------------------- the ruleset as written

  /** The instructions and labels of the first `n` lines. The tokens of any other
      line are abandoned. */
  ghost function History(lines: seq<Line>, n: nat): seq<Entry>
    requires n <= |lines|
  {
    if n == 0 then [] else
      History(lines, n - 1) +
      match lines[n - 1].kind
      case InstructionLine(record) => [Instruction(lines[n - 1].tokens, record)]
      case LabelLine(name) => [LabelEntry(name)]
      case _ => []
  }

  /** The first token the builder refuses. */
  function TokenRefusal(tokens: seq<Token>, custom: bool): Option<BuildError> {
    if tokens == [] then None
    else if Refusal(tokens[0], custom).Some? then Refusal(tokens[0], custom)
    else TokenRefusal(tokens[1..], custom)
  }

  /** Why a line is refused, if it is. */
  ghost function LineRefusal(lines: seq<Line>, n: nat, custom: bool): Option<BuildError>
    requires n < |lines|
  {
    var line, h := lines[n], History(lines, n);
    if TokenRefusal(line.tokens, custom).Some? then TokenRefusal(line.tokens, custom)
    else match line.kind
      case InstructionLine(record) =>
        var last := LastNumber(NumbersOf(h, |h|));
        if !(last < NumberAfter(last, record.num) < TWO32) then Some(RuleNumberOrder)
        else if record.action.kind == ActionUnset || JumpsTo(record.action, SkipToUnset) then Some(UnsupportedAction)
        else None
      case TableLine(accepted) => if accepted then None else Some(TableRefused)
      case UnknownLine => Some(UnsupportedRecord)
      case _ => None
  }

  function TotalTokens(lines: seq<Line>, n: nat): nat
    requires n <= |lines|
  {
    if n == 0 then 0 else TotalTokens(lines, n - 1) + |lines[n - 1].tokens|
  }

  lemma {:induction false} TotalGrows(lines: seq<Line>, n: nat, m: nat)
    requires n <= m <= |lines|
    ensures TotalTokens(lines, n) <= TotalTokens(lines, m)
    decreases m - n
  {
    if n < m {
      TotalGrows(lines, n, m - 1);
    }
  }

  /** Where the `skipto` of a rule leads, searched in the history alone. A label is
      looked for below the instruction, a number among the rules past it, and a
      search that finds nothing leads one rule on. */
  ghost function JumpOf(h: seq<Entry>, i: nat): nat
    requires i < RulesBefore(h, |h|)
  {
    var action := h[Positions(h, |h|)[i]].record.action;
    var target :=
      if JumpsTo(action, SkipToLabel) then LabelTarget(h, i, action.skipTo.name)
      else if JumpsTo(action, SkipToNumber) then NumberTarget(NumbersOf(h, |h|), i, action.skipTo.number)
      else None;
    if !StaticJump(action) then 0
    else if target.Some? then target.value
    else i + 1
  }

  ghost function SourceStep(h: seq<Entry>, i: nat): Step
    requires i < RulesBefore(h, |h|)
  {
    var entry := h[Positions(h, |h|)[i]];
    Step(entry.record, entry.record.action, JumpOf(h, i), BodyOfTokens(entry.tokens))
  }

  /** The rules of a ruleset as written. */
  ghost function SourceCode(h: seq<Entry>): (code: seq<Step>)
    ensures |code| == RulesBefore(h, |h|)
  {
    seq(RulesBefore(h, |h|), i requires 0 <= i < RulesBefore(h, |h|) => SourceStep(h, i))
  }

  /** The same rules without idle comments. */
  ghost function KeptStep(h: seq<Entry>, i: nat): Step
    requires i < RulesBefore(h, |h|)
  {
    var step := SourceStep(h, i);
    step.(body := Compact(step.body))
  }

  ghost function KeptCode(h: seq<Entry>): (code: seq<Step>)
    ensures |code| == RulesBefore(h, |h|)
  {
    seq(RulesBefore(h, |h|), i requires 0 <= i < RulesBefore(h, |h|) => KeptStep(h, i))
  }

  /** The check of a packet against a ruleset as written. */
  ghost function SourceCheck(h: seq<Entry>, site: Site, ctx: Context, pkt: Packet): Check {
    Check(site, Names(NumbersOf(h, |h|), LabelsOf(h, |h|)), ctx, pkt)
  }

  /** The options of every or-block of every instruction are contiguous. */
  ghost predicate WellBlocked(h: seq<Entry>) {
    forall k :: 0 <= k < |h| && h[k].Instruction? ==> ContiguousBlocks(BodyOfTokens(h[k].tokens).options)
  }

  // ----------------------------------------------------------- what was built

  /** A program that is its history: what a finished build leaves. */
  ghost predicate Finished(p: Program, labels: map<string, nat>, start: Rule, h: seq<Entry>,
                           pending: map<string, seq<nat>>, unresolved: seq<nat>)
  {
    && Laid(p, start, h) && labels == LabelsOf(h, |h|)
    && |p.rules| == |p.actions| == |p.numbers| == |p.records| == RulesBefore(h, |h|)
    && LabelsLinked(p, h, pending) && NumbersLinked(p, unresolved)
  }

  /** Up to its instruction, a rule has as many rules as its index says, and itself. */
  lemma {:induction false} PositionsPrefix(h: seq<Entry>, n: nat, i: nat)
    requires n <= |h| && i < RulesBefore(h, n)
    ensures RulesBefore(h, Positions(h, n)[i] + 1) == i + 1
  {
    var before := Positions(h, n - 1);
    if i < |before| {
      PositionsPrefix(h, n - 1, i);
      assert Positions(h, n)[i] == before[i];
    } else {
      assert Positions(h, n)[i] == n - 1;
    }
  }

  /** A label declared after a rule stands past it. */
  lemma LabelGoesForward(h: seq<Entry>, i: nat, name: string)
    requires i < RulesBefore(h, |h|) && LabelTarget(h, i, name).Some?
    ensures i < LabelTarget(h, i, name).value <= RulesBefore(h, |h|)
  {
    PositionsPrefix(h, |h|, i);
    hide Positions, LabelAfter;
    LabelIsLater(h, Positions(h, |h|)[i] + 1, name);
  }

  /** Every static jump of a finished program is where the ruleset says. */
  lemma JumpIsSource(p: Program, labels: map<string, nat>, start: Rule, h: seq<Entry>,
                     pending: map<string, seq<nat>>, unresolved: seq<nat>, i: nat)
    requires Finished(p, labels, start, h, pending, unresolved) && i < |p.rules|
    ensures RuleLaid(p, start, h, i)
    ensures StaticJump(p.actions[i]) ==> p.rules[i].jump == JumpOf(h, i) && i < p.rules[i].jump <= |p.rules|
  {
    assert RuleLaid(p, start, h, i);
    assert p.numbers == NumbersOf(h, |h|);
    hide Positions, LabelAfter, NumbersOf, FirstFrom, LabelsOf, Compact, BodyOfTokens, Laid, Increasing;
    if JumpsTo(p.actions[i], SkipToLabel) {
      assert LabelLinked(p, h, pending, i);
      if LabelTarget(h, i, p.actions[i].skipTo.name).Some? {
        LabelGoesForward(h, i, p.actions[i].skipTo.name);
      }
    } else if JumpsTo(p.actions[i], SkipToNumber) {
      assert NumberLinked(p, unresolved, i);
      NumberGoesForward(p, start, h, i);
    }
  }

  lemma NumberGoesForward(p: Program, start: Rule, h: seq<Entry>, i: nat)
    requires Laid(p, start, h) && i < |p.numbers|
    ensures var target := NumberTarget(p.numbers, i, p.actions[i].skipTo.number);
            target.Some? ==> i < target.value < |p.rules|
  {
    hide RuleLaid, Abuts;
    assert forall k: nat :: k < i ==> p.numbers[k] <= p.numbers[i];
  }

  lemma FinishedIsWellFormed(p: Program, labels: map<string, nat>, start: Rule, h: seq<Entry>,
                             pending: map<string, seq<nat>>, unresolved: seq<nat>)
    requires Finished(p, labels, start, h, pending, unresolved)
    ensures WellFormed(p)
  {
    NumbersIncrease(p, start, h);
    forall i: nat | i < |p.rules| ensures GoodRule(p, i) {
      JumpIsSource(p, labels, start, h, pending, unresolved, i);
    }
    hide Laid, LabelsLinked, NumbersLinked, GoodRule, Positions, NumbersOf, LabelsOf, Increasing;
  }

  /** Two rules that do the same on every packet of a check. */
  ghost predicate SameStep(ck: Check, a: Step, b: Step) {
    a.record == b.record && a.action == b.action && a.jump == b.jump && BodySeen(ck, a.body) == BodySeen(ck, b.body)
  }

  /** Runs depend on nothing else. */
  lemma {:induction false} SameStepsSameRun(ck: Check, code: seq<Step>, other: seq<Step>, pc: nat, verdict: Action)
    requires Forward(code) && Forward(other) && |code| == |other|
    requires forall i: nat :: i < |code| ==> SameStep(ck, code[i], other[i])
    ensures Run(ck, code, pc, verdict) == Run(ck, other, pc, verdict)
    decreases |code| - pc
  {
    hide BodySeen;
    if pc < |code| {
      assert SameStep(ck, code[pc], other[pc]);
      var seen := BodySeen(ck, code[pc].body);
      var next := if seen.holds then Continue(code[pc], pc, seen.log) else Some(pc + 1);
      if next.Some? {
        SameStepsSameRun(ck, code, other, next.value, verdict);
      }
    }
  }

  lemma CompactIsSame(ck: Check, body: Body)
    requires ContiguousBlocks(body.options)
    ensures BodySeen(ck, Compact(body)) == BodySeen(ck, body)
  {
    hide OptionsSeen, SideSeen, PortConditionHolds, ProtosHold, Kept;
    DroppingCommentsIsSound(ck, body.options);
  }

  lemma StepIsKept(p: Program, labels: map<string, nat>, start: Rule, h: seq<Entry>,
                   pending: map<string, seq<nat>>, unresolved: seq<nat>, i: nat)
    requires Finished(p, labels, start, h, pending, unresolved) && WellFormed(p) && i < |p.rules|
    ensures StepOf(p, i) == KeptStep(h, i)
    ensures StaticJump(SourceStep(h, i).action) ==> i < SourceStep(h, i).jump
  {
    JumpIsSource(p, labels, start, h, pending, unresolved, i);
    hide Laid, LabelsLinked, NumbersLinked, Positions, LabelsOf, NumbersOf, Compact, BodyOfTokens;
    assert GoodRule(p, i);
  }

  /** Every program a build finishes is its ruleset without idle comments, rule by rule: records, actions, jumps and bodies. */
  lemma BuiltIsKept(p: Program, labels: map<string, nat>, start: Rule, h: seq<Entry>,
                    pending: map<string, seq<nat>>, unresolved: seq<nat>)
    requires Finished(p, labels, start, h, pending, unresolved)
    ensures WellFormed(p) && Forward(SourceCode(h)) && CodeOf(p) == KeptCode(h)
  {
    FinishedIsWellFormed(p, labels, start, h, pending, unresolved);
    SourceIsForward(p, labels, start, h, pending, unresolved);
    forall i: nat | i < |p.rules| ensures CodeOf(p)[i] == KeptCode(h)[i] {
      StepIsKept(p, labels, start, h, pending, unresolved, i);
    }
  }

  /** Without those comments a ruleset means what it means as written, when no block is
      interrupted. */
  lemma KeptMeansSource(h: seq<Entry>, ck: Check, verdict: Action)
    requires Forward(SourceCode(h)) && WellBlocked(h)
    ensures Forward(KeptCode(h)) && Run(ck, KeptCode(h), 0, verdict) == Run(ck, SourceCode(h), 0, verdict)
  {
    var kept, source := KeptCode(h), SourceCode(h);
    forall i: nat | i < |source| ensures SameStep(ck, kept[i], source[i]) {
      BodyIsBlocked(h, i);
      CompactIsSame(ck, source[i].body);
    }
    assert Forward(kept) by {
      forall i: nat | i < |kept| && StaticJump(kept[i].action) ensures i < kept[i].jump {
        assert StaticJump(source[i].action);
      }
    }
    hide SameStep, Run, SourceCode, KeptCode;
    SameStepsSameRun(ck, kept, source, 0, verdict);
  }

  lemma BodyIsBlocked(h: seq<Entry>, i: nat)
    requires WellBlocked(h) && i < RulesBefore(h, |h|)
    ensures ContiguousBlocks(SourceStep(h, i).body.options)
  {
  }

  lemma SourceIsForward(p: Program, labels: map<string, nat>, start: Rule, h: seq<Entry>,
                        pending: map<string, seq<nat>>, unresolved: seq<nat>)
    requires Finished(p, labels, start, h, pending, unresolved)
    ensures Forward(SourceCode(h))
  {
    forall i: nat | i < |p.rules| && StaticJump(SourceCode(h)[i].action) ensures i < SourceCode(h)[i].jump {
      JumpIsSource(p, labels, start, h, pending, unresolved, i);
    }
  }

  /** The main result about a build: for every packet, running the built program is
      running the ruleset as it was written. */
  lemma BuiltMeansSource(p: Program, labels: map<string, nat>, start: Rule, h: seq<Entry>,
                         pending: map<string, seq<nat>>, unresolved: seq<nat>, ck: Check, verdict: Action)
    requires Finished(p, labels, start, h, pending, unresolved)
    ensures WellFormed(p) && Forward(SourceCode(h)) && CodeOf(p) == KeptCode(h)
    ensures WellBlocked(h) ==> Run(ck, CodeOf(p), 0, verdict) == Run(ck, SourceCode(h), 0, verdict)
  {
    hide Laid, LabelsLinked, NumbersLinked, Positions, LabelsOf, NumbersOf, WellBlocked, Run, SourceCode, KeptCode, CodeOf;
    BuiltIsKept(p, labels, start, h, pending, unresolved);
    if WellBlocked(h) {
      KeptMeansSource(h, ck, verdict);
    }
  }

  // ------------------------------------------------------------------- a build

  /** A machine that is a ruleset without idle comments, and so does
      with every packet what the ruleset says as written, when no block is interrupted. */
  ghost predicate Means(m: Machine, h: seq<Entry>) {
    && WellFormed(m.program) && Forward(SourceCode(h))
    && m.program.numbers == NumbersOf(h, |h|) && m.labels == LabelsOf(h, |h|)
    && CodeOf(m.program) == KeptCode(h)
    && (WellBlocked(h) ==> forall ctx, pkt ::
          Run(CheckOf(m, ctx, pkt), CodeOf(m.program), 0, m.verdict)
          == Run(SourceCheck(h, m.site, ctx, pkt), SourceCode(h), 0, m.verdict))
  }

  /** Whether no rule satisfies the static jump of an instruction. */
  ghost predicate Dangling(h: seq<Entry>, i: nat)
    requires i < RulesBefore(h, |h|)
  {
    var action := h[Positions(h, |h|)[i]].record.action;
    || (JumpsTo(action, SkipToLabel) && LabelTarget(h, i, action.skipTo.name).None?)
    || (JumpsTo(action, SkipToNumber) && NumberTarget(NumbersOf(h, |h|), i, action.skipTo.number).None?)
  }

  ghost predicate NoneDangling(h: seq<Entry>) {
    forall i: nat :: i < RulesBefore(h, |h|) ==> !Dangling(h, i)
  }

  /** The record of the first instruction whose static jump nothing satisfies. */
  ghost predicate FirstDangling(h: seq<Entry>, record: Record) {
    exists i: nat :: i < RulesBefore(h, |h|) && Dangling(h, i) && h[Positions(h, |h|)[i]].record == record
                     && forall j: nat :: j < i ==> !Dangling(h, j)
  }

  /** What a build comes to. */
  ghost predicate BuildOutcome(lines: seq<Line>, custom: bool, policy: Policy, r: Result<Machine, Failure>) {
    var h := History(lines, |lines|);
    match r
    case Err(AtLine(n, e)) =>
      n < |lines| && LineRefusal(lines, n, custom) == Some(e)
      && forall k: nat :: k < n ==> LineRefusal(lines, k, custom).None?
    case Err(AtJump(record)) =>
      policy == RejectUnresolved
      && (forall k: nat :: k < |lines| ==> LineRefusal(lines, k, custom).None?)
      && FirstDangling(h, record)
    case Ok(machine) =>
      (forall k: nat :: k < |lines| ==> LineRefusal(lines, k, custom).None?)
      && (policy == RejectUnresolved ==> NoneDangling(h))
      && Means(machine, h)
  }

  lemma BoundPushed(p: Program, token: Token, bound: nat)
    requires Bounded(p, bound)
    ensures Bounded(Pushed(p, token), bound + 1)
  {
  }

  lemma BoundTruncated(p: Program, start: Rule, bound: nat)
    requires Bounded(p, bound) && StartsWithin(p, start)
    ensures Bounded(Truncated(p, start), bound)
  {
  }

  lemma BoundRules(p: Program, q: Program, bound: nat)
    requires Bounded(p, bound) && q == p.(rules := q.rules)
    ensures Bounded(q, bound)
  {
  }

  lemma BoundFits(p: Program, bound: nat)
    requires Bounded(p, bound) && bound < TWO32
    ensures ArenasFit(p)
  {
  }

  lemma StateNumbers(b: RuleBuilder)
    requires b.Valid()
    ensures b.program.numbers == NumbersOf(b.history, |b.history|) && StartsWithin(b.program, b.start)
  {
  }

  /** Pushes the tokens of a line, up to the first one refused. */
  method PushAll(b: RuleBuilder, tokens: seq<Token>, ghost bound: nat) returns (err: Option<BuildError>)
    requires b.Valid() && b.open == [] && Bounded(b.program, bound)
    modifies b`program, b`open
    ensures err == TokenRefusal(tokens, b.custom)
    ensures err.None? ==> b.Valid() && b.open == tokens && Bounded(b.program, bound + |tokens|)
  {
    hide State, Bounded, Pushed, Refusal;
    assert tokens[0..] == tokens;
    for j := 0 to |tokens|
      invariant b.Valid() && b.open == tokens[..j] && Bounded(b.program, bound + j)
      invariant TokenRefusal(tokens[j..], b.custom) == TokenRefusal(tokens, b.custom)
    {
      assert tokens[j..][1..] == tokens[j + 1..];
      assert tokens[..j + 1] == tokens[..j] + [tokens[j]];
      BoundPushed(b.program, tokens[j], bound + j);
      err := b.OnToken(tokens[j]);
      if err.Some? {
        return;
      }
    }
    assert tokens[..|tokens|] == tokens;
    return None;
  }

  /** What the builder keeps between lines. */
  ghost predicate Read(lines: seq<Line>, n: nat, custom: bool, b: RuleBuilder)
    requires n <= |lines|
    reads b
  {
    && b.Valid() && b.open == [] && b.custom == custom
    && b.history == History(lines, n) && Bounded(b.program, TotalTokens(lines, n))
  }

  /** Reads one line. */
  method ReadLine(lines: seq<Line>, n: nat, custom: bool, b: RuleBuilder) returns (err: Option<BuildError>)
    requires n < |lines| && Read(lines, n, custom, b) && TotalTokens(lines, n + 1) < TWO32
    modifies b
    ensures err == LineRefusal(lines, n, custom)
    ensures err.None? ==> Read(lines, n + 1, custom, b)
  {
    hide State, Bounded, Truncated, TokenRefusal, NumbersOf, ArenasFit, StartsWithin;
    var line := lines[n];
    ghost var total := TotalTokens(lines, n + 1);
    err := PushAll(b, line.tokens, TotalTokens(lines, n));
    if err.Some? {
      return;
    }
    BoundFits(b.program, total);
    StateNumbers(b);
    if !line.kind.InstructionLine? {
      BoundTruncated(b.program, b.start, total);
      b.Drop();
    }
    match line.kind {
      case InstructionLine(record) => err := b.Add(record);
      case LabelLine(name) =>
        ghost var p := b.program;
        b.Label(name);
        BoundRules(p, b.program, total);
      case TableLine(accepted) => err := if accepted then None else Some(TableRefused);
      case BlankLine =>
      case UnknownLine => err := Some(UnsupportedRecord);
    }
  }

  /** Builds a machine from a whole ruleset. */
  method Build(lines: seq<Line>, custom: bool, policy: Policy, site: Site, verdict: Action) returns (r: Result<Machine, Failure>)
    requires TotalTokens(lines, |lines|) < TWO32
    ensures BuildOutcome(lines, custom, policy, r)
    ensures r.Ok? ==> r.value.site == site && r.value.verdict == verdict
  {
    hide LineRefusal, State, Means, NoneDangling, FirstDangling;
    var b := new RuleBuilder(custom);
    for n := 0 to |lines|
      invariant fresh(b) && Read(lines, n, custom, b)
      invariant forall k: nat :: k < n ==> LineRefusal(lines, k, custom).None?
    {
      TotalGrows(lines, n + 1, |lines|);
      var err := ReadLine(lines, n, custom, b);
      if err.Some? {
        return Err(AtLine(n, err.value));
      }
    }
    r := Finish(b, policy, site, verdict);
  }

  /** Links the numbers once every line is read. */
  method Finish(b: RuleBuilder, policy: Policy, site: Site, verdict: Action) returns (r: Result<Machine, Failure>)
    requires b.Valid()
    modifies b
    ensures var h := old(b.history);
            match r
            case Err(AtLine(_, _)) => false
            case Err(AtJump(record)) => policy == RejectUnresolved && FirstDangling(h, record)
            case Ok(machine) => (policy == RejectUnresolved ==> NoneDangling(h)) && Means(machine, h)
                                && machine.site == site && machine.verdict == verdict
  {
    hide State, Laid, LabelsLinked, NumbersLinked, Means, Unlinked, Dangling, Positions, LabelsOf, NumbersOf;
    ghost var h := b.history;
    b.LinkNumbers();
    LaidSizes(b.program, b.start, h);
    DanglingIsUnlinked(b.program, b.labels, b.start, h, b.pendingLabels, b.unresolvedNumbers);
    var unresolved := b.Unresolved();
    if unresolved.Some? && policy == RejectUnresolved {
      return Err(AtJump(unresolved.value));
    }
    var m := Machine(b.program, b.labels, site, verdict);
    FinishedMeans(m, b.start, h, b.pendingLabels, b.unresolvedNumbers);
    return Ok(m);
  }

  lemma DanglingIsUnlinked(p: Program, labels: map<string, nat>, start: Rule, h: seq<Entry>,
                           pending: map<string, seq<nat>>, unresolved: seq<nat>)
    requires Finished(p, labels, start, h, pending, unresolved)
    ensures forall i: nat :: i < |p.rules| ==>
      (Unlinked(p, h, i) <==> Dangling(h, i)) && p.records[i] == h[Positions(h, |h|)[i]].record
  {
    forall i: nat | i < |p.rules|
      ensures (Unlinked(p, h, i) <==> Dangling(h, i)) && p.records[i] == h[Positions(h, |h|)[i]].record
    {
      assert RuleLaid(p, start, h, i);
    }
  }

  lemma FinishedMeans(m: Machine, start: Rule, h: seq<Entry>, pending: map<string, seq<nat>>, unresolved: seq<nat>)
    requires Finished(m.program, m.labels, start, h, pending, unresolved)
    ensures Means(m, h)
  {
    BuiltIsKept(m.program, m.labels, start, h, pending, unresolved);
    assert m.program.numbers == NumbersOf(h, |h|);
    if WellBlocked(h) {
      forall ctx, pkt
        ensures Run(CheckOf(m, ctx, pkt), CodeOf(m.program), 0, m.verdict)
                == Run(SourceCheck(h, m.site, ctx, pkt), SourceCode(h), 0, m.verdict)
      {
        KeptMeansSource(h, CheckOf(m, ctx, pkt), m.verdict);
      }
    }
  }

  /** Checks a packet against a built machine: the verdict of the ruleset without idle comments, and as written when no block is interrupted. */
  method CheckPacket(m: Machine, ghost h: seq<Entry>, ctx: Context, pkt: Packet) returns (action: Action)
    requires Means(m, h)
    ensures Forward(KeptCode(h)) && Forward(SourceCode(h))
    ensures action == Run(SourceCheck(h, m.site, ctx, pkt), KeptCode(h), 0, m.verdict).action
    ensures WellBlocked(h) ==> action == Run(SourceCheck(h, m.site, ctx, pkt), SourceCode(h), 0, m.verdict).action
  {
    hide Run, SourceCode, KeptCode, CodeOf, WellBlocked;
    var terminated, trace;
    action, terminated, trace := CheckTrace(m, ctx, pkt);
  }
}
