/**
 The builder (vm/vm.go): it lays the tokens of every rule out in growing arenas,
 numbers the rules, links labels as they come and numbers at the end.

 What it read so far is kept as a history of instructions and labels. The state is
 tied to that history: the rules are its instructions, each with its own tokens
 less idle comments, and each jump is where the history says.
 */
module Builder {
  import opened Ipfw
  import opened Numbers
  import opened Semantics
  import opened Meaning
  import opened Machine

  /** A token of a rule body as it reaches the builder. */
  datatype Token =
    | IPProtoToken(version: ProtoIPMatch)
    | ProtoToken(proto: ProtoNumberMatch)
    | SourceToken(source: TargetMatch)
    | DestinationToken(destination: TargetMatch)
    | SourcePortToken(sourcePort: PortNumberMatch)
    | DestinationPortToken(destinationPort: PortNumberMatch)
    | OptionToken(opt: Opt)

  datatype BuildError =
    | RuleNumberOrder
    | UnresolvedJump
    | UnsupportedOption
    | UnsupportedAction
    | UnsupportedTableValue
    | UnsupportedRecord
    | TableRefused

  // ------------------------------------------------------------- the ruleset

  /** What a ruleset comes to: its instructions and its labels, in order. */
  datatype Entry =
    | Instruction(tokens: seq<Token>, record: Record)
    | LabelEntry(name: string)

  const EmptyBody := Body([], [], [], [], [], [], [])

  function Extend(body: Body, token: Token): Body {
    match token
    case IPProtoToken(m) => body.(versions := body.versions + [m])
    case ProtoToken(m) => body.(protos := body.protos + [m])
    case SourceToken(m) => body.(sources := body.sources + [m])
    case DestinationToken(m) => body.(destinations := body.destinations + [m])
    case SourcePortToken(m) => body.(sourcePorts := body.sourcePorts + [m])
    case DestinationPortToken(m) => body.(destinationPorts := body.destinationPorts + [m])
    case OptionToken(m) => body.(options := body.options + [m])
  }

  /** The body a line of tokens spells. */
  function BodyOfTokens(tokens: seq<Token>): Body {
    if tokens == [] then EmptyBody
    else Extend(BodyOfTokens(tokens[..|tokens| - 1]), tokens[|tokens| - 1])
  }

  /** A body without idle comments. */
  function Compact(body: Body): Body {
    body.(options := Kept(body.options, |body.options|))
  }

  /** The instructions among the first `n` entries, by position. */
  ghost function Positions(h: seq<Entry>, n: nat): (r: seq<nat>)
    requires n <= |h|
    ensures |r| <= n
    ensures forall k :: 0 <= k < |r| ==> r[k] < n && h[r[k]].Instruction?
    ensures forall i, j :: 0 <= i < j < |r| ==> r[i] < r[j]
  {
    if n == 0 then [] else Positions(h, n - 1) + (if h[n - 1].Instruction? then [n - 1] else [])
  }

  /** How many rules stand before an entry. */
  ghost function RulesBefore(h: seq<Entry>, n: nat): nat
    requires n <= |h|
  {
    |Positions(h, n)|
  }

  /** The rule after the first declaration of a label at or past an entry. */
  ghost function LabelAfter(h: seq<Entry>, from: nat, name: string): (r: Option<nat>)
    decreases |h| - from
  {
    if from >= |h| then None
    else if h[from] == LabelEntry(name) then Some(RulesBefore(h, from))
    else LabelAfter(h, from + 1, name)
  }

  /** How many rules stand above a label, a repeated one counting where it is last. */
  ghost function LabelsOf(h: seq<Entry>, n: nat): map<string, nat>
    requires n <= |h|
  {
    if n == 0 then map[]
    else if h[n - 1].LabelEntry? then LabelsOf(h, n - 1)[h[n - 1].name := RulesBefore(h, n - 1)]
    else LabelsOf(h, n - 1)
  }

  /** The number a rule has: its own, or one past the previous rule, from one on. */
  function NumberAfter(previous: nat, num: uint32): nat {
    if num == 0 then previous + 1 else num
  }

  function LastNumber(numbers: seq<nat>): nat {
    if numbers == [] then 0 else numbers[|numbers| - 1]
  }

  ghost function NumbersOf(h: seq<Entry>, n: nat): (r: seq<nat>)
    requires n <= |h|
    ensures |r| == RulesBefore(h, n)
  {
    if n == 0 then []
    else if h[n - 1].Instruction? then
      var before := NumbersOf(h, n - 1);
      before + [NumberAfter(LastNumber(before), h[n - 1].record.num)]
    else NumbersOf(h, n - 1)
  }

  // ------------------------------------------------------ the history grows

  lemma {:induction false} PositionsGrow(h: seq<Entry>, e: Entry, n: nat)
    requires n <= |h|
    ensures Positions(h + [e], n) == Positions(h, n)
    ensures NumbersOf(h + [e], n) == NumbersOf(h, n)
    ensures LabelsOf(h + [e], n) == LabelsOf(h, n)
  {
    if n > 0 {
      PositionsGrow(h, e, n - 1);
      assert (h + [e])[n - 1] == h[n - 1];
    }
  }

  /** A label that was declared stays, and a new declaration is found when there was none. */
  lemma {:induction false} LabelAfterGrows(h: seq<Entry>, e: Entry, from: nat, name: string)
    requires from <= |h|
    ensures LabelAfter(h + [e], from, name)
         == if LabelAfter(h, from, name).Some? then LabelAfter(h, from, name)
            else if e == LabelEntry(name) then Some(RulesBefore(h, |h|)) else None
    decreases |h| - from
  {
    var g := h + [e];
    if from == |h| {
      PositionsGrow(h, e, |h|);
      assert g[from] == e;
      assert LabelAfter(g, from + 1, name) == None;
    } else {
      PositionsGrow(h, e, from);
      assert g[from] == h[from];
      LabelAfterGrows(h, e, from + 1, name);
    }
  }

  /** A label found at or past an entry stands after the rules before that entry. */
  lemma {:induction false} LabelIsLater(h: seq<Entry>, from: nat, name: string)
    requires from <= |h| && LabelAfter(h, from, name).Some?
    ensures RulesBefore(h, from) <= LabelAfter(h, from, name).value <= RulesBefore(h, |h|)
    decreases |h| - from
  {
    if h[from] == LabelEntry(name) {
      RulesGrow(h, from, |h|);
    } else {
      RulesGrow(h, from, from + 1);
      LabelIsLater(h, from + 1, name);
    }
  }

  lemma {:induction false} RulesGrow(h: seq<Entry>, i: nat, j: nat)
    requires i <= j <= |h|
    ensures Positions(h, i) <= Positions(h, j)
    decreases j - i
  {
    if i < j {
      RulesGrow(h, i, j - 1);
    }
  }

  // ---------------------------------------------------------------- the arenas

  /** A rule's runs end where another starts, or before. */
  predicate Before(rule: Rule, start: Rule) {
    && rule.ipProtos.end <= start.ipProtos.start && rule.protos.end <= start.protos.start
    && rule.sources.end <= start.sources.start && rule.destinations.end <= start.destinations.start
    && rule.sourcePorts.end <= start.sourcePorts.start && rule.destinationPorts.end <= start.destinationPorts.start
    && rule.options.end <= start.options.start
  }

  /** A rule's runs start exactly where another's end. */
  predicate Abuts(rule: Rule, next: Rule) {
    && rule.ipProtos.end == next.ipProtos.start && rule.protos.end == next.protos.start
    && rule.sources.end == next.sources.start && rule.destinations.end == next.destinations.start
    && rule.sourcePorts.end == next.sourcePorts.start && rule.destinationPorts.end == next.destinationPorts.start
    && rule.options.end == next.options.start
  }

  /** Where the arenas of a program end. */
  predicate StartsWithin(p: Program, start: Rule) {
    && start.ipProtos.start <= |p.ipProtos| && start.protos.start <= |p.protos|
    && start.sources.start <= |p.sources| && start.destinations.start <= |p.destinations|
    && start.sourcePorts.start <= |p.sourcePorts| && start.destinationPorts.start <= |p.destinationPorts|
    && start.options.start <= |p.options|
  }

  predicate StartsAtEnd(p: Program, start: Rule) {
    && start.ipProtos.start == |p.ipProtos| && start.protos.start == |p.protos|
    && start.sources.start == |p.sources| && start.destinations.start == |p.destinations|
    && start.sourcePorts.start == |p.sourcePorts| && start.destinationPorts.start == |p.destinationPorts|
    && start.options.start == |p.options|
  }

  /** The tokens past where a rule starts. */
  function OpenBody(p: Program, start: Rule): Body
    requires StartsWithin(p, start)
  {
    Body(p.ipProtos[start.ipProtos.start..], p.protos[start.protos.start..],
         p.sources[start.sources.start..], p.destinations[start.destinations.start..],
         p.sourcePorts[start.sourcePorts.start..], p.destinationPorts[start.destinationPorts.start..],
         p.options[start.options.start..])
  }

  /** Two programs agree on what stands before where a rule starts. */
  predicate AgreeBefore(p: Program, q: Program, start: Rule)
    requires StartsWithin(p, start) && StartsWithin(q, start)
  {
    && p.ipProtos[..start.ipProtos.start] == q.ipProtos[..start.ipProtos.start]
    && p.protos[..start.protos.start] == q.protos[..start.protos.start]
    && p.sources[..start.sources.start] == q.sources[..start.sources.start]
    && p.destinations[..start.destinations.start] == q.destinations[..start.destinations.start]
    && p.sourcePorts[..start.sourcePorts.start] == q.sourcePorts[..start.sourcePorts.start]
    && p.destinationPorts[..start.destinationPorts.start] == q.destinationPorts[..start.destinationPorts.start]
    && p.options[..start.options.start] == q.options[..start.options.start]
  }

  lemma SameSlice<T>(a: seq<T>, b: seq<T>, span: Span, n: nat)
    requires n <= |a| && n <= |b| && a[..n] == b[..n] && InArena(span, a) && span.end <= n
    ensures InArena(span, b) && Slice(a, span) == Slice(b, span)
  {
    assert a[span.start..span.end] == a[..n][span.start..span.end];
    assert b[span.start..span.end] == b[..n][span.start..span.end];
  }

  /** The body of a closed rule does not depend on what is appended or dropped past it. */
  lemma SameBody(p: Program, q: Program, start: Rule, rule: Rule)
    requires StartsWithin(p, start) && StartsWithin(q, start) && AgreeBefore(p, q, start)
    requires RunsInArenas(p, rule) && Before(rule, start)
    ensures RunsInArenas(q, rule) && BodyOf(p, rule) == BodyOf(q, rule)
  {
    SameSlice(p.ipProtos, q.ipProtos, rule.ipProtos, start.ipProtos.start);
    SameSlice(p.protos, q.protos, rule.protos, start.protos.start);
    SameSlice(p.sources, q.sources, rule.sources, start.sources.start);
    SameSlice(p.destinations, q.destinations, rule.destinations, start.destinations.start);
    SameSlice(p.sourcePorts, q.sourcePorts, rule.sourcePorts, start.sourcePorts.start);
    SameSlice(p.destinationPorts, q.destinationPorts, rule.destinationPorts, start.destinationPorts.start);
    SameSlice(p.options, q.options, rule.options, start.options.start);
  }

  predicate Bounded(p: Program, bound: nat) {
    && |p.ipProtos| <= bound && |p.protos| <= bound && |p.sources| <= bound && |p.destinations| <= bound
    && |p.sourcePorts| <= bound && |p.destinationPorts| <= bound && |p.options| <= bound
  }

  /** Every arena holds fewer than 2^32 tokens, so that its indexes fit the runs. */
  predicate ArenasFit(p: Program) {
    && |p.ipProtos| < TWO32 && |p.protos| < TWO32 && |p.sources| < TWO32 && |p.destinations| < TWO32
    && |p.sourcePorts| < TWO32 && |p.destinationPorts| < TWO32 && |p.options| < TWO32
  }

  function ZeroRule(): Rule {
    var s := Span(0, 0);
    Rule(ActionUnset, false, 0, s, s, s, s, s, s, s)
  }

  const EmptyProgram := Program([], [], [], [], [], [], [], [], [], [], [])

  /** The rule that owns no token yet: the next token of any kind will be its first. */
  function MarkOf(p: Program): (r: Rule)
    requires ArenasFit(p)
    ensures StartsAtEnd(p, r) && r.jump == 0 && !r.tableArg
  {
    var At := (n: nat) => Span(ToUint32(n), ToUint32(n));
    Rule(ActionUnset, false, 0, At(|p.ipProtos|), At(|p.protos|), At(|p.sources|), At(|p.destinations|),
         At(|p.sourcePorts|), At(|p.destinationPorts|), At(|p.options|))
  }

  /** A rule over all open tokens, as `ClosedBody` shows. */
  function CloseOf(p: Program, open: Rule): (r: Rule)
    requires ArenasFit(p) && StartsWithin(p, open)
    ensures r.kind == open.kind && r.tableArg == open.tableArg && r.jump == open.jump
  {
    open.(ipProtos := open.ipProtos.(end := ToUint32(|p.ipProtos|)),
          protos := open.protos.(end := ToUint32(|p.protos|)),
          sources := open.sources.(end := ToUint32(|p.sources|)),
          destinations := open.destinations.(end := ToUint32(|p.destinations|)),
          sourcePorts := open.sourcePorts.(end := ToUint32(|p.sourcePorts|)),
          destinationPorts := open.destinationPorts.(end := ToUint32(|p.destinationPorts|)),
          options := open.options.(end := ToUint32(|p.options|)))
  }

  lemma RunToEnd<T>(arena: seq<T>, span: Span)
    requires |arena| < TWO32 && span.start <= |arena|
    ensures var run := span.(end := ToUint32(|arena|)); InArena(run, arena) && Slice(arena, run) == arena[span.start..]
  {
  }

  /** Closed, the rule has the tokens that were open. */
  lemma ClosedBody(p: Program, open: Rule)
    requires ArenasFit(p) && StartsWithin(p, open)
    ensures RunsInArenas(p, CloseOf(p, open)) && BodyOf(p, CloseOf(p, open)) == OpenBody(p, open)
  {
    hide Slice, ToUint32, InArena;
    RunToEnd(p.ipProtos, open.ipProtos);
    RunToEnd(p.protos, open.protos);
    RunToEnd(p.sources, open.sources);
    RunToEnd(p.destinations, open.destinations);
    RunToEnd(p.sourcePorts, open.sourcePorts);
    RunToEnd(p.destinationPorts, open.destinationPorts);
    RunToEnd(p.options, open.options);
  }

  // ----------------------------------------------------------- what is kept

  /** The rules are the instructions so far, each over its own tokens, numbered. */
  ghost predicate Laid(p: Program, start: Rule, h: seq<Entry>) {
    var n := RulesBefore(h, |h|);
    && StartsWithin(p, start)
    && |p.rules| == |p.numbers| == |p.records| == |p.actions| == n
    && Numbered(p, h)
    && (forall i: nat :: i < n ==> RuleLaid(p, start, h, i))
    && RunsAbut(p, start)
  }

  /** The numbers are those of the instructions and go up, from one on. */
  ghost predicate Numbered(p: Program, h: seq<Entry>) {
    && p.numbers == NumbersOf(h, |h|) && Increasing(p.numbers)
    && forall i: nat :: i < |p.numbers| ==> i < p.numbers[i]
  }

  /** The runs of the rules leave no gap, from the start of every arena on. */
  ghost predicate RunsAbut(p: Program, start: Rule) {
    && (forall i: nat :: i < |p.rules| ==> Abuts(p.rules[i], RuleAfter(p, start, i)))
    && StartsAtEnd(EmptyProgram, if |p.rules| > 0 then p.rules[0] else start)
  }

  /** The rule that starts where a rule ends, the open one after the last. */
  function RuleAfter(p: Program, start: Rule, i: nat): Rule {
    if i + 1 < |p.rules| then p.rules[i + 1] else start
  }

  ghost predicate RuleLaid(p: Program, start: Rule, h: seq<Entry>, i: nat)
    requires i < |p.rules| == |p.records| == |p.actions| == RulesBefore(h, |h|)
  {
    var rule, entry := p.rules[i], h[Positions(h, |h|)[i]];
    && RunsInArenas(p, rule) && Before(rule, start)
    && BodyOf(p, rule) == Compact(BodyOfTokens(entry.tokens))
    && p.records[i] == entry.record && p.actions[i] == entry.record.action
    && rule.kind == p.actions[i].kind && rule.kind != ActionUnset
    && rule.tableArg == (rule.kind == ActionSkipTo && p.actions[i].skipTo.kind == SkipToTableArg)
    && (rule.kind == ActionSkipTo ==> p.actions[i].skipTo.kind != SkipToUnset)
  }

  predicate JumpsTo(action: Action, kind: SkipToKind) {
    action.kind == ActionSkipTo && action.skipTo.kind == kind
  }

  /** The rule a label is declared for after a rule. */
  ghost function LabelTarget(h: seq<Entry>, i: nat, name: string): Option<nat>
    requires i < RulesBefore(h, |h|)
  {
    LabelAfter(h, Positions(h, |h|)[i] + 1, name)
  }

  /** The rule a rule's number lands on: the first numbered at or after it, past
      the rule itself, none when no later rule is. */
  ghost function NumberTarget(numbers: seq<nat>, i: nat, number: uint32): Option<nat>
    requires i < |numbers|
  {
    var at := FirstFrom(numbers, if number <= numbers[i] then numbers[i] + 1 else number);
    if at < |numbers| then Some(at) else None
  }

  /** Every label jump goes to the rule after the first later declaration, or waits for one. */
  ghost predicate LabelsLinked(p: Program, h: seq<Entry>, pending: map<string, seq<nat>>)
    requires |p.rules| == |p.actions| == RulesBefore(h, |h|)
  {
    && (forall i: nat :: i < |p.rules| && JumpsTo(p.actions[i], SkipToLabel) ==> LabelLinked(p, h, pending, i))
    && (forall name, k: nat :: name in pending && k in pending[name] ==> k < |p.rules| && Waits(p, h, name, k))
  }

  ghost predicate LabelLinked(p: Program, h: seq<Entry>, pending: map<string, seq<nat>>, i: nat)
    requires i < |p.rules| == |p.actions| == RulesBefore(h, |h|)
  {
    match LabelTarget(h, i, p.actions[i].skipTo.name)
    case Some(target) => p.rules[i].jump == target
    case None => var name := p.actions[i].skipTo.name;
                 p.rules[i].jump == i + 1 && name in pending && i in pending[name]
  }

  ghost predicate Waits(p: Program, h: seq<Entry>, name: string, k: nat)
    requires k < |p.rules| == |p.actions| == RulesBefore(h, |h|)
  {
    JumpsTo(p.actions[k], SkipToLabel) && p.actions[k].skipTo.name == name && LabelTarget(h, k, name).None?
  }

  /** Every number jump still falls to the next rule and is remembered. */
  ghost predicate NumbersWait(p: Program, numberJumps: seq<nat>)
    requires |p.rules| == |p.actions|
  {
    && (forall i: nat :: i < |p.rules| && JumpsTo(p.actions[i], SkipToNumber) ==> NumberWaits(p, numberJumps, i))
    && (forall k: nat :: k in numberJumps ==> k < |p.rules| && JumpsTo(p.actions[k], SkipToNumber))
  }

  ghost predicate NumberWaits(p: Program, numberJumps: seq<nat>, i: nat)
    requires i < |p.rules|
  {
    p.rules[i].jump == i + 1 && i in numberJumps
  }

  lemma LaidSizes(p: Program, start: Rule, h: seq<Entry>)
    requires Laid(p, start, h)
    ensures |p.rules| == |p.numbers| == |p.records| == |p.actions| == RulesBefore(h, |h|)
    ensures StartsWithin(p, start)
  {
  }

  /** What is laid does not depend on the tokens past where the open rule starts. */
  lemma LaidStill(p: Program, q: Program, start: Rule, h: seq<Entry>)
    requires Laid(p, start, h) && StartsWithin(q, start) && AgreeBefore(p, q, start)
    requires q.rules == p.rules && q.numbers == p.numbers && q.records == p.records && q.actions == p.actions
    ensures Laid(q, start, h)
  {
    forall i: nat | i < |p.rules| ensures RuleLaid(q, start, h, i) {
      assert RuleLaid(p, start, h, i);
      SameBody(p, q, start, p.rules[i]);
    }
    assert forall i: nat :: i < |p.rules| ==> RuleAfter(q, start, i) == RuleAfter(p, start, i);
  }

  function Pushed(p: Program, token: Token): Program {
    match token
    case IPProtoToken(m) => p.(ipProtos := p.ipProtos + [m])
    case ProtoToken(m) => p.(protos := p.protos + [m])
    case SourceToken(m) => p.(sources := p.sources + [m])
    case DestinationToken(m) => p.(destinations := p.destinations + [m])
    case SourcePortToken(m) => p.(sourcePorts := p.sourcePorts + [m])
    case DestinationPortToken(m) => p.(destinationPorts := p.destinationPorts + [m])
    case OptionToken(m) => p.(options := p.options + [m])
  }

  lemma SuffixGrows<T>(a: seq<T>, x: T, n: nat)
    requires n <= |a|
    ensures (a + [x])[n..] == a[n..] + [x] && (a + [x])[..n] == a[..n]
  {
  }

  lemma PushedOpen(p: Program, token: Token, start: Rule)
    requires StartsWithin(p, start)
    ensures var q := Pushed(p, token);
            StartsWithin(q, start) && OpenBody(q, start) == Extend(OpenBody(p, start), token) && AgreeBefore(p, q, start)
  {
    match token
    case IPProtoToken(m) => SuffixGrows(p.ipProtos, m, start.ipProtos.start);
    case ProtoToken(m) => SuffixGrows(p.protos, m, start.protos.start);
    case SourceToken(m) => SuffixGrows(p.sources, m, start.sources.start);
    case DestinationToken(m) => SuffixGrows(p.destinations, m, start.destinations.start);
    case SourcePortToken(m) => SuffixGrows(p.sourcePorts, m, start.sourcePorts.start);
    case DestinationPortToken(m) => SuffixGrows(p.destinationPorts, m, start.destinationPorts.start);
    case OptionToken(m) => SuffixGrows(p.options, m, start.options.start);
  }

  lemma PushedLaid(p: Program, token: Token, start: Rule, h: seq<Entry>, open: seq<Token>)
    requires Laid(p, start, h) && OpenBody(p, start) == BodyOfTokens(open)
    ensures Laid(Pushed(p, token), start, h)
    ensures OpenBody(Pushed(p, token), start) == BodyOfTokens(open + [token])
  {
    hide Laid, OpenBody, AgreeBefore, StartsWithin, Extend;
    var q := Pushed(p, token);
    assert (open + [token])[..|open|] == open;
    LaidSizes(p, start, h);
    PushedOpen(p, token, start);
    LaidStill(p, q, start, h);
  }

  /** The links do not depend on the arenas. */
  lemma PushedKeepsLinks(p: Program, q: Program, h: seq<Entry>, pending: map<string, seq<nat>>, numberJumps: seq<nat>)
    requires |p.rules| == |p.actions| == RulesBefore(h, |h|)
    requires LabelsLinked(p, h, pending) && NumbersWait(p, numberJumps)
    requires q.rules == p.rules && q.actions == p.actions
    ensures LabelsLinked(q, h, pending) && NumbersWait(q, numberJumps)
  {
    assert forall i: nat :: i < |p.rules| && JumpsTo(p.actions[i], SkipToLabel) ==>
      (LabelLinked(p, h, pending, i) <==> LabelLinked(q, h, pending, i));
    assert forall i: nat :: i < |p.rules| && JumpsTo(p.actions[i], SkipToNumber) ==>
      (NumberWaits(p, numberJumps, i) <==> NumberWaits(q, numberJumps, i));
    assert forall name, k: nat :: name in pending && k in pending[name] && k < |p.rules| ==>
      (Waits(p, h, name, k) <==> Waits(q, h, name, k));
  }

  function Truncated(p: Program, start: Rule): Program
    requires StartsWithin(p, start)
  {
    p.(ipProtos := p.ipProtos[..start.ipProtos.start],
       protos := p.protos[..start.protos.start],
       sources := p.sources[..start.sources.start],
       destinations := p.destinations[..start.destinations.start],
       sourcePorts := p.sourcePorts[..start.sourcePorts.start],
       destinationPorts := p.destinationPorts[..start.destinationPorts.start],
       options := p.options[..start.options.start])
  }

  lemma TruncatedLaid(p: Program, start: Rule, h: seq<Entry>)
    requires Laid(p, start, h)
    ensures Laid(Truncated(p, start), start, h)
    ensures OpenBody(Truncated(p, start), start) == BodyOfTokens([])
  {
    var q := Truncated(p, start);
    assert AgreeBefore(p, q, start) && OpenBody(q, start) == EmptyBody;
    LaidStill(p, q, start, h);
  }

  /** A program with one more rule. */
  function Appended(p: Program, closed: Rule, number: uint32, rec: Record): Program {
    p.(rules := p.rules + [closed], numbers := p.numbers + [number],
       records := p.records + [rec], actions := p.actions + [rec.action])
  }

  /** The rule an accepted instruction becomes. */
  predicate ClosedFor(p: Program, start: Rule, rec: Record, closed: Rule)
    requires ArenasFit(p) && StartsWithin(p, start)
  {
    && closed == CloseOf(p, start).(kind := rec.action.kind, jump := closed.jump, tableArg := closed.tableArg)
    && closed.tableArg == JumpsTo(rec.action, SkipToTableArg)
    && rec.action.kind != ActionUnset
    && (rec.action.kind == ActionSkipTo ==> rec.action.skipTo.kind != SkipToUnset && closed.jump == |p.rules| + 1)
  }

  lemma HistoryGrows(h: seq<Entry>, e: Entry)
    ensures var g := h + [e];
            && Positions(g, |g|) == Positions(h, |h|) + (if e.Instruction? then [|h|] else [])
            && LabelsOf(g, |g|) == (if e.LabelEntry? then LabelsOf(h, |h|)[e.name := RulesBefore(h, |h|)] else LabelsOf(h, |h|))
            && NumbersOf(g, |g|) == NumbersOf(h, |h|)
                 + (if e.Instruction? then [NumberAfter(LastNumber(NumbersOf(h, |h|)), e.record.num)] else [])
            && forall i: nat :: i < RulesBefore(h, |h|) ==> g[Positions(h, |h|)[i]] == h[Positions(h, |h|)[i]]
  {
    PositionsGrow(h, e, |h|);
    assert (h + [e])[|h|] == e;
  }

  lemma AppendedRuns(p: Program, start: Rule, rec: Record, closed: Rule, number: uint32)
    requires ArenasFit(p) && StartsWithin(p, start) && ClosedFor(p, start, rec, closed) && RunsAbut(p, start)
    ensures var q := Appended(p, closed, number, rec); RunsAbut(q, MarkOf(q))
  {
    var q, n := Appended(p, closed, number, rec), |p.rules|;
    ClosedRuns(p, start, rec, closed, number);
    hide Abuts, MarkOf, CloseOf, ClosedFor, StartsWithin;
    forall i: nat | i <= n ensures Abuts(q.rules[i], RuleAfter(q, MarkOf(q), i)) {
      if i + 1 < n {
        assert Abuts(p.rules[i], RuleAfter(p, start, i));
        assert q.rules[i] == p.rules[i] && q.rules[i + 1] == p.rules[i + 1];
      } else if i + 1 == n {
        assert Abuts(p.rules[i], RuleAfter(p, start, i));
      }
    }
  }

  /** The new rule starts where the open one did and ends where the next one starts. */
  lemma ClosedRuns(p: Program, start: Rule, rec: Record, closed: Rule, number: uint32)
    requires ArenasFit(p) && StartsWithin(p, start) && ClosedFor(p, start, rec, closed)
    ensures Abuts(closed, MarkOf(Appended(p, closed, number, rec)))
    ensures forall rule :: Abuts(rule, start) ==> Abuts(rule, closed)
    ensures StartsAtEnd(EmptyProgram, start) ==> StartsAtEnd(EmptyProgram, closed)
  {
  }

  lemma RuleIsLaid(p: Program, start: Rule, h: seq<Entry>, i: nat)
    requires Laid(p, start, h) && i < |p.rules|
    ensures |p.rules| == |p.records| == |p.actions| == RulesBefore(h, |h|) && RuleLaid(p, start, h, i)
  {
  }

  lemma AppendedRule(p: Program, start: Rule, h: seq<Entry>, tokens: seq<Token>, rec: Record, closed: Rule, number: uint32, i: nat)
    requires Laid(p, start, h) && ArenasFit(p) && ClosedFor(p, start, rec, closed)
    requires OpenBody(p, start) == Compact(BodyOfTokens(tokens))
    requires i <= |p.rules|
    ensures var q, g := Appended(p, closed, number, rec), h + [Instruction(tokens, rec)];
            |q.rules| == |q.records| == |q.actions| == RulesBefore(g, |g|) && RuleLaid(q, MarkOf(q), g, i)
  {
    HistoryGrows(h, Instruction(tokens, rec));
    LaidSizes(p, start, h);
    hide Laid, RuleLaid, Positions, ClosedFor, OpenBody;
    if i < |p.rules| {
      EarlierRule(p, start, h, tokens, rec, closed, number, i);
    } else {
      NewRule(p, start, h, tokens, rec, closed, number);
    }
  }

  lemma EarlierRule(p: Program, start: Rule, h: seq<Entry>, tokens: seq<Token>, rec: Record, closed: Rule, number: uint32, i: nat)
    requires Laid(p, start, h) && ArenasFit(p) && i < |p.rules|
    ensures var q, g := Appended(p, closed, number, rec), h + [Instruction(tokens, rec)];
            |q.rules| == |q.records| == |q.actions| == RulesBefore(g, |g|) && RuleLaid(q, MarkOf(q), g, i)
  {
    RuleIsLaid(p, start, h, i);
    LaidSizes(p, start, h);
    HistoryGrows(h, Instruction(tokens, rec));
    hide Positions, BodyOfTokens, Compact, Laid;
    var q := Appended(p, closed, number, rec);
    assert q.rules[i] == p.rules[i] && q.records[i] == p.records[i] && q.actions[i] == p.actions[i];
    assert BodyOf(q, q.rules[i]) == BodyOf(p, p.rules[i]);
  }

  lemma NewRule(p: Program, start: Rule, h: seq<Entry>, tokens: seq<Token>, rec: Record, closed: Rule, number: uint32)
    requires |p.rules| == |p.records| == |p.actions| == RulesBefore(h, |h|) && StartsWithin(p, start)
    requires ArenasFit(p) && ClosedFor(p, start, rec, closed)
    requires OpenBody(p, start) == Compact(BodyOfTokens(tokens))
    ensures var q, g := Appended(p, closed, number, rec), h + [Instruction(tokens, rec)];
            |q.rules| == |q.records| == |q.actions| == RulesBefore(g, |g|) && RuleLaid(q, MarkOf(q), g, |p.rules|)
  {
    var q := Appended(p, closed, number, rec);
    HistoryGrows(h, Instruction(tokens, rec));
    ClosedBody(p, start);
    hide Positions, BodyOfTokens, Compact, OpenBody;
    assert BodyOf(q, closed) == BodyOf(p, CloseOf(p, start));
    assert q.rules[|p.rules|] == closed;
  }

  /** Numbers go up, so that a rule is numbered past its index. */
  lemma AppendedNumber(numbers: seq<uint32>, number: uint32)
    requires Increasing(numbers) && (forall i: nat :: i < |numbers| ==> i < numbers[i])
    requires number > LastNumber(numbers)
    ensures Increasing(numbers + [number]) && forall i: nat :: i <= |numbers| ==> i < (numbers + [number])[i]
  {
    var last := |numbers| - 1;
    assert forall i: nat :: i < |numbers| ==> numbers[i] <= numbers[last];
  }

  lemma NothingOpen(p: Program, start: Rule)
    requires StartsAtEnd(p, start)
    ensures StartsWithin(p, start) && OpenBody(p, start) == BodyOfTokens([])
  {
  }

  lemma AppendedNumbered(p: Program, h: seq<Entry>, tokens: seq<Token>, rec: Record, closed: Rule, number: uint32)
    requires Numbered(p, h) && number == NumberAfter(LastNumber(p.numbers), rec.num) > LastNumber(p.numbers)
    ensures Numbered(Appended(p, closed, number, rec), h + [Instruction(tokens, rec)])
  {
    HistoryGrows(h, Instruction(tokens, rec));
    hide NumbersOf, Positions, LabelsOf;
    AppendedNumber(p.numbers, number);
  }

  lemma LaidNumbers(p: Program, start: Rule, h: seq<Entry>)
    requires Laid(p, start, h)
    ensures Numbered(p, h) && RunsAbut(p, start)
  {
  }

  lemma AppendedLaid(p: Program, start: Rule, h: seq<Entry>, tokens: seq<Token>, rec: Record, closed: Rule, number: uint32)
    requires Laid(p, start, h) && ArenasFit(p) && ClosedFor(p, start, rec, closed)
    requires OpenBody(p, start) == Compact(BodyOfTokens(tokens))
    requires number == NumberAfter(LastNumber(p.numbers), rec.num) > LastNumber(p.numbers)
    ensures var q, g := Appended(p, closed, number, rec), h + [Instruction(tokens, rec)];
            Laid(q, MarkOf(q), g) && OpenBody(q, MarkOf(q)) == BodyOfTokens([])
  {
    var q, g := Appended(p, closed, number, rec), h + [Instruction(tokens, rec)];
    hide RuleLaid, Positions, Numbered, RunsAbut, ClosedFor, OpenBody, MarkOf, StartsAtEnd, StartsWithin, LastNumber, NumberAfter;
    LaidSizes(p, start, h);
    LaidNumbers(p, start, h);
    AppendedNumbered(p, h, tokens, rec, closed, number);
    AppendedRuns(p, start, rec, closed, number);
    NothingOpen(q, MarkOf(q));
    HistoryGrows(h, Instruction(tokens, rec));
    forall i: nat | i <= |p.rules|
      ensures |q.rules| == |q.records| == |q.actions| == RulesBefore(g, |g|) && RuleLaid(q, MarkOf(q), g, i)
    {
      AppendedRule(p, start, h, tokens, rec, closed, number, i);
    }
  }

  /** One more jump waiting for a label. */
  function Waiting(pending: map<string, seq<nat>>, name: string, idx: nat): map<string, seq<nat>> {
    pending[name := (if name in pending then pending[name] else []) + [idx]]
  }

  /** One rule more, which no label was declared for yet. */
  ghost predicate OneMore(p: Program, h: seq<Entry>, q: Program, g: seq<Entry>) {
    var n := |p.rules|;
    && |p.actions| == RulesBefore(h, |h|) == n && |q.rules| == |q.actions| == RulesBefore(g, |g|) == n + 1
    && (forall i: nat :: i < n ==> q.rules[i] == p.rules[i] && q.actions[i] == p.actions[i])
    && (forall i: nat, name :: i < n ==> LabelTarget(g, i, name) == LabelTarget(h, i, name))
    && (forall name :: LabelTarget(g, n, name) == None)
  }

  lemma AppendedIsOneMore(p: Program, h: seq<Entry>, tokens: seq<Token>, rec: Record, closed: Rule, number: uint32)
    requires |p.rules| == |p.actions| == RulesBefore(h, |h|)
    ensures OneMore(p, h, Appended(p, closed, number, rec), h + [Instruction(tokens, rec)])
  {
    var e := Instruction(tokens, rec);
    HistoryGrows(h, e);
    forall i: nat, name | i < |p.rules| ensures LabelTarget(h + [e], i, name) == LabelTarget(h, i, name) {
      LabelAfterGrows(h, e, Positions(h, |h|)[i] + 1, name);
    }
  }

  lemma OneMoreLabel(p: Program, h: seq<Entry>, q: Program, g: seq<Entry>,
                     pending: map<string, seq<nat>>, pending': map<string, seq<nat>>, i: nat)
    requires OneMore(p, h, q, g) && LabelsLinked(p, h, pending) && i < |q.rules| && JumpsTo(q.actions[i], SkipToLabel)
    requires forall name, k: nat :: name in pending && k in pending[name] ==> name in pending' && k in pending'[name]
    requires var n, name := |p.rules|, q.actions[i].skipTo.name;
             i == n ==> q.rules[n].jump == n + 1 && name in pending' && n in pending'[name]
    ensures LabelLinked(q, g, pending', i)
  {
    hide LabelTarget;
    if i < |p.rules| {
      assert LabelLinked(p, h, pending, i);
    }
  }

  lemma OneMoreWaits(p: Program, h: seq<Entry>, q: Program, g: seq<Entry>, pending: map<string, seq<nat>>, name: string, k: nat)
    requires OneMore(p, h, q, g) && LabelsLinked(p, h, pending) && name in pending && k in pending[name]
    ensures k < |p.rules| && Waits(q, g, name, k)
  {
    hide LabelTarget, LabelLinked;
    assert Waits(p, h, name, k);
  }

  /** The links of the earlier rules stay, and the new one waits. */
  lemma AppendedLinks(p: Program, h: seq<Entry>, pending: map<string, seq<nat>>, numberJumps: seq<nat>,
                      tokens: seq<Token>, rec: Record, closed: Rule, number: uint32,
                      pending': map<string, seq<nat>>, numberJumps': seq<nat>)
    requires |p.rules| == |p.actions| == RulesBefore(h, |h|)
    requires LabelsLinked(p, h, pending) && NumbersWait(p, numberJumps)
    requires JumpsTo(rec.action, SkipToLabel) || JumpsTo(rec.action, SkipToNumber) ==> closed.jump == |p.rules| + 1
    requires numberJumps' == numberJumps + (if JumpsTo(rec.action, SkipToNumber) then [|p.rules|] else [])
    requires pending' == if JumpsTo(rec.action, SkipToLabel) then Waiting(pending, rec.action.skipTo.name, |p.rules|)
                         else pending
    ensures var q, g := Appended(p, closed, number, rec), h + [Instruction(tokens, rec)];
            RulesBefore(g, |g|) == |q.rules| && LabelsLinked(q, g, pending') && NumbersWait(q, numberJumps')
  {
    var q, g, n := Appended(p, closed, number, rec), h + [Instruction(tokens, rec)], |p.rules|;
    AppendedIsOneMore(p, h, tokens, rec, closed, number);
    hide LabelTarget, Positions, LabelAfter, LabelLinked, Waits, OneMore, NumbersWait;
    assert RulesBefore(g, |g|) == n + 1 by { OneMoreRule(p, h, q, g); }
    forall i: nat | i <= n && JumpsTo(q.actions[i], SkipToLabel) ensures LabelLinked(q, g, pending', i) {
      OneMoreLabel(p, h, q, g, pending, pending', i);
    }
    forall name, k: nat | name in pending' && k in pending'[name] ensures k < |q.rules| && Waits(q, g, name, k) {
      if k == n {
        NewRuleWaits(p, h, q, g, pending, name);
      } else {
        OneMoreWaits(p, h, q, g, pending, name, k);
      }
    }
    NumbersStillWait(p, q, numberJumps, numberJumps');
  }

  lemma OneMoreRule(p: Program, h: seq<Entry>, q: Program, g: seq<Entry>)
    requires OneMore(p, h, q, g)
    ensures |q.rules| == |q.actions| == RulesBefore(g, |g|) == |p.rules| + 1
  {
  }

  lemma NewRuleWaits(p: Program, h: seq<Entry>, q: Program, g: seq<Entry>, pending: map<string, seq<nat>>, name: string)
    requires OneMore(p, h, q, g) && LabelsLinked(p, h, pending)
    requires JumpsTo(q.actions[|p.rules|], SkipToLabel) && q.actions[|p.rules|].skipTo.name == name
    ensures Waits(q, g, name, |p.rules|)
  {
  }

  lemma NumbersStillWait(p: Program, q: Program, numberJumps: seq<nat>, numberJumps': seq<nat>)
    requires |p.rules| == |p.actions| && |q.rules| == |q.actions| == |p.rules| + 1 && NumbersWait(p, numberJumps)
    requires q.rules[..|p.rules|] == p.rules && q.actions[..|p.rules|] == p.actions
    requires var n := |p.rules|;
             && numberJumps' == numberJumps + (if JumpsTo(q.actions[n], SkipToNumber) then [n] else [])
             && (JumpsTo(q.actions[n], SkipToNumber) ==> q.rules[n].jump == n + 1)
    ensures NumbersWait(q, numberJumps')
  {
    var n := |p.rules|;
    assert forall i: nat :: i < n ==> q.rules[i] == p.rules[i] && q.actions[i] == p.actions[i];
    forall i: nat | i <= n && JumpsTo(q.actions[i], SkipToNumber) ensures NumberWaits(q, numberJumps', i) {
      if i < n {
        assert NumberWaits(p, numberJumps, i);
      }
    }
  }

  /** The rules with the jumps at some indexes pointed at a rule. */
  ghost predicate Relinked(before: seq<Rule>, after: seq<Rule>, idxs: seq<nat>, target: nat) {
    && |after| == |before|
    && target < TWO32
    && forall k: nat :: k < |before| ==>
         after[k] == if k in idxs then before[k].(jump := target) else before[k]
  }

  /** Two lists of rules differ in their jumps only. */
  ghost predicate JumpsOnly(before: seq<Rule>, after: seq<Rule>) {
    |after| == |before|
    && forall k: nat :: k < |before| ==> after[k] == before[k].(jump := after[k].jump)
  }

  /** What is laid does not depend on the jumps. */
  lemma JumpsLaid(p: Program, q: Program, start: Rule, h: seq<Entry>)
    requires Laid(p, start, h) && q == p.(rules := q.rules) && JumpsOnly(p.rules, q.rules)
    ensures Laid(q, start, h) && OpenBody(q, start) == OpenBody(p, start)
  {
    hide RuleLaid, Positions, NumbersOf, Increasing, Abuts, BodyOfTokens, Before;
    forall i: nat | i < |p.rules| ensures RuleLaid(q, start, h, i) && Abuts(q.rules[i], RuleAfter(q, start, i)) {
      assert RuleLaid(p, start, h, i) && Abuts(p.rules[i], RuleAfter(p, start, i));
      JumpsLaidAt(p, q, start, h, i);
    }
  }

  lemma JumpsLaidAt(p: Program, q: Program, start: Rule, h: seq<Entry>, i: nat)
    requires q == p.(rules := q.rules) && JumpsOnly(p.rules, q.rules)
    requires |p.rules| == |p.records| == |p.actions| == RulesBefore(h, |h|) && i < |p.rules|
    requires RuleLaid(p, start, h, i) && Abuts(p.rules[i], RuleAfter(p, start, i))
    ensures RuleLaid(q, start, h, i) && Abuts(q.rules[i], RuleAfter(q, start, i))
  {
    hide Positions, Compact, BodyOfTokens;
    assert BodyOf(q, q.rules[i]) == BodyOf(p, p.rules[i]);
  }

  /** A label lays no rule. */
  lemma LabelLaid(p: Program, start: Rule, h: seq<Entry>, name: string)
    requires Laid(p, start, h)
    ensures Laid(p, start, h + [LabelEntry(name)])
  {
    var g := h + [LabelEntry(name)];
    HistoryGrows(h, LabelEntry(name));
    forall i: nat | i < |p.rules|
      ensures |p.rules| == |p.records| == |p.actions| == RulesBefore(g, |g|) && RuleLaid(p, start, g, i)
    {
      hide Positions, Compact, BodyOfTokens;
      assert RuleLaid(p, start, h, i);
    }
  }

  /** A declaration links the jumps that wait for it, and no others. */
  /** A label declared for the next rule, which the jumps that waited for it go to. */
  ghost predicate Declared(p: Program, h: seq<Entry>, q: Program, g: seq<Entry>, idxs: seq<nat>, name: string) {
    && |p.rules| == |p.actions| == RulesBefore(h, |h|) == RulesBefore(g, |g|) && q.actions == p.actions
    && Relinked(p.rules, q.rules, idxs, |p.rules|)
    && forall i: nat, other :: i < |p.rules| ==>
         LabelTarget(g, i, other) == if LabelTarget(h, i, other).Some? then LabelTarget(h, i, other)
                                     else if other == name then Some(|p.rules|) else None
  }

  lemma RelinkedIsDeclared(p: Program, q: Program, h: seq<Entry>, idxs: seq<nat>, name: string)
    requires |p.rules| == |p.actions| == RulesBefore(h, |h|) && q == p.(rules := q.rules)
    requires Relinked(p.rules, q.rules, idxs, |p.rules|)
    ensures Declared(p, h, q, h + [LabelEntry(name)], idxs, name)
  {
    var e := LabelEntry(name);
    HistoryGrows(h, e);
    forall i: nat, other | i < |p.rules|
      ensures LabelTarget(h + [e], i, other) == if LabelTarget(h, i, other).Some? then LabelTarget(h, i, other)
                                                else if other == name then Some(|p.rules|) else None
    {
      LabelAfterGrows(h, e, Positions(h, |h|)[i] + 1, other);
    }
  }

  lemma DeclaredLabel(p: Program, h: seq<Entry>, q: Program, g: seq<Entry>, pending: map<string, seq<nat>>, name: string, i: nat)
    requires Declared(p, h, q, g, if name in pending then pending[name] else [], name)
    requires LabelsLinked(p, h, pending) && i < |p.rules| && JumpsTo(p.actions[i], SkipToLabel)
    ensures LabelLinked(q, g, pending - {name}, i)
  {
    hide LabelTarget;
    assert LabelLinked(p, h, pending, i);
    assert name in pending && i in pending[name] ==> Waits(p, h, name, i);
  }

  lemma DeclaredWaits(p: Program, h: seq<Entry>, q: Program, g: seq<Entry>, pending: map<string, seq<nat>>, name: string, other: string, k: nat)
    requires Declared(p, h, q, g, if name in pending then pending[name] else [], name)
    requires LabelsLinked(p, h, pending) && other in pending && other != name && k in pending[other]
    ensures k < |q.rules| && Waits(q, g, other, k)
  {
    hide LabelTarget, LabelLinked;
    assert Waits(p, h, other, k);
  }

  lemma DeclaredNumber(p: Program, h: seq<Entry>, q: Program, g: seq<Entry>, pending: map<string, seq<nat>>, name: string,
                       numberJumps: seq<nat>, i: nat)
    requires Declared(p, h, q, g, if name in pending then pending[name] else [], name)
    requires LabelsLinked(p, h, pending) && NumbersWait(p, numberJumps) && i < |p.rules| && JumpsTo(p.actions[i], SkipToNumber)
    ensures |q.rules| == |p.rules| && NumberWaits(q, numberJumps, i)
  {
    hide LabelTarget, LabelLinked;
    assert NumberWaits(p, numberJumps, i);
    assert name in pending && i in pending[name] ==> Waits(p, h, name, i);
  }

  lemma RelinkedLinks(p: Program, q: Program, h: seq<Entry>, pending: map<string, seq<nat>>, numberJumps: seq<nat>, name: string)
    requires |p.rules| == |p.actions| == RulesBefore(h, |h|) && q == p.(rules := q.rules)
    requires LabelsLinked(p, h, pending) && NumbersWait(p, numberJumps)
    requires Relinked(p.rules, q.rules, if name in pending then pending[name] else [], |p.rules|)
    ensures var g := h + [LabelEntry(name)];
            RulesBefore(g, |g|) == |q.rules| && LabelsLinked(q, g, pending - {name}) && NumbersWait(q, numberJumps)
  {
    var g, idxs := h + [LabelEntry(name)], if name in pending then pending[name] else [];
    RelinkedIsDeclared(p, q, h, idxs, name);
    HistoryGrows(h, LabelEntry(name));
    hide LabelTarget, Positions, LabelLinked, Waits, NumberWaits, Declared;
    forall i: nat | i < |p.rules| && JumpsTo(p.actions[i], SkipToLabel) ensures LabelLinked(q, g, pending - {name}, i) {
      DeclaredLabel(p, h, q, g, pending, name, i);
    }
    forall other, k: nat | other in pending - {name} && k in (pending - {name})[other]
      ensures k < |q.rules| && Waits(q, g, other, k)
    {
      DeclaredWaits(p, h, q, g, pending, name, other, k);
    }
    forall i: nat | i < |p.rules| && JumpsTo(q.actions[i], SkipToNumber) ensures NumberWaits(q, numberJumps, i) {
      DeclaredNumber(p, h, q, g, pending, name, numberJumps, i);
    }
  }

  // ------------------------------------------------------------- the builder

  /** A wanted value may hold no `=`, which would name what is asked for. */
  predicate TableValueSupported(lookup: string) {
    var comma := IndexOf(lookup, ',');
    comma < |lookup| ==> IndexOf(lookup[comma + 1..], '=') == |lookup| - comma - 1
  }

  /** What the builder says of a token. */
  function Refusal(token: Token, custom: bool): Option<BuildError> {
    match token
    case SourceToken(t) =>
      if t.member.Lookup? && !TableValueSupported(t.member.table) then Some(UnsupportedTableValue) else None
    case DestinationToken(t) =>
      if t.member.Lookup? && !TableValueSupported(t.member.table) then Some(UnsupportedTableValue) else None
    case OptionToken(opt) =>
      if opt.kind.OptUnset? || (opt.kind.OptCustom? && !custom) then Some(UnsupportedOption) else None
    case _ => None
  }

  /** A compaction half done: the options before an index are dropped or moved down,
      and the neighbours of those to come are still the original ones. */
  ghost predicate Compacting(arena: seq<Opt>, base: nat, options: seq<Opt>, idx: nat, kept: nat)
    requires base <= |arena|
  {
    && kept <= idx <= |arena| - base && |options| == |arena|
    && options[..base + kept] == arena[..base] + Kept(arena[base..], idx)
    && forall k: nat :: base + idx <= k + 1 && base <= k < |arena| ==> options[k] == arena[k]
  }

  lemma CompactingReads(arena: seq<Opt>, base: nat, options: seq<Opt>, idx: nat, kept: nat)
    requires base <= |arena| && Compacting(arena, base, options, idx, kept) && base + idx < |arena|
    ensures options[base + idx] == arena[base..][idx]
    ensures idx > 0 ==> options[base + idx - 1] == arena[base..][idx - 1]
    ensures base + idx + 1 < |arena| ==> options[base + idx + 1] == arena[base..][idx + 1]
  {
  }

  lemma CompactingDrops(arena: seq<Opt>, base: nat, options: seq<Opt>, idx: nat, kept: nat)
    requires base <= |arena| && Compacting(arena, base, options, idx, kept) && base + idx < |arena|
    requires Idle(arena[base..], idx)
    ensures Compacting(arena, base, options, idx + 1, kept)
  {
  }

  lemma CompactingKeeps(arena: seq<Opt>, base: nat, options: seq<Opt>, idx: nat, kept: nat)
    requires base <= |arena| && Compacting(arena, base, options, idx, kept) && base + idx < |arena|
    requires !Idle(arena[base..], idx)
    ensures Compacting(arena, base, options[base + kept := options[base + idx]], idx + 1, kept + 1)
  {
    hide Idle;
    CompactingReads(arena, base, options, idx, kept);
    var after := options[base + kept := options[base + idx]];
    assert after[..base + kept + 1] == options[..base + kept] + [options[base + idx]];
    assert arena[..base] + (Kept(arena[base..], idx) + [options[base + idx]])
        == arena[..base] + Kept(arena[base..], idx) + [options[base + idx]];
  }

  /** Leaves what `Kept` says of the options from `base` on. */
  method DropIdle(arena: seq<Opt>, base: nat) returns (options: seq<Opt>)
    requires base <= |arena|
    ensures options == arena[..base] + Kept(arena[base..], |arena| - base)
  {
    hide Compacting;
    options := arena;
    var n := |arena| - base;
    var kept := 0;
    assert Compacting(arena, base, options, 0, 0) by { CompactingStarts(arena, base); }
    for idx := 0 to n
      invariant kept <= idx && |options| == |arena|
      invariant Compacting(arena, base, options, idx, kept)
    {
      CompactingReads(arena, base, options, idx, kept);
      var opt := options[base + idx];
      var alone := (idx == 0 || options[base + idx - 1].block != opt.block)
                   && (idx + 1 == n || options[base + idx + 1].block != opt.block);
      if opt.kind == OptComment && !opt.neg && alone {
        CompactingDrops(arena, base, options, idx, kept);
        continue;
      }
      CompactingKeeps(arena, base, options, idx, kept);
      options := options[base + kept := opt];
      kept := kept + 1;
    }
    CompactingEnds(arena, base, options, n, kept);
    options := options[..base + kept];
  }

  lemma CompactingStarts(arena: seq<Opt>, base: nat)
    requires base <= |arena|
    ensures Compacting(arena, base, arena, 0, 0)
  {
  }

  lemma CompactingEnds(arena: seq<Opt>, base: nat, options: seq<Opt>, idx: nat, kept: nat)
    requires base <= |arena| && Compacting(arena, base, options, idx, kept)
    ensures kept <= idx && base + kept <= |options|
    ensures options[..base + kept] == arena[..base] + Kept(arena[base..], idx)
  {
  }

  lemma CompactedLaid(p: Program, options: seq<Opt>, start: Rule, h: seq<Entry>)
    requires Laid(p, start, h)
    requires var base := start.options.start;
             base <= |p.options| && options == p.options[..base] + Kept(p.options[base..], |p.options| - base)
    ensures var q := p.(options := options);
            && Laid(q, start, h) && OpenBody(q, start) == Compact(OpenBody(p, start))
            && (ArenasFit(p) ==> ArenasFit(q))
  {
    var q, base := p.(options := options), start.options.start;
    assert options[base..] == Kept(p.options[base..], |p.options| - base);
    assert AgreeBefore(p, q, start);
    LaidStill(p, q, start, h);
  }

  /** What the builder keeps while it reads a ruleset. */
  ghost predicate State(p: Program, start: Rule, number: uint32, labels: map<string, nat>, numberJumps: seq<nat>,
                        pending: map<string, seq<nat>>, h: seq<Entry>, open: seq<Token>)
  {
    && Laid(p, start, h)
    && OpenBody(p, start) == BodyOfTokens(open) && !start.tableArg
    && number == ToUint32(LastNumber(p.numbers) + 1)
    && labels == LabelsOf(h, |h|)
    && LabelsLinked(p, h, pending)
    && NumbersWait(p, numberJumps)
  }

  lemma StateParts(p: Program, start: Rule, number: uint32, labels: map<string, nat>, numberJumps: seq<nat>,
                   pending: map<string, seq<nat>>, h: seq<Entry>, open: seq<Token>)
    requires State(p, start, number, labels, numberJumps, pending, h, open)
    ensures Laid(p, start, h) && OpenBody(p, start) == BodyOfTokens(open) && !start.tableArg
    ensures labels == LabelsOf(h, |h|)
    ensures StartsWithin(p, start)
    ensures |p.rules| == |p.numbers| == |p.records| == |p.actions| == RulesBefore(h, |h|)
    ensures LabelsLinked(p, h, pending) && NumbersWait(p, numberJumps)
    ensures |p.numbers| <= LastNumber(p.numbers) < TWO32
    ensures number == if LastNumber(p.numbers) + 1 < TWO32 then LastNumber(p.numbers) + 1 else 0
  {
    hide Laid, OpenBody, BodyOfTokens, LabelsOf, LabelsLinked, NumbersWait;
    LaidSizes(p, start, h);
    LastIsLargest(p, start, h);
  }

  /** Adding an instruction to the compacted tokens of its line keeps the state. */
  lemma AddedState(p: Program, start: Rule, h: seq<Entry>, open: seq<Token>, labels: map<string, nat>, rec: Record,
                   closed: Rule, number: uint32, numberJumps: seq<nat>, pending: map<string, seq<nat>>,
                   numberJumps': seq<nat>, pending': map<string, seq<nat>>)
    requires Laid(p, start, h) && ArenasFit(p) && OpenBody(p, start) == Compact(BodyOfTokens(open))
    requires labels == LabelsOf(h, |h|) && LabelsLinked(p, h, pending) && NumbersWait(p, numberJumps)
    requires ClosedFor(p, start, rec, closed)
    requires number == NumberAfter(LastNumber(p.numbers), rec.num) > LastNumber(p.numbers)
    requires numberJumps' == numberJumps + (if JumpsTo(rec.action, SkipToNumber) then [|p.rules|] else [])
    requires pending' == if JumpsTo(rec.action, SkipToLabel) then Waiting(pending, rec.action.skipTo.name, |p.rules|)
                         else pending
    ensures var q := Appended(p, closed, number, rec);
            ArenasFit(q) && (forall bound: nat :: Bounded(p, bound) ==> Bounded(q, bound))
            && State(q, MarkOf(q), ToUint32(number + 1), labels, numberJumps', pending', h + [Instruction(open, rec)], [])
  {
    hide Laid, CloseOf, OpenBody, Compact, BodyOfTokens, MarkOf;
    hide LabelsLinked, NumbersWait, Positions, LabelsOf, NumbersOf;
    LaidSizes(p, start, h);
    AppendedLaid(p, start, h, open, rec, closed, number);
    AppendedLinks(p, h, pending, numberJumps, open, rec, closed, number, pending', numberJumps');
    HistoryGrows(h, Instruction(open, rec));
  }

  class RuleBuilder {
    var program: Program
    /** Splits every arena: what lies before belongs to closed rules, what lies past
        it is `open`. */
    var start: Rule
    const custom: bool
    /** One past the last number, wrapped to 32 bits. */
    var number: uint32
    var labels: map<string, nat>
    var numberJumps: seq<nat>
    var unresolvedNumbers: seq<nat>
    var pendingLabels: map<string, seq<nat>>
    ghost var history: seq<Entry>
    ghost var open: seq<Token>

    ghost predicate Valid()
      reads this
    {
      && unresolvedNumbers == []
      && State(program, start, number, labels, numberJumps, pendingLabels, history, open)
    }

    constructor (custom: bool)
      ensures Valid() && history == [] && open == [] && this.custom == custom && program == EmptyProgram
    {
      program := EmptyProgram;
      start := ZeroRule();
      this.custom := custom;
      number := 1;
      labels := map[];
      numberJumps, unresolvedNumbers := [], [];
      pendingLabels := map[];
      history, open := [], [];
    }

    /** Appends a token to the arena of its kind, unless `Refusal` names an error. */
    method OnToken(token: Token) returns (err: Option<BuildError>)
      requires Valid()
      modifies this`program, this`open
      ensures err == Refusal(token, custom)
      ensures err.None? ==> Valid() && open == old(open) + [token] && program == Pushed(old(program), token)
    {
      hide Laid, LabelsLinked, NumbersWait, OpenBody, Refusal, BodyOfTokens, LabelsOf;
      err := Refusal(token, custom);
      if err.Some? {
        return;
      }
      LaidSizes(program, start, history);
      PushedLaid(program, token, start, history, open);
      PushedKeepsLinks(program, Pushed(program, token), history, pendingLabels, numberJumps);
      match token {
        case IPProtoToken(m) => program := program.(ipProtos := program.ipProtos + [m]);
        case ProtoToken(m) => program := program.(protos := program.protos + [m]);
        case SourceToken(m) => program := program.(sources := program.sources + [m]);
        case DestinationToken(m) => program := program.(destinations := program.destinations + [m]);
        case SourcePortToken(m) => program := program.(sourcePorts := program.sourcePorts + [m]);
        case DestinationPortToken(m) => program := program.(destinationPorts := program.destinationPorts + [m]);
        case OptionToken(m) => program := program.(options := program.options + [m]);
      }
      open := open + [token];
    }

    /** Forgets the open tokens. */
    method Drop()
      requires Valid()
      modifies this`program, this`open
      ensures Valid() && open == []
      ensures program == Truncated(old(program), start)
    {
      hide LabelsLinked, NumbersWait, OpenBody, BodyOfTokens;
      TruncatedLaid(program, start, history);
      PushedKeepsLinks(program, Truncated(program, start), history, pendingLabels, numberJumps);
      hide Laid;
      program := program.(
        ipProtos := program.ipProtos[..start.ipProtos.start],
        protos := program.protos[..start.protos.start],
        sources := program.sources[..start.sources.start],
        destinations := program.destinations[..start.destinations.start],
        sourcePorts := program.sourcePorts[..start.sourcePorts.start],
        destinationPorts := program.destinationPorts[..start.destinationPorts.start],
        options := program.options[..start.options.start]);
      open := [];
    }

    /** Leaves `Compact` of the open tokens. Options of closed rules stay where they are. */
    method DropComments()
      requires Laid(program, start, history) && OpenBody(program, start) == BodyOfTokens(open)
      modifies this`program
      ensures ArenasFit(old(program)) ==> ArenasFit(program)
      ensures Laid(program, start, history) && OpenBody(program, start) == Compact(BodyOfTokens(open))
      ensures program == old(program).(options := program.options)
      ensures forall bound: nat :: Bounded(old(program), bound) ==> Bounded(program, bound)
    {
      hide Laid, LabelsLinked, NumbersWait, BodyOfTokens, Kept;
      LaidSizes(program, start, history);
      var options := DropIdle(program.options, start.options.start);
      CompactedLaid(program, options, start, history);
      program := program.(options := options);
    }

    /** Turns the open tokens and the record into one more instruction of the history,
        or returns the refusal that the numbers so far and the record determine. */
    method Add(rec: Record) returns (err: Option<BuildError>)
      requires Valid() && ArenasFit(program)
      modifies this`program, this`start, this`number, this`numberJumps, this`pendingLabels, this`history, this`open
      ensures err == AddRefusal(old(program.numbers), rec)
      ensures err.None? ==> Valid() && open == [] && history == old(history) + [Instruction(old(open), rec)]
      ensures err.None? ==> forall bound: nat :: Bounded(old(program), bound) ==> Bounded(program, bound)
    {
      hide State, Laid, LabelsLinked, NumbersWait, BodyOfTokens, OpenBody, Compact, Positions, LabelsOf, NumbersOf, CloseOf, MarkOf, Appended, Waiting, ToUint32, Bounded, ArenasFit, StartsWithin, RulesBefore;
      StateParts(program, start, number, labels, numberJumps, pendingLabels, history, open);
      err := TakeNumber(rec);
      if err.Some? {
        return;
      }
      ghost var before := program;
      DropComments();
      PushedKeepsLinks(before, program, history, pendingLabels, numberJumps);
      LaidSizes(program, start, history);
      ghost var pending, jumps := pendingLabels, numberJumps;
      var closed := CloseOf(program, start);
      closed, err := SetAction(closed, rec, |program.rules|);
      if err.Some? {
        return;
      }
      AddedState(program, start, history, open, labels, rec, closed, number, jumps, pending, numberJumps, pendingLabels);
      var appended := Appended(program, closed, number, rec);
      history := history + [Instruction(open, rec)];
      open := [];
      program := appended;
      number := ToUint32(number + 1);
      start := MarkOf(program);
    }

    /** Takes the number of an instruction, its own or the running one. */
    method TakeNumber(rec: Record) returns (err: Option<BuildError>)
      requires var last := LastNumber(program.numbers);
               |program.rules| == |program.numbers|
               && number == if last + 1 < TWO32 then last + 1 else 0
      modifies this`number
      ensures var last := LastNumber(program.numbers);
              var next := NumberAfter(last, rec.num);
              if last < next < TWO32 then err == None && number == next else err == Some(RuleNumberOrder)
    {
      if rec.num != 0 {
        if rec.num < number {
          return Some(RuleNumberOrder);
        }
        number := rec.num;
      }
      var idx := |program.rules|;
      if idx > 0 && number <= program.numbers[idx - 1] {
        return Some(RuleNumberOrder);
      }
      return None;
    }

    /** Gives the rule its action. A static jump leads one rule on and is remembered. */
    method SetAction(open: Rule, rec: Record, idx: nat) returns (closed: Rule, err: Option<BuildError>)
      requires idx + 1 < TWO32
      modifies this`numberJumps, this`pendingLabels
      ensures err == if rec.action.kind == ActionUnset || JumpsTo(rec.action, SkipToUnset) then Some(UnsupportedAction) else None
      ensures err.None? ==>
        && closed == open.(kind := rec.action.kind, jump := closed.jump, tableArg := closed.tableArg)
        && closed.tableArg == (open.tableArg || JumpsTo(rec.action, SkipToTableArg))
        && closed.jump == (if rec.action.kind == ActionSkipTo then idx + 1 else open.jump)
        && numberJumps == old(numberJumps) + (if JumpsTo(rec.action, SkipToNumber) then [idx] else [])
        && pendingLabels == if JumpsTo(rec.action, SkipToLabel) then Waiting(old(pendingLabels), rec.action.skipTo.name, idx)
                            else old(pendingLabels)
    {
      err := None;
      closed := open.(kind := rec.action.kind);
      match rec.action.kind {
        case ActionSkipTo =>
          closed := closed.(jump := ToUint32(idx + 1));
          match rec.action.skipTo.kind {
            case SkipToNumber => numberJumps := numberJumps + [idx];
            case SkipToLabel => pendingLabels := Waiting(pendingLabels, rec.action.skipTo.name, idx);
            case SkipToTableArg => closed := closed.(tableArg := true);
            case SkipToUnset => err := Some(UnsupportedAction);
          }
        case ActionUnset => err := Some(UnsupportedAction);
        case _ =>
      }
    }

    /** Appends a label to the history. `Valid` then says which jumps it satisfied. */
    method Label(name: string)
      requires Valid() && open == []
      modifies this`program, this`labels, this`pendingLabels, this`history
      ensures Valid() && history == old(history) + [LabelEntry(name)] && open == []
      ensures program == old(program).(rules := program.rules)
    {
      hide State, Laid, LabelsLinked, NumbersWait, BodyOfTokens, OpenBody, LabelsOf;
      StateParts(program, start, number, labels, numberJumps, pendingLabels, history, open);
      ghost var p := program;
      labels := labels[name := |program.rules|];
      var waiting := if name in pendingLabels then pendingLabels[name] else [];
      assert forall k: nat :: k in waiting ==> k < |program.rules| by {
        LinksInRange(program, history, pendingLabels);
      }
      Link(waiting);
      LabelledState(p, program, start, number, old(labels), numberJumps, pendingLabels, history, open, name);
      pendingLabels := pendingLabels - {name};
      history := history + [LabelEntry(name)];
    }

    /** Sets the jump of exactly the rules at `idxs` to the number of rules so far. */
    method Link(idxs: seq<nat>)
      requires |program.rules| < TWO32 && forall k: nat :: k in idxs ==> k < |program.rules|
      modifies this`program
      ensures program == old(program).(rules := program.rules)
      ensures Relinked(old(program.rules), program.rules, idxs, |program.rules|)
    {
      ghost var p := program;
      for j := 0 to |idxs|
        invariant program == p.(rules := program.rules)
        invariant Relinked(p.rules, program.rules, idxs[..j], |p.rules|)
      {
        assert idxs[j] in idxs;
        var idx := idxs[j];
        assert idxs[..j + 1] == idxs[..j] + [idx];
        var rule := program.rules[idx].(jump := ToUint32(|program.rules|));
        program := program.(rules := program.rules[idx := rule]);
      }
      assert idxs[..|idxs|] == idxs;
    }

    /** One numeric jump goes where `NumberTarget` says, or is remembered. */
    method LinkNumber(idx: nat)
      requires |program.rules| == |program.actions| == |program.numbers| < TWO32 && idx < |program.rules|
      requires Increasing(program.numbers)
      modifies this`program, this`unresolvedNumbers
      ensures match NumberTarget(old(program.numbers), idx, old(program.actions[idx].skipTo.number))
              case Some(at) =>
                && program == old(program).(rules := old(program.rules)[idx := old(program.rules[idx]).(jump := at)])
                && unresolvedNumbers == old(unresolvedNumbers)
              case None => program == old(program) && unresolvedNumbers == old(unresolvedNumbers) + [idx]
    {
      hide Increasing, FirstFrom;
      var own: nat := program.numbers[idx];
      var wanted: nat := program.actions[idx].skipTo.number;
      var at := SearchFrom(program.numbers, if wanted <= own then own + 1 else wanted);
      if at < |program.rules| {
        program := program.(rules := program.rules[idx := program.rules[idx].(jump := ToUint32(at))]);
      } else {
        unresolvedNumbers := unresolvedNumbers + [idx];
      }
    }

    /** Makes every numeric jump what `NumberTarget` searches for, and remembers those
        it finds nothing for. */
    method LinkNumbers()
      requires Valid()
      modifies this`program, this`unresolvedNumbers
      ensures |program.rules| == |program.actions| == |program.numbers| == RulesBefore(history, |history|)
      ensures Laid(program, start, history) && labels == LabelsOf(history, |history|)
      ensures LabelsLinked(program, history, pendingLabels)
      ensures NumbersLinked(program, unresolvedNumbers)
      ensures forall i: nat :: i < |program.rules| ==> Lands(program, history, pendingLabels, unresolvedNumbers, i)
    {
      hide State, Laid, BodyOfTokens, OpenBody, LabelsOf, LabelsLinked, LinkedRule, NumbersLinked, Positions, Increasing, FirstFrom;
      hide SomeLinked, NumberTarget, StartsWithin;
      StateParts(program, start, number, labels, numberJumps, pendingLabels, history, open);
      NumbersIncrease(program, start, history);
      ghost var p := program;
      assert SomeLinked(p, program, [], unresolvedNumbers) by { NoneLinked(p); }
      for j := 0 to |numberJumps|
        invariant SomeLinked(p, program, numberJumps[..j], unresolvedNumbers)
      {
        assert numberJumps[j] in numberJumps;
        var idx := numberJumps[j];
        SomeLinkedSizes(p, program, numberJumps[..j], unresolvedNumbers);
        LinkOneMore(p, program, numberJumps[..j], unresolvedNumbers, idx);
        assert numberJumps[..j + 1] == numberJumps[..j] + [idx];
        LinkNumber(idx);
      }
      assert numberJumps[..|numberJumps|] == numberJumps;
      AllLinked(p, program, start, number, labels, numberJumps, pendingLabels, history, open, unresolvedNumbers);
      NumbersIncrease(program, start, history);
      hide Lands;
      forall i: nat | i < |program.rules| ensures Lands(program, history, pendingLabels, unresolvedNumbers, i) {
        LinkedLands(program, history, pendingLabels, unresolvedNumbers, i);
      }
    }

    /** The record of the lowest `Unlinked` rule. The labels are visited in any order,
        which the result does not depend on. */
    method Unresolved() returns (r: Option<Record>)
      requires |program.rules| == |program.actions| == |program.numbers| == |program.records| == RulesBefore(history, |history|)
      requires LabelsLinked(program, history, pendingLabels) && NumbersLinked(program, unresolvedNumbers)
      ensures match r
              case None => forall i: nat :: i < |program.rules| ==> !Unlinked(program, history, i)
              case Some(record) => exists i: nat :: i < |program.rules| && FirstUnlinked(program, history, i) && program.records[i] == record
    {
      hide LabelsLinked, NumbersLinked, Unlinked;
      assert Gathered(program, history, pendingLabels, unresolvedNumbers) by {
        UnlinkedAreKept(program, history, pendingLabels, unresolvedNumbers);
      }
      var first := Lowest(-1, unresolvedNumbers);
      var names := pendingLabels.Keys;
      while names != {}
        invariant names <= pendingLabels.Keys
        invariant first >= 0 ==> first in unresolvedNumbers || exists name :: name in pendingLabels && first in pendingLabels[name]
        invariant forall k: nat :: k in unresolvedNumbers ==> 0 <= first <= k
        invariant forall name, k: nat :: name in pendingLabels && name !in names && k in pendingLabels[name] ==> 0 <= first <= k
        decreases |names|
      {
        var name :| name in names;
        first := Lowest(first, pendingLabels[name]);
        names := names - {name};
      }
      if first < 0 {
        return None;
      }
      assert FirstUnlinked(program, history, first);
      return Some(program.records[first]);
    }
  }

  /** Whether no rule satisfies the static jump of a rule. */
  ghost predicate Unlinked(p: Program, h: seq<Entry>, i: nat)
    requires i < |p.rules| == |p.actions| == |p.numbers| == RulesBefore(h, |h|)
  {
    || (JumpsTo(p.actions[i], SkipToLabel) && LabelTarget(h, i, p.actions[i].skipTo.name).None?)
    || (JumpsTo(p.actions[i], SkipToNumber) && NumberTarget(p.numbers, i, p.actions[i].skipTo.number).None?)
  }

  ghost predicate FirstUnlinked(p: Program, h: seq<Entry>, i: nat)
    requires i < |p.rules| == |p.actions| == |p.numbers| == RulesBefore(h, |h|)
  {
    Unlinked(p, h, i) && forall j: nat :: j < i ==> !Unlinked(p, h, j)
  }

  /** The unlinked rules are those that are remembered. */
  ghost predicate Gathered(p: Program, h: seq<Entry>, pending: map<string, seq<nat>>, unresolved: seq<nat>)
    requires |p.rules| == |p.actions| == |p.numbers| == RulesBefore(h, |h|)
  {
    && (forall k: nat :: k in unresolved ==> k < |p.rules| && Unlinked(p, h, k))
    && (forall name, k: nat :: name in pending && k in pending[name] ==> k < |p.rules| && Unlinked(p, h, k))
    && (forall i: nat :: i < |p.rules| && Unlinked(p, h, i) ==>
          i in unresolved || exists name :: name in pending && i in pending[name])
  }

  lemma UnlinkedAreKept(p: Program, h: seq<Entry>, pending: map<string, seq<nat>>, unresolved: seq<nat>)
    requires |p.rules| == |p.actions| == |p.numbers| == RulesBefore(h, |h|)
    requires LabelsLinked(p, h, pending) && NumbersLinked(p, unresolved)
    ensures Gathered(p, h, pending, unresolved)
  {
    hide LabelTarget, NumberTarget, Positions;
    forall name, k: nat | name in pending && k in pending[name] ensures k < |p.rules| && Unlinked(p, h, k) {
      assert Waits(p, h, name, k);
    }
    forall i: nat | i < |p.rules| && Unlinked(p, h, i)
      ensures i in unresolved || exists name :: name in pending && i in pending[name]
    {
      if JumpsTo(p.actions[i], SkipToLabel) {
        assert LabelLinked(p, h, pending, i);
      } else {
        assert NumberLinked(p, unresolved, i);
      }
    }
  }

  /** The smallest of a non-negative first and the indexes. */
  method Lowest(first: int, idxs: seq<nat>) returns (r: int)
    ensures r < 0 <==> first < 0 && idxs == []
    ensures r == first || r in idxs
    ensures first >= 0 ==> r <= first
    ensures forall k: nat :: k in idxs ==> r <= k
  {
    r := first;
    for j := 0 to |idxs|
      invariant r < 0 <==> first < 0 && j == 0
      invariant r == first || r in idxs[..j]
      invariant first >= 0 ==> r <= first
      invariant forall k: nat :: k in idxs[..j] ==> r <= k
    {
      assert idxs[..j + 1] == idxs[..j] + [idxs[j]];
      if r < 0 || idxs[j] < r {
        r := idxs[j];
      }
    }
    assert idxs[..|idxs|] == idxs;
  }

  lemma LinksInRange(p: Program, h: seq<Entry>, pending: map<string, seq<nat>>)
    requires |p.rules| == |p.actions| == RulesBefore(h, |h|) && LabelsLinked(p, h, pending)
    ensures forall name, k: nat :: name in pending && k in pending[name] ==> k < |p.rules|
  {
  }

  lemma LabelledState(p: Program, q: Program, start: Rule, number: uint32, labels: map<string, nat>, numberJumps: seq<nat>,
                      pending: map<string, seq<nat>>, h: seq<Entry>, open: seq<Token>, name: string)
    requires State(p, start, number, labels, numberJumps, pending, h, open)
    requires q == p.(rules := q.rules)
    requires Relinked(p.rules, q.rules, if name in pending then pending[name] else [], |p.rules|)
    ensures State(q, start, number, labels[name := |p.rules|], numberJumps, pending - {name}, h + [LabelEntry(name)], open)
  {
    hide Laid, BodyOfTokens, LabelsLinked, NumbersWait, LabelsOf, NumbersOf, Positions;
    LaidSizes(p, start, h);
    JumpsLaid(p, q, start, h);
    LabelLaid(q, start, h, name);
    RelinkedLinks(p, q, h, pending, numberJumps, name);
    HistoryGrows(h, LabelEntry(name));
  }

  // --------------------------------------------------------- where jumps lead

  /** A numeric jump leads to the lowest later rule whose number reaches the wanted one.
      When there is none it leads one rule on and stays unresolved. */
  ghost predicate NumberLands(numbers: seq<nat>, i: nat, wanted: nat, jump: nat, unresolved: bool) {
    && (forall j: nat :: i < j < |numbers| && numbers[j] >= wanted && (forall k: nat :: i < k < j ==> numbers[k] < wanted)
          ==> jump == j && !unresolved)
    && ((forall j: nat :: i < j < |numbers| ==> numbers[j] < wanted) ==> jump == i + 1 && unresolved)
  }

  /** The instructions among the first entries. */
  ghost function Instructions(h: seq<Entry>, n: nat): set<nat>
    requires n <= |h|
  {
    set q: nat | q < n && h[q].Instruction?
  }

  /** A jump to a label leads to the rule below its first declaration behind the jump,
      which is as many rules as there are instructions above it. When there is none it
      leads one rule on and stays unresolved. */
  ghost predicate LabelLands(h: seq<Entry>, at: nat, i: nat, name: string, jump: nat, unresolved: bool) {
    && (forall q: nat :: at < q < |h| && h[q] == LabelEntry(name) && (forall k: nat :: at < k < q ==> h[k] != LabelEntry(name))
          ==> jump == |Instructions(h, q)| && !unresolved)
    && ((forall q: nat :: at < q < |h| ==> h[q] != LabelEntry(name)) ==> jump == i + 1 && unresolved)
  }

  /** Entry `at` is the instruction of rule `i`. */
  ghost predicate IsRule(h: seq<Entry>, at: nat, i: nat) {
    at < |h| && h[at].Instruction? && |Instructions(h, at)| == i
  }

  lemma {:induction false} CountInstructions(h: seq<Entry>, n: nat)
    requires n <= |h|
    ensures |Instructions(h, n)| == RulesBefore(h, n)
  {
    if n == 0 {
      assert Instructions(h, 0) == {};
    } else {
      CountInstructions(h, n - 1);
      if h[n - 1].Instruction? {
        assert Instructions(h, n) == Instructions(h, n - 1) + {n - 1};
      } else {
        assert Instructions(h, n) == Instructions(h, n - 1);
      }
    }
  }

  /** Positions are the instructions of the rules, in order. */
  lemma {:induction false} PositionsAreRules(h: seq<Entry>, n: nat, i: nat)
    requires n <= |h| && i < RulesBefore(h, n)
    ensures IsRule(h, Positions(h, n)[i], i)
  {
    hide Instructions;
    var before := Positions(h, n - 1);
    PositionsStep(h, n);
    CountInstructions(h, n - 1);
    hide Positions;
    if i < |before| {
      PositionsAreRules(h, n - 1, i);
    }
  }

  lemma PositionsStep(h: seq<Entry>, n: nat)
    requires 0 < n <= |h|
    ensures Positions(h, n) == Positions(h, n - 1) + (if h[n - 1].Instruction? then [n - 1] else [])
  {
  }

  /** The first declaration of a label at or past an entry. */
  lemma {:induction false} LabelAfterIs(h: seq<Entry>, from: nat, name: string) returns (q: nat)
    requires from <= |h|
    ensures from <= q <= |h| && (forall k: nat :: from <= k < q ==> h[k] != LabelEntry(name))
    ensures if q == |h| then LabelAfter(h, from, name) == None
            else h[q] == LabelEntry(name) && LabelAfter(h, from, name) == Some(|Instructions(h, q)|)
    decreases |h| - from
  {
    hide Instructions;
    q := from;
    if from < |h| {
      if h[from] == LabelEntry(name) {
        CountInstructions(h, from);
      } else {
        q := LabelAfterIs(h, from + 1, name);
      }
    }
  }

  /** `NumberTarget` says where a numeric jump has to lead. */
  lemma TargetIsLanding(numbers: seq<nat>, i: nat, number: uint32)
    requires Increasing(numbers) && i < |numbers|
    ensures var target := NumberTarget(numbers, i, number);
            NumberLands(numbers, i, number, if target.Some? then target.value else i + 1, target.None?)
  {
    var at := FirstFrom(numbers, if number <= numbers[i] then numbers[i] + 1 else number);
    assert forall k: nat :: k <= i ==> numbers[k] <= numbers[i];
    assert forall k: nat :: i < k < |numbers| ==> numbers[i] < numbers[k];
    if at < |numbers| {
      assert i < at && numbers[at] >= number;
    }
  }

  /** `LabelTarget` says where a jump to a label has to lead. */
  lemma LabelIsLanding(h: seq<Entry>, i: nat, name: string)
    requires i < RulesBefore(h, |h|)
    ensures var target := LabelTarget(h, i, name);
            LabelLands(h, Positions(h, |h|)[i], i, name, if target.Some? then target.value else i + 1, target.None?)
  {
    hide Positions, Instructions, LabelAfter, LabelLands;
    var at := Positions(h, |h|)[i];
    var q := LabelAfterIs(h, at + 1, name);
    LandsBelow(h, at, i, name, q);
  }

  /** A jump lands below the first later declaration, wherever that is. */
  lemma LandsBelow(h: seq<Entry>, at: nat, i: nat, name: string, q: nat)
    requires at < q <= |h| && (forall k: nat :: at < k < q ==> h[k] != LabelEntry(name)) && (q < |h| ==> h[q] == LabelEntry(name))
    ensures LabelLands(h, at, i, name, if q < |h| then |Instructions(h, q)| else i + 1, q == |h|)
  {
    hide Instructions;
    forall r: nat | at < r < |h| && h[r] == LabelEntry(name) && (forall k: nat :: at < k < r ==> h[k] != LabelEntry(name))
      ensures q == r
    {
    }
  }

  /** Where the jump of a rule of a finished build leads, whichever kind it is. */
  ghost predicate Lands(p: Program, h: seq<Entry>, pending: map<string, seq<nat>>, unresolved: seq<nat>, i: nat)
    requires i < |p.rules| == |p.actions| == |p.numbers| == RulesBefore(h, |h|)
  {
    var action, at := p.actions[i], Positions(h, |h|)[i];
    && IsRule(h, at, i)
    && (action.kind == ActionSkipTo && action.skipTo.kind == SkipToNumber ==>
          NumberLands(p.numbers, i, action.skipTo.number, p.rules[i].jump, i in unresolved))
    && (action.kind == ActionSkipTo && action.skipTo.kind == SkipToLabel ==>
          LabelLands(h, at, i, action.skipTo.name, p.rules[i].jump,
                     action.skipTo.name in pending && i in pending[action.skipTo.name]))
  }

  lemma LinkedLands(p: Program, h: seq<Entry>, pending: map<string, seq<nat>>, unresolved: seq<nat>, i: nat)
    requires i < |p.rules| == |p.actions| == |p.numbers| == RulesBefore(h, |h|) && Increasing(p.numbers)
    requires LabelsLinked(p, h, pending) && NumbersLinked(p, unresolved)
    ensures Lands(p, h, pending, unresolved, i)
  {
    hide Increasing, NumberTarget, LabelTarget, NumberLands, LabelLands, Positions, IsRule, Instructions;
    var action := p.actions[i];
    PositionsAreRules(h, |h|, i);
    if JumpsTo(action, SkipToNumber) {
      TargetIsLanding(p.numbers, i, action.skipTo.number);
      assert NumberLinked(p, unresolved, i);
    }
    if JumpsTo(action, SkipToLabel) {
      LabelIsLanding(h, i, action.skipTo.name);
      assert LabelLinked(p, h, pending, i);
      assert action.skipTo.name in pending && i in pending[action.skipTo.name] ==> Waits(p, h, action.skipTo.name, i);
    }
  }

  /** Every numeric jump leads where `NumberTarget` says, the ones without an answer
      being exactly those in `unresolved`. */
  ghost predicate NumbersLinked(p: Program, unresolved: seq<nat>)
    requires |p.rules| == |p.actions| == |p.numbers|
  {
    && (forall i: nat :: i < |p.rules| && JumpsTo(p.actions[i], SkipToNumber) ==> NumberLinked(p, unresolved, i))
    && (forall k: nat :: k in unresolved ==>
          k < |p.rules| && JumpsTo(p.actions[k], SkipToNumber)
          && NumberTarget(p.numbers, k, p.actions[k].skipTo.number).None?)
  }

  ghost predicate NumberLinked(p: Program, unresolved: seq<nat>, i: nat)
    requires i < |p.rules| == |p.actions| == |p.numbers|
  {
    match NumberTarget(p.numbers, i, p.actions[i].skipTo.number)
    case Some(target) => p.rules[i].jump == target
    case None => p.rules[i].jump == i + 1 && i in unresolved
  }

  /** The number jumps at some indexes are linked, the other rules being as they were. */
  ghost predicate SomeLinked(p: Program, q: Program, done: seq<nat>, unresolved: seq<nat>)
    requires |p.rules| == |p.actions| == |p.numbers|
  {
    && q == p.(rules := q.rules) && |q.rules| == |p.rules|
    && (forall i: nat :: i < |p.rules| ==> q.rules[i] == LinkedRule(p, done, i))
    && (forall k: nat :: k in unresolved <==>
          k in done && k < |p.rules| && NumberTarget(p.numbers, k, p.actions[k].skipTo.number).None?)
  }

  ghost function LinkedRule(p: Program, done: seq<nat>, i: nat): Rule
    requires i < |p.rules| == |p.actions| == |p.numbers|
  {
    var target := NumberTarget(p.numbers, i, p.actions[i].skipTo.number);
    if i in done && target.Some? && target.value < TWO32 then p.rules[i].(jump := target.value) else p.rules[i]
  }

  lemma NumbersIncrease(p: Program, start: Rule, h: seq<Entry>)
    requires Laid(p, start, h)
    ensures Increasing(p.numbers)
  {
  }

  lemma SomeLinkedSizes(p: Program, q: Program, done: seq<nat>, unresolved: seq<nat>)
    requires |p.rules| == |p.actions| == |p.numbers| && SomeLinked(p, q, done, unresolved)
    ensures q == p.(rules := q.rules) && |q.rules| == |p.rules|
  {
  }

  lemma NoneLinked(p: Program)
    requires |p.rules| == |p.actions| == |p.numbers|
    ensures SomeLinked(p, p, [], [])
  {
  }

  lemma LinkOneMore(p: Program, q: Program, done: seq<nat>, unresolved: seq<nat>, idx: nat)
    requires |p.rules| == |p.actions| == |p.numbers| < TWO32
    requires SomeLinked(p, q, done, unresolved) && idx < |p.rules|
    ensures var target := NumberTarget(p.numbers, idx, p.actions[idx].skipTo.number);
            match target
            case Some(at) => SomeLinked(p, q.(rules := q.rules[idx := q.rules[idx].(jump := at)]), done + [idx], unresolved)
            case None => SomeLinked(p, q, done + [idx], unresolved + [idx])
  {
    hide FirstFrom;
    assert forall i: nat :: i < |p.rules| && i != idx ==> LinkedRule(p, done + [idx], i) == LinkedRule(p, done, i);
  }

  lemma AllLinked(p: Program, q: Program, start: Rule, number: uint32, labels: map<string, nat>, numberJumps: seq<nat>,
                  pending: map<string, seq<nat>>, h: seq<Entry>, open: seq<Token>, unresolved: seq<nat>)
    requires State(p, start, number, labels, numberJumps, pending, h, open)
    requires |p.rules| == |p.actions| == |p.numbers| < TWO32
    requires SomeLinked(p, q, numberJumps, unresolved)
    ensures |q.rules| == |q.actions| == |q.numbers| == RulesBefore(h, |h|)
    ensures Laid(q, start, h) && labels == LabelsOf(h, |h|)
    ensures LabelsLinked(q, h, pending) && NumbersLinked(q, unresolved)
  {
    hide Laid, Positions, NumbersOf, LabelsOf, OpenBody, BodyOfTokens, State, FirstFrom, Abuts, Compact, LabelLinked, NumberLinked;
    StateParts(p, start, number, labels, numberJumps, pending, h, open);
    JumpsLaid(p, q, start, h);
    forall i: nat | i < |p.rules| && JumpsTo(q.actions[i], SkipToLabel) ensures LabelLinked(q, h, pending, i) {
      StillLabelLinked(p, q, h, pending, numberJumps, unresolved, i);
    }
    forall name, k: nat | name in pending && k in pending[name] ensures k < |q.rules| && Waits(q, h, name, k) {
      assert Waits(p, h, name, k);
    }
    forall i: nat | i < |p.rules| && JumpsTo(q.actions[i], SkipToNumber) ensures NumberLinked(q, unresolved, i) {
      NowNumberLinked(p, q, numberJumps, unresolved, i);
    }
  }

  lemma StillLabelLinked(p: Program, q: Program, h: seq<Entry>, pending: map<string, seq<nat>>, numberJumps: seq<nat>,
                         unresolved: seq<nat>, i: nat)
    requires |p.rules| == |p.actions| == |p.numbers| == RulesBefore(h, |h|)
    requires LabelsLinked(p, h, pending) && NumbersWait(p, numberJumps) && SomeLinked(p, q, numberJumps, unresolved)
    requires i < |p.rules| && JumpsTo(q.actions[i], SkipToLabel)
    ensures LabelLinked(q, h, pending, i)
  {
    hide LabelTarget, Positions, NumberTarget;
    assert LabelLinked(p, h, pending, i);
    assert i !in numberJumps;
  }

  lemma NowNumberLinked(p: Program, q: Program, numberJumps: seq<nat>, unresolved: seq<nat>, i: nat)
    requires |p.rules| == |p.actions| == |p.numbers| < TWO32
    requires NumbersWait(p, numberJumps) && SomeLinked(p, q, numberJumps, unresolved)
    requires i < |p.rules| && JumpsTo(q.actions[i], SkipToNumber)
    ensures NumberLinked(q, unresolved, i)
  {
    hide FirstFrom;
    assert NumberWaits(p, numberJumps, i);
  }

  /** Why an instruction is refused after some rules, if it is. */
  function AddRefusal(numbers: seq<uint32>, rec: Record): Option<BuildError> {
    var number := NumberAfter(LastNumber(numbers), rec.num);
    if !(LastNumber(numbers) < number < TWO32) then Some(RuleNumberOrder)
    else if rec.action.kind == ActionUnset || JumpsTo(rec.action, SkipToUnset) then Some(UnsupportedAction)
    else None
  }

  lemma LastIsLargest(p: Program, start: Rule, h: seq<Entry>)
    requires Laid(p, start, h)
    ensures |p.numbers| <= LastNumber(p.numbers) < TWO32
  {
  }
}
