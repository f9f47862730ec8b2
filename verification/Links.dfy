/**
 What a history of instructions and labels says of its rules (vm/vm.go), apart from the
 functions `Builder` and `Build` count and search with: which entry a rule is, its
 number, its tokens, where its jump leads and what is refused.
 */
module Links {
  import opened Ipfw
  import opened Numbers
  import opened Semantics
  import opened Meaning
  import opened Builder
  import opened Build

  // ------------------------------------------------------------------------- rules

  /** A rule is the instruction with as many others above it, under its own record. */
  lemma RuleIsInstruction(h: seq<Entry>, i: nat) returns (at: nat)
    requires i < |SourceCode(h)|
    ensures IsRule(h, at, i) && at == Positions(h, |h|)[i]
    ensures var step := SourceCode(h)[i];
            step.record == h[at].record && step.action == h[at].record.action && step.body == BodyOfTokens(h[at].tokens)
  {
    at := Positions(h, |h|)[i];
    PositionsAreRules(h, |h|, i);
  }

  /** No instruction is left out. */
  lemma {:induction false} InstructionIsRule(h: seq<Entry>, n: nat, at: nat) returns (i: nat)
    requires at < n <= |h| && h[at].Instruction?
    ensures i < RulesBefore(h, n) && Positions(h, n)[i] == at
  {
    var before := Positions(h, n - 1);
    if at == n - 1 {
      i := |before|;
    } else {
      i := InstructionIsRule(h, n - 1, at);
      assert Positions(h, n)[i] == before[i];
    }
  }

  /** A rule has the number it gives itself, or else one past the rule above, from one on. */
  lemma {:induction false} RuleIsNumbered(h: seq<Entry>, n: nat, i: nat)
    requires n <= |h| && i < RulesBefore(h, n)
    ensures var numbers, own := NumbersOf(h, n), h[Positions(h, n)[i]].record.num;
            numbers[i] == if own != 0 then own else if i == 0 then 1 else numbers[i - 1] + 1
  {
    var before, numbers := Positions(h, n - 1), NumbersOf(h, n - 1);
    if h[n - 1].Instruction? {
      assert forall k :: 0 <= k < |numbers| ==> NumbersOf(h, n)[k] == numbers[k];
      assert forall k :: 0 <= k < |before| ==> Positions(h, n)[k] == before[k];
      if i < |before| {
        RuleIsNumbered(h, n - 1, i);
      } else {
        assert Positions(h, n)[i] == n - 1;
      }
    } else {
      RuleIsNumbered(h, n - 1, i);
    }
  }

  /** The last declaration of a label among the first entries. */
  ghost predicate DeclaresLast(h: seq<Entry>, n: nat, name: string, q: nat)
    requires n <= |h|
  {
    q < n && h[q] == LabelEntry(name) && forall k: nat :: q < k < n ==> h[k] != LabelEntry(name)
  }

  /** A table value that is a label names the rule below its last declaration. */
  lemma {:induction false} LabelIsNamed(h: seq<Entry>, n: nat, name: string)
    requires n <= |h|
    ensures name in LabelsOf(h, n) <==> exists q: nat :: DeclaresLast(h, n, name, q)
    ensures forall q: nat :: DeclaresLast(h, n, name, q) ==> name in LabelsOf(h, n) && LabelsOf(h, n)[name] == |Instructions(h, q)|
  {
    hide Instructions, RulesBefore, LabelsOf, DeclaresLast;
    LabelsStep(h, n, name);
    DeclaredStep(h, n, name);
    if n > 0 {
      LabelIsNamed(h, n - 1, name);
      CountInstructions(h, n - 1);
      if h[n - 1] == LabelEntry(name) {
        assert DeclaresLast(h, n, name, n - 1);
      } else if name in LabelsOf(h, n) {
        var q: nat :| DeclaresLast(h, n - 1, name, q);
        assert DeclaresLast(h, n, name, q);
      }
    }
  }

  lemma DeclaredStep(h: seq<Entry>, n: nat, name: string)
    requires n <= |h|
    ensures n == 0 ==> forall q: nat :: !DeclaresLast(h, n, name, q)
    ensures n > 0 && h[n - 1] == LabelEntry(name) ==> forall q: nat :: DeclaresLast(h, n, name, q) <==> q == n - 1
    ensures n > 0 && h[n - 1] != LabelEntry(name) ==>
      forall q: nat :: DeclaresLast(h, n, name, q) <==> DeclaresLast(h, n - 1, name, q)
  {
  }

  lemma LabelsStep(h: seq<Entry>, n: nat, name: string)
    requires n <= |h|
    ensures n == 0 ==> name !in LabelsOf(h, n)
    ensures n > 0 && h[n - 1] == LabelEntry(name) ==> name in LabelsOf(h, n) && LabelsOf(h, n)[name] == RulesBefore(h, n - 1)
    ensures n > 0 && h[n - 1] != LabelEntry(name) ==>
      && (name in LabelsOf(h, n) <==> name in LabelsOf(h, n - 1))
      && (name in LabelsOf(h, n) ==> LabelsOf(h, n)[name] == LabelsOf(h, n - 1)[name])
  {
  }

  /** Where the jump of a rule of the ruleset as written leads, and whether anything
      satisfies it. */
  lemma JumpLeads(h: seq<Entry>, i: nat)
    requires i < RulesBefore(h, |h|) && Increasing(NumbersOf(h, |h|))
    ensures var at := Positions(h, |h|)[i];
            var action := h[at].record.action;
            && IsRule(h, at, i)
            && (action.kind == ActionSkipTo && action.skipTo.kind == SkipToNumber ==>
                  NumberLands(NumbersOf(h, |h|), i, action.skipTo.number, JumpOf(h, i), Dangling(h, i)))
            && (action.kind == ActionSkipTo && action.skipTo.kind == SkipToLabel ==>
                  LabelLands(h, at, i, action.skipTo.name, JumpOf(h, i), Dangling(h, i)))
  {
    hide Increasing, NumberLands, LabelLands, Positions, IsRule, JumpOf, Dangling, NumbersOf;
    var action := h[Positions(h, |h|)[i]].record.action;
    PositionsAreRules(h, |h|, i);
    if JumpsTo(action, SkipToNumber) {
      NumberJumpLeads(h, i);
    }
    if JumpsTo(action, SkipToLabel) {
      LabelJumpLeads(h, i);
    }
  }

  lemma NumberJumpLeads(h: seq<Entry>, i: nat)
    requires i < RulesBefore(h, |h|) && Increasing(NumbersOf(h, |h|))
    requires JumpsTo(h[Positions(h, |h|)[i]].record.action, SkipToNumber)
    ensures NumberLands(NumbersOf(h, |h|), i, h[Positions(h, |h|)[i]].record.action.skipTo.number, JumpOf(h, i), Dangling(h, i))
  {
    hide Increasing, NumberTarget, LabelTarget, NumberLands, Positions, NumbersOf;
    TargetIsLanding(NumbersOf(h, |h|), i, h[Positions(h, |h|)[i]].record.action.skipTo.number);
  }

  lemma LabelJumpLeads(h: seq<Entry>, i: nat)
    requires i < RulesBefore(h, |h|) && JumpsTo(h[Positions(h, |h|)[i]].record.action, SkipToLabel)
    ensures var at := Positions(h, |h|)[i];
            LabelLands(h, at, i, h[at].record.action.skipTo.name, JumpOf(h, i), Dangling(h, i))
  {
    hide NumberTarget, LabelTarget, LabelLands, Positions, NumbersOf, Instructions;
    LabelIsLanding(h, i, h[Positions(h, |h|)[i]].record.action.skipTo.name);
  }

  /** Only a jump that nothing satisfies dangles. */
  lemma DanglingIs(h: seq<Entry>, i: nat)
    requires i < RulesBefore(h, |h|) && Increasing(NumbersOf(h, |h|))
    ensures var at, numbers := Positions(h, |h|)[i], NumbersOf(h, |h|);
            var action := h[at].record.action;
            Dangling(h, i) <==>
              action.kind == ActionSkipTo &&
              ((action.skipTo.kind == SkipToNumber && forall j: nat :: i < j < |numbers| ==> numbers[j] < action.skipTo.number)
               || (action.skipTo.kind == SkipToLabel && forall q: nat :: at < q < |h| ==> h[q] != LabelEntry(action.skipTo.name)))
  {
    var at, numbers := Positions(h, |h|)[i], NumbersOf(h, |h|);
    var action := h[at].record.action;
    hide Increasing, NumberTarget, LabelTarget, Positions, Instructions, NumbersOf, NumberLands, LabelLands;
    JumpLeads(h, i);
    if action.kind == ActionSkipTo && action.skipTo.kind == SkipToNumber {
      NumberLeft(numbers, i, action.skipTo.number, JumpOf(h, i), Dangling(h, i));
    }
    if action.kind == ActionSkipTo && action.skipTo.kind == SkipToLabel {
      LabelLeft(h, at, i, action.skipTo.name, JumpOf(h, i), Dangling(h, i), at + 1);
    }
  }

  lemma NumberLeft(numbers: seq<nat>, i: nat, wanted: nat, jump: nat, unresolved: bool)
    requires i < |numbers| && NumberLands(numbers, i, wanted, jump, unresolved)
    ensures unresolved <==> forall j: nat :: i < j < |numbers| ==> numbers[j] < wanted
  {
    if j: nat :| i < j < |numbers| && numbers[j] >= wanted {
      FirstReaching(numbers, i, wanted, j);
    }
  }

  lemma {:induction false} FirstReaching(numbers: seq<nat>, i: nat, wanted: nat, j: nat)
    requires i < j < |numbers| && numbers[j] >= wanted
    ensures exists f: nat :: i < f < |numbers| && numbers[f] >= wanted && forall k: nat :: i < k < f ==> numbers[k] < wanted
    decreases j
  {
    if k: nat :| i < k < j && numbers[k] >= wanted {
      FirstReaching(numbers, i, wanted, k);
    }
  }

  lemma {:induction false} LabelLeft(h: seq<Entry>, at: nat, i: nat, name: string, jump: nat, unresolved: bool, from: nat)
    requires LabelLands(h, at, i, name, jump, unresolved) && at < from <= |h|
    requires forall k: nat :: at < k < from ==> h[k] != LabelEntry(name)
    ensures unresolved <==> forall q: nat :: at < q < |h| ==> h[q] != LabelEntry(name)
    decreases |h| - from
  {
    hide Instructions;
    if from < |h| && h[from] != LabelEntry(name) {
      LabelLeft(h, at, i, name, jump, unresolved, from + 1);
    }
  }

  // ------------------------------------------------------------------------ tokens

  lemma NoTokens()
    ensures BodyOfTokens([]) == Body([], [], [], [], [], [], [])
  {
  }

  /** Each kind of token goes to its own part of the body, behind those before it. */
  lemma TokenJoins(tokens: seq<Token>, t: Token)
    ensures var before, after := BodyOfTokens(tokens), BodyOfTokens(tokens + [t]);
            && after.versions == before.versions + (if t.IPProtoToken? then [t.version] else [])
            && after.protos == before.protos + (if t.ProtoToken? then [t.proto] else [])
            && after.sources == before.sources + (if t.SourceToken? then [t.source] else [])
            && after.destinations == before.destinations + (if t.DestinationToken? then [t.destination] else [])
            && after.sourcePorts == before.sourcePorts + (if t.SourcePortToken? then [t.sourcePort] else [])
            && after.destinationPorts == before.destinationPorts + (if t.DestinationPortToken? then [t.destinationPort] else [])
            && after.options == before.options + (if t.OptionToken? then [t.opt] else [])
  {
    assert (tokens + [t])[..|tokens|] == tokens;
  }

  /** The indexes of the options that stay. */
  ghost function Staying(opts: seq<Opt>, n: nat): seq<nat>
    requires n <= |opts|
  {
    if n == 0 then [] else Staying(opts, n - 1) + (if IdleAt(opts, n - 1) then [] else [n - 1])
  }

  /** A comment that is not negated, between options of other blocks. */
  predicate IdleAt(opts: seq<Opt>, k: nat)
    requires k < |opts|
  {
    && opts[k].kind == OptComment && !opts[k].neg
    && (k > 0 ==> opts[k - 1].block != opts[k].block)
    && (k + 1 < |opts| ==> opts[k + 1].block != opts[k].block)
  }

  /** All options stay but idle comments, in order. */
  lemma {:induction false} KeptStay(opts: seq<Opt>, n: nat)
    requires n <= |opts|
    ensures var kept, idxs := Kept(opts, n), Staying(opts, n);
            && |kept| == |idxs|
            && (forall k :: 0 <= k < |idxs| ==> idxs[k] < n && kept[k] == opts[idxs[k]])
            && (forall j, k :: 0 <= j < k < |idxs| ==> idxs[j] < idxs[k])
            && (forall k: nat :: k < n ==> (k in idxs <==> !IdleAt(opts, k)))
  {
    if n > 0 {
      KeptStay(opts, n - 1);
      SameIdle(opts, n - 1);
      hide Idle, IdleAt;
    }
  }

  lemma SameIdle(opts: seq<Opt>, k: nat)
    requires k < |opts|
    ensures IdleAt(opts, k) <==> Idle(opts, k)
  {
  }

  // ----------------------------------------------------------------------- refusals

  /** A table lookup that asks for a value with an equals sign is refused, and an option
      nothing can decide. */
  lemma TokenIsRefused(t: Token, custom: bool)
    ensures Refusal(t, custom) ==
      if (t.SourceToken? && NamesValue(t.source.member)) || (t.DestinationToken? && NamesValue(t.destination.member)) then
        Some(UnsupportedTableValue)
      else if t.OptionToken? && (t.opt.kind == OptUnset || (t.opt.kind == OptCustom && !custom)) then Some(UnsupportedOption)
      else None
  {
    if t.SourceToken? && t.source.member.Lookup? {
      ValueIsNamed(t.source.member.table);
    }
    if t.DestinationToken? && t.destination.member.Lookup? {
      ValueIsNamed(t.destination.member.table);
    }
  }

  predicate NamesValue(m: Member) {
    m.Lookup? && exists k, j :: 0 <= k < j < |m.table| && m.table[k] == ',' && m.table[j] == '='
  }

  lemma ValueIsNamed(lookup: string)
    ensures TableValueSupported(lookup) <==> !exists k, j :: 0 <= k < j < |lookup| && lookup[k] == ',' && lookup[j] == '='
  {
    var comma := IndexOf(lookup, ',');
    if comma < |lookup| {
      var value := lookup[comma + 1..];
      assert forall j :: comma < j < |lookup| ==> lookup[j] == value[j - comma - 1];
      var at := IndexOf(value, '=');
      assert at < |value| ==> lookup[comma + 1 + at] == '=';
    }
  }

  /** An instruction is refused when its number does not go up within 32 bits, or when
      its action is none that can be run. */
  lemma InstructionIsRefused(numbers: seq<uint32>, rec: Record)
    ensures var last: nat := if numbers == [] then 0 else numbers[|numbers| - 1];
            AddRefusal(numbers, rec) ==
              if (if rec.num == 0 then last + 1 >= 0x1_0000_0000 else rec.num <= last) then Some(RuleNumberOrder)
              else if rec.action.kind == ActionUnset || (rec.action.kind == ActionSkipTo && rec.action.skipTo.kind == SkipToUnset)
              then Some(UnsupportedAction)
              else None
  {
  }

  /** The first token of a line that is refused. */
  lemma {:induction false} FirstRefusedToken(tokens: seq<Token>, custom: bool)
    ensures match TokenRefusal(tokens, custom)
            case None => forall k :: 0 <= k < |tokens| ==> Refusal(tokens[k], custom).None?
            case Some(e) => exists k :: 0 <= k < |tokens| && Refusal(tokens[k], custom) == Some(e)
                              && forall j :: 0 <= j < k ==> Refusal(tokens[j], custom).None?
  {
    hide Refusal;
    if tokens != [] && Refusal(tokens[0], custom).None? {
      FirstRefusedToken(tokens[1..], custom);
      assert forall k :: 0 < k < |tokens| ==> tokens[k] == tokens[1..][k - 1];
    } else if tokens != [] {
      assert Refusal(tokens[0], custom).Some?;
    }
  }

  /** Why a line is refused: for a token, else for what it is. */
  lemma LineIsRefused(lines: seq<Line>, n: nat, custom: bool)
    requires n < |lines|
    ensures var line, numbers := lines[n], NumbersOf(History(lines, n), |History(lines, n)|);
            var last := if numbers == [] then 0 else numbers[|numbers| - 1];
            LineRefusal(lines, n, custom) ==
              if TokenRefusal(line.tokens, custom).Some? then TokenRefusal(line.tokens, custom)
              else if line.kind.InstructionLine? then
                var rec := line.kind.record;
                if (if rec.num == 0 then last + 1 >= 0x1_0000_0000 else rec.num <= last) then Some(RuleNumberOrder)
                else if rec.action.kind == ActionUnset || (rec.action.kind == ActionSkipTo && rec.action.skipTo.kind == SkipToUnset)
                then Some(UnsupportedAction)
                else None
              else if line.kind.TableLine? && !line.kind.accepted then Some(TableRefused)
              else if line.kind.UnknownLine? then Some(UnsupportedRecord)
              else None
  {
    hide History, NumbersOf, TokenRefusal;
  }

  /** A line adds its instruction or its label to the history, and any other nothing. */
  lemma LineJoins(lines: seq<Line>, n: nat)
    requires n < |lines|
    ensures History(lines, 0) == []
    ensures History(lines, n + 1) == History(lines, n) +
              (if lines[n].kind.InstructionLine? then [Instruction(lines[n].tokens, lines[n].kind.record)]
               else if lines[n].kind.LabelLine? then [LabelEntry(lines[n].kind.name)]
               else [])
  {
  }
}
