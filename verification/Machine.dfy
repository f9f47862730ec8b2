/**
 The machine that checks packets (vm/vm.go): the rules laid out over arenas, the
 flattened scans of a rule, the lazily read packet fields, and the program counter
 of a check. Every scan is proved to compute what `Semantics` says, and the whole
 check to be the run of the rules' own bodies.
 */
module Machine {
  import opened Ipfw
  import opened Numbers
  import opened PacketFields
  import Verdicts
  import opened Semantics
  import Glob

  /** A run of an arena. */
  datatype Span = Span(start: uint32, end: uint32)

  /** A rule as a check scans it: its action kind, its jump and its runs. */
  datatype Rule = Rule(
    kind: ActionKind, tableArg: bool, jump: uint32,
    ipProtos: Span, protos: Span, sources: Span, destinations: Span,
    sourcePorts: Span, destinationPorts: Span, options: Span)

  /** The rules of a machine over one arena per kind of token. */
  datatype Program = Program(
    rules: seq<Rule>, numbers: seq<uint32>, records: seq<Record>, actions: seq<Action>,
    ipProtos: seq<ProtoIPMatch>, protos: seq<ProtoNumberMatch>,
    sources: seq<TargetMatch>, destinations: seq<TargetMatch>,
    sourcePorts: seq<PortNumberMatch>, destinationPorts: seq<PortNumberMatch>,
    options: seq<Opt>)

  predicate InArena<T>(span: Span, arena: seq<T>) {
    span.start <= span.end <= |arena|
  }

  function Slice<T>(arena: seq<T>, span: Span): seq<T>
    requires InArena(span, arena)
  {
    arena[span.start..span.end]
  }

  predicate RunsInArenas(p: Program, rule: Rule) {
    && InArena(rule.ipProtos, p.ipProtos) && InArena(rule.protos, p.protos)
    && InArena(rule.sources, p.sources) && InArena(rule.destinations, p.destinations)
    && InArena(rule.sourcePorts, p.sourcePorts) && InArena(rule.destinationPorts, p.destinationPorts)
    && InArena(rule.options, p.options)
  }

  /** What a built program guarantees a check: every run in its arena, every
      static jump forward, the numbers going up. */
  ghost predicate WellFormed(p: Program) {
    && |p.numbers| == |p.records| == |p.actions| == |p.rules|
    && Increasing(p.numbers)
    && forall i :: 0 <= i < |p.rules| ==> GoodRule(p, i)
  }

  ghost predicate GoodRule(p: Program, i: nat)
    requires i < |p.rules| == |p.actions|
  {
    var rule, action := p.rules[i], p.actions[i];
    && RunsInArenas(p, rule)
    && rule.kind == action.kind
    && (rule.kind == ActionSkipTo ==> (rule.tableArg <==> action.skipTo.kind == SkipToTableArg))
    && (rule.kind == ActionSkipTo && !rule.tableArg ==> i < rule.jump <= |p.rules|)
  }

  function BodyOf(p: Program, rule: Rule): Body
    requires RunsInArenas(p, rule)
  {
    Body(Slice(p.ipProtos, rule.ipProtos), Slice(p.protos, rule.protos),
         Slice(p.sources, rule.sources), Slice(p.destinations, rule.destinations),
         Slice(p.sourcePorts, rule.sourcePorts), Slice(p.destinationPorts, rule.destinationPorts),
         Slice(p.options, rule.options))
  }

  /** The rules of a program with their bodies read back from the arenas. */
  ghost function CodeOf(p: Program): (code: seq<Step>)
    requires WellFormed(p)
    ensures |code| == |p.rules| && Forward(code)
  {
    var code := seq(|p.rules|, i requires 0 <= i < |p.rules| => StepOf(p, i));
    assert forall i :: 0 <= i < |code| ==>
      GoodRule(p, i) && code[i].action == p.actions[i] && (StaticJump(p.actions[i]) ==> code[i].jump == p.rules[i].jump);
    code
  }

  ghost function StepOf(p: Program, i: nat): Step
    requires WellFormed(p) && i < |p.rules|
  {
    assert GoodRule(p, i);
    Step(p.records[i], p.actions[i], if StaticJump(p.actions[i]) then p.rules[i].jump else 0, BodyOf(p, p.rules[i]))
  }

  /** A built machine. */
  datatype Machine = Machine(program: Program, labels: map<string, nat>, site: Site, verdict: Action)

  function CheckOf(m: Machine, ctx: Context, pkt: Packet): Check {
    Check(m.site, Names(m.program.numbers, m.labels), ctx, pkt)
  }

  // -------------------------------------------------------------------- tables

  method FirstIndex(s: string, c: char) returns (r: nat)
    ensures r == IndexOf(s, c)
  {
    r := 0;
    while r < |s| && s[r] != c
      invariant r <= |s| && forall k :: 0 <= k < r ==> s[k] != c
    {
      r := r + 1;
    }
  }

  method SameValue(value: string, other: string) returns (r: bool)
    ensures r == SameTableValue(value, other)
  {
    var number := ReadTableNumber(value);
    if number.Some? {
      var otherNumber := ReadTableNumber(other);
      if otherNumber.Some? {
        return number.value == otherNumber.value;
      }
    }
    return value == other;
  }

  method LookupTable(ck: Check, name: string, addr: Addr) returns (value: string, ok: bool)
    ensures ok <==> TableEntry(ck, name, addr).Some?
    ensures ok ==> value == TableEntry(ck, name, addr).value
  {
    var comma := FirstIndex(name, ',');
    var entry := ck.site.lookupNetwork(name[..comma], addr);
    if entry.None? {
      return "", false;
    }
    if comma < |name| {
      var same := SameValue(entry.value, TrimColon(name[comma + 1..]));
      if !same {
        return "", false;
      }
    }
    return entry.value, true;
  }

  method TableTarget(ck: Check, value: string) returns (target: int)
    requires Increasing(ck.names.numbers)
    ensures target == Named(ck, value)
  {
    var number := ReadTableNumber(value);
    if number.Some? {
      target := SearchFrom(ck.names.numbers, number.value);
      return;
    }
    if value in ck.names.labels {
      return ck.names.labels[value];
    }
    return UNNAMED_TARGET;
  }

  // ----------------------------------------------------------------- addresses

  method MatchNamedTarget(ck: Check, member: Member, addr: Addr, family: IPVersion) returns (r: bool)
    requires family == AddrFamily(addr)
    requires !member.AnyAddr? && !member.Network4? && !member.Network6?
    ensures r == MemberSeen(ck, member, addr).holds
  {
    match member
    case Me =>
      r := (family == IPv4 || family == IPv6) && addr in ck.ctx.localAddrs;
    case Me6 =>
      r := family == IPv6 && addr in ck.ctx.localAddrs;
    case Lookup(table) =>
      var value;
      value, r := LookupTable(ck, table, addr);
    case Nothing =>
      r := false;
  }

  /** What is left of a pattern whose scan stands at `idx`, given whether a member hit. */
  ghost predicate AnyFrom(ck: Check, targets: seq<TargetMatch>, first: nat, idx: nat, addr: Addr, hit: bool)
    requires first < |targets| && idx <= |targets|
  {
    var p := targets[first].pattern;
    && PatternEnd(targets, first, p) == PatternEnd(targets, idx, p)
    && AnySeen(ck, targets, first, p, addr).holds == (hit || AnySeen(ck, targets, idx, p, addr).holds)
  }

  lemma PatternOver(ck: Check, targets: seq<TargetMatch>, idx: nat, p: uint16, addr: Addr)
    requires idx <= |targets| && (idx < |targets| ==> targets[idx].pattern != p)
    ensures PatternEnd(targets, idx, p) == idx && AnySeen(ck, targets, idx, p, addr) == Seen(false, [])
  {
  }

  lemma PatternGoesOn(ck: Check, targets: seq<TargetMatch>, idx: nat, p: uint16, addr: Addr)
    requires idx < |targets| && targets[idx].pattern == p
    ensures PatternEnd(targets, idx, p) == PatternEnd(targets, idx + 1, p)
    ensures AnySeen(ck, targets, idx, p, addr)
         == if MemberSeen(ck, targets[idx].member, addr).holds then MemberSeen(ck, targets[idx].member, addr)
            else AnySeen(ck, targets, idx + 1, p, addr)
  {
  }

  /** The patterns before `idx` did not hold and left the log. */
  ghost predicate SideFrom(ck: Check, targets: seq<TargetMatch>, idx: nat, addr: Addr, log: seq<int>)
    requires idx <= |targets|
  {
    && SideSeen(ck, targets, 0, addr).holds == SideSeen(ck, targets, idx, addr).holds
    && SideSeen(ck, targets, 0, addr).log == log + SideSeen(ck, targets, idx, addr).log
  }

  lemma NextPattern(ck: Check, targets: seq<TargetMatch>, first: nat, addr: Addr, log: seq<int>)
    requires first < |targets| && SideFrom(ck, targets, first, addr, log)
    ensures var any := AnySeen(ck, targets, first, targets[first].pattern, addr);
            if any.holds != targets[first].neg
            then SideSeen(ck, targets, 0, addr) == Seen(true, log + any.log)
            else SideFrom(ck, targets, PatternEnd(targets, first, targets[first].pattern), addr, log + any.log)
  {
    var any := AnySeen(ck, targets, first, targets[first].pattern, addr);
    var rest := SideSeen(ck, targets, PatternEnd(targets, first, targets[first].pattern), addr);
    assert log + (any.log + rest.log) == (log + any.log) + rest.log;
  }

  /** Before its first member the scan of a pattern knows nothing. */
  lemma ScanStarts(ck: Check, targets: seq<TargetMatch>, first: nat, addr: Addr)
    requires first < |targets|
    ensures AnyFrom(ck, targets, first, first, addr, false)
  {
  }

  lemma ScanMember(ck: Check, targets: seq<TargetMatch>, first: nat, idx: nat, addr: Addr, hit: bool)
    requires first < |targets| && idx < |targets| && targets[idx].pattern == targets[first].pattern
    requires AnyFrom(ck, targets, first, idx, addr, hit)
    ensures AnyFrom(ck, targets, first, idx + 1, addr, hit || MemberSeen(ck, targets[idx].member, addr).holds)
  {
    hide MemberSeen;
    PatternGoesOn(ck, targets, idx, targets[first].pattern, addr);
  }

  /** What a pattern that was scanned says of the side. */
  lemma ScanEnds(ck: Check, targets: seq<TargetMatch>, first: nat, idx: nat, addr: Addr, hit: bool)
    requires first < |targets| && idx <= |targets| && (idx < |targets| ==> targets[idx].pattern != targets[first].pattern)
    requires AnyFrom(ck, targets, first, idx, addr, hit)
    ensures SideSeen(ck, targets, first, addr).holds == (hit != targets[first].neg || SideSeen(ck, targets, idx, addr).holds)
  {
    hide AnySeen, PatternEnd;
    PatternOver(ck, targets, idx, targets[first].pattern, addr);
  }

  lemma NoTargets(ck: Check, targets: seq<TargetMatch>, addr: Addr)
    ensures !SideSeen(ck, targets, |targets|, addr).holds
  {
  }

  lemma NetworkSeen(ck: Check, member: Member, addr: Addr)
    ensures member.Network4? ==> MemberSeen(ck, member, addr).holds == (AddrFamily(addr) == IPv4 && ck.site.contains4(member.net4, addr))
    ensures member.Network6? ==> MemberSeen(ck, member, addr).holds == (AddrFamily(addr) == IPv6 && ck.site.contains6(member.net6, addr))
    ensures member.AnyAddr? ==> MemberSeen(ck, member, addr).holds
  {
  }

  /** Decides the side for every address but IPv6 ones, never asking an IPv6 network. */
  method MatchTargets4(ck: Check, targets: seq<TargetMatch>, addr: Addr, family: IPVersion) returns (r: bool)
    requires family == AddrFamily(addr) && family != IPv6
    ensures r == SideSeen(ck, targets, 0, addr).holds
  {
    hide SideSeen, AnySeen, PatternEnd, MemberSeen, AnyFrom;
    var idx := 0;
    while idx < |targets|
      invariant 0 <= idx <= |targets|
      invariant SideSeen(ck, targets, 0, addr).holds == SideSeen(ck, targets, idx, addr).holds
    {
      var first := idx;
      var hit := false;
      ScanStarts(ck, targets, first, addr);
      while true
        invariant first <= idx < |targets| && targets[idx].pattern == targets[first].pattern
        invariant AnyFrom(ck, targets, first, idx, addr, hit)
        decreases |targets| - idx
      {
        var target := targets[idx];
        ScanMember(ck, targets, first, idx, addr, hit);
        NetworkSeen(ck, target.member, addr);
        match target.member {
          case Network4(net) => hit := hit || (family == IPv4 && ck.site.contains4(net, addr));
          case Network6(_) =>
          case AnyAddr => hit := true;
          case _ =>
            if !hit {
              hit := MatchNamedTarget(ck, target.member, addr, family);
            }
        }
        idx := idx + 1;
        if idx == |targets| || targets[idx].pattern != targets[first].pattern {
          break;
        }
      }
      ScanEnds(ck, targets, first, idx, addr, hit);
      if hit != targets[first].neg {
        return true;
      }
    }
    assert !SideSeen(ck, targets, |targets|, addr).holds by { NoTargets(ck, targets, addr); }
    return false;
  }

  /** The scan of a side for an IPv6 address. */
  method MatchTargets6(ck: Check, targets: seq<TargetMatch>, addr: Addr) returns (r: bool)
    requires AddrFamily(addr) == IPv6
    ensures r == SideSeen(ck, targets, 0, addr).holds
  {
    hide SideSeen, AnySeen, PatternEnd, MemberSeen, AnyFrom;
    var idx := 0;
    while idx < |targets|
      invariant 0 <= idx <= |targets|
      invariant SideSeen(ck, targets, 0, addr).holds == SideSeen(ck, targets, idx, addr).holds
    {
      var first := idx;
      var hit := false;
      ScanStarts(ck, targets, first, addr);
      while true
        invariant first <= idx < |targets| && targets[idx].pattern == targets[first].pattern
        invariant AnyFrom(ck, targets, first, idx, addr, hit)
        decreases |targets| - idx
      {
        var target := targets[idx];
        ScanMember(ck, targets, first, idx, addr, hit);
        NetworkSeen(ck, target.member, addr);
        match target.member {
          case Network6(net) => hit := hit || ck.site.contains6(net, addr);
          case Network4(_) =>
          case AnyAddr => hit := true;
          case _ =>
            if !hit {
              hit := MatchNamedTarget(ck, target.member, addr, IPv6);
            }
        }
        idx := idx + 1;
        if idx == |targets| || targets[idx].pattern != targets[first].pattern {
          break;
        }
      }
      ScanEnds(ck, targets, first, idx, addr, hit);
      if hit != targets[first].neg {
        return true;
      }
    }
    assert !SideSeen(ck, targets, |targets|, addr).holds by { NoTargets(ck, targets, addr); }
    return false;
  }

  /** One member, with the target of its lookup when it is one that finds an entry. */
  method LookupMember(ck: Check, member: Member, addr: Addr, family: IPVersion, before: int) returns (hit: bool, found: int)
    requires family == AddrFamily(addr) && Increasing(ck.names.numbers)
    ensures var seen := MemberSeen(ck, member, addr);
            hit == seen.holds && (!hit ==> seen.log == []) && found == if seen.log == [] then before else LastNamed(seen.log)
  {
    found := before;
    match member {
      case Lookup(table) =>
        var value;
        value, hit := LookupTable(ck, table, addr);
        if hit {
          found := TableTarget(ck, value);
        }
      case Network4(net) => hit := family == IPv4 && ck.site.contains4(net, addr);
      case Network6(net) => hit := family == IPv6 && ck.site.contains6(net, addr);
      case AnyAddr => hit := true;
      case _ => hit := MatchNamedTarget(ck, member, addr, family);
    }
  }

  lemma LastOfMore(log: seq<int>, more: seq<int>)
    ensures LastNamed(log + more) == if more == [] then LastNamed(log) else LastNamed(more)
  {
  }

  lemma NothingBefore(ck: Check, targets: seq<TargetMatch>, addr: Addr)
    ensures SideFrom(ck, targets, 0, addr, [])
  {
    assert [] + SideSeen(ck, targets, 0, addr).log == SideSeen(ck, targets, 0, addr).log;
  }

  lemma LogIsWhole(ck: Check, targets: seq<TargetMatch>, addr: Addr, log: seq<int>)
    requires SideFrom(ck, targets, |targets|, addr, log)
    ensures SideSeen(ck, targets, 0, addr).log == log
  {
    assert log + [] == log;
  }

  /** The second scan of a side, for the target of its lookups. */
  method LookupTargets(ck: Check, targets: seq<TargetMatch>, addr: Addr, family: IPVersion) returns (found: int)
    requires family == AddrFamily(addr) && Increasing(ck.names.numbers)
    ensures found == LastNamed(SideSeen(ck, targets, 0, addr).log)
  {
    hide AnySeen, PatternEnd, SideSeen, MemberSeen, SideFrom, LastNamed;
    found := NO_TARGET;
    var idx := 0;
    ghost var log: seq<int> := [];
    NothingBefore(ck, targets, addr);
    assert found == LastNamed(log) by { NoName(); }
    while idx < |targets|
      invariant 0 <= idx <= |targets|
      invariant found == LastNamed(log)
      invariant SideFrom(ck, targets, idx, addr, log)
    {
      var first := idx;
      var hit := false;
      ghost var before := log;
      ghost var p := targets[first].pattern;
      ghost var any := AnySeen(ck, targets, first, p, addr);
      while idx < |targets| && targets[idx].pattern == targets[first].pattern
        invariant first <= idx <= |targets|
        invariant PatternEnd(targets, first, p) == PatternEnd(targets, idx, p)
        invariant found == LastNamed(log)
        invariant if hit then any.holds && log == before + any.log
                  else any == AnySeen(ck, targets, idx, p, addr) && log == before
      {
        PatternGoesOn(ck, targets, idx, p, addr);
        if !hit {
          hit, found := LookupMember(ck, targets[idx].member, addr, family, found);
          LastOfMore(log, MemberSeen(ck, targets[idx].member, addr).log);
          log := log + MemberSeen(ck, targets[idx].member, addr).log;
        }
        idx := idx + 1;
      }
      PatternOver(ck, targets, idx, p, addr);
      NextPattern(ck, targets, first, addr, before);
      assert log == before + any.log && any.holds == hit;
      if hit != targets[first].neg {
        return;
      }
    }
    LogIsWhole(ck, targets, addr, log);
  }

  lemma NoName()
    ensures LastNamed([]) == NO_TARGET
  {
  }

  // ------------------------------------------------------- protocols and ports

  method MatchIPProtos(matches: seq<ProtoIPMatch>, version: IPVersion) returns (r: bool)
    ensures r <==> matches == [] || VersionsHold(matches, version)
  {
    if |matches| == 0 {
      return true;
    }
    if version == NoVersion {
      return false;
    }
    for idx := 0 to |matches|
      invariant forall k :: 0 <= k < idx ==> (version in matches[k].versions) == matches[k].neg
    {
      if (version in matches[idx].versions) != matches[idx].neg {
        return true;
      }
    }
    return false;
  }

  method MatchProtos(matches: seq<ProtoNumberMatch>, protocol: uint8) returns (r: bool)
    ensures r <==> matches == [] || NumbersHold(matches, protocol)
  {
    if |matches| == 0 {
      return true;
    }
    for idx := 0 to |matches|
      invariant forall k :: 0 <= k < idx ==> (matches[k].number == protocol) == matches[k].neg
    {
      if (matches[idx].number == protocol) != matches[idx].neg {
        return true;
      }
    }
    return false;
  }

  method MatchPorts(matches: seq<PortNumberMatch>, port: uint16) returns (r: bool)
    ensures r == PortsHold(matches, port)
  {
    ghost var k := FirstRange(matches, port);
    for idx := 0 to |matches|
      invariant idx <= k
      invariant forall j :: 0 <= j < idx ==> !InPorts(matches[j], port)
    {
      if matches[idx].lo <= port && port <= matches[idx].hi {
        assert InPorts(matches[idx], port) && idx == k;
        return !matches[idx].neg;
      }
      assert !InPorts(matches[idx], port);
    }
    return |matches| > 0 && matches[0].neg;
  }

  // ------------------------------------------------------------------- options

  predicate PortInRange(port: uint16, ports: PortRange) {
    ports.lo.number <= port <= ports.hi.number
  }

  /** Options about state the machine does not keep: what they come to depends on the
      direction at most. */
  function MatchPolicy(kind: OptKind, ctx: Context): bool {
    match kind
    case OptKeepState => true
    case OptComment => true
    case OptAntiSpoof => ctx.direction == Out
    case _ => false
  }

  method MatchVia(ck: Check, via: Via) returns (r: bool, target: int)
    requires Increasing(ck.names.numbers)
    ensures r == ViaSeen(ck, via).holds && target == LastNamed(ViaSeen(ck, via).log)
  {
    match via.kind
    case ViaExact =>
      return ck.ctx.ifName == via.name, NO_TARGET;
    case ViaMask =>
      r := Glob.MatchIfMask(via.name, ck.ctx.ifName);
      return r, NO_TARGET;
    case ViaTable =>
      var entry := ck.site.lookupInterface(via.name, ck.ctx.ifName);
      if entry.None? {
        return false, NO_TARGET;
      }
      target := TableTarget(ck, entry.value);
      return true, target;
    case ViaUnset =>
      return false, NO_TARGET;
  }

  /** One option, its negation aside, through the lazily read fields. */
  method MatchOption(ck: Check, opt: Opt, fields: Fields) returns (r: bool, target: int)
    requires fields.Valid(ck.pkt) && Increasing(ck.names.numbers)
    modifies fields
    ensures fields.Valid(ck.pkt)
    ensures r == OptionSeen(ck, opt).holds && target == LastNamed(OptionSeen(ck, opt).log)
  {
    hide Fields.Valid, ViaSeen, FlagsOf, ICMPTypeOf, SourcePortOf, DestinationPortOf, Established, FlagsMeet;
    target := NO_TARGET;
    fields.Basics(ck.pkt);
    match opt.kind
    case OptKeepState => r := MatchPolicy(opt.kind, ck.ctx);
    case OptComment => r := MatchPolicy(opt.kind, ck.ctx);
    case OptDiverted => r := MatchPolicy(opt.kind, ck.ctx);
    case OptAntiSpoof => r := MatchPolicy(opt.kind, ck.ctx);
    case OptCustom => r := ck.site.custom(opt, ck.ctx, ck.pkt);
    case OptEstablished =>
      fields.ReadFlags(ck.pkt);
      r := fields.hasFlags && Established(fields.flags);
    case OptTCPFlags =>
      fields.ReadFlags(ck.pkt);
      r := fields.hasFlags && FlagsMeet(fields.flags, opt.flagsSet, opt.flagsClear);
    case OptSourcePort =>
      fields.ReadPorts(ck.pkt);
      r := fields.hasSourcePort && PortInRange(fields.sourcePort, opt.ports);
    case OptDestinationPort =>
      fields.ReadPorts(ck.pkt);
      r := fields.hasDestinationPort && PortInRange(fields.destinationPort, opt.ports);
    case OptProto => r := fields.protocol == opt.proto.number;
    case OptIn => r := ck.ctx.direction == In;
    case OptOut => r := ck.ctx.direction == Out;
    case OptVia => r, target := MatchVia(ck, opt.via);
    case OptFrag =>
      fields.ReadFragment(ck.pkt);
      r := fields.fragment;
    case OptICMPTypes =>
      fields.ReadICMP(ck.pkt);
      fields.Basics(ck.pkt);
      r := fields.protocol == PROTO_ICMP && fields.hasICMPType && HasType(opt.types, fields.icmpType);
    case OptICMP6Types =>
      fields.ReadICMP(ck.pkt);
      fields.Basics(ck.pkt);
      r := fields.version == IPv6 && fields.protocol == PROTO_ICMP6 && fields.hasICMPType && HasType(opt.types, fields.icmpType);
    case OptUnset => r := false;
  }

  lemma OptPatternGoesOn(ck: Check, opts: seq<Opt>, i: nat, b: uint16, p: uint16)
    requires i < |opts| && InPattern(opts[i], b, p)
    ensures OptPatternEnd(opts, i, b, p) == OptPatternEnd(opts, i + 1, b, p)
    ensures AnyOption(ck, opts, i, b, p)
         == if OptionSeen(ck, opts[i]).holds then OptionSeen(ck, opts[i]) else AnyOption(ck, opts, i + 1, b, p)
  {
  }

  lemma OptPatternOver(ck: Check, opts: seq<Opt>, i: nat, b: uint16, p: uint16)
    requires i <= |opts| && (i < |opts| ==> !InPattern(opts[i], b, p))
    ensures OptPatternEnd(opts, i, b, p) == i && AnyOption(ck, opts, i, b, p) == Seen(false, [])
  {
  }

  /** The options before `idx` did not decide and left the log. */
  ghost predicate OptionsFrom(ck: Check, opts: seq<Opt>, idx: nat, log: seq<int>)
    requires idx <= |opts|
  {
    && OptionsSeen(ck, opts, 0).holds == OptionsSeen(ck, opts, idx).holds
    && OptionsSeen(ck, opts, 0).log == log + OptionsSeen(ck, opts, idx).log
  }

  lemma NextOptPattern(ck: Check, opts: seq<Opt>, first: nat, log: seq<int>)
    requires first < |opts| && OptionsFrom(ck, opts, first, log)
    ensures var b, p := opts[first].block, opts[first].pattern;
            var any := AnyOption(ck, opts, first, b, p);
            var end := OptPatternEnd(opts, first, b, p);
            if any.holds != opts[first].neg then
              OptionsFrom(ck, opts, BlockEnd(opts, first, b), log + any.log)
            else if end < |opts| && opts[end].block == b then
              OptionsFrom(ck, opts, end, log + any.log)
            else
              !OptionsSeen(ck, opts, 0).holds
  {
    var b, p := opts[first].block, opts[first].pattern;
    var any := AnyOption(ck, opts, first, b, p);
    var end := OptPatternEnd(opts, first, b, p);
    var stop := BlockEnd(opts, first, b);
    var after := OptionsSeen(ck, opts, stop);
    hide AnyOption, OptPatternEnd, BlockEnd;
    if any.holds != opts[first].neg {
      assert log + (any.log + after.log) == (log + any.log) + after.log;
    } else if end < |opts| && opts[end].block == b {
      SameBlockEnd(opts, first, end, b);
      var rest := BlockSeen(ck, opts, end, b);
      assert log + (any.log + rest.log) == (log + any.log) + rest.log;
      if rest.holds {
        assert log + ((any.log + rest.log) + after.log) == (log + any.log) + (rest.log + after.log);
      }
    } else {
      assert BlockSeen(ck, opts, end, b) == Seen(false, []);
      assert !BlockSeen(ck, opts, first, b).holds;
    }
  }

  /** Decides what `MatchOption` does, a port without that call. */
  method MatchListMember(ck: Check, opt: Opt, fields: Fields) returns (matched: bool, target: int)
    requires fields.Valid(ck.pkt) && Increasing(ck.names.numbers)
    modifies fields
    ensures fields.Valid(ck.pkt)
    ensures matched == OptionSeen(ck, opt).holds && target == LastNamed(OptionSeen(ck, opt).log)
  {
    hide Fields.Valid, SourcePortOf, DestinationPortOf;
    if opt.kind == OptSourcePort {
      fields.ReadPorts(ck.pkt);
      return fields.hasSourcePort && PortInRange(fields.sourcePort, opt.ports), NO_TARGET;
    }
    if opt.kind == OptDestinationPort {
      fields.ReadPorts(ck.pkt);
      return fields.hasDestinationPort && PortInRange(fields.destinationPort, opt.ports), NO_TARGET;
    }
    matched, target := MatchOption(ck, opt, fields);
  }

  /** Where a block that holds ends, when there is more of it. */
  method SkipBlock(opts: seq<Opt>, start: nat, b: uint16, more: bool) returns (end: nat)
    requires start <= |opts| && (!more ==> start == |opts| || opts[start].block != b)
    ensures end == BlockEnd(opts, start, b)
  {
    end := start;
    while more && end < |opts| && opts[end].block == b
      invariant start <= end <= |opts| && BlockEnd(opts, end, b) == BlockEnd(opts, start, b)
    {
      end := end + 1;
    }
  }

  /** The flattened scan of the options. */
  method MatchOptions(ck: Check, opts: seq<Opt>, fields: Fields) returns (r: bool, target: int)
    requires fields.Valid(ck.pkt) && Increasing(ck.names.numbers)
    modifies fields
    ensures fields.Valid(ck.pkt)
    ensures r == OptionsSeen(ck, opts, 0).holds
    ensures target == if r then LastNamed(OptionsSeen(ck, opts, 0).log) else NO_TARGET
  {
    hide AnyOption, OptPatternEnd, BlockSeen, OptionsFrom, OptionSeen, OptionsSeen, Fields.Valid;
    hide SourcePortOf, DestinationPortOf;
    target := NO_TARGET;
    var idx := 0;
    ghost var log: seq<int> := [];
    OptionsStart(ck, opts);
    while idx < |opts|
      invariant 0 <= idx <= |opts|
      invariant fields.Valid(ck.pkt)
      invariant target == LastNamed(log)
      invariant OptionsFrom(ck, opts, idx, log)
    {
      var first := opts[idx];
      var b := first.block;
      ghost var start, before, p := idx, log, first.pattern;
      ghost var any := AnyOption(ck, opts, start, b, p);
      OptPatternGoesOn(ck, opts, start, b, p);
      var matched, found := MatchOption(ck, first, fields);
      if found != NO_TARGET {
        target := found;
      }
      OptionLog(ck, first);
      log := log + OptionSeen(ck, first).log;
      var more := false;
      var end := idx + 1;
      while end < |opts| && opts[end].block == first.block
        invariant idx < end <= |opts| && !more
        invariant fields.Valid(ck.pkt)
        invariant target == LastNamed(log)
        invariant OptPatternEnd(opts, start, b, p) == OptPatternEnd(opts, end, b, p)
        invariant if matched then any.holds && log == before + any.log
                  else any == AnyOption(ck, opts, end, b, p) && log == before
      {
        var opt := opts[end];
        if opt.pattern != first.pattern {
          more := true;
          break;
        }
        OptPatternGoesOn(ck, opts, end, b, p);
        OptionLog(ck, opt);
        if !matched {
          matched, found := MatchListMember(ck, opt, fields);
          if found != NO_TARGET {
            target := found;
          }
          log := log + OptionSeen(ck, opt).log;
        }
        end := end + 1;
      }
      OptPatternOver(ck, opts, end, b, p);
      NextOptPattern(ck, opts, start, before);
      assert log == before + any.log && matched == any.holds;
      if matched != first.neg {
        SameBlockEnd(opts, start, end, b);
        end := SkipBlock(opts, end, b, more);
      } else if !more {
        return false, NO_TARGET;
      }
      idx := end;
    }
    OptionsEnd(ck, opts, log);
    return true, target;
  }

  lemma OptionsStart(ck: Check, opts: seq<Opt>)
    ensures OptionsFrom(ck, opts, 0, [])
  {
    assert [] + OptionsSeen(ck, opts, 0).log == OptionsSeen(ck, opts, 0).log;
  }

  lemma OptionsEnd(ck: Check, opts: seq<Opt>, log: seq<int>)
    requires OptionsFrom(ck, opts, |opts|, log)
    ensures OptionsSeen(ck, opts, 0) == Seen(true, log)
  {
    assert log + [] == log;
  }

  /** An option logs at most one lookup, only when it holds, and never none for
      its name. A port option logs nothing. */
  lemma OptionLog(ck: Check, opt: Opt)
    ensures var seen := OptionSeen(ck, opt);
            && (seen.log != [] ==> seen.holds && |seen.log| == 1)
            && (seen.log == [] <==> LastNamed(seen.log) == NO_TARGET)
            && (opt.kind == OptSourcePort ==> seen == Seen(InRange(SourcePortOf(ck.pkt), opt.ports), []))
            && (opt.kind == OptDestinationPort ==> seen == Seen(InRange(DestinationPortOf(ck.pkt), opt.ports), []))
  {
  }

  // --------------------------------------------------------------------- rules

  /** The last name of the log of both sides, found without building the log: the
      source is scanned only when the destination named nothing. */
  method AddressTarget(ck: Check, p: Program, rule: Rule, fields: Fields) returns (target: int)
    requires fields.Valid(ck.pkt) && RunsInArenas(p, rule) && Increasing(ck.names.numbers)
    ensures var body := BodyOf(p, rule);
            target == LastNamed(SideSeen(ck, body.sources, 0, ck.pkt.source).log
                                + SideSeen(ck, body.destinations, 0, ck.pkt.destination).log)
  {
    target := LookupTargets(ck, Slice(p.destinations, rule.destinations), fields.destination, fields.destinationFamily);
    NamedIsSomething(ck, Slice(p.destinations, rule.destinations), 0, ck.pkt.destination);
    if target != NO_TARGET {
      return;
    }
    target := LookupTargets(ck, Slice(p.sources, rule.sources), fields.source, fields.sourceFamily);
  }

  /** A log names something in each of its entries, so its last name tells whether it is empty. */
  lemma {:induction false} NamedIsSomething(ck: Check, targets: seq<TargetMatch>, i: nat, addr: Addr)
    requires i <= |targets|
    ensures NO_TARGET !in SideSeen(ck, targets, i, addr).log
    decreases |targets| - i
  {
    if i < |targets| {
      AnyNamesSomething(ck, targets, i, targets[i].pattern, addr);
      NamedIsSomething(ck, targets, PatternEnd(targets, i, targets[i].pattern), addr);
    }
  }

  lemma {:induction false} AnyNamesSomething(ck: Check, targets: seq<TargetMatch>, i: nat, p: uint16, addr: Addr)
    requires i <= |targets|
    ensures NO_TARGET !in AnySeen(ck, targets, i, p, addr).log
    decreases |targets| - i
  {
    if i < |targets| && targets[i].pattern == p {
      AnyNamesSomething(ck, targets, i + 1, p, addr);
    }
  }

  lemma NoOptions(ck: Check)
    ensures OptionsSeen(ck, [], 0) == Seen(true, [])
  {
  }

  /** The version and protocol conditions of a rule, alternatives when it has both. */
  method MatchProtocols(versions: seq<ProtoIPMatch>, protos: seq<ProtoNumberMatch>, version: IPVersion, protocol: uint8)
    returns (r: bool)
    ensures r <==> || (versions == [] && protos == [])
                   || (versions != [] && VersionsHold(versions, version))
                   || (protos != [] && NumbersHold(protos, protocol))
  {
    hide VersionsHold, NumbersHold;
    var hasIPProtos := |versions| != 0;
    var hasProtos := |protos| != 0;
    if hasIPProtos && hasProtos {
      r := MatchIPProtos(versions, version);
      if !r {
        r := MatchProtos(protos, protocol);
      }
    } else {
      if hasIPProtos {
        r := MatchIPProtos(versions, version);
        if !r {
          return false;
        }
      }
      if hasProtos {
        r := MatchProtos(protos, protocol);
        if !r {
          return false;
        }
      }
      r := true;
    }
  }

  /** Either scan decides the same predicate. */
  method MatchSide(ck: Check, targets: seq<TargetMatch>, addr: Addr, family: IPVersion) returns (r: bool)
    requires family == AddrFamily(addr)
    ensures r == SideSeen(ck, targets, 0, addr).holds
  {
    if family == IPv6 {
      r := MatchTargets6(ck, targets, addr);
    } else {
      r := MatchTargets4(ck, targets, addr, family);
    }
  }

  /** Decides the body, giving up at the first part that fails, and names the last rule
      its options named. */
  method MatchRule(ck: Check, p: Program, rule: Rule, fields: Fields) returns (r: bool, target: int)
    requires fields.Valid(ck.pkt) && RunsInArenas(p, rule) && Increasing(ck.names.numbers)
    modifies fields
    ensures fields.Valid(ck.pkt)
    ensures r == BodySeen(ck, BodyOf(p, rule)).holds
    ensures r ==> target == LastNamed(OptionsSeen(ck, BodyOf(p, rule).options, 0).log)
  {
    hide Fields.Valid, SideSeen, OptionsSeen, PortsHold, VersionsHold, NumbersHold, SourcePortOf, DestinationPortOf;
    ghost var body := BodyOf(p, rule);
    fields.Basics(ck.pkt);
    r := MatchProtocols(Slice(p.ipProtos, rule.ipProtos), Slice(p.protos, rule.protos), fields.version, fields.protocol);
    if !r {
      return false, NO_TARGET;
    }
    r := MatchSide(ck, Slice(p.sources, rule.sources), fields.source, fields.sourceFamily);
    if !r {
      return false, NO_TARGET;
    }
    r := MatchSide(ck, Slice(p.destinations, rule.destinations), fields.destination, fields.destinationFamily);
    if !r {
      return false, NO_TARGET;
    }
    var ports := Slice(p.sourcePorts, rule.sourcePorts);
    if |ports| != 0 {
      fields.ReadPorts(ck.pkt);
      r := MatchPorts(ports, fields.sourcePort);
      if !fields.hasSourcePort || !r {
        return false, NO_TARGET;
      }
    }
    ports := Slice(p.destinationPorts, rule.destinationPorts);
    if |ports| != 0 {
      fields.ReadPorts(ck.pkt);
      r := MatchPorts(ports, fields.destinationPort);
      if !fields.hasDestinationPort || !r {
        return false, NO_TARGET;
      }
    }
    var options := Slice(p.options, rule.options);
    if |options| == 0 {
      NoOptions(ck);
      return true, NO_TARGET;
    }
    r, target := MatchOptions(ck, options, fields);
  }

  /** The last name of a body, taken apart: a name among the options hides those of
      both sides. */
  lemma WholeLog(ck: Check, body: Body)
    ensures var addresses := SideSeen(ck, body.sources, 0, ck.pkt.source).log
                             + SideSeen(ck, body.destinations, 0, ck.pkt.destination).log;
            var options := OptionsSeen(ck, body.options, 0).log;
            LastNamed(BodySeen(ck, body).log)
            == if LastNamed(options) != NO_TARGET then LastNamed(options) else LastNamed(addresses)
  {
    OptionsNameSomething(ck, body.options, 0);
  }

  lemma {:induction false} OptionsNameSomething(ck: Check, opts: seq<Opt>, i: nat)
    requires i <= |opts|
    ensures NO_TARGET !in OptionsSeen(ck, opts, i).log
    decreases |opts| - i
  {
    if i < |opts| {
      BlockNamesSomething(ck, opts, i, opts[i].block);
      OptionsNameSomething(ck, opts, BlockEnd(opts, i, opts[i].block));
    }
  }

  lemma {:induction false} BlockNamesSomething(ck: Check, opts: seq<Opt>, i: nat, b: uint16)
    requires i <= |opts|
    ensures NO_TARGET !in BlockSeen(ck, opts, i, b).log
    decreases |opts| - i
  {
    if i < |opts| && opts[i].block == b {
      AnyOptionNamesSomething(ck, opts, i, b, opts[i].pattern);
      BlockNamesSomething(ck, opts, OptPatternEnd(opts, i, b, opts[i].pattern), b);
    }
  }

  lemma {:induction false} AnyOptionNamesSomething(ck: Check, opts: seq<Opt>, i: nat, b: uint16, p: uint16)
    requires i <= |opts|
    ensures NO_TARGET !in AnyOption(ck, opts, i, b, p).log
    decreases |opts| - i
  {
    if i < |opts| && InPattern(opts[i], b, p) {
      OptionLog(ck, opts[i]);
      AnyOptionNamesSomething(ck, opts, i + 1, b, p);
    }
  }

  // -------------------------------------------------------------------- checks

  /** One step of a run over the rules of a program. */
  lemma RunStep(ck: Check, p: Program, pc: nat, verdict: Action)
    requires WellFormed(p) && pc < |p.rules|
    ensures GoodRule(p, pc)
    ensures var rule := p.rules[pc];
            var seen := BodySeen(ck, BodyOf(p, rule));
            var event := Event(p.records[pc], p.actions[pc], seen.holds);
            var code := CodeOf(p);
            var next := if seen.holds then Continue(StepOf(p, pc), pc, seen.log) else Some(pc + 1);
            && (next.Some? ==> next.value > pc)
            && Run(ck, code, pc, verdict)
               == if next.None? then Outcome(p.actions[pc], true, [event])
                  else var rest := Run(ck, code, next.value, verdict);
                       Outcome(rest.action, rest.terminated, [event] + rest.trace)
  {
    hide BodySeen;
    assert GoodRule(p, pc) && CodeOf(p)[pc] == StepOf(p, pc);
  }

  lemma RunEnd(ck: Check, p: Program, pc: nat, verdict: Action)
    requires WellFormed(p) && pc >= |p.rules|
    ensures Run(ck, CodeOf(p), pc, verdict) == Outcome(verdict, false, [])
  {
  }

  /** What the events so far and a run from here on make. */
  ghost function After(trace: seq<Event>, rest: Outcome): Outcome {
    Outcome(rest.action, rest.terminated, trace + rest.trace)
  }

  lemma AfterEvent(trace: seq<Event>, event: Event, rest: Outcome)
    ensures After(trace, Outcome(rest.action, rest.terminated, [event] + rest.trace)) == After(trace + [event], rest)
  {
    assert trace + ([event] + rest.trace) == (trace + [event]) + rest.trace;
  }

  lemma Lengths(p: Program)
    requires WellFormed(p)
    ensures |p.numbers| == |p.records| == |p.actions| == |p.rules| && Increasing(p.numbers)
  {
  }

  lemma TakesCourse(ck: Check, p: Program, verdict: Action)
    requires WellFormed(p)
    ensures Verdicts.Course(ck, CodeOf(p), verdict, Run(ck, CodeOf(p), 0, verdict))
  {
    hide Verdicts.CourseFrom, Run;
    var path := Verdicts.RunTakesCourse(ck, CodeOf(p), 0, verdict);
  }

  /** The loop over the program counter is the reference run, event for event. */
  method CheckTrace(m: Machine, ctx: Context, pkt: Packet) returns (action: Action, terminated: bool, trace: seq<Event>)
    requires WellFormed(m.program)
    ensures Outcome(action, terminated, trace) == Run(CheckOf(m, ctx, pkt), CodeOf(m.program), 0, m.verdict)
    ensures Verdicts.Course(CheckOf(m, ctx, pkt), CodeOf(m.program), m.verdict, Outcome(action, terminated, trace))
  {
    hide Verdicts.Course, Run, BodySeen, CodeOf, RunsInArenas, BodyOf, LastNamed, Fields.Valid, SideSeen, OptionsSeen, WellFormed, Increasing;
    TakesCourse(CheckOf(m, ctx, pkt), m.program, m.verdict);
    Lengths(m.program);
    var fields := new Fields();
    fields.Read(pkt);
    var p := m.program;
    var ck := CheckOf(m, ctx, pkt);
    ghost var code := CodeOf(p);
    ghost var all := Run(ck, code, 0, m.verdict);
    trace := [];
    var pc: nat := 0;
    assert all == After(trace, all);
    while pc < |p.rules|
      invariant fields.Valid(pkt) && fresh(fields)
      invariant all == After(trace, Run(ck, code, pc, m.verdict))
      decreases |p.rules| - pc
    {
      RunStep(ck, p, pc, m.verdict);
      var rule := p.rules[pc];
      ghost var seen := BodySeen(ck, BodyOf(p, rule));
      var matched, target := MatchRule(ck, p, rule, fields);
      ghost var before := trace;
      trace := trace + [Event(p.records[pc], p.actions[pc], matched)];
      ghost var next := if matched then Continue(StepOf(p, pc), pc, seen.log) else Some(pc + 1);
      if next.Some? {
        AfterEvent(before, Event(p.records[pc], p.actions[pc], matched), Run(ck, code, next.value, m.verdict));
      }
      if !matched {
        pc := pc + 1;
        continue;
      }
      match rule.kind {
        case ActionPass => return p.actions[pc], true, trace;
        case ActionDeny => return p.actions[pc], true, trace;
        case ActionReset => return p.actions[pc], true, trace;
        case ActionSkipTo =>
          if rule.tableArg {
            WholeLog(ck, BodyOf(p, rule));
            if target == NO_TARGET {
              target := AddressTarget(ck, p, rule, fields);
            }
            pc := Max(target, pc + 1);
          } else {
            pc := rule.jump;
          }
        case _ => pc := pc + 1;
      }
      assert next == Some(pc);
    }
    RunEnd(ck, p, pc, m.verdict);
    assert trace + [] == trace;
    return m.verdict, false, trace;
  }
}
