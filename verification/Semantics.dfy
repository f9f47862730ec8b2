/**
 What a ruleset means, independently of how the machine scans it.

 Everything is evaluated in one pass, in the order ipfw_chk evaluates it, each
 read going straight to the packet. A condition yields whether it holds together
 with a log: the rules named by the table lookups that found an entry, in order.
 A `skipto tablearg` takes the last name of the log of its whole rule.
 */
module Semantics {
  import opened Ipfw
  import opened Numbers
  import opened PacketFields
  import Glob

  /** The parts of a check the library does not own: networks, tables and the
      matcher of custom options. */
  datatype Site = Site(
    contains4: (Net4, Addr) -> bool,
    contains6: (Net6, Addr) -> bool,
    lookupNetwork: (string, Addr) -> Option<string>,
    lookupInterface: (string, string) -> Option<string>,
    custom: (Opt, Context, Packet) -> bool)

  /** What a table value can name: the numbers of the rules in order and the
      rules after the labels. */
  datatype Names = Names(numbers: seq<nat>, labels: map<string, nat>)

  /** All that one check is given. */
  datatype Check = Check(site: Site, names: Names, ctx: Context, pkt: Packet)

  /** Whether a condition holds, and the rules its successful lookups named. */
  datatype Seen = Seen(holds: bool, log: seq<int>)

  // Marks beside the indexes of rules: an empty log, and a found value that is the
  // name of nothing.
  const NO_TARGET := -1
  const UNNAMED_TARGET := -2

  /** The target a log leaves: that of the last lookup that found an entry. */
  function LastNamed(log: seq<int>): int {
    if log == [] then NO_TARGET else log[|log| - 1]
  }

  // -------------------------------------------------------------------- tables

  function TrimColon(s: string): string {
    if s != "" && s[0] == ':' then s[1..] else s
  }

  predicate SameTableValue(value: string, other: string) {
    if TableNumber(value).Some? && TableNumber(other).Some?
    then TableNumber(value) == TableNumber(other) else value == other
  }

  /** What the registry knows of the address, unless the lookup wants another value. */
  function TableEntry(ck: Check, lookup: string, addr: Addr): Option<string> {
    var comma := IndexOf(lookup, ',');
    match ck.site.lookupNetwork(lookup[..comma], addr)
    case None => None
    case Some(value) =>
      if comma < |lookup| && !SameTableValue(value, TrimColon(lookup[comma + 1..])) then None else Some(value)
  }

  /** Looks a table value up among the numbers of the rules, or among the labels when
      it is not a number. */
  function Named(ck: Check, value: string): (r: int)
    ensures r != NO_TARGET
  {
    match TableNumber(value)
    case Some(number) => FirstFrom(ck.names.numbers, number)
    case None => if value in ck.names.labels then ck.names.labels[value] else UNNAMED_TARGET
  }

  // ----------------------------------------------------------------- addresses

  function MemberSeen(ck: Check, member: Member, addr: Addr): Seen {
    match member
    case AnyAddr => Seen(true, [])
    case Me => Seen(addr != NoAddr && addr in ck.ctx.localAddrs, [])
    case Me6 => Seen(addr.Addr6? && addr in ck.ctx.localAddrs, [])
    case Lookup(table) =>
      (match TableEntry(ck, table, addr)
       case None => Seen(false, [])
       case Some(value) => Seen(true, [Named(ck, value)]))
    case Network4(net) => Seen(addr.Addr4? && ck.site.contains4(net, addr), [])
    case Network6(net) => Seen(addr.Addr6? && ck.site.contains6(net, addr), [])
    case Nothing => Seen(false, [])
  }

  /** The members of pattern `p` from `i` on are alternatives, the first that holds ending them. */
  function AnySeen(ck: Check, targets: seq<TargetMatch>, i: nat, p: uint16, addr: Addr): Seen
    requires i <= |targets|
    decreases |targets| - i
  {
    if i == |targets| || targets[i].pattern != p then Seen(false, [])
    else if MemberSeen(ck, targets[i].member, addr).holds then MemberSeen(ck, targets[i].member, addr)
    else AnySeen(ck, targets, i + 1, p, addr)
  }

  function PatternEnd(targets: seq<TargetMatch>, i: nat, p: uint16): (r: nat)
    requires i <= |targets|
    ensures i <= r <= |targets|
    ensures i < |targets| && targets[i].pattern == p ==> i < r
    ensures forall k :: i <= k < r ==> targets[k].pattern == p
    ensures r < |targets| ==> targets[r].pattern != p
    decreases |targets| - i
  {
    if i == |targets| || targets[i].pattern != p then i else PatternEnd(targets, i + 1, p)
  }

  /** A side holds when one of its patterns does, its negation aside, the first
      that holds ending it. A lookup counts under a negation too. */
  function SideSeen(ck: Check, targets: seq<TargetMatch>, i: nat, addr: Addr): Seen
    requires i <= |targets|
    decreases |targets| - i
  {
    if i == |targets| then Seen(false, [])
    else
      var any := AnySeen(ck, targets, i, targets[i].pattern, addr);
      if any.holds != targets[i].neg then Seen(true, any.log)
      else
        var rest := SideSeen(ck, targets, PatternEnd(targets, i, targets[i].pattern), addr);
        Seen(rest.holds, any.log + rest.log)
  }

  // ------------------------------------------------------- protocols and ports

  predicate VersionsHold(matches: seq<ProtoIPMatch>, version: IPVersion) {
    version != NoVersion && exists k :: 0 <= k < |matches| && (version in matches[k].versions) != matches[k].neg
  }

  predicate NumbersHold(matches: seq<ProtoNumberMatch>, protocol: uint8) {
    exists k :: 0 <= k < |matches| && (matches[k].number == protocol) != matches[k].neg
  }

  /** Version and protocol conditions are alternatives when a rule has both. */
  predicate ProtosHold(versions: seq<ProtoIPMatch>, protos: seq<ProtoNumberMatch>, pkt: Packet) {
    || (versions == [] && protos == [])
    || (versions != [] && VersionsHold(versions, pkt.version))
    || (protos != [] && NumbersHold(protos, pkt.protocol))
  }

  predicate InPorts(m: PortNumberMatch, port: uint16) {
    m.lo <= port <= m.hi
  }

  /** The index of the first range holding the port, the length when none does. */
  function FirstRange(matches: seq<PortNumberMatch>, port: uint16): (r: nat)
    ensures r <= |matches|
    ensures r < |matches| ==> InPorts(matches[r], port)
    ensures forall k :: 0 <= k < r ==> !InPorts(matches[k], port)
  {
    if matches == [] || InPorts(matches[0], port) then 0
    else
      var r := FirstRange(matches[1..], port);
      assert forall k :: 0 < k < 1 + r ==> matches[k] == matches[1..][k - 1];
      1 + r
  }

  /** The first range holding the port decides, and with none the negation of the list does. */
  predicate PortsHold(matches: seq<PortNumberMatch>, port: uint16) {
    var k := FirstRange(matches, port);
    if k < |matches| then !matches[k].neg else matches != [] && matches[0].neg
  }

  /** A condition on a port holds of no packet without one. */
  predicate PortConditionHolds(matches: seq<PortNumberMatch>, port: Option<uint16>) {
    matches == [] || (port.Some? && PortsHold(matches, port.value))
  }

  // ------------------------------------------------------------------- options

  /** Any flags but those that open a connection. */
  predicate Established(flags: bv8) {
    flags & (TCPSyn | TCPAck | TCPRst) != TCPSyn
  }

  predicate FlagsMeet(flags: bv8, needed: bv8, clear: bv8) {
    flags & needed == needed && flags & clear == 0
  }

  predicate InRange(port: Option<uint16>, ports: PortRange) {
    port.Some? && ports.lo.number <= port.value <= ports.hi.number
  }

  function ViaSeen(ck: Check, via: Via): Seen {
    match via.kind
    case ViaExact => Seen(ck.ctx.ifName == via.name, [])
    case ViaMask => Seen(Glob.Matches(Glob.Tokens(via.name, 0), ck.ctx.ifName), [])
    case ViaTable =>
      (match ck.site.lookupInterface(via.name, ck.ctx.ifName)
       case None => Seen(false, [])
       case Some(value) => Seen(true, [Named(ck, value)]))
    case ViaUnset => Seen(false, [])
  }

  /** One option, its negation aside. */
  function OptionSeen(ck: Check, opt: Opt): Seen {
    var pkt := ck.pkt;
    match opt.kind
    case OptKeepState => Seen(true, [])
    case OptComment => Seen(true, [])
    case OptDiverted => Seen(false, [])
    case OptAntiSpoof => Seen(ck.ctx.direction.Out?, [])
    case OptCustom => Seen(ck.site.custom(opt, ck.ctx, pkt), [])
    case OptEstablished =>
      Seen(FlagsOf(pkt).Some? && Established(FlagsOf(pkt).value), [])
    case OptTCPFlags =>
      Seen(FlagsOf(pkt).Some? && FlagsMeet(FlagsOf(pkt).value, opt.flagsSet, opt.flagsClear), [])
    case OptSourcePort => Seen(InRange(SourcePortOf(pkt), opt.ports), [])
    case OptDestinationPort => Seen(InRange(DestinationPortOf(pkt), opt.ports), [])
    case OptProto => Seen(pkt.protocol == opt.proto.number, [])
    case OptIn => Seen(ck.ctx.direction.In?, [])
    case OptOut => Seen(ck.ctx.direction.Out?, [])
    case OptVia => ViaSeen(ck, opt.via)
    case OptFrag => Seen(pkt.fragment, [])
    case OptICMPTypes =>
      Seen(pkt.protocol == PROTO_ICMP && ICMPTypeOf(pkt).Some? && HasType(opt.types, ICMPTypeOf(pkt).value), [])
    case OptICMP6Types =>
      Seen(pkt.version.IPv6? && pkt.protocol == PROTO_ICMP6
           && ICMPTypeOf(pkt).Some? && HasType(opt.types, ICMPTypeOf(pkt).value), [])
    case OptUnset => Seen(false, [])
  }

  predicate InPattern(opt: Opt, b: uint16, p: uint16) {
    opt.block == b && opt.pattern == p
  }

  /** Evaluates the members of pattern `p` from `i` on until one holds. */
  function AnyOption(ck: Check, opts: seq<Opt>, i: nat, b: uint16, p: uint16): Seen
    requires i <= |opts|
    decreases |opts| - i
  {
    if i == |opts| || !InPattern(opts[i], b, p) then Seen(false, [])
    else if OptionSeen(ck, opts[i]).holds then OptionSeen(ck, opts[i])
    else AnyOption(ck, opts, i + 1, b, p)
  }

  function OptPatternEnd(opts: seq<Opt>, i: nat, b: uint16, p: uint16): (r: nat)
    requires i <= |opts|
    ensures i <= r <= |opts|
    ensures i < |opts| && InPattern(opts[i], b, p) ==> i < r
    ensures forall k :: i <= k < r ==> InPattern(opts[k], b, p)
    ensures r < |opts| ==> !InPattern(opts[r], b, p)
    decreases |opts| - i
  {
    if i == |opts| || !InPattern(opts[i], b, p) then i else OptPatternEnd(opts, i + 1, b, p)
  }

  function BlockEnd(opts: seq<Opt>, i: nat, b: uint16): (r: nat)
    requires i <= |opts|
    ensures i <= r <= |opts|
    ensures i < |opts| && opts[i].block == b ==> i < r
    ensures forall k :: i <= k < r ==> opts[k].block == b
    ensures r < |opts| ==> opts[r].block != b
    decreases |opts| - i
  {
    if i == |opts| || opts[i].block != b then i else BlockEnd(opts, i + 1, b)
  }

  /** A block ends where what is left of it does. */
  lemma {:induction false} SameBlockEnd(opts: seq<Opt>, i: nat, j: nat, b: uint16)
    requires i <= j <= |opts| && forall k :: i <= k < j ==> opts[k].block == b
    ensures BlockEnd(opts, i, b) == BlockEnd(opts, j, b)
    decreases j - i
  {
    if i < j {
      SameBlockEnd(opts, i + 1, j, b);
    }
  }

  /** Evaluates the patterns of block `b` from `i` on until one holds, a negated one by
      having no member that does. */
  function BlockSeen(ck: Check, opts: seq<Opt>, i: nat, b: uint16): Seen
    requires i <= |opts|
    decreases |opts| - i
  {
    if i == |opts| || opts[i].block != b then Seen(false, [])
    else
      var any := AnyOption(ck, opts, i, b, opts[i].pattern);
      if any.holds != opts[i].neg then Seen(true, any.log)
      else
        var rest := BlockSeen(ck, opts, OptPatternEnd(opts, i, b, opts[i].pattern), b);
        Seen(rest.holds, any.log + rest.log)
  }

  /** Evaluates the blocks from `i` on until one fails. */
  function OptionsSeen(ck: Check, opts: seq<Opt>, i: nat): Seen
    requires i <= |opts|
    decreases |opts| - i
  {
    if i == |opts| then Seen(true, [])
    else
      var block := BlockSeen(ck, opts, i, opts[i].block);
      if !block.holds then block
      else
        var rest := OptionsSeen(ck, opts, BlockEnd(opts, i, opts[i].block));
        Seen(rest.holds, block.log + rest.log)
  }

  // --------------------------------------------------------------------- rules

  datatype Body = Body(
    versions: seq<ProtoIPMatch>, protos: seq<ProtoNumberMatch>,
    sources: seq<TargetMatch>, destinations: seq<TargetMatch>,
    sourcePorts: seq<PortNumberMatch>, destinationPorts: seq<PortNumberMatch>,
    options: seq<Opt>)

  function BodySeen(ck: Check, body: Body): Seen {
    var source := SideSeen(ck, body.sources, 0, ck.pkt.source);
    var destination := SideSeen(ck, body.destinations, 0, ck.pkt.destination);
    var options := OptionsSeen(ck, body.options, 0);
    Seen(
      && ProtosHold(body.versions, body.protos, ck.pkt)
      && source.holds && destination.holds
      && PortConditionHolds(body.sourcePorts, SourcePortOf(ck.pkt))
      && PortConditionHolds(body.destinationPorts, DestinationPortOf(ck.pkt))
      && options.holds,
      source.log + destination.log + options.log)
  }

  /** One rule: what it does, where a static jump goes, and its body. */
  datatype Step = Step(record: Record, action: Action, jump: nat, body: Body)

  /** What a tracer is told of an evaluated rule. */
  datatype Event = Event(record: Record, action: Action, matched: bool)

  datatype Outcome = Outcome(action: Action, terminated: bool, trace: seq<Event>)

  /** Every static jump goes forward. */
  ghost predicate Forward(code: seq<Step>) {
    forall i :: 0 <= i < |code| ==> StaticJump(code[i].action) ==> i < code[i].jump
  }

  predicate StaticJump(action: Action) {
    action.kind == ActionSkipTo && action.skipTo.kind != SkipToTableArg
  }

  function Max(a: int, b: int): int { if a < b then b else a }

  /** The rule a check goes on with after a rule that matched, none when it ends there. */
  function Continue(step: Step, pc: nat, log: seq<int>): Option<int> {
    match step.action.kind
    case ActionPass => None
    case ActionDeny => None
    case ActionReset => None
    case ActionSkipTo => Some(if StaticJump(step.action) then step.jump else Max(LastNamed(log), pc + 1))
    case _ => Some(pc + 1)
  }

  /** The run of a check from a rule on. */
  ghost function Run(ck: Check, code: seq<Step>, pc: nat, verdict: Action): Outcome
    requires Forward(code)
    decreases |code| - pc
  {
    if pc >= |code| then Outcome(verdict, false, [])
    else
      var step := code[pc];
      var seen := BodySeen(ck, step.body);
      var event := Event(step.record, step.action, seen.holds);
      var next := if seen.holds then Continue(step, pc, seen.log) else Some(pc + 1);
      match next
      case None => Outcome(step.action, true, [event])
      case Some(at) =>
        var rest := Run(ck, code, at, verdict);
        Outcome(rest.action, rest.terminated, [event] + rest.trace)
  }
}
