/**
 What a check comes to, said of what a tracer is told (vm/vm.go) and of the packet,
 apart from the functions of `Semantics`: which rule follows which, when the rules end,
 what a body and each of its conditions ask, and which lookups are made in which order.
 */
module Verdicts {
  import opened Ipfw
  import opened Semantics
  import opened Numbers
  import opened PacketFields
  import Meaning
  import Glob

  // ------------------------------------------------------- from one rule to the next

  /** Whether a rule that was told of ends a check. */
  predicate Ends(e: Event) {
    e.matched && (e.action.kind == ActionPass || e.action.kind == ActionDeny || e.action.kind == ActionReset)
  }

  /** The rule after one that does not end a check. A `skipto tablearg` takes the last
      name of its log when that lies past the next rule. */
  function NextIndex(step: Step, pc: nat, matched: bool, log: seq<int>): nat {
    if !matched || step.action.kind != ActionSkipTo then pc + 1
    else if step.action.skipTo.kind != SkipToTableArg then step.jump
    else if log != [] && log[|log| - 1] > pc + 1 then log[|log| - 1]
    else pc + 1
  }

  /** What is told of a rule. */
  predicate Told(ck: Check, step: Step, e: Event) {
    e.record == step.record && e.action == step.action && e.matched == BodySeen(ck, step.body).holds
  }

  /** One event of a check: a matching pass, deny or reset is the last one and the action
      of the check. Any other leads on, and the check runs out only past the last rule. */
  ghost predicate Leads(ck: Check, code: seq<Step>, verdict: Action, path: seq<nat>, run: Outcome, k: nat)
    requires k < |path| == |run.trace|
  {
    var pc, e := path[k], run.trace[k];
    && pc < |code| && Told(ck, code[pc], e)
    && if Ends(e) then k + 1 == |path| && run.terminated && run.action == e.action
       else
         var next := NextIndex(code[pc], pc, e.matched, BodySeen(ck, code[pc].body).log);
         if k + 1 < |path| then path[k + 1] == next else next >= |code| && !run.terminated && run.action == verdict
  }

  /** A check from a rule on, by the indexes of the rules it evaluates. */
  ghost predicate CourseFrom(ck: Check, code: seq<Step>, pc: nat, verdict: Action, path: seq<nat>, run: Outcome) {
    && |run.trace| == |path|
    && (if pc >= |code| then path == [] && !run.terminated && run.action == verdict else path != [] && path[0] == pc)
    && forall k: nat :: k < |path| ==> Leads(ck, code, verdict, path, run, k)
  }

  /** A whole check, from the first rule on. */
  ghost predicate Course(ck: Check, code: seq<Step>, verdict: Action, run: Outcome) {
    exists path :: CourseFrom(ck, code, 0, verdict, path, run)
  }

  lemma OneRuleMore(ck: Check, code: seq<Step>, pc: nat, verdict: Action, path: seq<nat>, rest: Outcome, e: Event)
    requires pc < |code| && Told(ck, code[pc], e) && !Ends(e)
    requires CourseFrom(ck, code, NextIndex(code[pc], pc, e.matched, BodySeen(ck, code[pc].body).log), verdict, path, rest)
    ensures CourseFrom(ck, code, pc, verdict, [pc] + path, Outcome(rest.action, rest.terminated, [e] + rest.trace))
  {
    hide BodySeen, Ends, NextIndex, Told;
    var all, run := [pc] + path, Outcome(rest.action, rest.terminated, [e] + rest.trace);
    forall k: nat | k < |all| ensures Leads(ck, code, verdict, all, run, k) {
      if k > 0 {
        assert Leads(ck, code, verdict, path, rest, k - 1);
        assert all[k] == path[k - 1] && run.trace[k] == rest.trace[k - 1];
        assert k < |path| ==> all[k + 1] == path[k];
      }
    }
  }

  /** The reference run takes such a course. */
  lemma {:induction false} RunTakesCourse(ck: Check, code: seq<Step>, pc: nat, verdict: Action) returns (path: seq<nat>)
    requires Forward(code)
    ensures CourseFrom(ck, code, pc, verdict, path, Run(ck, code, pc, verdict))
    decreases |code| - pc
  {
    hide BodySeen;
    path := [];
    if pc < |code| {
      var seen := BodySeen(ck, code[pc].body);
      var e := Event(code[pc].record, code[pc].action, seen.holds);
      if Ends(e) {
        path := [pc];
      } else {
        var next := NextIndex(code[pc], pc, e.matched, seen.log);
        var rest := RunTakesCourse(ck, code, next, verdict);
        var run := Run(ck, code, next, verdict);
        OneRuleMore(ck, code, pc, verdict, rest, run, e);
        path := [pc] + rest;
        assert Run(ck, code, pc, verdict) == Outcome(run.action, run.terminated, [e] + run.trace);
      }
    }
  }

  // --------------------------------------------------------------- tables and names

  /** A table value that counts as a number. */
  predicate IsNumber(value: string) {
    1 <= |value| <= 10 && (forall k :: 0 <= k < |value| ==> '0' <= value[k] <= '9') && Decimal(value) < 0x1_0000_0000
  }

  predicate SameValue(a: string, b: string) {
    if IsNumber(a) && IsNumber(b) then Decimal(a) == Decimal(b) else a == b
  }

  /** Whether a lookup finds an entry of a value: in the table named up to the first
      comma, and of the value behind the comma when there is one, a colon aside. */
  ghost predicate Finds(ck: Check, text: string, addr: Addr, value: string) {
    if ',' !in text then ck.site.lookupNetwork(text, addr) == Some(value)
    else exists k :: 0 <= k < |text| && text[k] == ',' && ',' !in text[..k] && FindsAt(ck, text, addr, value, k)
  }

  predicate FindsAt(ck: Check, text: string, addr: Addr, value: string, comma: nat)
    requires comma < |text|
  {
    && ck.site.lookupNetwork(text[..comma], addr) == Some(value)
    && SameValue(value, if ":" <= text[comma + 1..] then text[comma + 2..] else text[comma + 1..])
  }

  /** The rule a value names: the lowest whose number reaches it, else the one below a
      label, else none, which is a mark of its own. */
  ghost predicate Names(ck: Check, value: string, at: int) {
    if IsNumber(value) then
      && 0 <= at <= |ck.names.numbers|
      && (forall i :: 0 <= i < at ==> ck.names.numbers[i] < Decimal(value))
      && (at < |ck.names.numbers| ==> Decimal(value) <= ck.names.numbers[at])
    else if value in ck.names.labels then at == ck.names.labels[value]
    else at == -2
  }

  lemma ValuesAre(value: string)
    ensures TableNumber(value) == if IsNumber(value) then Some(Decimal(value)) else None
  {
  }

  lemma NamedMeans(ck: Check, value: string)
    ensures Names(ck, value, Named(ck, value))
  {
    ValuesAre(value);
  }

  lemma TableMeans(ck: Check, text: string, addr: Addr)
    ensures forall value :: TableEntry(ck, text, addr) == Some(value) <==> Finds(ck, text, addr, value)
  {
    hide FindsAt, SameTableValue, SameValue, IndexOf;
    var comma := IndexOf(text, ',');
    assert text[..|text|] == text;
    if comma < |text| {
      forall k: nat | k < |text| && text[k] == ',' && ',' !in text[..k] ensures k == comma {
        FirstComma(text, k);
      }
      assert text[comma] == ',' && ',' !in text[..comma];
      forall value ensures TableEntry(ck, text, addr) == Some(value) <==> FindsAt(ck, text, addr, value, comma) {
        EntryAt(ck, text, addr, comma, value);
      }
    }
  }

  lemma FirstComma(text: string, k: nat)
    requires k < |text| && text[k] == ',' && ',' !in text[..k]
    ensures k == IndexOf(text, ',')
  {
    var comma := IndexOf(text, ',');
    assert forall j :: 0 <= j < k ==> text[..k][j] == text[j];
  }

  lemma EntryAt(ck: Check, text: string, addr: Addr, comma: nat, value: string)
    requires comma < |text| && comma == IndexOf(text, ',')
    ensures TableEntry(ck, text, addr) == Some(value) <==> FindsAt(ck, text, addr, value, comma)
  {
    hide SameTableValue, SameValue, TrimColon, IndexOf;
    TrimmedValue(text, comma);
    SameValues(value, TrimColon(text[comma + 1..]));
  }

  lemma TrimmedValue(text: string, comma: nat)
    requires comma < |text|
    ensures var wanted := text[comma + 1..]; TrimColon(wanted) == if ":" <= wanted then text[comma + 2..] else wanted
  {
  }

  lemma SameValues(a: string, b: string)
    ensures SameTableValue(a, b) <==> SameValue(a, b)
  {
    ValuesAre(a);
    ValuesAre(b);
  }

  // ------------------------------------------------------------ members and options

  ghost predicate AddressMeets(ck: Check, member: Member, addr: Addr) {
    match member
    case AnyAddr => true
    case Me => (addr.Addr4? || addr.Addr6?) && addr in ck.ctx.localAddrs
    case Me6 => addr.Addr6? && addr in ck.ctx.localAddrs
    case Lookup(text) => exists value :: Finds(ck, text, addr, value)
    case Network4(net) => addr.Addr4? && ck.site.contains4(net, addr)
    case Network6(net) => addr.Addr6? && ck.site.contains6(net, addr)
    case Nothing => false
  }

  lemma MemberMeans(ck: Check, member: Member, addr: Addr)
    ensures MemberSeen(ck, member, addr).holds <==> AddressMeets(ck, member, addr)
    ensures var log := MemberSeen(ck, member, addr).log;
            if member.Lookup? && AddressMeets(ck, member, addr)
            then |log| == 1 && exists value :: Finds(ck, member.table, addr, value) && Names(ck, value, log[0])
            else log == []
  {
    if member.Lookup? {
      TableMeans(ck, member.table, addr);
      var found := TableEntry(ck, member.table, addr);
      if found.Some? {
        assert Finds(ck, member.table, addr, found.value);
        NamedMeans(ck, found.value);
      }
    }
  }

  /** Whether the transport header of a packet has two ports in front and is there. */
  predicate HasPortFields(pkt: Packet) {
    !pkt.fragment && (pkt.protocol == 6 || pkt.protocol == 17 || pkt.protocol == 132 || pkt.protocol == 136)
  }

  predicate HasFlagFields(pkt: Packet) {
    !pkt.fragment && pkt.protocol == 6 && pkt.tcpFlags.Some?
  }

  predicate IsSet(flags: bv8, bit: bv8) { flags & bit != 0 }

  /** Every bit asked for is set and every bit refused is clear. */
  predicate BitsMeet(flags: bv8, needed: bv8, clear: bv8) {
    && (IsSet(needed, 1) ==> IsSet(flags, 1)) && (IsSet(clear, 1) ==> !IsSet(flags, 1))
    && (IsSet(needed, 2) ==> IsSet(flags, 2)) && (IsSet(clear, 2) ==> !IsSet(flags, 2))
    && (IsSet(needed, 4) ==> IsSet(flags, 4)) && (IsSet(clear, 4) ==> !IsSet(flags, 4))
    && (IsSet(needed, 8) ==> IsSet(flags, 8)) && (IsSet(clear, 8) ==> !IsSet(flags, 8))
    && (IsSet(needed, 16) ==> IsSet(flags, 16)) && (IsSet(clear, 16) ==> !IsSet(flags, 16))
    && (IsSet(needed, 32) ==> IsSet(flags, 32)) && (IsSet(clear, 32) ==> !IsSet(flags, 32))
    && (IsSet(needed, 64) ==> IsSet(flags, 64)) && (IsSet(clear, 64) ==> !IsSet(flags, 64))
    && (IsSet(needed, 128) ==> IsSet(flags, 128)) && (IsSet(clear, 128) ==> !IsSet(flags, 128))
  }

  /** What bit `n` is worth, twice the one below. */
  function Worth(n: bv6): bv64 {
    if n == 0 then 1 else Worth(n - 1) + Worth(n - 1)
  }

  /** Bit `ty` of 256, the first word holding the lowest. */
  predicate InTypes(types: TypeSet, ty: uint8) {
    if ty < 64 then Shares(types.b0, Worth(ty as bv6))
    else if ty < 128 then Shares(types.b1, Worth((ty - 64) as bv6))
    else if ty < 192 then Shares(types.b2, Worth((ty - 128) as bv6))
    else Shares(types.b3, Worth((ty - 192) as bv6))
  }

  /** What an option asks of the packet and the check, its negation aside. */
  ghost predicate OptionMeets(ck: Check, opt: Opt) {
    var pkt := ck.pkt;
    match opt.kind
    case OptKeepState | OptComment => true
    case OptDiverted | OptUnset => false
    case OptIn => ck.ctx.direction == In
    case OptOut | OptAntiSpoof => ck.ctx.direction == Out
    case OptCustom => ck.site.custom(opt, ck.ctx, pkt)
    case OptFrag => pkt.fragment
    case OptProto => pkt.protocol == opt.proto.number
    case OptEstablished =>
      HasFlagFields(pkt) && (IsSet(pkt.tcpFlags.value, 2) ==> IsSet(pkt.tcpFlags.value, 16) || IsSet(pkt.tcpFlags.value, 4))
    case OptTCPFlags => HasFlagFields(pkt) && BitsMeet(pkt.tcpFlags.value, opt.flagsSet, opt.flagsClear)
    case OptSourcePort =>
      HasPortFields(pkt) && pkt.sourcePort.Some? && opt.ports.lo.number <= pkt.sourcePort.value <= opt.ports.hi.number
    case OptDestinationPort =>
      HasPortFields(pkt) && pkt.destinationPort.Some?
      && opt.ports.lo.number <= pkt.destinationPort.value <= opt.ports.hi.number
    case OptICMPTypes => !pkt.fragment && pkt.protocol == 1 && pkt.icmpType.Some? && InTypes(opt.types, pkt.icmpType.value)
    case OptICMP6Types =>
      !pkt.fragment && pkt.version == IPv6 && pkt.protocol == 58 && pkt.icmpType.Some? && InTypes(opt.types, pkt.icmpType.value)
    case OptVia =>
      match opt.via.kind
      case ViaUnset => false
      case ViaExact => ck.ctx.ifName == opt.via.name
      case ViaMask => Glob.Matches(Glob.Tokens(opt.via.name, 0), ck.ctx.ifName)
      case ViaTable => ck.site.lookupInterface(opt.via.name, ck.ctx.ifName).Some?
  }

  lemma FlagBits(flags: bv8, needed: bv8, clear: bv8)
    ensures FlagsMeet(flags, needed, clear) <==> BitsMeet(flags, needed, clear)
  {
    NeededBits(flags, needed);
    ClearBits(flags, clear);
  }

  lemma NeededBits(flags: bv8, needed: bv8)
    ensures flags & needed == needed <==>
      && (IsSet(needed, 1) ==> IsSet(flags, 1)) && (IsSet(needed, 2) ==> IsSet(flags, 2))
      && (IsSet(needed, 4) ==> IsSet(flags, 4)) && (IsSet(needed, 8) ==> IsSet(flags, 8))
      && (IsSet(needed, 16) ==> IsSet(flags, 16)) && (IsSet(needed, 32) ==> IsSet(flags, 32))
      && (IsSet(needed, 64) ==> IsSet(flags, 64)) && (IsSet(needed, 128) ==> IsSet(flags, 128))
  {
  }

  lemma ClearBits(flags: bv8, clear: bv8)
    ensures flags & clear == 0 <==>
      && (IsSet(clear, 1) ==> !IsSet(flags, 1)) && (IsSet(clear, 2) ==> !IsSet(flags, 2))
      && (IsSet(clear, 4) ==> !IsSet(flags, 4)) && (IsSet(clear, 8) ==> !IsSet(flags, 8))
      && (IsSet(clear, 16) ==> !IsSet(flags, 16)) && (IsSet(clear, 32) ==> !IsSet(flags, 32))
      && (IsSet(clear, 64) ==> !IsSet(flags, 64)) && (IsSet(clear, 128) ==> !IsSet(flags, 128))
  {
  }

  lemma OpeningBits(flags: bv8)
    ensures Established(flags) <==> (IsSet(flags, 2) ==> IsSet(flags, 16) || IsSet(flags, 4))
  {
  }

  lemma TypeBits(types: TypeSet, ty: uint8)
    ensures HasType(types, ty) <==> InTypes(types, ty)
  {
    hide Bit, Worth, Shares;
    BitIsWorth(ty);
    if ty < 64 {
      assert ty / 64 == 0 && ty % 64 == ty;
    } else if ty < 128 {
      assert ty / 64 == 1 && ty % 64 == ty - 64;
    } else if ty < 192 {
      assert ty / 64 == 2 && ty % 64 == ty - 128;
    } else {
      assert ty / 64 == 3 && ty % 64 == ty - 192;
    }
  }

  lemma BitIsWorth(ty: uint8)
    ensures Bit(ty) == Worth((ty % 64) as bv6)
  {
    hide Worth;
    ShiftIsWorth((ty % 64) as bv6);
  }

  lemma {:induction false} ShiftIsWorth(n: bv6)
    ensures (1 as bv64) << n == Worth(n)
    decreases n
  {
    if n > 0 {
      ShiftDoubles(n);
      ShiftIsWorth(n - 1);
    }
  }

  lemma ShiftDoubles(n: bv6)
    requires n > 0
    ensures (1 as bv64) << n == ((1 as bv64) << (n - 1)) + ((1 as bv64) << (n - 1))
  {
  }

  lemma OptionMeans(ck: Check, opt: Opt)
    ensures OptionSeen(ck, opt).holds <==> OptionMeets(ck, opt)
    ensures var log := OptionSeen(ck, opt).log;
            if opt.kind == OptVia && opt.via.kind == ViaTable && OptionMeets(ck, opt)
            then |log| == 1 && Names(ck, ck.site.lookupInterface(opt.via.name, ck.ctx.ifName).value, log[0])
            else log == []
  {
    hide FlagsMeet, BitsMeet, Established, HasType, InTypes, IsSet, Named, Names;
    var pkt := ck.pkt;
    match opt.kind {
      case OptEstablished | OptTCPFlags =>
        if pkt.tcpFlags.Some? {
          FlagBits(pkt.tcpFlags.value, opt.flagsSet, opt.flagsClear);
          OpeningBits(pkt.tcpFlags.value);
        }
      case OptICMPTypes | OptICMP6Types =>
        if pkt.icmpType.Some? {
          TypeBits(opt.types, pkt.icmpType.value);
        }
      case OptVia =>
        var value := ck.site.lookupInterface(opt.via.name, ck.ctx.ifName);
        if value.Some? {
          NamedMeans(ck, value.value);
        }
      case _ =>
    }
  }

  // ------------------------------------------------------------------------ bodies

  /** Whether some member of the pattern of target `a` is met. */
  ghost predicate PatternMet(ck: Check, ts: seq<TargetMatch>, a: nat, addr: Addr)
    requires a < |ts|
  {
    exists m :: 0 <= m < |ts| && ts[m].pattern == ts[a].pattern && AddressMeets(ck, ts[m].member, addr)
  }

  ghost predicate SideMeets(ck: Check, ts: seq<TargetMatch>, addr: Addr) {
    exists a :: 0 <= a < |ts| && PatternMet(ck, ts, a, addr) != ts[a].neg
  }

  ghost predicate PortsMeet(pkt: Packet, ms: seq<PortNumberMatch>, port: Option<uint16>) {
    ms == [] || (HasPortFields(pkt) && port.Some? && (exists k :: 0 <= k < |ms| && ms[k].lo <= port.value <= ms[k].hi) != ms[0].neg)
  }

  ghost predicate ProtosMeet(pkt: Packet, versions: seq<ProtoIPMatch>, protos: seq<ProtoNumberMatch>) {
    || (versions == [] && protos == [])
    || (pkt.version != NoVersion && exists k :: 0 <= k < |versions| && (pkt.version in versions[k].versions) != versions[k].neg)
    || exists k :: 0 <= k < |protos| && (protos[k].number == pkt.protocol) != protos[k].neg
  }

  /** Whether some member of the pattern of option `c` is met. */
  ghost predicate AlternativeMet(ck: Check, opts: seq<Opt>, c: nat)
    requires c < |opts|
  {
    exists m :: 0 <= m < |opts| && opts[m].block == opts[c].block && opts[m].pattern == opts[c].pattern && OptionMeets(ck, opts[m])
  }

  ghost predicate BlockMeets(ck: Check, opts: seq<Opt>, a: nat)
    requires a < |opts|
  {
    exists c :: 0 <= c < |opts| && opts[c].block == opts[a].block && AlternativeMet(ck, opts, c) != opts[c].neg
  }

  /** What a rule asks of a packet. */
  ghost predicate BodyMeets(ck: Check, body: Body) {
    && ProtosMeet(ck.pkt, body.versions, body.protos)
    && SideMeets(ck, body.sources, ck.pkt.source)
    && SideMeets(ck, body.destinations, ck.pkt.destination)
    && PortsMeet(ck.pkt, body.sourcePorts, ck.pkt.sourcePort)
    && PortsMeet(ck.pkt, body.destinationPorts, ck.pkt.destinationPort)
    && forall a :: 0 <= a < |body.options| ==> BlockMeets(ck, body.options, a)
  }

  /** A body as the parser and the resolver make it: no pattern or block is interrupted,
      and each pattern and port list has one sign. */
  ghost predicate WellFormedBody(body: Body) {
    && Meaning.WellPatterned(body.sources) && Meaning.WellPatterned(body.destinations) && Meaning.WellPlaced(body.options)
    && (forall k :: 0 <= k < |body.sourcePorts| ==> body.sourcePorts[k].neg == body.sourcePorts[0].neg)
    && (forall k :: 0 <= k < |body.destinationPorts| ==> body.destinationPorts[k].neg == body.destinationPorts[0].neg)
  }

  lemma SideMeans(ck: Check, ts: seq<TargetMatch>, addr: Addr)
    requires Meaning.WellPatterned(ts)
    ensures SideSeen(ck, ts, 0, addr).holds <==> SideMeets(ck, ts, addr)
  {
    hide MemberSeen, AddressMeets, SideSeen, Meaning.WellPatterned;
    Meaning.SideMeaning(ck, ts, addr);
    forall m | 0 <= m < |ts| ensures MemberSeen(ck, ts[m].member, addr).holds <==> AddressMeets(ck, ts[m].member, addr) {
      MemberMeans(ck, ts[m].member, addr);
    }
    forall a: nat | a < |ts| ensures Meaning.SomeMember(ck, ts, a, addr) == PatternMet(ck, ts, a, addr) {
    }
    hide Meaning.SomeMember, PatternMet;
  }

  lemma PortsMean(pkt: Packet, ms: seq<PortNumberMatch>)
    requires forall k :: 0 <= k < |ms| ==> ms[k].neg == ms[0].neg
    ensures PortConditionHolds(ms, SourcePortOf(pkt)) <==> PortsMeet(pkt, ms, pkt.sourcePort)
    ensures PortConditionHolds(ms, DestinationPortOf(pkt)) <==> PortsMeet(pkt, ms, pkt.destinationPort)
  {
    hide PortsHold;
    if ms != [] && pkt.sourcePort.Some? {
      Meaning.PortsMeaning(ms, pkt.sourcePort.value);
    }
    if ms != [] && pkt.destinationPort.Some? {
      Meaning.PortsMeaning(ms, pkt.destinationPort.value);
    }
  }

  lemma OptionsMean(ck: Check, opts: seq<Opt>)
    requires Meaning.WellPlaced(opts)
    ensures OptionsSeen(ck, opts, 0).holds <==> forall a :: 0 <= a < |opts| ==> BlockMeets(ck, opts, a)
  {
    hide OptionSeen, OptionMeets, OptionsSeen, Meaning.WellPlaced;
    Meaning.OptionsMeaning(ck, opts);
    forall m | 0 <= m < |opts| ensures OptionSeen(ck, opts[m]).holds <==> OptionMeets(ck, opts[m]) {
      OptionMeans(ck, opts[m]);
    }
    forall c: nat | c < |opts| ensures Meaning.PatternHolds(ck, opts, c) == (AlternativeMet(ck, opts, c) != opts[c].neg) {
    }
    hide Meaning.PatternHolds, AlternativeMet;
    forall a: nat | a < |opts| ensures Meaning.BlockHolds(ck, opts, a) == BlockMeets(ck, opts, a) {
    }
  }

  /** A body holds exactly when the packet meets what it asks. */
  lemma BodyMeans(ck: Check, body: Body)
    requires WellFormedBody(body)
    ensures BodySeen(ck, body).holds <==> BodyMeets(ck, body)
  {
    hide SideSeen, SideMeets, OptionsSeen, BlockMeets, PortConditionHolds, PortsMeet, Meaning.WellPatterned, Meaning.WellPlaced;
    SideMeans(ck, body.sources, ck.pkt.source);
    SideMeans(ck, body.destinations, ck.pkt.destination);
    PortsMean(ck.pkt, body.sourcePorts);
    PortsMean(ck.pkt, body.destinationPorts);
    OptionsMean(ck, body.options);
  }
}
