/**
 Resolving the names of a side (vmstate.go): every raw target becomes the networks,
 tables and keywords the machine matches, without changing what its patterns mean.
 */
module Resolver {
  import opened Ipfw
  import opened Semantics
  import opened Meaning
  import Lex
  import Targets
  import TargetsRead

  /** Where names are looked up: network text always, the other names only where the
      caller has a resolver for them. All of them may fail. */
  datatype Environment = Environment(
    parse4: string -> Option<Net4>,
    parse6: string -> Option<Net6>,
    resolve: Option<Target -> Option<(seq<Net4>, seq<Net6>)>>,
    protos: Option<string -> Option<uint8>>,
    services: Option<string -> Option<uint16>>)

  datatype ResolveError =
    | ExpectedIPv4Network
    | ExpectedIPv6Network
    | UnresolvedTarget
    | UnresolvedProto
    | UnresolvedService
    | ResolverFailed
    | StateRefused

  // -------------------------------------------------------------------- resolving

  function MatchOf(t: Target, member: Member): TargetMatch { TargetMatch(t.neg, t.pattern, member) }

  /** The networks of a name, those of IPv4 first. */
  function Networks(t: Target, nets4: seq<Net4>, nets6: seq<Net6>): seq<TargetMatch> {
    seq(|nets4|, i requires 0 <= i < |nets4| => MatchOf(t, Network4(nets4[i])))
      + seq(|nets6|, i requires 0 <= i < |nets6| => MatchOf(t, Network6(nets6[i])))
  }

  /** What a raw target becomes. A name of no networks becomes nothing, or under a
      negation the member that never holds, so that its pattern can still hold. */
  function Resolve(env: Environment, t: Target): Result<seq<TargetMatch>, ResolveError> {
    match t.kind
    case TargetAny => Ok([MatchOf(t, AnyAddr)])
    case TargetMe => Ok([MatchOf(t, Me)])
    case TargetMe6 => Ok([MatchOf(t, Me6)])
    case TargetNone => Ok([MatchOf(t, Nothing)])
    case TargetTable => Ok([MatchOf(t, Lookup(t.text))])
    case TargetNetwork4 =>
      (match env.parse4(t.text)
       case None => Err(ExpectedIPv4Network)
       case Some(net) => Ok([MatchOf(t, Network4(net))]))
    case TargetNetwork6 =>
      (match env.parse6(t.text)
       case None => Err(ExpectedIPv6Network)
       case Some(net) => Ok([MatchOf(t, Network6(net))]))
    case TargetHostname | TargetCustom =>
      match env.resolve
      case None => Err(UnresolvedTarget)
      case Some(resolve) =>
        match resolve(t)
        case None => Err(ResolverFailed)
        case Some((nets4, nets6)) =>
          if t.neg && nets4 == [] && nets6 == [] then Ok([MatchOf(t, Nothing)]) else Ok(Networks(t, nets4, nets6))
  }

  /** How far the state takes some matches in order. */
  function Taken(tokens: seq<TargetMatch>, ms: seq<TargetMatch>, refuses: (seq<TargetMatch>, TargetMatch) -> bool): (seq<TargetMatch>, bool)
    decreases |ms|
  {
    if ms == [] then (tokens, true)
    else if refuses(tokens, ms[0]) then (tokens, false)
    else Taken(tokens + [ms[0]], ms[1..], refuses)
  }

  lemma {:induction false} TakenAppends(
    tokens: seq<TargetMatch>, a: seq<TargetMatch>, b: seq<TargetMatch>, refuses: (seq<TargetMatch>, TargetMatch) -> bool)
    ensures var first := Taken(tokens, a, refuses);
            Taken(tokens, a + b, refuses) == if first.1 then Taken(first.0, b, refuses) else first
    decreases |a|
  {
    if a == [] {
      assert a + b == b;
    } else {
      assert (a + b)[1..] == a[1..] + b;
      if !refuses(tokens, a[0]) {
        TakenAppends(tokens + [a[0]], a[1..], b, refuses);
      }
    }
  }

  /** What the state was left with, and what that means for the caller. */
  predicate Handed(before: seq<TargetMatch>, sink: Lex.Sink<TargetMatch>, r: Result<seq<TargetMatch>, ResolveError>, error: Option<ResolveError>)
    reads sink
  {
    match r
    case Err(e) => error == Some(e) && sink.tokens == before
    case Ok(ms) =>
      var taken := Taken(before, ms, sink.refuses);
      sink.tokens == taken.0 && error == if taken.1 then None else Some(StateRefused)
  }

  /** Hands the matches of a target to the state, stopping at the first it refuses. */
  method ResolveTarget(env: Environment, t: Target, sink: Lex.Sink<TargetMatch>) returns (error: Option<ResolveError>)
    modifies sink
    ensures Handed(old(sink.tokens), sink, Resolve(env, t), error)
  {
    var member := Nothing;
    match t.kind {
      case TargetNetwork4 =>
        var network := env.parse4(t.text);
        if network.None? {
          return Some(ExpectedIPv4Network);
        }
        member := Network4(network.value);
      case TargetNetwork6 =>
        var network := env.parse6(t.text);
        if network.None? {
          return Some(ExpectedIPv6Network);
        }
        member := Network6(network.value);
      case TargetTable => member := Lookup(t.text);
      case TargetAny => member := AnyAddr;
      case TargetMe => member := Me;
      case TargetMe6 => member := Me6;
      case TargetNone =>
      case _ =>
        if env.resolve.None? {
          return Some(UnresolvedTarget);
        }
        var answer := env.resolve.value(t);
        if answer.None? {
          return Some(ResolverFailed);
        }
        var (nets4, nets6) := answer.value;
        if !(t.neg && |nets4| == 0 && |nets6| == 0) {
          error := EmitNetworks(t, nets4, nets6, sink);
          return;
        }
    }
    assert Resolve(env, t) == Ok([MatchOf(t, member)]);
    var taken := sink.Push(MatchOf(t, member));
    return if taken then None else Some(StateRefused);
  }

  /** Hands a name over network by network. */
  method EmitNetworks(t: Target, nets4: seq<Net4>, nets6: seq<Net6>, sink: Lex.Sink<TargetMatch>)
    returns (error: Option<ResolveError>)
    modifies sink
    ensures (sink.tokens, error) ==
            var taken := Taken(old(sink.tokens), Networks(t, nets4, nets6), sink.refuses);
            (taken.0, if taken.1 then None else Some(StateRefused))
  {
    hide Networks, Taken;
    ghost var all := Networks(t, nets4, nets6);
    NetworksAre(t, nets4, nets6);
    Emitted(old(sink.tokens), all, 0, sink.refuses);
    for i := 0 to |nets4|
      invariant Taken(old(sink.tokens), all, sink.refuses) == Taken(sink.tokens, all[i..], sink.refuses)
    {
      Emitted(sink.tokens, all, i, sink.refuses);
      var taken := sink.Push(MatchOf(t, Network4(nets4[i])));
      if !taken {
        return Some(StateRefused);
      }
    }
    for i := 0 to |nets6|
      invariant Taken(old(sink.tokens), all, sink.refuses) == Taken(sink.tokens, all[|nets4| + i..], sink.refuses)
    {
      Emitted(sink.tokens, all, |nets4| + i, sink.refuses);
      var taken := sink.Push(MatchOf(t, Network6(nets6[i])));
      if !taken {
        return Some(StateRefused);
      }
    }
    Emitted(sink.tokens, all, |all|, sink.refuses);
    return None;
  }

  lemma NetworksAre(t: Target, nets4: seq<Net4>, nets6: seq<Net6>)
    ensures var all := Networks(t, nets4, nets6);
            && |all| == |nets4| + |nets6|
            && (forall i :: 0 <= i < |nets4| ==> all[i] == MatchOf(t, Network4(nets4[i])))
            && (forall i :: 0 <= i < |nets6| ==> all[|nets4| + i] == MatchOf(t, Network6(nets6[i])))
  {
  }

  lemma Emitted(tokens: seq<TargetMatch>, all: seq<TargetMatch>, i: nat, refuses: (seq<TargetMatch>, TargetMatch) -> bool)
    requires i <= |all|
    ensures i == 0 ==> all[i..] == all
    ensures i == |all| ==> Taken(tokens, all[i..], refuses) == (tokens, true)
    ensures i < |all| ==>
      Taken(tokens, all[i..], refuses) ==
        if refuses(tokens, all[i]) then (tokens, false) else Taken(tokens + [all[i]], all[i + 1..], refuses)
  {
    if i < |all| {
      assert all[i..][1..] == all[i + 1..];
    }
  }

  // ---------------------------------------------------------------------- options

  /** A port as a number, its name looked up. */
  function PortNumber(env: Environment, port: Port): Result<uint16, ResolveError> {
    if port.name == "" then Ok(port.number)
    else if env.services.None? || env.services.value(port.name).None? then Err(UnresolvedService)
    else Ok(env.services.value(port.name).value)
  }

  function ProtoNumber(env: Environment, proto: Proto): Result<uint8, ResolveError> {
    if proto.name == "" then Ok(proto.number)
    else if env.protos.None? || env.protos.value(proto.name).None? then Err(UnresolvedProto)
    else Ok(env.protos.value(proto.name).value)
  }

  /** An option by numbers alone. Nothing but the protocol or the ports of it changes. */
  function ResolveOption(env: Environment, opt: Opt): (r: Result<Opt, ResolveError>)
    ensures r.Ok? ==>
      && r.value.neg == opt.neg && r.value.block == opt.block && r.value.pattern == opt.pattern && r.value.kind == opt.kind
      && r.value.(proto := opt.proto, ports := opt.ports) == opt
      && (opt.kind == OptProto ==> r.value.proto.name == "")
      && (opt.kind == OptSourcePort || opt.kind == OptDestinationPort ==> r.value.ports.lo.name == "" == r.value.ports.hi.name)
  {
    match opt.kind
    case OptProto =>
      (match ProtoNumber(env, opt.proto)
       case Err(e) => Err(e)
       case Ok(number) => Ok(opt.(proto := Proto("", number))))
    case OptSourcePort | OptDestinationPort =>
      (match PortNumber(env, opt.ports.lo)
       case Err(e) => Err(e)
       case Ok(lo) =>
         match PortNumber(env, opt.ports.hi)
         case Err(e) => Err(e)
         case Ok(hi) => Ok(opt.(ports := PortRange(Port("", lo), Port("", hi)))))
    case _ => Ok(opt)
  }

  /** A number as written, or the one a name was looked up as. */
  predicate IsNumber<T(==)>(name: string, written: T, lookup: Option<string -> Option<T>>, number: T) {
    if name == "" then number == written else lookup.Some? && lookup.value(name) == Some(number)
  }

  predicate Unknown<T>(name: string, lookup: Option<string -> Option<T>>) {
    name != "" && (lookup.None? || lookup.value(name).None?)
  }

  /** The numbers of an option, each its own, and when there are none. */
  lemma NumbersAreResolved(env: Environment, opt: Opt, number: uint8, lo: uint16, hi: uint16)
    ensures opt.kind == OptProto ==>
      && (IsNumber(opt.proto.name, opt.proto.number, env.protos, number) ==>
            ResolveOption(env, opt) == Ok(opt.(proto := Proto("", number))))
      && (Unknown(opt.proto.name, env.protos) ==> ResolveOption(env, opt) == Err(UnresolvedProto))
    ensures opt.kind == OptSourcePort || opt.kind == OptDestinationPort ==>
      var from, to := opt.ports.lo, opt.ports.hi;
      && (IsNumber(from.name, from.number, env.services, lo) && IsNumber(to.name, to.number, env.services, hi) ==>
            ResolveOption(env, opt) == Ok(opt.(ports := PortRange(Port("", lo), Port("", hi)))))
      && (Unknown(from.name, env.services) || Unknown(to.name, env.services) ==> ResolveOption(env, opt) == Err(UnresolvedService))
    ensures opt.kind !in {OptProto, OptSourcePort, OptDestinationPort} ==> ResolveOption(env, opt) == Ok(opt)
  {
  }

  /** Hands an option over by its numbers, or fails before the state sees it. */
  method OnOption(env: Environment, o: Opt, sink: Lex.Sink<Opt>) returns (error: Option<ResolveError>)
    modifies sink
    ensures match ResolveOption(env, o)
            case Err(e) => error == Some(e) && sink.tokens == old(sink.tokens)
            case Ok(opt) =>
              if sink.refuses(old(sink.tokens), opt) then error == Some(StateRefused) && sink.tokens == old(sink.tokens)
              else error == None && sink.tokens == old(sink.tokens) + [opt]
  {
    var opt := o;
    if opt.kind == OptProto {
      var number := ProtoNumber(env, opt.proto);
      if number.Err? {
        return Some(number.error);
      }
      opt := opt.(proto := Proto("", number.value));
    } else if opt.kind == OptSourcePort || opt.kind == OptDestinationPort {
      var lo := PortNumber(env, opt.ports.lo);
      if lo.Err? {
        return Some(lo.error);
      }
      var hi := PortNumber(env, opt.ports.hi);
      if hi.Err? {
        return Some(hi.error);
      }
      opt := opt.(ports := PortRange(Port("", lo.value), Port("", hi.value)));
    }
    assert ResolveOption(env, o) == Ok(opt);
    var taken := sink.Push(opt);
    return if taken then None else Some(StateRefused);
  }

  // ------------------------------------------------------------ what a side means

  /** Whether a raw target holds an address: for a name, whether one of its networks
      does. */
  ghost predicate Holds(env: Environment, ck: Check, t: Target, addr: Addr)
    requires Resolve(env, t).Ok?
  {
    match t.kind
    case TargetAny => true
    case TargetMe => addr != NoAddr && addr in ck.ctx.localAddrs
    case TargetMe6 => addr.Addr6? && addr in ck.ctx.localAddrs
    case TargetNone => false
    case TargetTable => TableEntry(ck, t.text, addr).Some?
    case TargetNetwork4 => addr.Addr4? && ck.site.contains4(env.parse4(t.text).value, addr)
    case TargetNetwork6 => addr.Addr6? && ck.site.contains6(env.parse6(t.text).value, addr)
    case TargetHostname | TargetCustom =>
      var (nets4, nets6) := env.resolve.value(t).value;
      || (addr.Addr4? && exists net :: net in nets4 && ck.site.contains4(net, addr))
      || (addr.Addr6? && exists net :: net in nets6 && ck.site.contains6(net, addr))
  }

  ghost predicate AllResolve(env: Environment, ts: seq<Target>) {
    forall n :: 0 <= n < |ts| ==> Resolve(env, ts[n]).Ok?
  }

  /** Whether some member of the pattern of target `a` holds the address. */
  ghost predicate SomeHolds(env: Environment, ck: Check, ts: seq<Target>, a: nat, addr: Addr)
    requires a < |ts| && AllResolve(env, ts)
  {
    exists n :: 0 <= n < |ts| && ts[n].pattern == ts[a].pattern && Holds(env, ck, ts[n], addr)
  }

  /** The matches of a side in order, each with the target it came from. */
  function Side(env: Environment, ts: seq<Target>): (r: seq<TargetMatch>)
    requires AllResolve(env, ts)
  {
    if ts == [] then [] else Side(env, ts[..|ts| - 1]) + Resolve(env, ts[|ts| - 1]).value
  }

  /** Resolving the targets one after the other hands the state the matches of the
      side, up to the first it refuses. */
  lemma SideInTurn(
    env: Environment, ts: seq<Target>, t: Target, tokens: seq<TargetMatch>,
    refuses: (seq<TargetMatch>, TargetMatch) -> bool)
    requires AllResolve(env, ts + [t])
    ensures AllResolve(env, ts) && Resolve(env, t).Ok?
    ensures var before := Taken(tokens, Side(env, ts), refuses);
            Taken(tokens, Side(env, ts + [t]), refuses) ==
              if before.1 then Taken(before.0, Resolve(env, t).value, refuses) else before
  {
    hide Resolve;
    var all := ts + [t];
    assert forall n :: 0 <= n < |ts| ==> all[n] == ts[n];
    assert all[|ts|] == t && all[..|all| - 1] == ts;
    TakenAppends(tokens, Side(env, ts), Resolve(env, t).value, refuses);
  }

  ghost function Origins(env: Environment, ts: seq<Target>): (r: seq<nat>)
    requires AllResolve(env, ts)
    ensures |r| == |Side(env, ts)|
  {
    if ts == [] then []
    else Origins(env, ts[..|ts| - 1]) + seq(|Resolve(env, ts[|ts| - 1]).value|, _ => (|ts| - 1) as nat)
  }

  /** A target becomes matches of its pattern and negation, one of which holds exactly
      when it does, and at least one when it is negated. */
  lemma ResolvedTarget(env: Environment, ck: Check, t: Target, addr: Addr)
    requires Resolve(env, t).Ok?
    ensures var ms := Resolve(env, t).value;
            && (forall m :: m in ms ==> m.pattern == t.pattern && m.neg == t.neg)
            && (Holds(env, ck, t, addr) <==> exists m :: m in ms && MemberSeen(ck, m.member, addr).holds)
            && (t.neg ==> ms != [])
  {
    var ms := Resolve(env, t).value;
    if t.kind == TargetHostname || t.kind == TargetCustom {
      var (nets4, nets6) := env.resolve.value(t).value;
      if !(t.neg && nets4 == [] && nets6 == []) {
        NetworksHold(ck, t, nets4, nets6, addr);
      } else {
        assert ms == [MatchOf(t, Nothing)];
      }
    } else {
      assert |ms| == 1;
    }
  }

  /** When the matches of a target hold, kind by kind. */
  lemma MatchesMean(env: Environment, ck: Check, t: Target, addr: Addr)
    requires Resolve(env, t).Ok?
    ensures var holds := exists m :: m in Resolve(env, t).value && MemberSeen(ck, m.member, addr).holds;
            match t.kind
            case TargetAny => holds
            case TargetMe => holds <==> addr != NoAddr && addr in ck.ctx.localAddrs
            case TargetMe6 => holds <==> addr.Addr6? && addr in ck.ctx.localAddrs
            case TargetTable => holds <==> TableEntry(ck, t.text, addr).Some?
            case TargetNetwork4 => env.parse4(t.text).Some? && (holds <==> addr.Addr4? && ck.site.contains4(env.parse4(t.text).value, addr))
            case TargetNetwork6 => env.parse6(t.text).Some? && (holds <==> addr.Addr6? && ck.site.contains6(env.parse6(t.text).value, addr))
            case TargetNone => !holds
            case _ =>
              && env.resolve.Some? && env.resolve.value(t).Some?
              && var (nets4, nets6) := env.resolve.value(t).value;
                 holds <==>
                   if addr.Addr4? then exists net :: net in nets4 && ck.site.contains4(net, addr)
                   else addr.Addr6? && exists net :: net in nets6 && ck.site.contains6(net, addr)
  {
    hide Networks, MemberSeen, TableEntry;
    ResolvedTarget(env, ck, t, addr);
  }

  /** When a target has no matches at all. */
  lemma ResolutionFails(env: Environment, t: Target)
    ensures Resolve(env, t) == Err(ExpectedIPv4Network) <==> t.kind == TargetNetwork4 && env.parse4(t.text).None?
    ensures Resolve(env, t) == Err(ExpectedIPv6Network) <==> t.kind == TargetNetwork6 && env.parse6(t.text).None?
    ensures var name := t.kind == TargetHostname || t.kind == TargetCustom;
            && (Resolve(env, t) == Err(UnresolvedTarget) <==> name && env.resolve.None?)
            && (Resolve(env, t) == Err(ResolverFailed) <==> name && env.resolve.Some? && env.resolve.value(t).None?)
  {
  }

  /** The networks of a name in order, or under a negation one match for a name of none. */
  lemma NamesInOrder(env: Environment, t: Target)
    requires (t.kind == TargetHostname || t.kind == TargetCustom) && Resolve(env, t).Ok?
    ensures var (nets4, nets6) := env.resolve.value(t).value;
            var ms := Resolve(env, t).value;
            if nets4 == [] && nets6 == [] && t.neg then ms == [TargetMatch(true, t.pattern, Nothing)]
            else
              && |ms| == |nets4| + |nets6|
              && (forall i :: 0 <= i < |nets4| ==> ms[i] == TargetMatch(t.neg, t.pattern, Network4(nets4[i])))
              && (forall i :: 0 <= i < |nets6| ==> ms[|nets4| + i] == TargetMatch(t.neg, t.pattern, Network6(nets6[i])))
  {
    hide Networks;
    var (nets4, nets6) := env.resolve.value(t).value;
    NetworksAre(t, nets4, nets6);
  }

  lemma NetworksHold(ck: Check, t: Target, nets4: seq<Net4>, nets6: seq<Net6>, addr: Addr)
    ensures var ms := Networks(t, nets4, nets6);
            && (forall m :: m in ms ==> m.pattern == t.pattern && m.neg == t.neg)
            && (nets4 != [] || nets6 != [] ==> ms != [])
            && ((exists m :: m in ms && MemberSeen(ck, m.member, addr).holds) <==>
                  || (addr.Addr4? && exists net :: net in nets4 && ck.site.contains4(net, addr))
                  || (addr.Addr6? && exists net :: net in nets6 && ck.site.contains6(net, addr)))
  {
    hide Networks;
    NetworksAre(t, nets4, nets6);
    var ms := Networks(t, nets4, nets6);
    forall m | m in ms ensures (m.member.Network4? && m.member.net4 in nets4) || (m.member.Network6? && m.member.net6 in nets6)
      ensures m.pattern == t.pattern && m.neg == t.neg
    {
      var k :| 0 <= k < |ms| && ms[k] == m;
      assert k >= |nets4| ==> ms[|nets4| + (k - |nets4|)] == MatchOf(t, Network6(nets6[k - |nets4|]));
    }
    forall net | net in nets4 ensures MatchOf(t, Network4(net)) in ms {
      var i :| 0 <= i < |nets4| && nets4[i] == net;
      assert ms[i] == MatchOf(t, Network4(net));
    }
    forall net | net in nets6 ensures MatchOf(t, Network6(net)) in ms {
      var i :| 0 <= i < |nets6| && nets6[i] == net;
      assert ms[|nets4| + i] == MatchOf(t, Network6(net));
    }
    assert forall net :: net in nets4 ==> MemberSeen(ck, MatchOf(t, Network4(net)).member, addr).holds == (addr.Addr4? && ck.site.contains4(net, addr));
    assert forall net :: net in nets6 ==> MemberSeen(ck, MatchOf(t, Network6(net)).member, addr).holds == (addr.Addr6? && ck.site.contains6(net, addr));
  }

  /** Every match comes from its target. */
  lemma {:induction false} MatchHasOrigin(env: Environment, ts: seq<Target>, k: nat)
    requires AllResolve(env, ts) && k < |Side(env, ts)|
    ensures Origins(env, ts)[k] < |ts| && Side(env, ts)[k] in Resolve(env, ts[Origins(env, ts)[k]]).value
  {
    hide Resolve;
    var before := ts[..|ts| - 1];
    var last := Resolve(env, ts[|ts| - 1]).value;
    var n := |Side(env, before)|;
    if k < n {
      MatchHasOrigin(env, before, k);
    } else {
      assert Side(env, ts)[k] == last[k - n];
    }
  }

  lemma {:induction false} OriginsGoUp(env: Environment, ts: seq<Target>, j: nat, k: nat)
    requires AllResolve(env, ts) && j < k < |Side(env, ts)|
    ensures Origins(env, ts)[j] <= Origins(env, ts)[k]
  {
    hide Resolve;
    var before := ts[..|ts| - 1];
    var n := |Side(env, before)|;
    if k < n {
      OriginsGoUp(env, before, j, k);
    } else if j < n {
      MatchHasOrigin(env, before, j);
    }
  }

  /** Every target has all its matches. */
  lemma {:induction false} TargetHasMatch(env: Environment, ts: seq<Target>, n: nat, m: TargetMatch) returns (k: nat)
    requires AllResolve(env, ts) && n < |ts| && m in Resolve(env, ts[n]).value
    ensures k < |Side(env, ts)| && Side(env, ts)[k] == m
  {
    hide Resolve;
    var before := ts[..|ts| - 1];
    if n < |ts| - 1 {
      k := TargetHasMatch(env, before, n, m);
    } else {
      var last := Resolve(env, ts[n]).value;
      var j :| 0 <= j < |last| && last[j] == m;
      k := |Side(env, before)| + j;
    }
  }

  /** The raw targets of a pattern stand together under one negation. */
  ghost predicate Patterned(ts: seq<Target>) {
    && (forall i, j, k :: 0 <= i < j < k < |ts| && ts[i].pattern == ts[k].pattern ==> ts[j].pattern == ts[i].pattern)
    && (forall i, j :: 0 <= i < j < |ts| && ts[i].pattern == ts[j].pattern ==> ts[i].neg == ts[j].neg)
  }

  lemma SideIsPatterned(env: Environment, ck: Check, ts: seq<Target>, addr: Addr)
    requires AllResolve(env, ts) && Patterned(ts)
    ensures WellPatterned(Side(env, ts))
  {
    hide Resolve, Side, Origins, Holds;
    var ms, o := Side(env, ts), Origins(env, ts);
    forall k: nat | k < |ms| ensures o[k] < |ts| && ms[k].pattern == ts[o[k]].pattern && ms[k].neg == ts[o[k]].neg {
      MatchHasOrigin(env, ts, k);
      ResolvedTarget(env, ck, ts[o[k]], addr);
    }
    forall j: nat, k: nat | j < k < |ms| ensures o[j] <= o[k] {
      OriginsGoUp(env, ts, j, k);
    }
  }

  lemma SameSome(env: Environment, ck: Check, ts: seq<Target>, n: nat, k: nat, addr: Addr)
    requires AllResolve(env, ts) && n < |ts| && k < |Side(env, ts)| && Side(env, ts)[k].pattern == ts[n].pattern
    ensures SomeMember(ck, Side(env, ts), k, addr) == SomeHolds(env, ck, ts, n, addr)
  {
    hide Resolve, Side, Origins, Holds;
    var ms, o := Side(env, ts), Origins(env, ts);
    if SomeHolds(env, ck, ts, n, addr) {
      var w :| 0 <= w < |ts| && ts[w].pattern == ts[n].pattern && Holds(env, ck, ts[w], addr);
      ResolvedTarget(env, ck, ts[w], addr);
      var m :| m in Resolve(env, ts[w]).value && MemberSeen(ck, m.member, addr).holds;
      var j := TargetHasMatch(env, ts, w, m);
      assert ms[j].pattern == ms[k].pattern;
    }
    if SomeMember(ck, ms, k, addr) {
      var j :| 0 <= j < |ms| && ms[j].pattern == ms[k].pattern && MemberSeen(ck, ms[j].member, addr).holds;
      MatchHasOrigin(env, ts, j);
      ResolvedTarget(env, ck, ts[o[j]], addr);
      assert ts[o[j]].pattern == ts[n].pattern && Holds(env, ck, ts[o[j]], addr);
    }
  }

  /** Resolving keeps what a side means: the machine's scan over the resolved matches
      holds exactly when a pattern of the raw targets does, the address being in the
      union of its members, or in none of them when it is negated, whatever names
      stand for no network at all. */
  lemma ResolvingKeepsMeaning(env: Environment, ck: Check, ts: seq<Target>, addr: Addr)
    requires AllResolve(env, ts) && Patterned(ts)
    ensures SideSeen(ck, Side(env, ts), 0, addr).holds <==>
            exists a :: 0 <= a < |ts| && SomeHolds(env, ck, ts, a, addr) != ts[a].neg
  {
    hide Resolve, Side, Origins, Holds, SomeMember, SomeHolds;
    var ms := Side(env, ts);
    SideIsPatterned(env, ck, ts, addr);
    SideMeaning(ck, ms, addr);
    var o := Origins(env, ts);
    if exists k :: 0 <= k < |ms| && SomeMember(ck, ms, k, addr) != ms[k].neg {
      var k :| 0 <= k < |ms| && SomeMember(ck, ms, k, addr) != ms[k].neg;
      MatchHasOrigin(env, ts, k);
      ResolvedTarget(env, ck, ts[o[k]], addr);
      SameSome(env, ck, ts, o[k], k, addr);
      assert SomeHolds(env, ck, ts, o[k], addr) != ts[o[k]].neg;
    }
    if exists a :: 0 <= a < |ts| && SomeHolds(env, ck, ts, a, addr) != ts[a].neg {
      var a :| 0 <= a < |ts| && SomeHolds(env, ck, ts, a, addr) != ts[a].neg;
      var k := MatchOfPattern(env, ck, ts, a, addr);
      SameSome(env, ck, ts, a, k, addr);
    }
  }

  /** A pattern that holds has a match under its negation. */
  lemma MatchOfPattern(env: Environment, ck: Check, ts: seq<Target>, a: nat, addr: Addr) returns (k: nat)
    requires AllResolve(env, ts) && Patterned(ts) && a < |ts| && SomeHolds(env, ck, ts, a, addr) != ts[a].neg
    ensures k < |Side(env, ts)| && Side(env, ts)[k].pattern == ts[a].pattern && Side(env, ts)[k].neg == ts[a].neg
  {
    hide Resolve, Side, Origins, Holds;
    var w := a;
    if !ts[a].neg {
      w :| 0 <= w < |ts| && ts[w].pattern == ts[a].pattern && Holds(env, ck, ts[w], addr);
    }
    ResolvedTarget(env, ck, ts[w], addr);
    assert Resolve(env, ts[w]).value != [];
    var m := Resolve(env, ts[w]).value[0];
    assert m in Resolve(env, ts[w]).value;
    k := TargetHasMatch(env, ts, w, m);
  }

  // ---------------------------------------------------------- from text to meaning

  /** No pattern number is less than the one before it, so that none wrapped. */
  predicate PatternsGoUp(ts: seq<Target>) {
    forall k :: 0 < k < |ts| ==> ts[k - 1].pattern <= ts[k].pattern
  }

  lemma {:induction false} PatternsAscend(ts: seq<Target>, i: nat, k: nat)
    requires TargetsRead.Sound(ts) && PatternsGoUp(ts) && i <= k < |ts|
    ensures ts[i].pattern <= ts[k].pattern
    ensures ts[i].pattern == ts[k].pattern ==> ts[i].neg == ts[k].neg
    decreases k
  {
    hide TargetsRead.Sound;
    if i < k {
      SoundStep(ts, k);
      PatternsAscend(ts, i, k - 1);
    }
  }

  lemma SoundStep(ts: seq<Target>, k: nat)
    requires TargetsRead.Sound(ts) && k < |ts|
    ensures ts[0].pattern == 0
    ensures k > 0 && ts[k].pattern != ts[k - 1].pattern ==> ts[k].pattern == ToUint16(ts[k - 1].pattern + 1)
    ensures k > 0 && ts[k].pattern == ts[k - 1].pattern ==> ts[k].neg == ts[k - 1].neg
  {
    assert TargetsRead.Linked(ts, k) && TargetsRead.Linked(ts, 0);
    HeadSign(ts, k);
    if k > 0 {
      HeadSign(ts, k - 1);
    }
  }

  lemma HeadSign(ts: seq<Target>, k: nat)
    requires TargetsRead.Sound(ts) && k < |ts|
    ensures ts[k].neg == ts[TargetsRead.HeadOf(ts, k)].neg
  {
    assert TargetsRead.Linked(ts, k);
  }

  /** The patterns of a parsed section stand together under one negation exactly when
      no number wrapped, which takes more than 2^16 patterns. */
  lemma PatternedIff(ts: seq<Target>)
    requires TargetsRead.Sound(ts)
    ensures Patterned(ts) <==> PatternsGoUp(ts)
  {
    hide TargetsRead.Sound;
    if PatternsGoUp(ts) {
      forall i: nat, k: nat | i < k < |ts|
        ensures ts[i].pattern <= ts[k].pattern
        ensures ts[i].pattern == ts[k].pattern ==> ts[i].neg == ts[k].neg
      {
        PatternsAscend(ts, i, k);
      }
    }
    forall k: nat | Patterned(ts) && 0 < k < |ts| ensures ts[k - 1].pattern <= ts[k].pattern {
      SoundStep(ts, k);
      assert ts[k].pattern == 0 && k > 1 ==> ts[k - 1].pattern == ts[0].pattern;
    }
  }

  /** A section that is parsed and resolved matches what its targets say, when no
      pattern number wrapped. */
  lemma ParsedSideMeans(s: string, refuses: (seq<Target>, Target) -> bool, env: Environment, ck: Check, addr: Addr)
    ensures var ts := Targets.Section(s, refuses, []).tokens;
            PatternsGoUp(ts) && AllResolve(env, ts) ==>
              (SideSeen(ck, Side(env, ts), 0, addr).holds <==>
               exists a :: 0 <= a < |ts| && SomeHolds(env, ck, ts, a, addr) != ts[a].neg)
  {
    TargetsRead.SectionSound(s, refuses);
    hide Targets.Section, TargetsRead.Sound, SideSeen, Side, SomeHolds, Patterned, AllResolve;
    var ts := Targets.Section(s, refuses, []).tokens;
    PatternedIff(ts);
    if PatternsGoUp(ts) && AllResolve(env, ts) {
      ResolvingKeepsMeaning(env, ck, ts, addr);
    }
  }
}
