/**
 Packets as the standards lay them out, and what the accessors (vm/packet.go) read.

 A chain of IPv6 extension headers is written down byte by byte: options and routing headers as in
 sections 4.3, 4.4 and 4.6 of RFC 8200, fragment headers as in section 4.5 and
 authentication headers as in section 2.2 of RFC 4302. Nothing here measures a header
 the way the walk does. The fixed headers are those of section 3.1 of RFC 791 and section 3
 of RFC 8200, ports and flags those of section 3.1 of RFC 9293.
 */
module Headers {
  import opened Ipfw
  import opened RawPackets

  /** An extension header without the protocol that follows it. `body` is what stands
      behind the first two bytes. */
  datatype Header =
    | Plain(protocol: uint8, body: Bytes)
    | Authentication(body: Bytes)
    | Fragment(reserved: uint8, offset: nat, low: nat, id: Bytes)

  function Protocol(h: Header): uint8 {
    match h
    case Plain(protocol, _) => protocol
    case Authentication(_) => 51
    case Fragment(_, _, _, _) => 44
  }

  /** The protocols of the headers that another may follow. */
  predicate Extends(protocol: uint8) {
    protocol == 0 || protocol == 43 || protocol == 44 || protocol == 51 || protocol == 60
  }

  function Size(h: Header): nat {
    match h
    case Plain(_, body) => 2 + |body|
    case Authentication(body) => 2 + |body|
    case Fragment(_, _, _, _) => 8
  }

  /** Whether a length field can say how long the header is. */
  predicate WellSized(h: Header) {
    match h
    case Plain(protocol, _) => (protocol == 0 || protocol == 43 || protocol == 60) && Size(h) % 8 == 0 && Size(h) <= 8 * 256
    case Authentication(_) => Size(h) % 4 == 0 && 8 <= Size(h) <= 4 * 257
    case Fragment(_, offset, low, id) => offset < 0x2000 && low < 8 && |id| == 4
  }

  function Wire(h: Header, next: uint8): (r: Bytes)
    requires WellSized(h)
    ensures |r| == Size(h)
  {
    match h
    case Plain(_, body) => [next, Size(h) / 8 - 1] + body
    case Authentication(body) => [next, Size(h) / 4 - 2] + body
    case Fragment(reserved, offset, low, id) => [next, reserved, offset / 32, offset % 32 * 8 + low] + id
  }

  predicate Chained(hs: seq<Header>) {
    && (forall k :: 0 <= k < |hs| ==> WellSized(hs[k]))
    && forall k :: 0 <= k < |hs| - 1 ==> !Fragmented(hs[k])
  }

  /** A later piece of a packet, behind which there is no upper layer. */
  predicate Fragmented(h: Header) {
    h.Fragment? && h.offset != 0
  }

  function FirstProtocol(hs: seq<Header>, last: uint8): uint8 {
    if hs == [] then last else Protocol(hs[0])
  }

  function Chain(hs: seq<Header>, last: uint8): (r: Bytes)
    requires forall k :: 0 <= k < |hs| ==> WellSized(hs[k])
  {
    if hs == [] then [] else Wire(hs[0], FirstProtocol(hs[1..], last)) + Chain(hs[1..], last)
  }

  function Sizes(hs: seq<Header>): nat {
    if hs == [] then 0 else Size(hs[0]) + Sizes(hs[1..])
  }

  /** Where the last header starts. */
  function LastStart(hs: seq<Header>): (r: nat)
    requires hs != []
    ensures r + Size(hs[|hs| - 1]) == Sizes(hs)
  {
    if |hs| == 1 then 0 else Size(hs[0]) + LastStart(hs[1..])
  }

  /** How many bytes of a header say where it ends: the first two, or the whole of a
      fragment header. */
  function Telling(protocol: uint8): nat {
    if protocol == 44 then 8 else 2
  }

  /** A header chain at an index, the bytes of its last header possibly missing but for
      those that tell where it ends. */
  ghost predicate HoldsChain(m: Bytes, at: nat, hs: seq<Header>, last: uint8, payload: Bytes)
    requires Chained(hs)
  {
    && at <= |m| && m[at..] <= Chain(hs, last) + payload
    && (hs != [] ==> at + LastStart(hs) + Telling(Protocol(hs[|hs| - 1])) <= |m|)
  }

  /** Where the walk is past a whole chain. */
  function ChainEnd(hs: seq<Header>, last: uint8, named: nat, at: nat): Layout {
    if hs == [] then Layout(last, named, at, false)
    else Layout(last, at + LastStart(hs), at + Sizes(hs), Fragmented(hs[|hs| - 1]))
  }

  /** One header is measured as its format says. */
  lemma PastHeader(m: Bytes, at: nat, named: nat, h: Header, next: uint8, tail: Bytes)
    requires WellSized(h) && at + Telling(Protocol(h)) <= |m| && m[at..] <= Wire(h, next) + tail
    ensures Past(m, Layout(Protocol(h), named, at, false)) == Layout(next, at, at + Size(h), Fragmented(h))
  {
    var bytes := Wire(h, next);
    assert forall k: nat :: k < Telling(Protocol(h)) ==> m[at + k] == m[at..][k] == bytes[k];
    assert m[at] == bytes[0] && m[at + 1] == bytes[1];
    if h.Fragment? {
      assert m[at + 2] == bytes[2] && m[at + 3] == bytes[3];
    }
  }

  lemma {:induction false} WalkPasses(m: Bytes, at: nat, named: nat, hs: seq<Header>, last: uint8, payload: Bytes)
    requires Chained(hs) && HoldsChain(m, at, hs, last, payload)
    ensures Walk(m, Layout(FirstProtocol(hs, last), named, at, false)) == Walk(m, ChainEnd(hs, last, named, at))
    decreases |hs|
  {
    hide Walk, Past, HoldsChain, ChainEnd, Wire, Fragmented;
    if hs == [] {
      EndsAtOnce(last, named, at);
    } else {
      FirstHeader(m, at, hs, last, payload);
      PastHeader(m, at, named, hs[0], FirstProtocol(hs[1..], last), Chain(hs[1..], last) + payload);
      WalkUnfolds(m, Layout(Protocol(hs[0]), named, at, false));
      LaterHeaders(m, at, named, hs, last, payload);
      if |hs| > 1 {
        WalkPasses(m, at + Size(hs[0]), at, hs[1..], last, payload);
      }
    }
  }

  lemma EndsAtOnce(last: uint8, named: nat, at: nat)
    ensures ChainEnd([], last, named, at) == Layout(last, named, at, false)
  {
  }

  lemma FirstHeader(m: Bytes, at: nat, hs: seq<Header>, last: uint8, payload: Bytes)
    requires hs != [] && Chained(hs) && HoldsChain(m, at, hs, last, payload)
    ensures WellSized(hs[0]) && at + Telling(Protocol(hs[0])) <= |m|
    ensures m[at..] <= Wire(hs[0], FirstProtocol(hs[1..], last)) + (Chain(hs[1..], last) + payload)
  {
    hide Wire, WellSized, Protocol, Telling, LastStart, Chain, Fragmented;
    HeaderTells(hs[0]);
    StartsBefore(hs);
    ChainSplits(hs, last, payload);
  }

  lemma HeaderTells(h: Header)
    requires WellSized(h)
    ensures Telling(Protocol(h)) <= Size(h)
  {
  }

  lemma StartsBefore(hs: seq<Header>)
    requires hs != []
    ensures LastStart(hs) == if |hs| == 1 then 0 else Size(hs[0]) + LastStart(hs[1..])
  {
  }

  lemma ChainSplits(hs: seq<Header>, last: uint8, payload: Bytes)
    requires hs != [] && forall k :: 0 <= k < |hs| ==> WellSized(hs[k])
    ensures Chain(hs, last) + payload == Wire(hs[0], FirstProtocol(hs[1..], last)) + (Chain(hs[1..], last) + payload)
  {
    hide Wire, WellSized;
  }

  lemma LaterHeaders(m: Bytes, at: nat, named: nat, hs: seq<Header>, last: uint8, payload: Bytes)
    requires hs != [] && Chained(hs) && HoldsChain(m, at, hs, last, payload)
    ensures |hs| > 1 ==> Chained(hs[1..]) && !Fragmented(hs[0]) && HoldsChain(m, at + Size(hs[0]), hs[1..], last, payload)
    ensures ChainEnd(hs, last, named, at)
         == if |hs| == 1 then Layout(last, at, at + Size(hs[0]), Fragmented(hs[0]))
            else ChainEnd(hs[1..], last, at, at + Size(hs[0]))
  {
    hide Wire, Fragmented, WellSized;
    if |hs| > 1 {
      var rest := hs[1..];
      FirstHeader(m, at, hs, last, payload);
      assert LastStart(hs) == Size(hs[0]) + LastStart(rest) && rest[|rest| - 1] == hs[|hs| - 1];
      BehindHeader(m, at, Wire(hs[0], FirstProtocol(rest, last)), Chain(rest, last) + payload);
    }
  }

  lemma BehindHeader(m: Bytes, at: nat, header: Bytes, tail: Bytes)
    requires at + |header| <= |m| && m[at..] <= header + tail
    ensures m[at + |header|..] <= tail
  {
    assert m[at + |header|..] == m[at..][|header|..];
    assert tail == (header + tail)[|header|..];
  }

  lemma WalkUnfolds(m: Bytes, l: Layout)
    requires l.transport >= 0 && !Stops(l) && l.transport + Need(l.protocol) <= |m|
    ensures Walk(m, l) == Walk(m, Past(m, l))
  {
  }

  // ------------------------------------------------------------- whole packets

  /** A chain in front of an upper layer: the walk ends at it, with the byte that
      names it. */
  lemma UpperLayerIsFound(m: Bytes, hs: seq<Header>, last: uint8, payload: Bytes)
    requires |m| >= 40 && Chained(hs) && m[6] == FirstProtocol(hs, last) && HoldsChain(m, 40, hs, last, payload)
    requires !Extends(last)
    requires hs != [] ==> !Fragmented(hs[|hs| - 1])
    ensures LayoutOf(m) == Layout(last, if hs == [] then 6 else 40 + LastStart(hs), 40 + Sizes(hs), false)
  {
    hide HoldsChain, Fragmented;
    WalkPasses(m, 40, 6, hs, last, payload);
  }

  /** A later piece of a packet: the walk stops behind its fragment header, whatever follows. */
  lemma PieceStopsTheWalk(m: Bytes, hs: seq<Header>, last: uint8, payload: Bytes)
    requires |m| >= 40 && Chained(hs) && m[6] == FirstProtocol(hs, last) && HoldsChain(m, 40, hs, last, payload)
    requires hs != [] && Fragmented(hs[|hs| - 1])
    ensures LayoutOf(m) == Layout(last, 40 + LastStart(hs), 40 + Sizes(hs), true)
  {
    hide HoldsChain, Fragmented;
    WalkPasses(m, 40, 6, hs, last, payload);
  }

  /** A packet that ends where one more header should tell its length has no upper layer. */
  lemma CutOffIsAbsent(m: Bytes, hs: seq<Header>, last: uint8, payload: Bytes)
    requires |m| >= 40 && Chained(hs) && m[6] == FirstProtocol(hs, last) && HoldsChain(m, 40, hs, last, payload)
    requires Extends(last)
    requires hs != [] ==> !Fragmented(hs[|hs| - 1])
    requires |m| < 40 + Sizes(hs) + Telling(last)
    ensures LayoutOf(m) == Layout(last, if hs == [] then 6 else 40 + LastStart(hs), -1, false)
  {
    hide HoldsChain, Fragmented;
    WalkPasses(m, 40, 6, hs, last, payload);
  }

  /** Without room for the first header's length, the fixed header is all there is. */
  lemma ShortPacket(m: Bytes)
    requires |m| < 40
    ensures var protocol := if |m| > 6 then m[6] else 0;
            LayoutOf(m) == Layout(protocol, 6, if Extends(protocol) then -1 else 40, false)
  {
  }

  /** Why a chain ends where it does. */
  predicate IsOver(m: Bytes, at: nat, hs: seq<Header>, last: uint8) {
    || !Extends(last)
    || (hs != [] && Fragmented(hs[|hs| - 1]))
    || |m| < at + Sizes(hs) + Telling(last)
  }

  lemma OneHeader(m: Bytes, at: nat, protocol: uint8) returns (h: Header)
    requires at + Telling(protocol) <= |m|
    requires Extends(protocol)
    ensures WellSized(h) && Protocol(h) == protocol
    ensures if at + Size(h) <= |m| then m[at..at + Size(h)] == Wire(h, m[at]) else m[at..] <= Wire(h, m[at])
  {
    if protocol == 44 {
      h := OneFragment(m, at);
    } else {
      h := OneMeasured(m, at, protocol);
    }
  }

  lemma OneMeasured(m: Bytes, at: nat, protocol: uint8) returns (h: Header)
    requires at + 2 <= |m| && Extends(protocol) && protocol != 44
    ensures WellSized(h) && Protocol(h) == protocol
    ensures if at + Size(h) <= |m| then m[at..at + Size(h)] == Wire(h, m[at]) else m[at..] <= Wire(h, m[at])
  {
    var length: nat := m[at + 1];
    var size := if protocol == 51 then (length + 2) * 4 else (length + 1) * 8;
    var bytes: Bytes := Padded(m[at..], size)[..size];
    h := if protocol == 51 then Authentication(bytes[2..]) else Plain(protocol, bytes[2..]);
    assert Wire(h, m[at]) == bytes by {
      assert bytes == bytes[..2] + bytes[2..];
      assert protocol == 51 ==> size % 4 == 0 && size / 4 - 2 == length;
      assert protocol != 51 ==> size % 8 == 0 && size / 8 - 1 == length;
    }
  }

  lemma OneFragment(m: Bytes, at: nat) returns (h: Header)
    requires at + 8 <= |m|
    ensures WellSized(h) && h.Fragment? && m[at..at + 8] == Wire(h, m[at])
  {
    var field: nat := m[at + 2];
    field := field * 256 + m[at + 3];
    h := Fragment(m[at + 1], field / 8, field % 8, m[at + 4..at + 8]);
  }

  /** The bytes from any index on are a chain, its last header perhaps cut, that ends for
      one of the three reasons. */
  lemma {:induction false} EveryPacketIsAChain(m: Bytes, at: nat, protocol: uint8) returns (hs: seq<Header>, last: uint8, payload: Bytes)
    requires at <= |m|
    ensures FirstProtocol(hs, last) == protocol && Chained(hs)
    ensures HoldsChain(m, at, hs, last, payload) && IsOver(m, at, hs, last)
    decreases |m| - at
  {
    hide WellSized, Wire, Fragmented, HoldsChain, Chained, Sizes;
    hs, last, payload := [], protocol, m[at..];
    NoChain(m, at, protocol);
    if !IsOver(m, at, hs, last) {
      var h := OneHeader(m, at, protocol);
      last := m[at];
      if at + Size(h) > |m| || Fragmented(h) {
        hs, payload := [h], if at + Size(h) > |m| then [] else m[at + Size(h)..];
        AloneInChain(m, at, h, last, payload);
      } else {
        var rest;
        rest, last, payload := EveryPacketIsAChain(m, at + Size(h), last);
        hs := [h] + rest;
        Longer(m, at, h, rest, last, payload);
      }
    }
  }

  lemma NoChain(m: Bytes, at: nat, last: uint8)
    requires at <= |m|
    ensures Chained([]) && HoldsChain(m, at, [], last, m[at..]) && Sizes([]) == 0
  {
  }

  lemma AloneInChain(m: Bytes, at: nat, h: Header, last: uint8, payload: Bytes)
    requires WellSized(h) && at + Telling(Protocol(h)) <= |m|
    requires if at + Size(h) <= |m| then m[at..at + Size(h)] == Wire(h, last) && payload == m[at + Size(h)..] else m[at..] <= Wire(h, last)
    ensures Chained([h]) && HoldsChain(m, at, [h], last, payload) && Sizes([h]) == Size(h)
  {
    hide Wire;
    assert Chain([h], last) == Wire(h, last) + Chain([], last) == Wire(h, last);
    if at + Size(h) <= |m| {
      assert m[at..] == Wire(h, last) + payload;
    }
  }

  lemma Longer(m: Bytes, at: nat, h: Header, rest: seq<Header>, last: uint8, payload: Bytes)
    requires WellSized(h) && !Fragmented(h) && at + Size(h) <= |m| && at + Telling(Protocol(h)) <= |m|
    requires m[at..at + Size(h)] == Wire(h, FirstProtocol(rest, last))
    requires Chained(rest) && HoldsChain(m, at + Size(h), rest, last, payload)
    ensures Chained([h] + rest) && HoldsChain(m, at, [h] + rest, last, payload)
    ensures Sizes([h] + rest) == Size(h) + Sizes(rest)
  {
    hide Wire, Fragmented, WellSized;
    var hs := [h] + rest;
    assert hs[1..] == rest;
    assert m[at..] == m[at..at + Size(h)] + m[at + Size(h)..];
    var header := Wire(h, FirstProtocol(rest, last));
    assert Chain(hs, last) + payload == header + (Chain(rest, last) + payload);
    assert rest != [] ==> hs[|hs| - 1] == rest[|rest| - 1] && LastStart(hs) == Size(h) + LastStart(rest);
  }

  // ------------------------------------------------------------- the accessors

  function PortIn(upper: Bytes, k: nat): Option<uint16> {
    if k + 2 <= |upper| then
      var high: nat := upper[k];
      Some(high * 256 + upper[k + 1])
    else
      None
  }

  /** What is read off the bytes of an upper layer, as far as they are there. */
  predicate ReadsUpper(f: Packet, upper: Bytes) {
    && f.sourcePort == PortIn(upper, 0)
    && f.destinationPort == PortIn(upper, 2)
    && f.tcpFlags == (if |upper| >= 14 then Some(upper[13] as bv8) else None)
    && f.icmpType == (if |upper| >= 1 then Some(upper[0]) else None)
  }

  /** An IPv4 packet, field by field. `words` is the length of its header in words of
      four bytes. */
  function Wire4(words: uint8, service: Bytes, flags: nat, offset: nat, ttl: uint8, protocol: uint8, checksum: Bytes,
                 source: Bytes, destination: Bytes, options: Bytes, upper: Bytes): Bytes
    requires words < 16 && flags < 8 && offset < 0x2000
  {
    [4 * 16 + words] + service + [flags * 32 + offset / 256, offset % 256, ttl, protocol] + checksum + source + destination + options + upper
  }

  lemma IPv4Reads(words: uint8, service: Bytes, flags: nat, offset: nat, ttl: uint8, protocol: uint8, checksum: Bytes,
                  source: Bytes, destination: Bytes, options: Bytes, upper: Bytes)
    requires 5 <= words < 16 && flags < 8 && offset < 0x2000
    requires |service| == 5 && |checksum| == 2 && |source| == |destination| == 4 && |options| == words * 4 - 20
    ensures var f := Fields4(Wire4(words, service, flags, offset, ttl, protocol, checksum, source, destination, options, upper));
            && f.version == IPv4 && f.protocol == protocol && f.source == Addr4(source) && f.destination == Addr4(destination)
            && f.fragment == (offset != 0) && ReadsUpper(f, upper)
  {
    var m := Wire4(words, service, flags, offset, ttl, protocol, checksum, source, destination, options, upper);
    assert m[12..16] == source && m[16..20] == destination;
    assert Transport4(m) == words * 4;
    assert m[words * 4..] == upper;
    UpperLayerReads(m, words * 4, upper);
  }

  /** Two bytes, four, and fourteen have to be there. */
  lemma UpperLayerReads(m: Bytes, at: nat, upper: Bytes)
    requires at <= |m| && m[at..] == upper
    ensures Uint16At(m, at) == PortIn(upper, 0)
    ensures Uint16At(m, at + 2) == PortIn(upper, 2)
    ensures FlagsAt(m, at + 13) == (if |upper| >= 14 then Some(upper[13] as bv8) else None)
    ensures Uint8At(m, at) == (if |upper| >= 1 then Some(upper[0]) else None)
  {
    assert forall k: nat :: k < |upper| ==> m[at + k] == upper[k];
  }

  /** An IPv6 packet, field by field. */
  function Wire6(kind: nat, flow: Bytes, length: Bytes, hops: uint8, source: Bytes, destination: Bytes,
                 hs: seq<Header>, last: uint8, upper: Bytes): Bytes
    requires kind < 16 && Chained(hs)
  {
    [6 * 16 + kind] + flow + length + [FirstProtocol(hs, last), hops] + source + destination + Chain(hs, last) + upper
  }

  /** An IPv6 packet whose chain ends at an upper layer or at a later piece of it. */
  lemma IPv6Reads(kind: nat, flow: Bytes, length: Bytes, hops: uint8, source: Bytes, destination: Bytes,
                  hs: seq<Header>, last: uint8, upper: Bytes)
    requires kind < 16 && |flow| == 3 && |length| == 2 && |source| == |destination| == 16 && Chained(hs)
    requires !Extends(last) || (hs != [] && Fragmented(hs[|hs| - 1]))
    ensures var f := Fields6(Wire6(kind, flow, length, hops, source, destination, hs, last, upper));
            && f.version == IPv6 && f.protocol == last && f.source == Addr6(source) && f.destination == Addr6(destination)
            && f.fragment == (hs != [] && Fragmented(hs[|hs| - 1])) && ReadsUpper(f, upper)
  {
    hide Walk, LayoutOf, Fragmented, Chain, HoldsChain, Wire6, Fields6, Uint16At, FlagsAt, Uint8At;
    var m := Wire6(kind, flow, length, hops, source, destination, hs, last, upper);
    Wire6Lays(kind, flow, length, hops, source, destination, hs, last, upper);
    UpperLayerReads(m, 40 + Sizes(hs), upper);
    if hs != [] && Fragmented(hs[|hs| - 1]) {
      PieceStopsTheWalk(m, hs, last, upper);
    } else {
      UpperLayerIsFound(m, hs, last, upper);
    }
  }

  lemma Wire6Lays(kind: nat, flow: Bytes, length: Bytes, hops: uint8, source: Bytes, destination: Bytes,
                  hs: seq<Header>, last: uint8, upper: Bytes)
    requires kind < 16 && |flow| == 3 && |length| == 2 && |source| == |destination| == 16 && Chained(hs)
    ensures var m := Wire6(kind, flow, length, hops, source, destination, hs, last, upper);
            && |m| >= 40 && m[0] / 16 == 6 && m[6] == FirstProtocol(hs, last)
            && m[8..24] == source && m[24..40] == destination
            && |m| >= 40 + Sizes(hs) && m[40 + Sizes(hs)..] == upper && HoldsChain(m, 40, hs, last, upper)
  {
    hide Chain, Fragmented, WellSized, Sizes, Protocol, Telling, LastStart;
    var m := Wire6(kind, flow, length, hops, source, destination, hs, last, upper);
    var chain := Chain(hs, last);
    ChainHasSize(hs, last);
    FixedHeaderLays([6 * 16 + kind] + flow + length + [FirstProtocol(hs, last), hops], source, destination, chain + upper);
    assert m == [6 * 16 + kind] + flow + length + [FirstProtocol(hs, last), hops] + source + destination + (chain + upper);
    assert m[40 + |chain|..] == m[40..][|chain|..] == upper;
    if hs != [] {
      HeaderTells(hs[|hs| - 1]);
    }
  }

  lemma FixedHeaderLays(first: Bytes, source: Bytes, destination: Bytes, behind: Bytes)
    requires |first| == 8 && |source| == |destination| == 16
    ensures var m := first + source + destination + behind;
            |m| >= 40 && m[..8] == first && m[8..24] == source && m[24..40] == destination && m[40..] == behind
  {
  }

  lemma {:induction false} ChainHasSize(hs: seq<Header>, last: uint8)
    requires Chained(hs)
    ensures |Chain(hs, last)| == Sizes(hs)
  {
    if hs != [] {
      ChainHasSize(hs[1..], last);
    }
  }
}
