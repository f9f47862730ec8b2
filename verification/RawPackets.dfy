/**
 Packets as bytes (vm/packet.go): the accessors, the walk over the IPv6 extension
 headers and the builders.

 The header formats are those of section 3.1 of RFC 791 and section 4 of RFC 8200,
 the length of an authentication header that of section 2.2 of RFC 4302. Packets may
 be cut anywhere: a missing byte counts as zero and a missing field as absent.
 */
module RawPackets {
  import opened Ipfw

  type Bytes = seq<uint8>

  const IPV4_HEADER_LEN := 20
  const IPV6_HEADER_LEN := 40
  const IPV6_FRAGMENT_LEN := 8

  /** An index far out of reach of any field. */
  const OUT_OF_REACH := -0x4000_0000

  // -------------------------------------------------------------------- reading

  function ByteAt(m: Bytes, i: nat): uint8 {
    if i < |m| then m[i] else 0
  }

  function Big(hi: uint8, lo: uint8): uint16 {
    hi * 256 + lo
  }

  function Uint16At(m: Bytes, i: int): Option<uint16> {
    if i < 0 || i + 2 > |m| then None else Some(Big(m[i], m[i + 1]))
  }

  function Uint8At(m: Bytes, i: int): Option<uint8> {
    if i < 0 || i >= |m| then None else Some(m[i])
  }

  function FlagsAt(m: Bytes, i: int): Option<bv8> {
    match Uint8At(m, i)
    case None => None
    case Some(b) => Some(b as bv8)
  }

  function VersionOf(first: uint8): IPVersion {
    match first / 16
    case 4 => IPv4
    case 6 => IPv6
    case _ => NoVersion
  }

  function Addr4At(m: Bytes, i: nat): Addr {
    if i + 4 > |m| then NoAddr else Addr4(m[i..i + 4])
  }

  function Addr6At(m: Bytes, i: nat): Addr {
    if i + 16 > |m| then NoAddr else Addr6(m[i..i + 16])
  }

  // ----------------------------------------------------------------------- IPv4

  /** Where the payload of an IPv4 packet starts, out of reach for an IHL below five. */
  function Transport4(m: Bytes): int {
    var length := ByteAt(m, 0) % 16 * 4;
    if length < IPV4_HEADER_LEN then OUT_OF_REACH else length
  }

  /** Every accessor of an IPv4 packet. */
  function Fields4(m: Bytes): (f: Packet)
    ensures Nests(f)
  {
    Packet(
      VersionOf(ByteAt(m, 0)), ByteAt(m, 9), Addr4At(m, 12), Addr4At(m, 16),
      ByteAt(m, 6) % 32 != 0 || ByteAt(m, 7) != 0,
      Uint16At(m, Transport4(m)), Uint16At(m, Transport4(m) + 2),
      FlagsAt(m, Transport4(m) + 13), Uint8At(m, Transport4(m)))
  }

  // ----------------------------------------------------------------------- IPv6

  const HOP_OPTIONS: uint8 := 0
  const ROUTING: uint8 := 43
  const FRAGMENT: uint8 := 44
  const AUTHENTICATION: uint8 := 51
  const DST_OPTIONS: uint8 := 60

  const EXTENSION_HEADERS: bv64 := (1 << 0) | (1 << 43) | (1 << 44) | (1 << 51) | (1 << 60)

  /** One shift and mask decides `IsExtension`. */
  function IsExtensionHeader(protocol: uint8): (r: bool)
    ensures r <==> IsExtension(protocol)
  {
    protocol < 64 && (EXTENSION_HEADERS >> protocol) & 1 != 0
  }

  predicate IsExtension(protocol: uint8) {
    || protocol == HOP_OPTIONS || protocol == ROUTING || protocol == FRAGMENT
    || protocol == AUTHENTICATION || protocol == DST_OPTIONS
  }

  /** A state of the walk: a protocol, the index of the byte that names it, the index
      where its header starts or -1 when it is cut off, and whether a fragment header
      with an offset ended the walk. */
  datatype Layout = Layout(protocol: uint8, nextHeader: nat, transport: int, fragment: bool)

  /** How much of a header the walk needs to read. */
  function Need(protocol: uint8): nat {
    if protocol == FRAGMENT then IPV6_FRAGMENT_LEN else 2
  }

  function HeaderLen(m: Bytes, protocol: uint8, at: nat): (r: nat)
    requires at + 2 <= |m|
    ensures r >= 8
  {
    if protocol == AUTHENTICATION then (m[at + 1] as int + 2) * 4
    else if protocol == FRAGMENT then IPV6_FRAGMENT_LEN
    else (m[at + 1] as int + 1) * 8
  }

  function FragmentOffset(m: Bytes, at: nat): nat
    requires at + 4 <= |m|
  {
    Big(m[at + 2], m[at + 3]) / 8
  }

  /** The layout past one more header. */
  function Past(m: Bytes, l: Layout): (r: Layout)
    requires 0 <= l.transport && l.transport + Need(l.protocol) <= |m|
    ensures r.transport >= l.transport + 8 && r.nextHeader == l.transport
  {
    var at := l.transport;
    Layout(m[at], at, at + HeaderLen(m, l.protocol, at), l.protocol == FRAGMENT && FragmentOffset(m, at) != 0)
  }

  predicate Stops(l: Layout) {
    l.fragment || !IsExtension(l.protocol)
  }

  /** The walk from a header on. Every header moves it on by at least eight bytes,
      and the field it reports names the protocol it reports. */
  function Walk(m: Bytes, l: Layout): (r: Layout)
    requires l.transport >= 0
    ensures r.transport < 0 || (r.transport >= l.transport && Stops(r))
    ensures r.transport < 0 ==> r.transport == -1 && !r.fragment && IsExtension(r.protocol)
    ensures ByteAt(m, l.nextHeader) == l.protocol ==> ByteAt(m, r.nextHeader) == r.protocol
    ensures r.nextHeader == l.nextHeader || r.nextHeader >= l.transport
    decreases |m| + 8 - l.transport
  {
    if Stops(l) then l
    else if l.transport + Need(l.protocol) > |m| then l.(transport := -1)
    else Walk(m, Past(m, l))
  }

  function FixedHeader(m: Bytes): Layout {
    Layout(ByteAt(m, 6), 6, IPV6_HEADER_LEN, false)
  }

  function LayoutOf(m: Bytes): Layout {
    Walk(m, FixedHeader(m))
  }

  /** The loop computes the recursive walk. */
  method ComputeLayout(m: Bytes) returns (layout: Layout)
    ensures layout == LayoutOf(m)
  {
    layout := Layout(ByteAt(m, 6), 6, IPV6_HEADER_LEN, false);
    while true
      invariant layout.transport >= 0 && !layout.fragment
      invariant LayoutOf(m) == Walk(m, layout)
      decreases |m| + 8 - layout.transport
    {
      var at: nat := layout.transport;
      var need := 2;
      if layout.protocol == FRAGMENT {
        need := IPV6_FRAGMENT_LEN;
      } else if !IsExtension(layout.protocol) {
        return;
      }
      if at + need > |m| {
        layout := layout.(transport := -1);
        return;
      }
      var length := (m[at + 1] as int + 1) * 8;
      if layout.protocol == AUTHENTICATION {
        length := (m[at + 1] as int + 2) * 4;
      } else if layout.protocol == FRAGMENT {
        length := IPV6_FRAGMENT_LEN;
        layout := layout.(fragment := Big(m[at + 2], m[at + 3]) / 8 != 0);
      }
      layout := layout.(protocol := m[at], nextHeader := at, transport := at + length);
      if layout.fragment {
        return;
      }
    }
  }

  /** The transport index of a packet that names an extension header. */
  function WalkedTransport(m: Bytes): int {
    if LayoutOf(m).transport >= 0 then LayoutOf(m).transport else OUT_OF_REACH
  }

  /** Every accessor read off the whole walk. */
  function WalkedFields(m: Bytes): Packet { FieldsAt(m, LayoutOf(m)) }

  /** Every accessor of a packet whose walk ended so. */
  function FieldsAt(m: Bytes, l: Layout): Packet {
    var present := l.transport >= 0;
    Packet(
      VersionOf(ByteAt(m, 0)), l.protocol, Addr6At(m, 8), Addr6At(m, 24), l.fragment,
      if present then Uint16At(m, l.transport) else None, if present then Uint16At(m, l.transport + 2) else None,
      if present then FlagsAt(m, l.transport + 13) else None, if present then Uint8At(m, l.transport) else None)
  }

  /** Flags present imply ports present imply a type present. */
  predicate Nests(f: Packet) {
    && (f.tcpFlags.Some? ==> f.destinationPort.Some?)
    && (f.destinationPort.Some? ==> f.sourcePort.Some?)
    && (f.sourcePort.Some? ==> f.icmpType.Some?)
  }

  /** Every accessor of an IPv6 packet, nearly every packet being read without a
      walk. The fast paths agree with the walk. */
  function Fields6(m: Bytes): (f: Packet)
    ensures f == WalkedFields(m) && Nests(f)
  {
    var walks := IsExtensionHeader(ByteAt(m, 6));
    var at := if walks then WalkedTransport(m) else IPV6_HEADER_LEN;
    Packet(
      VersionOf(ByteAt(m, 0)),
      if walks then LayoutOf(m).protocol else ByteAt(m, 6),
      Addr6At(m, 8), Addr6At(m, 24),
      walks && LayoutOf(m).fragment,
      Uint16At(m, at), Uint16At(m, at + 2), FlagsAt(m, at + 13), Uint8At(m, at))
  }

  // ------------------------------------------------------------- IPv6 builders

  /** The bytes with zeros up to a length. */
  function Padded(m: Bytes, n: nat): (r: Bytes)
    ensures |r| == if n > |m| then n else |m|
    ensures forall i: nat :: i < |r| ==> r[i] == ByteAt(m, i)
  {
    if n > |m| then m + seq(n - |m|, _ => 0) else m
  }

  /** What a builder changes before a transport header: the field naming the
      protocol, and nothing else. */
  ghost predicate Renamed(m: Bytes, r: Bytes, nextHeader: nat, protocol: uint8, transport: nat) {
    && nextHeader < transport && nextHeader < |r| && |m| <= |r|
    && r[nextHeader] == protocol
    && forall i: nat :: i < transport && i != nextHeader ==> ByteAt(r, i) == ByteAt(m, i)
  }

  /** Naming another upper layer keeps the walk to it, over any chain of headers. */
  lemma {:induction false} RenamingKeepsWalk(m: Bytes, r: Bytes, l: Layout, protocol: uint8)
    requires l.transport >= 0 && l.nextHeader < l.transport && Walk(m, l).transport >= 0
    requires var end := Walk(m, l); Renamed(m, r, end.nextHeader, protocol, end.transport)
    requires !IsExtension(protocol)
    ensures var end := Walk(m, l);
            var start := if end.nextHeader == l.nextHeader then l.(protocol := protocol) else l;
            Walk(r, start) == end.(protocol := protocol)
    decreases |m| + 8 - l.transport
  {
    if !Stops(l) {
      var next := Past(m, l);
      var end := Walk(m, next);
      RenamingKeepsWalk(m, r, next, protocol);
      var at: nat := l.transport;
      assert forall i: nat :: at < i < at + 8 ==> i != end.nextHeader && ByteAt(r, i) == ByteAt(m, i);
      assert r[at] == ByteAt(r, at) && r[at + 1] == ByteAt(r, at + 1) == m[at + 1];
      if l.protocol == FRAGMENT {
        assert r[at + 2] == ByteAt(r, at + 2) == m[at + 2] && r[at + 3] == ByteAt(r, at + 3) == m[at + 3];
      }
      assert Past(r, l) == if end.nextHeader == at then next.(protocol := protocol) else next;
    }
  }

  /** What every IPv6 builder keeps: the headers before the upper layer but for the
      protocol named, so the walk, the version, whether it is a fragment, and the
      addresses of a packet that holds its fixed header. */
  ghost predicate Rewritten6(m: Bytes, packet: Bytes, protocol: uint8)
    requires LayoutOf(m).transport >= 0
  {
    var l := LayoutOf(m);
    && LayoutOf(packet) == l.(protocol := protocol)
    && Renamed(m, packet, l.nextHeader, protocol, l.transport)
    && var f, g := Fields6(m), Fields6(packet);
       && g.version == f.version && g.fragment == f.fragment && g.protocol == protocol
       && (|m| >= IPV6_HEADER_LEN ==> g.source == f.source && g.destination == f.destination)
  }

  lemma RenamingRewrites(m: Bytes, r: Bytes, protocol: uint8)
    requires LayoutOf(m).transport >= 0 && !IsExtension(protocol)
    requires Renamed(m, r, LayoutOf(m).nextHeader, protocol, LayoutOf(m).transport)
    ensures Rewritten6(m, r, protocol)
  {
    RenamingKeepsWalk(m, r, FixedHeader(m), protocol);
    hide Walk;
    assert ByteAt(r, 0) == ByteAt(m, 0);
    if |m| >= IPV6_HEADER_LEN {
      assert forall i: nat :: 8 <= i < IPV6_HEADER_LEN ==> r[i] == ByteAt(r, i) == m[i];
      assert r[8..24] == m[8..24] && r[24..40] == m[24..40];
    }
  }

  /** `Renamed` up to `at`, where the walk ended, with the old bytes and then zeros in
      the `room` bytes from there. */
  method WithProtocol6(m: Bytes, protocol: uint8, room: nat) returns (packet: Bytes, at: nat)
    requires LayoutOf(m).transport >= 0
    ensures at == LayoutOf(m).transport
    ensures Renamed(m, packet, LayoutOf(m).nextHeader, protocol, at)
    ensures |packet| == if |m| < at + room then at + room else |m|
    ensures forall i: nat :: at <= i < |packet| ==> packet[i] == ByteAt(m, i)
  {
    var layout := ComputeLayout(m);
    NamesWithin(m);
    at := layout.transport;
    packet := Padded(m, at + room);
    packet := packet[layout.nextHeader := protocol];
  }

  /** The field naming the upper layer is in the packet, before its header. */
  lemma NamesWithin(m: Bytes)
    requires LayoutOf(m).transport >= 0
    ensures LayoutOf(m).nextHeader < |m| && LayoutOf(m).nextHeader < LayoutOf(m).transport
  {
    WalkNamesWithin(m, FixedHeader(m));
  }

  lemma {:induction false} WalkNamesWithin(m: Bytes, l: Layout)
    requires l.transport >= 0 && l.nextHeader < l.transport && Walk(m, l).transport >= 0
    requires l.nextHeader < |m| || (!Stops(l) && l.nextHeader >= |m|)
    ensures Walk(m, l).nextHeader < Walk(m, l).transport
    ensures Walk(m, l).nextHeader < |m|
    decreases |m| + 8 - l.transport
  {
    if !Stops(l) {
      WalkNamesWithin(m, Past(m, l));
    }
  }

  function High(x: uint16): uint8 { x / 256 }
  function Low(x: uint16): uint8 { x % 256 }

  /** Four bytes from `at` on, which read back as the two numbers. */
  function SetPorts(m: Bytes, at: nat, src: uint16, dst: uint16): (r: Bytes)
    requires at + 4 <= |m|
    ensures |r| == |m| && Uint16At(r, at) == Some(src) && Uint16At(r, at + 2) == Some(dst)
    ensures forall i: nat :: i < |m| && !(at <= i < at + 4) ==> r[i] == m[i]
  {
    m[at := High(src)][at + 1 := Low(src)][at + 2 := High(dst)][at + 3 := Low(dst)]
  }

  /** The accessors of a built TCP packet return what was written. */
  method WithTCP6(m: Bytes, flags: bv8, src: uint16, dst: uint16) returns (packet: Bytes)
    requires LayoutOf(m).transport >= 0
    ensures Rewritten6(m, packet, PROTO_TCP)
    ensures var f := Fields6(packet);
            f.sourcePort == Some(src) && f.destinationPort == Some(dst) && f.tcpFlags == Some(flags)
  {
    hide LayoutOf, Rewritten6, IsExtensionHeader, SetPorts, Fields6, FlagsAt;
    var at;
    packet, at := WithProtocol6(m, PROTO_TCP, 14);
    packet := SetPorts(packet, at, src, dst);
    packet := packet[at + 13 := flags as uint8];
    FlagsRead(packet, at + 13, flags);
    RenamingRewrites(m, packet, PROTO_TCP);
    Transport(m, packet, PROTO_TCP);
  }

  method WithUDP6(m: Bytes, src: uint16, dst: uint16) returns (packet: Bytes)
    requires LayoutOf(m).transport >= 0
    ensures Rewritten6(m, packet, PROTO_UDP)
    ensures var f := Fields6(packet);
            f.sourcePort == Some(src) && f.destinationPort == Some(dst) && f.tcpFlags == Fields6(m).tcpFlags
  {
    hide LayoutOf, Rewritten6, IsExtensionHeader, SetPorts, Fields6, FlagsAt;
    var at;
    packet, at := WithProtocol6(m, PROTO_UDP, 8);
    packet := SetPorts(packet, at, src, dst);
    SameFlags(m, packet, at + 13);
    RenamingRewrites(m, packet, PROTO_UDP);
    Transport(m, packet, PROTO_UDP);
  }

  method WithICMP6(m: Bytes, ty: uint8, code: uint8) returns (packet: Bytes)
    requires LayoutOf(m).transport >= 0
    ensures Rewritten6(m, packet, PROTO_ICMP6)
    ensures var f := Fields6(packet);
            f.icmpType == Some(ty) && f.sourcePort == Some(Big(ty, code)) && f.tcpFlags == Fields6(m).tcpFlags
  {
    hide LayoutOf, Rewritten6, IsExtensionHeader, SetPorts, Fields6, FlagsAt;
    var at;
    packet, at := WithProtocol6(m, PROTO_ICMP6, 4);
    packet := packet[at := ty][at + 1 := code];
    SameFlags(m, packet, at + 13);
    RenamingRewrites(m, packet, PROTO_ICMP6);
    Transport(m, packet, PROTO_ICMP6);
  }

  lemma FlagsRead(m: Bytes, i: nat, flags: bv8)
    requires i < |m| && m[i] == flags as uint8
    ensures FlagsAt(m, i) == Some(flags)
  {
  }

  lemma SameFlags(m: Bytes, r: Bytes, i: nat)
    requires i < |r| <==> i < |m|
    requires i < |m| ==> r[i] == m[i]
    ensures FlagsAt(r, i) == FlagsAt(m, i)
  {
  }

  /** The transport fields of a rewritten packet are those past its headers. */
  lemma Transport(m: Bytes, r: Bytes, protocol: uint8)
    requires LayoutOf(m).transport >= 0 && Rewritten6(m, r, protocol)
    ensures var at, f := LayoutOf(m).transport, Fields6(r);
            && f.sourcePort == Uint16At(r, at) && f.destinationPort == Uint16At(r, at + 2)
            && f.tcpFlags == FlagsAt(r, at + 13) && f.icmpType == Uint8At(r, at)
            && Fields6(m).tcpFlags == FlagsAt(m, at + 13)
  {
  }

  /** A layout past eight more bytes. */
  function Shifted(l: Layout): Layout {
    Layout(l.protocol, if l.nextHeader < IPV6_HEADER_LEN then IPV6_HEADER_LEN else l.nextHeader + 8,
           if l.transport < 0 then l.transport else l.transport + 8, l.fragment)
  }

  lemma SameLength(m: Bytes, r: Bytes, protocol: uint8, at: nat)
    requires at + 2 <= |m| && at + 10 <= |r| && r[at + 9] == m[at + 1]
    ensures HeaderLen(r, protocol, at + 8) == HeaderLen(m, protocol, at)
  {
  }

  lemma SameOffset(m: Bytes, r: Bytes, at: nat)
    requires at + 4 <= |m| && at + 12 <= |r| && r[at + 10] == m[at + 2] && r[at + 11] == m[at + 3]
    ensures FragmentOffset(r, at + 8) == FragmentOffset(m, at)
  {
    hide Big;
  }

  /** One header on, both ways. */
  lemma PastShifts(m: Bytes, r: Bytes, l: Layout)
    requires |r| == |m| + 8 && forall i: nat :: IPV6_HEADER_LEN <= i < |m| ==> r[i + 8] == m[i]
    requires l.transport >= IPV6_HEADER_LEN && l.transport + Need(l.protocol) <= |m|
    ensures Past(r, Shifted(l)) == Shifted(Past(m, l))
  {
    hide HeaderLen, FragmentOffset, IsExtension;
    var at: nat := l.transport;
    assert r[at + 8] == m[at] && r[at + 1 + 8] == m[at + 1];
    SameLength(m, r, l.protocol, at);
    if l.protocol == FRAGMENT {
      assert r[at + 2 + 8] == m[at + 2] && r[at + 3 + 8] == m[at + 3];
      SameOffset(m, r, at);
    }
  }

  /** Past an inserted header the walk is the same, eight bytes on. */
  lemma {:induction false} InsertionShiftsWalk(m: Bytes, r: Bytes, l: Layout)
    requires |r| == |m| + 8 && forall i: nat :: IPV6_HEADER_LEN <= i < |m| ==> r[i + 8] == m[i]
    requires l.transport >= IPV6_HEADER_LEN
    ensures Walk(r, Shifted(l)) == Shifted(Walk(m, l))
    decreases |m| + 8 - l.transport
  {
    hide Past, IsExtension;
    if !Stops(l) && l.transport + Need(l.protocol) <= |m| {
      PastShifts(m, r, l);
      InsertionShiftsWalk(m, r, Past(m, l));
    }
  }

  /** An inserted header of offset zero moves the walk and changes nothing that is read
      off it, which is what `Fields6` reads. */
  lemma InsertionKeepsFields(m: Bytes, r: Bytes)
    requires |m| >= IPV6_HEADER_LEN && m[6] != FRAGMENT
    requires |r| == |m| + 8 && (forall i: nat :: IPV6_HEADER_LEN <= i < |m| ==> r[i + 8] == m[i])
    requires (forall i: nat :: i < IPV6_HEADER_LEN && i != 6 ==> r[i] == m[i]) && r[6] == FRAGMENT
    requires r[40] == m[6] && FragmentOffset(r, IPV6_HEADER_LEN) == 0
    ensures LayoutOf(r) == Shifted(LayoutOf(m)) && WalkedFields(r) == WalkedFields(m)
  {
    InsertionShiftsLayout(m, r);
    SameWalked(m, r);
  }

  lemma SameWalked(m: Bytes, r: Bytes)
    requires |m| >= IPV6_HEADER_LEN && LayoutOf(r) == Shifted(LayoutOf(m))
    requires |r| == |m| + 8 && (forall i: nat :: IPV6_HEADER_LEN <= i < |m| ==> r[i + 8] == m[i])
    requires forall i: nat :: i < IPV6_HEADER_LEN && i != 6 ==> r[i] == m[i]
    ensures WalkedFields(r) == WalkedFields(m)
  {
    hide LayoutOf, FlagsAt, Uint16At, Uint8At, Addr6At, VersionOf, ByteAt;
    SameAddresses(m, r);
    if LayoutOf(m).transport >= 0 {
      LayoutStarts(m);
      SameReads(m, r, LayoutOf(m).transport);
    }
  }

  lemma InsertionShiftsLayout(m: Bytes, r: Bytes)
    requires |m| >= IPV6_HEADER_LEN && m[6] != FRAGMENT
    requires |r| == |m| + 8 && (forall i: nat :: IPV6_HEADER_LEN <= i < |m| ==> r[i + 8] == m[i])
    requires r[6] == FRAGMENT && r[40] == m[6] && FragmentOffset(r, IPV6_HEADER_LEN) == 0
    ensures LayoutOf(r) == Shifted(LayoutOf(m))
  {
    assert Past(r, FixedHeader(r)) == Shifted(FixedHeader(m));
    InsertionShiftsWalk(m, r, FixedHeader(m));
  }

  lemma LayoutStarts(m: Bytes)
    ensures LayoutOf(m).transport >= 0 ==> LayoutOf(m).transport >= IPV6_HEADER_LEN
  {
  }

  /** Reads past the fixed header are the same eight bytes on. */
  lemma SameReads(m: Bytes, r: Bytes, at: nat)
    requires |r| == |m| + 8 && at >= IPV6_HEADER_LEN
    requires forall i: nat :: IPV6_HEADER_LEN <= i < |m| ==> r[i + 8] == m[i]
    ensures Uint16At(r, at + 8) == Uint16At(m, at) && Uint16At(r, at + 8 + 2) == Uint16At(m, at + 2)
    ensures Uint8At(r, at + 8) == Uint8At(m, at) && FlagsAt(r, at + 8 + 13) == FlagsAt(m, at + 13)
  {
    assert at < |m| ==> r[at + 8] == m[at];
    assert at + 1 < |m| ==> r[at + 1 + 8] == m[at + 1];
    assert at + 2 < |m| ==> r[at + 2 + 8] == m[at + 2];
    assert at + 3 < |m| ==> r[at + 3 + 8] == m[at + 3];
    assert at + 13 < |m| ==> r[at + 13 + 8] == m[at + 13];
  }

  lemma SameAddresses(m: Bytes, r: Bytes)
    requires |m| >= IPV6_HEADER_LEN && |r| >= IPV6_HEADER_LEN
    requires forall i: nat :: i < IPV6_HEADER_LEN && i != 6 ==> r[i] == m[i]
    ensures Addr6At(r, 8) == Addr6At(m, 8) && Addr6At(r, 24) == Addr6At(m, 24) && ByteAt(r, 0) == ByteAt(m, 0)
  {
    assert r[8..24] == m[8..24] && r[24..40] == m[24..40];
  }

  /** What the fixed header alone decides. */
  lemma FixedFields(m: Bytes)
    ensures var f := Fields6(m);
            f.version == VersionOf(ByteAt(m, 0)) && f.source == Addr6At(m, 8) && f.destination == Addr6At(m, 24)
  {
  }

  /** Writes the offset modulo 2^13, making room for a fragment header first when byte 6
      names another one. */
  method WithFragmentOffset6(m: Bytes, offset: uint16) returns (packet: Bytes)
    requires |m| >= IPV6_HEADER_LEN && (m[6] == FRAGMENT ==> |m| >= IPV6_HEADER_LEN + 4)
    ensures m[6] != FRAGMENT ==>
      && LayoutOf(packet) == (if offset % 8192 == 0 then Shifted(LayoutOf(m)) else Layout(m[6], 40, 48, true))
      && var f := Fields6(m);
         if offset % 8192 == 0 then Fields6(packet) == f
         else var g := Fields6(packet);
              g.fragment && g.protocol == m[6] && g.version == f.version
              && g.source == f.source && g.destination == f.destination
    ensures m[6] == FRAGMENT ==>
      && |packet| == |m| && (forall i: nat :: i < |m| && i != 42 && i != 43 ==> packet[i] == m[i])
      && FragmentOffset(packet, IPV6_HEADER_LEN) == offset % 8192
      && packet[43] % 8 == m[43] % 8
      && LayoutOf(packet) == Refragmented(m, offset % 8192) && Fields6(packet) == FieldsAt(m, Refragmented(m, offset % 8192))
  {
    hide LayoutOf, Fields6, WalkedFields, Walk, FragmentOffset, Shifted, Addr6At, VersionOf, Refragmented, FieldsAt, Big;
    packet := m;
    if packet[6] != FRAGMENT {
      packet := InsertHeader(packet);
    }
    packet := PutOffset(packet, offset);
    if m[6] == FRAGMENT {
      Refragment(m, packet);
    } else if offset % 8192 == 0 {
      InsertionKeepsFields(m, packet);
    } else {
      NonFirst(packet);
      FixedFields(m);
      SameAddresses(m, packet);
    }
  }

  /** An empty fragment header behind the fixed one, naming what that one named. */
  method InsertHeader(m: Bytes) returns (r: Bytes)
    requires |m| >= IPV6_HEADER_LEN
    ensures |r| == |m| + 8 && r[6] == FRAGMENT && r[40] == m[6]
    ensures forall i: nat :: i < IPV6_HEADER_LEN && i != 6 ==> r[i] == m[i]
    ensures forall i: nat :: IPV6_HEADER_LEN <= i < |m| ==> r[i + 8] == m[i]
  {
    var header := [m[6], 0, 0, 0, 0, 0, 0, 0];
    r := m[..IPV6_HEADER_LEN] + header + m[IPV6_HEADER_LEN..];
    r := r[6 := FRAGMENT];
  }

  /** The offset of the fragment header behind the fixed one, beside the flags. */
  method PutOffset(m: Bytes, offset: uint16) returns (r: Bytes)
    requires |m| >= 44
    ensures |r| == |m| && forall i: nat :: i < |m| && i != 42 && i != 43 ==> r[i] == m[i]
    ensures FragmentOffset(r, IPV6_HEADER_LEN) == offset % 8192 && r[43] % 8 == m[43] % 8
  {
    hide FragmentOffset;
    var flags := Big(m[42], m[43]) % 8;
    var field := offset * 8 % TWO16 + flags;
    r := m[42 := field / 256][43 := field % 256];
    OffsetWritten(r, offset, flags);
  }

  /** The layout of a packet that starts with a fragment header, given another offset:
      it ends there, or goes on over the headers behind. */
  function Refragmented(m: Bytes, offset: nat): Layout
    requires |m| > 6 && m[6] == FRAGMENT
  {
    if |m| < 48 then LayoutOf(m)
    else if offset != 0 then Layout(m[40], 40, 48, true)
    else Walk(m, Layout(m[40], 40, 48, false))
  }

  /** Only the two bytes of the offset differ. */
  ghost predicate SameButOffset(m: Bytes, r: Bytes) {
    |r| == |m| >= 44 && forall i: nat :: i < |m| && i != 42 && i != 43 ==> r[i] == m[i]
  }

  lemma Refragment(m: Bytes, r: Bytes)
    requires SameButOffset(m, r) && m[6] == FRAGMENT
    ensures var l := Refragmented(m, FragmentOffset(r, IPV6_HEADER_LEN)); LayoutOf(r) == l && Fields6(r) == FieldsAt(m, l)
  {
    var fixed := Layout(FRAGMENT, 6, IPV6_HEADER_LEN, false);
    assert FixedHeader(r) == fixed && FixedHeader(m) == fixed;
    var offset := FragmentOffset(r, IPV6_HEADER_LEN);
    if |m| >= 48 {
      assert Past(r, fixed) == Layout(m[40], 40, 48, offset != 0);
      assert Walk(r, fixed) == Walk(r, Past(r, fixed));
      WalkIgnoresOffset(m, r, Past(r, fixed));
    }
    FieldsIgnoreOffset(m, r, Refragmented(m, offset));
  }

  lemma {:induction false} WalkIgnoresOffset(m: Bytes, r: Bytes, l: Layout)
    requires SameButOffset(m, r) && l.transport >= 48
    ensures Walk(r, l) == Walk(m, l)
    decreases |m| + 8 - l.transport
  {
    hide Past, IsExtension;
    if !Stops(l) && l.transport + Need(l.protocol) <= |m| {
      PastIgnoresOffset(m, r, l);
      WalkIgnoresOffset(m, r, Past(m, l));
    }
  }

  lemma PastIgnoresOffset(m: Bytes, r: Bytes, l: Layout)
    requires SameButOffset(m, r) && l.transport >= 48 && l.transport + Need(l.protocol) <= |m|
    ensures Past(r, l) == Past(m, l)
  {
  }

  lemma FieldsIgnoreOffset(m: Bytes, r: Bytes, l: Layout)
    requires SameButOffset(m, r) && (l.transport < 0 || l.transport >= 44)
    ensures FieldsAt(r, l) == FieldsAt(m, l)
  {
    assert r[8..24] == m[8..24] && r[24..40] == m[24..40];
    if l.transport >= 0 {
      SameFlags(m, r, l.transport + 13);
    }
  }

  lemma OffsetWritten(r: Bytes, offset: uint16, flags: nat)
    requires |r| >= 44 && flags < 8
    requires var field := offset * 8 % TWO16 + flags; r[42] == field / 256 && r[43] == field % 256
    ensures FragmentOffset(r, IPV6_HEADER_LEN) == offset % 8192 && r[43] % 8 == flags
  {
    var o := offset % 8192;
    ShiftedLeft(offset);
    SplitByte(o, flags);
  }

  lemma ShiftedLeft(offset: uint16)
    ensures offset * 8 % TWO16 == 8 * (offset % 8192)
  {
    var q, o := offset / 8192, offset % 8192;
    assert offset * 8 == 65536 * q + 8 * o;
  }

  lemma SplitByte(o: nat, flags: nat)
    requires o < 8192 && flags < 8
    ensures var field := 8 * o + flags;
            field < TWO16 && field / 8 == o && field % 256 % 8 == flags
  {
    var field := 8 * o + flags;
    var hi, lo := field / 256, field % 256;
    assert lo == 8 * (o - 32 * hi) + flags;
  }

  /** A first fragment header of another offset than zero ends the walk. */
  lemma NonFirst(r: Bytes)
    requires |r| >= 44 && r[6] == FRAGMENT
    ensures |r| >= 48 && FragmentOffset(r, IPV6_HEADER_LEN) != 0 ==>
      LayoutOf(r) == Layout(r[40], 40, 48, true) && Fields6(r).fragment && Fields6(r).protocol == r[40]
    ensures Fields6(r).version == VersionOf(ByteAt(r, 0))
    ensures Fields6(r).source == Addr6At(r, 8) && Fields6(r).destination == Addr6At(r, 24)
  {
    if |r| >= 48 && FragmentOffset(r, IPV6_HEADER_LEN) != 0 {
      var fixed := Layout(FRAGMENT, 6, IPV6_HEADER_LEN, false);
      assert FixedHeader(r) == fixed && Past(r, fixed) == Layout(r[40], 40, 48, true);
      assert Walk(r, fixed) == Walk(r, Past(r, fixed));
    }
  }

  /** The accessors of this packet give back both addresses and no upper layer. */
  function NewPacket6(src: Bytes, dst: Bytes): (m: Bytes)
    requires |src| == 16 && |dst| == 16
    ensures var f := Fields6(m);
            && f.version == IPv6 && f.source == Addr6(src) && f.destination == Addr6(dst)
            && f.protocol == PROTO_NO_NEXT_HEADER && !f.fragment && LayoutOf(m).transport == 40
  {
    var m := [96, 0, 0, 0, 0, 0, 59, 0] + src + dst + seq(24, _ => 0);
    assert m[8..24] == src && m[24..40] == dst;
    m
  }

  // ------------------------------------------------------------- IPv4 builders

  /** The accessors of this packet give back both addresses. */
  function NewPacket4(src: Bytes, dst: Bytes): (m: Bytes)
    requires |src| == 4 && |dst| == 4
    ensures var f := Fields4(m);
            f.version == IPv4 && f.source == Addr4(src) && f.destination == Addr4(dst) && !f.fragment && Transport4(m) == 20
  {
    var m := [69, 0, 0, 0, 0, 0, 0, 0, 0, 0, 0, 0] + src + dst + seq(44, _ => 0);
    assert m[0] == 69 && m[6] == 0 && m[7] == 0 && m[12..16] == src && m[16..20] == dst && |m| == 64;
    HeaderReads4(m, src, dst);
    m
  }

  lemma HeaderReads4(m: Bytes, src: Bytes, dst: Bytes)
    requires |m| == 64 && m[0] == 69 && m[6] == 0 && m[7] == 0 && m[12..16] == src && m[16..20] == dst
    ensures var f := Fields4(m);
            f.version == IPv4 && f.source == Addr4(src) && f.destination == Addr4(dst) && !f.fragment && Transport4(m) == 20
  {
    hide FlagsAt, Uint16At, Uint8At;
  }

  /** What every IPv4 builder keeps: the IP header but for the protocol named. */
  ghost predicate Rewritten4(m: Bytes, packet: Bytes, protocol: uint8) {
    && Transport4(packet) == Transport4(m)
    && (forall i: nat :: i < Transport4(m) && i != 9 ==> ByteAt(packet, i) == ByteAt(m, i))
    && var f, g := Fields4(m), Fields4(packet);
       && g.protocol == protocol && g.version == f.version && g.fragment == f.fragment
       && (|m| >= IPV4_HEADER_LEN ==> g.source == f.source && g.destination == f.destination)
  }

  /** Byte 9 names the protocol, the others are the old ones, zeros filling up `room`. */
  method WithProtocol4(m: Bytes, protocol: uint8, room: nat) returns (packet: Bytes, at: nat)
    requires Transport4(m) >= 0
    ensures at == Transport4(m) && IPV4_HEADER_LEN <= at
    ensures |packet| == if |m| < at + room then at + room else |m|
    ensures |packet| > 9 ==> packet[9] == protocol
    ensures forall i: nat :: i < |packet| && i != 9 ==> packet[i] == ByteAt(m, i)
  {
    at := Transport4(m);
    packet := Padded(m, at + room);
    packet := packet[9 := protocol];
  }

  lemma HeaderKept4(m: Bytes, r: Bytes, protocol: uint8)
    requires Transport4(m) >= 0 && |r| >= Transport4(m) && |r| >= |m| && r[9] == protocol
    requires forall i: nat :: i < Transport4(m) && i != 9 ==> r[i] == ByteAt(m, i)
    ensures Rewritten4(m, r, protocol)
  {
    assert ByteAt(r, 0) == ByteAt(m, 0) && ByteAt(r, 6) == ByteAt(m, 6) && ByteAt(r, 7) == ByteAt(m, 7);
    if |m| >= IPV4_HEADER_LEN {
      assert r[12..16] == m[12..16] && r[16..20] == m[16..20];
    }
  }

  method WithTCP4(m: Bytes, flags: bv8, src: uint16, dst: uint16) returns (packet: Bytes)
    requires Transport4(m) >= 0
    ensures Rewritten4(m, packet, PROTO_TCP)
    ensures var f := Fields4(packet);
            f.sourcePort == Some(src) && f.destinationPort == Some(dst) && f.tcpFlags == Some(flags)
  {
    hide SetPorts, FlagsAt, Rewritten4;
    var at;
    packet, at := WithProtocol4(m, PROTO_TCP, 14);
    packet := SetPorts(packet, at, src, dst);
    packet := packet[at + 13 := flags as uint8];
    FlagsRead(packet, at + 13, flags);
    HeaderKept4(m, packet, PROTO_TCP);
    assert Transport4(packet) == at;
  }

  method WithUDP4(m: Bytes, src: uint16, dst: uint16) returns (packet: Bytes)
    requires Transport4(m) >= 0
    ensures Rewritten4(m, packet, PROTO_UDP)
    ensures var f := Fields4(packet);
            f.sourcePort == Some(src) && f.destinationPort == Some(dst) && f.tcpFlags == Fields4(m).tcpFlags
  {
    hide SetPorts, FlagsAt, Rewritten4;
    var at;
    packet, at := WithProtocol4(m, PROTO_UDP, 8);
    packet := SetPorts(packet, at, src, dst);
    SameFlags(m, packet, at + 13);
    HeaderKept4(m, packet, PROTO_UDP);
    assert Transport4(packet) == at;
  }

  method WithICMP4(m: Bytes, ty: uint8, code: uint8) returns (packet: Bytes)
    requires Transport4(m) >= 0
    ensures Rewritten4(m, packet, PROTO_ICMP)
    ensures var f := Fields4(packet);
            f.icmpType == Some(ty) && f.sourcePort == Some(Big(ty, code)) && f.tcpFlags == Fields4(m).tcpFlags
  {
    hide FlagsAt, Rewritten4;
    var at;
    packet, at := WithProtocol4(m, PROTO_ICMP, 4);
    packet := packet[at := ty][at + 1 := code];
    SameFlags(m, packet, at + 13);
    HeaderKept4(m, packet, PROTO_ICMP);
    assert Transport4(packet) == at;
  }

  lemma OffsetBits4(flags: uint8, offset: uint16)
    ensures var high := flags / 32 * 32 + offset / 256 % 32;
            && high < 256 && high / 32 == flags / 32 && high % 32 == offset / 256 % 32
            && Big(high % 32, offset % 256) == offset % 8192
            && (high % 32 != 0 || offset % 256 != 0 <==> offset % 8192 != 0)
  {
    BesideFlags(flags / 32, offset / 256 % 32);
    ThirteenBits(offset);
  }

  lemma BesideFlags(flags: nat, high: nat)
    requires flags < 8 && high < 32
    ensures var b := flags * 32 + high; b < 256 && b / 32 == flags && b % 32 == high
  {
  }

  lemma ThirteenBits(offset: uint16)
    ensures offset / 256 % 32 * 256 + offset % 256 == offset % 8192
  {
    var top, low := offset / 256, offset % 256;
    LowThirteen(offset, top / 32, 256 * (top % 32) + low);
  }

  lemma LowThirteen(x: nat, q: nat, rest: nat)
    requires x == 8192 * q + rest && rest < 8192
    ensures x % 8192 == rest
  {
  }

  /** The bytes of the fragment offset decide nothing else. */
  lemma OnlyOffset4(m: Bytes, r: Bytes)
    requires |r| == |m| && forall i: nat :: i < |m| && i != 6 && i != 7 ==> r[i] == m[i]
    ensures Fields4(r) == Fields4(m).(fragment := Fields4(r).fragment)
  {
    hide FlagsAt, Big, VersionOf;
    var at := Transport4(m);
    assert Transport4(r) == at;
    if at >= 0 {
      SameFlags(m, r, at + 13);
    } else {
      assert FlagsAt(r, at + 13) == FlagsAt(m, at + 13) by { NoFlags(m, at + 13); NoFlags(r, at + 13); }
    }
    assert |m| >= 16 ==> r[12..16] == m[12..16];
    assert |m| >= 20 ==> r[16..20] == m[16..20];
  }

  lemma NoFlags(m: Bytes, i: int)
    requires i < 0
    ensures FlagsAt(m, i) == None
  {
  }

  /** Writes the offset modulo 2^13. The three bits it shares a byte with and all that
      the other accessors read stay as they are. */
  method WithFragmentOffset4(m: Bytes, offset: uint16) returns (packet: Bytes)
    requires |m| >= 8
    ensures |packet| == |m| && packet[6] / 32 == m[6] / 32
    ensures Big(packet[6] % 32, packet[7]) == offset % 8192
    ensures Fields4(packet) == Fields4(m).(fragment := offset % 8192 != 0)
  {
    hide FlagsAt, Big, Transport4, Uint16At, Uint8At, Addr4At, VersionOf;
    OffsetBits4(m[6], offset);
    var high: uint8 := m[6] / 32 * 32 + offset / 256 % 32;
    packet := m[6 := high][7 := offset % 256];
    OnlyOffset4(m, packet);
  }
}
