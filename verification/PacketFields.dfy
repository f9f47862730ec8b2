/**
 The cache of packet fields (vm/vm.go). Whatever is read from it, in any order and
 any number of times, is what reading the packet directly would give.
 */
module PacketFields {
  import opened Ipfw

  // Direct reads. A later fragment has no transport header, whatever its bytes say,
  // so the transport fields are absent from it.

  /** The protocols whose headers begin with two ports. */
  predicate PortProtocol(protocol: uint8) {
    || protocol == PROTO_TCP || protocol == PROTO_UDP
    || protocol == PROTO_SCTP || protocol == PROTO_UDP_LITE
  }

  predicate HasPorts(pkt: Packet) {
    PortProtocol(pkt.protocol) && !pkt.fragment
  }

  function SourcePortOf(pkt: Packet): Option<uint16> {
    if HasPorts(pkt) then pkt.sourcePort else None
  }

  function DestinationPortOf(pkt: Packet): Option<uint16> {
    if HasPorts(pkt) then pkt.destinationPort else None
  }

  lemma PortsOf(pkt: Packet)
    ensures SourcePortOf(pkt) == if PortProtocol(pkt.protocol) && !pkt.fragment then pkt.sourcePort else None
    ensures DestinationPortOf(pkt) == if PortProtocol(pkt.protocol) && !pkt.fragment then pkt.destinationPort else None
  {
  }

  function FlagsOf(pkt: Packet): Option<bv8> {
    if pkt.protocol == PROTO_TCP && !pkt.fragment then pkt.tcpFlags else None
  }

  function ICMPTypeOf(pkt: Packet): Option<uint8> {
    if (pkt.protocol == PROTO_ICMP || pkt.protocol == PROTO_ICMP6) && !pkt.fragment then pkt.icmpType else None
  }

  /** A value with its presence flag, as the fields hold it. */
  predicate Holds<T(==)>(has: bool, value: T, read: Option<T>) {
    has == read.Some? && (has ==> value == read.value)
  }

  class Fields {
    var version: IPVersion
    var protocol: uint8
    var sourceFamily: IPVersion
    var destinationFamily: IPVersion
    var source: Addr
    var destination: Addr
    var sourcePort: uint16
    var hasSourcePort: bool
    var destinationPort: uint16
    var hasDestinationPort: bool
    var flags: bv8
    var hasFlags: bool
    var icmpType: uint8
    var hasICMPType: bool
    var fragment: bool
    var ports: bool
    var tcp: bool
    var icmp: bool
    var fragmentation: bool

    /** The zero value. */
    constructor ()
      ensures !ports && !tcp && !icmp && !fragmentation
      ensures !hasSourcePort && !hasDestinationPort && !hasFlags && !hasICMPType && !fragment
    {
      version, protocol := NoVersion, 0;
      sourceFamily, destinationFamily := NoVersion, NoVersion;
      source, destination := NoAddr, NoAddr;
      sourcePort, hasSourcePort, destinationPort, hasDestinationPort := 0, false, 0, false;
      flags, hasFlags, icmpType, hasICMPType := 0, false, 0, false;
      fragment, ports, tcp, icmp, fragmentation := false, false, false, false, false;
    }

    /** Whether the fields agree with the packet as far as they were read: every
        group read holds what a direct read gives now. */
    ghost predicate Valid(pkt: Packet)
      reads this
    {
      && version == pkt.version && protocol == pkt.protocol
      && source == pkt.source && destination == pkt.destination
      && sourceFamily == AddrFamily(pkt.source) && destinationFamily == AddrFamily(pkt.destination)
      && (fragmentation ==> fragment == pkt.fragment)
      && PortsValid(pkt) && FlagsValid(pkt) && TypeValid(pkt)
    }

    ghost predicate PortsValid(pkt: Packet)
      reads this`ports, this`hasSourcePort, this`sourcePort, this`hasDestinationPort, this`destinationPort
    {
      if ports then Holds(hasSourcePort, sourcePort, SourcePortOf(pkt))
                    && Holds(hasDestinationPort, destinationPort, DestinationPortOf(pkt))
      else !hasSourcePort && !hasDestinationPort
    }

    ghost predicate FlagsValid(pkt: Packet)
      reads this`tcp, this`hasFlags, this`flags
    {
      if tcp then Holds(hasFlags, flags, FlagsOf(pkt)) else !hasFlags
    }

    ghost predicate TypeValid(pkt: Packet)
      reads this`icmp, this`hasICMPType, this`icmpType
    {
      if icmp then Holds(hasICMPType, icmpType, ICMPTypeOf(pkt)) else !hasICMPType
    }

    /** What validity says of the fields that are never lazy. */
    lemma Basics(pkt: Packet)
      requires Valid(pkt)
      ensures version == pkt.version && protocol == pkt.protocol
      ensures fragmentation ==> fragment == pkt.fragment
      ensures source == pkt.source && destination == pkt.destination
      ensures sourceFamily == AddrFamily(pkt.source) && destinationFamily == AddrFamily(pkt.destination)
    {
    }

    /** Fills the groups that are never lazy, which makes the cache valid for the packet. */
    method Read(pkt: Packet)
      requires !ports && !tcp && !icmp && !fragmentation
      requires !hasSourcePort && !hasDestinationPort && !hasFlags && !hasICMPType
      modifies this
      ensures Valid(pkt)
    {
      version := pkt.version;
      protocol := pkt.protocol;
      source := pkt.source;
      destination := pkt.destination;
      sourceFamily := AddrFamily(source);
      destinationFamily := AddrFamily(destination);
    }

    /** Makes the port group readable. Called again, it changes nothing. */
    method ReadPorts(pkt: Packet)
      requires Valid(pkt)
      modifies this
      ensures Valid(pkt) && ports
      ensures Holds(hasSourcePort, sourcePort, SourcePortOf(pkt))
      ensures Holds(hasDestinationPort, destinationPort, DestinationPortOf(pkt))
    {
      if !ports {
        ReadPortsNow(pkt);
      }
    }

    method ReadPortsNow(pkt: Packet)
      requires Valid(pkt) && !ports
      modifies this
      ensures Valid(pkt) && ports
    {
      hide PortProtocol, AddrFamily, FlagsValid, TypeValid, SourcePortOf, DestinationPortOf;
      PortsOf(pkt);
      ports := true;
      if !PortProtocol(protocol) {
        return;
      }
      ReadFragmentOf(pkt);
      if fragment {
        return;
      }
      TakePorts(pkt);
    }

    method TakePorts(pkt: Packet)
      modifies this`hasSourcePort, this`sourcePort, this`hasDestinationPort, this`destinationPort
      ensures Holds(hasSourcePort, sourcePort, pkt.sourcePort)
      ensures Holds(hasDestinationPort, destinationPort, pkt.destinationPort)
    {
      hasSourcePort := pkt.sourcePort.Some?;
      sourcePort := if hasSourcePort then pkt.sourcePort.value else 0;
      hasDestinationPort := pkt.destinationPort.Some?;
      destinationPort := if hasDestinationPort then pkt.destinationPort.value else 0;
    }

    /** Makes the flag group readable. */
    method ReadFlags(pkt: Packet)
      requires Valid(pkt)
      modifies this
      ensures Valid(pkt) && tcp
      ensures Holds(hasFlags, flags, FlagsOf(pkt))
    {
      if !tcp {
        ReadFlagsNow(pkt);
      }
    }

    method ReadFlagsNow(pkt: Packet)
      requires Valid(pkt) && !tcp
      modifies this
      ensures Valid(pkt) && tcp
    {
      hide AddrFamily, SourcePortOf, DestinationPortOf, ICMPTypeOf;
      tcp := true;
      if protocol != PROTO_TCP {
        return;
      }
      ReadFragmentOf(pkt);
      if fragment {
        return;
      }
      hasFlags := pkt.tcpFlags.Some?;
      flags := if hasFlags then pkt.tcpFlags.value else 0;
    }

    /** Makes the type group readable. */
    method ReadICMP(pkt: Packet)
      requires Valid(pkt)
      modifies this
      ensures Valid(pkt) && icmp
      ensures Holds(hasICMPType, icmpType, ICMPTypeOf(pkt))
    {
      if !icmp {
        ReadICMPNow(pkt);
      }
    }

    method ReadICMPNow(pkt: Packet)
      requires Valid(pkt) && !icmp
      modifies this
      ensures Valid(pkt) && icmp
    {
      hide AddrFamily, SourcePortOf, DestinationPortOf, FlagsOf;
      icmp := true;
      if protocol != PROTO_ICMP && protocol != PROTO_ICMP6 {
        return;
      }
      ReadFragmentOf(pkt);
      if fragment {
        return;
      }
      hasICMPType := pkt.icmpType.Some?;
      icmpType := if hasICMPType then pkt.icmpType.value else 0;
    }

    /** Makes the fragment field readable. */
    method ReadFragment(pkt: Packet)
      requires Valid(pkt)
      modifies this
      ensures Valid(pkt) && fragment == pkt.fragment
    {
      ReadFragmentOf(pkt);
    }

    /** The same while another group is being read, changing nothing else. */
    method ReadFragmentOf(pkt: Packet)
      requires fragmentation ==> fragment == pkt.fragment
      modifies this`fragment, this`fragmentation
      ensures fragmentation && fragment == pkt.fragment
    {
      if !fragmentation {
        fragment := pkt.fragment;
        fragmentation := true;
      }
    }
  }
}
