/**
 The vocabulary of the repository: the tokens a rule body is made of (target.go,
 opt.go, port.go, proto.go, vmstate.go), what a rule does (action.go) and what a
 check is given (vm/packet.go).

 Text is a sequence of characters standing for bytes. The network types belong to
 the caller of the library, so they stay abstract here.
 */
module Ipfw {

  datatype Option<+T> = None | Some(value: T)

  datatype Result<+T, +E> = Ok(value: T) | Err(error: E)

  const TWO16 := 0x1_0000
  const TWO32 := 0x1_0000_0000

  type uint8 = x: int | 0 <= x < 0x100
  type uint16 = x: int | 0 <= x < TWO16
  type uint32 = x: int | 0 <= x < TWO32

  /** The conversions of Go, which keep the low bits. */
  function ToUint16(x: nat): uint16 { x % TWO16 }
  function ToUint32(x: nat): uint32 { x % TWO32 }

  /** The index of the first occurrence of a byte, the length when there is none. */
  function IndexOf(s: string, c: char): (r: nat)
    ensures r <= |s|
    ensures forall k :: 0 <= k < r ==> s[k] != c
    ensures r < |s| ==> s[r] == c
  {
    if s == "" || s[0] == c then 0
    else
      var r := IndexOf(s[1..], c);
      assert forall k :: 0 < k < 1 + r ==> s[k] == s[1..][k - 1];
      1 + r
  }

  type Net4(==, !new, 0)
  type Net6(==, !new, 0)

  // ------------------------------------------------------------------- targets

  datatype TargetKind =
    | TargetAny
    | TargetMe
    | TargetMe6
    | TargetHostname
    | TargetTable
    | TargetNetwork4
    | TargetNetwork6
    | TargetCustom
    | TargetNone

  /** A raw target as the parser gives it. */
  datatype Target = Target(neg: bool, pattern: uint16, kind: TargetKind, text: string)

  /** What a resolved target stands for. The text of a lookup is cut at its first
      comma, which separates the table from the value wanted. */
  datatype Member =
    | AnyAddr
    | Me
    | Me6
    | Lookup(table: string)
    | Network4(net4: Net4)
    | Network6(net6: Net6)
    | Nothing

  /** A resolved target as the machine takes it. */
  datatype TargetMatch = TargetMatch(neg: bool, pattern: uint16, member: Member)

  // --------------------------------------------------------------------- ports

  /** An empty name leaves the number to say which port. */
  datatype Port = Port(name: string, number: uint16)

  datatype PortRange = PortRange(lo: Port, hi: Port)

  datatype PortMatch = PortMatch(neg: bool, lo: Port, hi: Port)

  datatype PortNumberMatch = PortNumberMatch(neg: bool, lo: uint16, hi: uint16)

  datatype Side = SourceSide | DestinationSide

  // ----------------------------------------------------------------- protocols

  /** An empty name leaves the number to say which protocol. */
  datatype Proto = Proto(name: string, number: uint8)

  /** A set of IP versions. */
  datatype ProtoIPMatch = ProtoIPMatch(neg: bool, versions: set<IPVersion>)

  datatype ProtoNumberMatch = ProtoNumberMatch(neg: bool, number: uint8)

  // ------------------------------------------------------------------- options

  datatype OptKind =
    | OptUnset
    | OptComment
    | OptDiverted
    | OptSourcePort
    | OptDestinationPort
    | OptEstablished
    | OptFrag
    | OptICMPTypes
    | OptICMP6Types
    | OptIn
    | OptOut
    | OptKeepState
    | OptProto
    | OptTCPFlags
    | OptVia
    | OptAntiSpoof
    | OptCustom

  datatype ViaKind = ViaUnset | ViaExact | ViaMask | ViaTable

  datatype Via = Via(kind: ViaKind, name: string, value: string)

  /** A set of ICMP types, a bit for each. */
  datatype TypeSet = TypeSet(b0: bv64, b1: bv64, b2: bv64, b3: bv64)

  /** One option, numbered by its or-block and its match pattern within it. */
  datatype Opt = Opt(
    neg: bool, block: uint16, pattern: uint16, kind: OptKind, text: string, arg: string,
    ports: PortRange, proto: Proto, types: TypeSet, flagsSet: bv8, flagsClear: bv8, via: Via)

  function Bit(ty: uint8): bv64 {
    1 << ((ty % 64) as bv6)
  }

  predicate Shares(word: bv64, bit: bv64) {
    word & bit != 0
  }

  predicate HasType(types: TypeSet, ty: uint8) {
    Shares(match ty / 64 case 0 => types.b0 case 1 => types.b1 case 2 => types.b2 case _ => types.b3, Bit(ty))
  }

  const TCPSyn: bv8 := 2
  const TCPRst: bv8 := 4
  const TCPAck: bv8 := 16

  // ------------------------------------------------------------------- actions

  datatype ActionKind = ActionUnset | ActionPass | ActionDeny | ActionCount | ActionSkipTo | ActionCheckState | ActionReset

  datatype SkipToKind = SkipToUnset | SkipToLabel | SkipToNumber | SkipToTableArg

  datatype SkipTo = SkipTo(kind: SkipToKind, name: string, number: uint32)

  datatype Action = Action(kind: ActionKind, skipTo: SkipTo, flow: string)

  /** An instruction line: its number, zero when it has none of its own, and its action. */
  datatype Record = Record(line: nat, text: string, num: uint32, action: Action)

  // -------------------------------------------------------------------- checks

  datatype IPVersion = NoVersion | IPv4 | IPv6

  datatype Addr = NoAddr | Addr4(octets: seq<uint8>) | Addr6(octets: seq<uint8>)

  datatype Direction = In | Out

  datatype Context = Context(direction: Direction, ifName: string, localAddrs: seq<Addr>)

  /** What the headers of a packet hold, read through the Packet interface. */
  datatype Packet = Packet(
    version: IPVersion, protocol: uint8, source: Addr, destination: Addr, fragment: bool,
    sourcePort: Option<uint16>, destinationPort: Option<uint16>, tcpFlags: Option<bv8>, icmpType: Option<uint8>)

  const PROTO_ICMP: uint8 := 1
  const PROTO_TCP: uint8 := 6
  const PROTO_UDP: uint8 := 17
  const PROTO_ICMP6: uint8 := 58
  const PROTO_NO_NEXT_HEADER: uint8 := 59
  const PROTO_SCTP: uint8 := 132
  const PROTO_UDP_LITE: uint8 := 136

  function AddrFamily(addr: Addr): IPVersion {
    match addr
    case NoAddr => NoVersion
    case Addr4(_) => IPv4
    case Addr6(_) => IPv6
  }
}
