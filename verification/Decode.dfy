/** Packet headers, as `ProcessPacketBasic` and `ProcessPacketL4_` of decode_basic.cpp walk them.

    Offsets and lengths have the widths of the source: the offset of the IP header is kept in 16 bits, the
    three layer offsets in 8, and every operation wraps or truncates where the source's does. The bytes are
    read without a bound, so memory is a function that is defined everywhere. */
module Decode {
  import opened RingTypes
  import opened Text

  type U16 = x: int | 0 <= x < 0x1_0000
  type U32 = x: int | 0 <= x < 0x1_0000_0000
  type Memory = nat -> Byte

  datatype TcpFlags = TcpFlags(syn: bool, ack: bool, fin: bool, rst: bool, push: bool, urgent: bool)

  /** The fields of `PacketBasicAttr_t` that decoding reads or writes. */
  datatype BasicAttr = BasicAttr(
    srcIP: U32, dstIP: U32, srcPort: U16, dstPort: U16, seqNo: U32, pktLen: U16, protocol: Byte, version: Byte,
    flags: TcpFlags)

  /** The fields of `PacketMeta_t` that decoding writes. */
  datatype MetaInfo = MetaInfo(
    attr: BasicAttr, layer3Offset: Byte, layer4Offset: Byte, layer5Offset: Byte, layer5payloadLen: U16)

  datatype Outcome = Outcome(code: int, meta: MetaInfo)

  // The types of a frame, in the order in which a little-endian machine reads them.
  const IP4 := 0x0008
  const IP6 := 0xDD86
  const VLAN := 0x0081
  const MPLS := 0x4788
  const PPPOE := 0x6488
  const GTP_PORT := 0x0868

  const TCP := 6
  const UDP := 17

  // ---------------------------------------------------------------- memory

  function At(mem: Memory, i: nat): (b: nat)
    ensures b < 256
  {
    mem(i)
  }

  /** The `n` bytes at `i` as a number, the first byte in the highest place. */
  function Big(mem: Memory, i: nat, n: nat): (v: nat)
    ensures n <= 1 ==> v < 0x100
    ensures n <= 2 ==> v < 0x1_0000
    ensures n <= 3 ==> v < 0x100_0000
    ensures n <= 4 ==> v < 0x1_0000_0000
    decreases n, i
  {
    if n == 0 then 0 else Big(mem, i, n - 1) * 0x100 + At(mem, i + n - 1)
  }

  /** The same with the first byte in the lowest place. */
  function Little(mem: Memory, i: nat, n: nat): (v: nat)
    ensures n <= 1 ==> v < 0x100
    ensures n <= 2 ==> v < 0x1_0000
    ensures n <= 3 ==> v < 0x100_0000
    ensures n <= 4 ==> v < 0x1_0000_0000
    decreases n, i
  {
    if n == 0 then 0 else At(mem, i) + 0x100 * Little(mem, i + 1, n - 1)
  }

  function Le16(mem: Memory, i: nat): (v: nat)
    ensures v < 0x1_0000
  {
    Little(mem, i, 2)
  }

  function Be16(mem: Memory, i: nat): (v: nat)
    ensures v < 0x1_0000
  {
    Big(mem, i, 2)
  }

  function Be32(mem: Memory, i: nat): (v: nat)
    ensures v < 0x1_0000_0000
  {
    Big(mem, i, 4)
  }

  function Le32(mem: Memory, i: nat): (v: nat)
    ensures v < 0x1_0000_0000
  {
    Little(mem, i, 4)
  }

  /** Bit `k` of a number. */
  predicate Bit(v: nat, k: nat)
    decreases k, v
  {
    if k == 0 then v % 2 == 1 else Bit(v / 2, k - 1)
  }

  // ------------------------------------------------------- the link headers

  /** Where the `k`-th type is read: the first is in the Ethernet header, the others are in the tags. */
  function TypeAddress(k: nat): nat {
    if k == 0 then 12 else (14 + 4 * (k - 1)) % 0x1_0000 + 2
  }

  function TypeAt(mem: Memory, k: nat): nat {
    Le16(mem, TypeAddress(k))
  }

  /** Exactly `n` tags come first. */
  ghost predicate FirstNonTag(mem: Memory, n: nat) {
    TypeAt(mem, n) != VLAN && forall k: nat :: k < n ==> TypeAt(mem, k) == VLAN
  }

  ghost predicate TagsEnd(mem: Memory) {
    exists n: nat :: TypeAt(mem, n) != VLAN
  }

  lemma {:induction false} FirstNonTagExists(mem: Memory, n: nat)
    requires TypeAt(mem, n) != VLAN
    ensures exists k :: FirstNonTag(mem, k)
    decreases n
  {
    if k: nat :| k < n && TypeAt(mem, k) != VLAN {
      FirstNonTagExists(mem, k);
    } else {
      assert FirstNonTag(mem, n);
    }
  }

  ghost function Tags(mem: Memory): (n: nat)
    requires TagsEnd(mem)
    ensures FirstNonTag(mem, n)
  {
    var e: nat :| TypeAt(mem, e) != VLAN;
    FirstNonTagExists(mem, e);
    var n :| FirstNonTag(mem, n);
    n
  }

  /** The byte that decides whether another label follows the `k`-th, for labels from `off` on. */
  function LabelByte(mem: Memory, off: nat, k: nat): nat {
    At(mem, (off + 4 * k) % 0x1_0000 + 3)
  }

  /** The walk over labels stops at the `m`-th. */
  ghost predicate FirstClear(mem: Memory, off: nat, m: nat) {
    m >= 1 && !Bit(LabelByte(mem, off, m), 0) && forall k: nat :: 1 <= k < m ==> Bit(LabelByte(mem, off, k), 0)
  }

  ghost predicate LabelsEnd(mem: Memory, off: nat) {
    exists m: nat :: m >= 1 && !Bit(LabelByte(mem, off, m), 0)
  }

  lemma {:induction false} FirstClearExists(mem: Memory, off: nat, m: nat)
    requires m >= 1 && !Bit(LabelByte(mem, off, m), 0)
    ensures exists k :: FirstClear(mem, off, k)
    decreases m
  {
    if k: nat :| 1 <= k < m && !Bit(LabelByte(mem, off, k), 0) {
      FirstClearExists(mem, off, k);
    } else {
      assert FirstClear(mem, off, m);
    }
  }

  ghost function Labels(mem: Memory, off: nat): (m: nat)
    requires LabelsEnd(mem, off)
    ensures FirstClear(mem, off, m)
  {
    var e: nat :| e >= 1 && !Bit(LabelByte(mem, off, e), 0);
    FirstClearExists(mem, off, e);
    var m :| FirstClear(mem, off, m);
    m
  }

  /** Both walks come to an end. Nothing else bounds them in the source. */
  ghost predicate WalkEnds(mem: Memory) {
    TagsEnd(mem) && (TypeAt(mem, Tags(mem)) == MPLS ==> LabelsEnd(mem, 14 + 4 * Tags(mem)))
  }

  /** The type behind the tags; a label stack and a PPPoE header are taken to hold IPv4. */
  ghost function LinkType(mem: Memory): nat
    requires WalkEnds(mem)
  {
    var t := TypeAt(mem, Tags(mem));
    if t == MPLS || t == PPPOE then IP4 else t
  }

  /** The length of what follows the tags in front of the IP header. */
  ghost function LinkRest(mem: Memory, t: nat, off: nat): nat
    requires t == MPLS ==> LabelsEnd(mem, off)
  {
    if t == MPLS then 4 * Labels(mem, off) else if t == PPPOE then 8 else 0
  }

  /** Where the link headers end, if offsets did not wrap. */
  ghost function LinkEnd(mem: Memory): nat
    requires WalkEnds(mem)
  {
    var n := Tags(mem);
    14 + 4 * n + LinkRest(mem, TypeAt(mem, n), 14 + 4 * n)
  }

  // -------------------------------------------------------- the IP headers

  function HeaderLen(mem: Memory, off: nat): (h: nat)
    ensures h <= 60
  {
    At(mem, off) % 16 * 4
  }

  function Version(mem: Memory, off: nat): nat {
    At(mem, off) / 16
  }

  predicate IsFragment(mem: Memory, off: nat) {
    At(mem, off + 6) % 64 != 0 || At(mem, off + 7) != 0
  }

  /** The IPv4 header at `off` leads into a tunnel. */
  predicate IsTunnel(mem: Memory, off: nat) {
    var u := off + HeaderLen(mem, off);
    && At(mem, off + 9) == UDP && !IsFragment(mem, off)
    && (Le16(mem, u) == GTP_PORT || Le16(mem, u + 2) == GTP_PORT)
    && At(mem, u + 8) / 32 == 1 && At(mem, u + 9) == 0xFF
  }

  /** The length of the options that the flags of a GTP header announce. */
  function GtpOptions(flags: nat): nat {
    (if Bit(flags, 2) then 1 else 0) + (if Bit(flags, 1) then 4 else 0) + (if Bit(flags, 0) then 1 else 0)
  }

  /** Where the inner header is, if offsets did not wrap. */
  function TunnelEnd(mem: Memory, off: nat): nat {
    var u := off + HeaderLen(mem, off);
    u + 16 + GtpOptions(At(mem, u + 8))
  }

  /** What is found behind the link headers: nothing that is decoded, an error, or a header at an offset. */
  datatype Network = Silent | Refused | Ip4(offset: nat) | Ip6(offset: nat)

  function Ip4At(mem: Memory, off: nat, pktLen: nat): Network {
    if Version(mem, off) != 4 then Refused
    else if IsTunnel(mem, off) then
      var inner := TunnelEnd(mem, off) % 0x1_0000;
      if Version(mem, inner) != 4 || pktLen - inner < 20 then Refused else Ip4(inner)
    else Ip4(off)
  }

  function NetworkAt(mem: Memory, kind: nat, off: nat, pktLen: nat): Network {
    if kind == IP4 && pktLen >= off + 20 then Ip4At(mem, off, pktLen)
    else if kind == IP6 && pktLen >= off + 40 then
      if Version(mem, off) != 6 then Refused else Ip6(off)
    else Silent
  }

  // ---------------------------------------------------------- the transport

  /** The part of the transport packet that lies in the captured packet, by the 8-bit layer 4 offset. */
  function Clamped(len: nat, layer4Offset: nat, pktLen: nat): nat {
    if len + layer4Offset <= pktLen then len else if pktLen > layer4Offset then pktLen - layer4Offset else 0
  }

  datatype Transport = Tcp | Udp | Neither

  function TransportOf(proto: nat, len: nat): Transport {
    if proto == TCP && len >= 20 then Tcp else if proto == UDP && len >= 8 then Udp else Neither
  }

  /** What is read from a transport header. The last three fields mean something for TCP only. */
  datatype TransportHeader = TransportHeader(srcPort: U16, dstPort: U16, seqNo: U32, headerLen: nat, flags: TcpFlags)

  function TcpLen(mem: Memory, at: nat): nat {
    At(mem, at + 12) / 16 * 4
  }

  function FlagsOf(flags: nat): TcpFlags {
    TcpFlags(Bit(flags, 1), Bit(flags, 4), Bit(flags, 0), Bit(flags, 2), Bit(flags, 3), Bit(flags, 5))
  }

  function TransportAt(mem: Memory, at: nat): TransportHeader {
    TransportHeader(Be16(mem, at), Be16(mem, at + 2), Be32(mem, at + 4), TcpLen(mem, at), FlagsOf(At(mem, at + 13)))
  }

  /** Layer 5 is set: by a UDP packet, and by a TCP packet that holds its whole header. */
  predicate SetsPayload(t: TransportHeader, proto: nat, len: nat) {
    match TransportOf(proto, len)
    case Tcp => len >= t.headerLen
    case Udp => true
    case Neither => false
  }

  /** Layer 5 begins `h` bytes behind layer 4. */
  function WithPayload(len: nat, h: nat, m: MetaInfo): MetaInfo
    requires h <= len
  {
    var l4: nat := m.layer4Offset;
    m.(layer5payloadLen := (len - h) % 0x1_0000, layer5Offset := (l4 + h) % 0x100)
  }

  function WithTcp(t: TransportHeader, len: nat, m: MetaInfo): MetaInfo {
    var b := m.attr.(srcPort := t.srcPort, dstPort := t.dstPort, seqNo := t.seqNo, protocol := 0, flags := t.flags);
    (if len >= t.headerLen then WithPayload(len, t.headerLen, m) else m).(attr := b)
  }

  function WithUdp(t: TransportHeader, len: nat, m: MetaInfo): MetaInfo
    requires len >= 8
  {
    WithPayload(len, 8, m).(attr := m.attr.(srcPort := t.srcPort, dstPort := t.dstPort, protocol := 1))
  }

  /** What `ProcessPacketL4_` makes of a meta. */
  function WithTransport(t: TransportHeader, given: nat, proto: nat, pktLen: U16, m: MetaInfo): MetaInfo {
    var len := Clamped(given, m.layer4Offset, pktLen);
    match TransportOf(proto, len)
    case Tcp => WithTcp(t, len, m)
    case Udp => WithUdp(t, len, m)
    case Neither => m.(attr := m.attr.(srcPort := 0, dstPort := 0))
  }

  function Cleared(m: MetaInfo): MetaInfo {
    m.(attr := m.attr.(srcIP := 0, dstIP := 0, srcPort := 0, dstPort := 0))
  }

  /** The length that an IPv4 header announces for what follows it, in 16 bits. */
  function Ip4Payload(mem: Memory, off: nat): (len: nat)
    ensures len < 0x1_0000
  {
    if IsFragment(mem, off) then 0 else (Be16(mem, off + 2) - HeaderLen(mem, off)) % 0x1_0000
  }

  /** The sum of the last two words of an IPv6 address at `a`, in 32 bits. */
  function Folded(mem: Memory, a: nat): (v: nat)
    ensures v < 0x1_0000_0000
  {
    (Le32(mem, a + 8) + Le32(mem, a + 12)) % 0x1_0000_0000
  }

  /** What is read from an IP header: the length and the protocol are those of the transport packet. */
  datatype IpHeader = IpHeader(version: Byte, srcIP: U32, dstIP: U32, layer3: nat, layer4: nat, len: U16, proto: Byte)

  function Header4(mem: Memory, off: nat): IpHeader {
    IpHeader(0, Be32(mem, off + 12), Be32(mem, off + 16), off, off + HeaderLen(mem, off),
             Ip4Payload(mem, off), At(mem, off + 9))
  }

  function Header6(mem: Memory, off: nat): IpHeader {
    IpHeader(1, Folded(mem, off + 8), Folded(mem, off + 24), off, off + 40, Be16(mem, off + 4), At(mem, off + 6))
  }

  function WithNetwork(h: IpHeader, m: MetaInfo): MetaInfo {
    m.(attr := m.attr.(version := h.version, srcIP := h.srcIP, dstIP := h.dstIP),
       layer3Offset := h.layer3 % 0x100, layer4Offset := h.layer4 % 0x100)
  }

  function WithHeaders(h: IpHeader, t: TransportHeader, m: MetaInfo): MetaInfo {
    WithTransport(t, h.len, h.proto, m.attr.pktLen, WithNetwork(h, m))
  }

  /** All that is read from a packet: only a return code, or its headers. */
  datatype View = NoHeader(code: int) | Headers(ip: IpHeader, transport: TransportHeader)

  function Viewed(mem: Memory, h: IpHeader): View {
    Headers(h, TransportAt(mem, h.layer4))
  }

  function ViewOf(mem: Memory, net: Network): View {
    match net
    case Silent => NoHeader(0)
    case Refused => NoHeader(-1)
    case Ip4(off) => Viewed(mem, Header4(mem, off))
    case Ip6(off) => Viewed(mem, Header6(mem, off))
  }

  /** What becomes of a meta. */
  function Applied(v: View, m: MetaInfo): Outcome {
    match v
    case NoHeader(code) => Outcome(code, Cleared(m))
    case Headers(h, t) => Outcome(0, WithHeaders(h, t, Cleared(m)))
  }

  ghost function NetworkOf(mem: Memory, pktLen: nat): Network
    requires WalkEnds(mem)
  {
    NetworkAt(mem, LinkType(mem), LinkEnd(mem) % 0x1_0000, pktLen)
  }

  /** What `ProcessPacketBasic` returns, and what it leaves in the meta. */
  ghost function Decoded(mem: Memory, m: MetaInfo): Outcome
    requires WalkEnds(mem)
  {
    Applied(ViewOf(mem, NetworkOf(mem, m.attr.pktLen)), m)
  }

  // ----------------------------------------------------------- the methods

  class PacketMeta {
    var attr: BasicAttr
    var layer3Offset: Byte
    var layer4Offset: Byte
    var layer5Offset: Byte
    var layer5payloadLen: U16

    constructor (m: MetaInfo)
      ensures Value() == m
    {
      attr := m.attr;
      layer3Offset := m.layer3Offset;
      layer4Offset := m.layer4Offset;
      layer5Offset := m.layer5Offset;
      layer5payloadLen := m.layer5payloadLen;
    }

    function Value(): MetaInfo
      reads this
    {
      MetaInfo(attr, layer3Offset, layer4Offset, layer5Offset, layer5payloadLen)
    }

    /** The branch of `ProcessPacketL4_` for TCP. */
    method DecodeTcp(packet: Memory, len: nat, l4h: nat)
      modifies this
      ensures Value() == WithTcp(TransportAt(packet, l4h), len, old(Value()))
    {
      var src, dst := Be16(packet, l4h), Be16(packet, l4h + 2);
      attr := attr.(seqNo := Be32(packet, l4h + 4));
      var tcpHeaderLen := TcpLen(packet, l4h);
      if len >= tcpHeaderLen {
        var l4: nat := layer4Offset;
        layer5payloadLen := (len - tcpHeaderLen) % 0x1_0000;
        layer5Offset := (l4 + tcpHeaderLen) % 0x100;
      }
      var flags := At(packet, l4h + 13);
      attr := attr.(protocol := 0, srcPort := src, dstPort := dst,
                    flags := TcpFlags(Bit(flags, 1), Bit(flags, 4), Bit(flags, 0), Bit(flags, 2),
                                      Bit(flags, 3), Bit(flags, 5)));
    }

    /** The branch of `ProcessPacketL4_` for UDP. */
    method DecodeUdp(packet: Memory, len: nat, l4h: nat)
      requires len >= 8
      modifies this
      ensures Value() == WithUdp(TransportAt(packet, l4h), len, old(Value()))
    {
      var src, dst := Be16(packet, l4h), Be16(packet, l4h + 2);
      var l4: nat := layer4Offset;
      layer5payloadLen := (len - 8) % 0x1_0000;
      layer5Offset := (l4 + 8) % 0x100;
      attr := attr.(protocol := 1, srcPort := src, dstPort := dst);
    }

    /** `ProcessPacketL4_`. */
    method ProcessPacketL4(given: U16, proto: Byte, l4h: nat, rawSize: U16, packet: Memory)
      modifies this
      ensures Value() == WithTransport(TransportAt(packet, l4h), given, proto, rawSize, old(Value()))
    {
      var len: nat, l4: nat := given, layer4Offset;
      if len + l4 > rawSize {
        if rawSize > l4 {
          len := rawSize - l4;
        } else {
          len := 0;
        }
      }
      if proto == TCP && len >= 20 {
        DecodeTcp(packet, len, l4h);
      } else if proto == UDP && len >= 8 {
        DecodeUdp(packet, len, l4h);
      } else {
        attr := attr.(srcPort := 0, dstPort := 0);
      }
    }

    /** The end of the IPv4 branch: the header at `ipOffset` is the one that is decoded. */
    method DecodeHeader4(packet: Memory, ipOffset: nat)
      modifies this
      ensures var h := Header4(packet, ipOffset); Value() == WithHeaders(h, TransportAt(packet, h.layer4), old(Value()))
    {
      ghost var h := Header4(packet, ipOffset);
      attr := attr.(version := 0, srcIP := Be32(packet, ipOffset + 12), dstIP := Be32(packet, ipOffset + 16));
      layer3Offset := ipOffset % 0x100;
      layer4Offset := (ipOffset + HeaderLen(packet, ipOffset)) % 0x100;
      assert Value() == WithNetwork(h, old(Value()));
      var l4PacketLen := Ip4Payload(packet, ipOffset);
      var l4Proto := At(packet, ipOffset + 9);
      var l4h := ipOffset + HeaderLen(packet, ipOffset);
      assert l4PacketLen == h.len && l4Proto == h.proto && l4h == h.layer4;
      ProcessPacketL4(l4PacketLen, l4Proto, l4h, attr.pktLen, packet);
    }

    /** The branch of `ProcessPacketBasic` for IPv4. */
    method DecodeIp4(packet: Memory, off: U16) returns (code: int)
      requires Value() == Cleared(Value())
      modifies this
      ensures Outcome(code, Value()) == Applied(ViewOf(packet, NetworkAt(packet, IP4, off, old(attr.pktLen))),
          old(Value()))
    {
      if attr.pktLen < off + 20 {
        return 0;
      }
      if Version(packet, off) != 4 {
        return -1;
      }
      var inner := EnterTunnel(packet, off, attr.pktLen);
      if inner.None? {
        return -1;
      }
      DecodeHeader4(packet, inner.value);
      code := 0;
    }

    /** The branch of `ProcessPacketBasic` for IPv6. */
    method DecodeIp6(packet: Memory, off: U16) returns (code: int)
      requires Value() == Cleared(Value())
      modifies this
      ensures Outcome(code, Value()) == Applied(ViewOf(packet, NetworkAt(packet, IP6, off, old(attr.pktLen))),
          old(Value()))
    {
      var ipOffset: nat := off;
      if attr.pktLen < ipOffset + 40 {
        return 0;
      }
      if Version(packet, ipOffset) != 6 {
        return -1;
      }
      attr := attr.(version := 1, srcIP := Folded(packet, ipOffset + 8), dstIP := Folded(packet, ipOffset + 24));
      layer3Offset := ipOffset % 0x100;
      layer4Offset := (ipOffset + 40) % 0x100;
      ProcessPacketL4(Be16(packet, ipOffset + 4), At(packet, ipOffset + 6), ipOffset + 40, attr.pktLen, packet);
      code := 0;
    }
  }

  /** The GTP part of the IPv4 branch: the offset of the header that is decoded, or an error. */
  method EnterTunnel(packet: Memory, off: U16, pktLen: U16) returns (r: Option<U16>)
    requires pktLen >= off + 20 && Version(packet, off) == 4
    ensures NetworkAt(packet, IP4, off, pktLen) == match r case Some(at) => Ip4(at) case None => Refused
  {
    var ipOffset: nat := off;
    if At(packet, ipOffset + 9) == UDP && !IsFragment(packet, ipOffset) {
      var ipLen := HeaderLen(packet, ipOffset);
      var udp := ipOffset + ipLen;
      if Le16(packet, udp) == GTP_PORT || Le16(packet, udp + 2) == GTP_PORT {
        var offset := ipOffset + ipLen + 8;
        var flags := At(packet, offset);
        var messageType := At(packet, offset + 1);
        if flags / 32 == 1 && messageType == 0xFF {
          ipOffset := SkipGtp(ipOffset + ipLen + 8 + 8, flags);
          assert ipOffset == TunnelEnd(packet, off) % 0x1_0000;
          if Version(packet, ipOffset) != 4 {
            return None;
          }
          if pktLen - ipOffset < 20 {
            return None;
          }
        }
      }
    }
    r := Some(ipOffset);
  }

  /** The options of a GTP header that starts before `start`, in 16 bits. */
  method SkipGtp(start: nat, flags: nat) returns (r: U16)
    ensures r == (start + GtpOptions(flags)) % 0x1_0000
  {
    ghost var x: nat := start;
    var at: nat := start % 0x1_0000;
    if Bit(flags, 2) {
      WrapTwice(x, 1);
      at, x := (at + 1) % 0x1_0000, x + 1;
    }
    if Bit(flags, 1) {
      WrapTwice(x, 4);
      at, x := (at + 4) % 0x1_0000, x + 4;
    }
    if Bit(flags, 0) {
      WrapTwice(x, 1);
      at, x := (at + 1) % 0x1_0000, x + 1;
    }
    assert x == start + GtpOptions(flags);
    r := at;
  }

  lemma WrapTwice(x: nat, d: nat)
    ensures (x % 0x1_0000 + d) % 0x1_0000 == (x + d) % 0x1_0000
  {
  }

  /** The loop over labels. */
  method SkipLabels(packet: Memory, off: U16) returns (r: U16)
    requires LabelsEnd(packet, off)
    ensures r == (off + 4 * Labels(packet, off)) % 0x1_0000
  {
    ghost var m, k := Labels(packet, off), 1;
    var at: nat := (off + 4) % 0x1_0000;
    while Bit(At(packet, at + 3), 0)
      invariant 1 <= k <= m && at == (off + 4 * k) % 0x1_0000
      invariant forall j :: 1 <= j < k ==> Bit(LabelByte(packet, off, j), 0)
      decreases m - k
    {
      assert Bit(LabelByte(packet, off, k), 0);
      at := (at + 4) % 0x1_0000;
      WrapTwice(off + 4 * k, 4);
      k := k + 1;
    }
    assert !Bit(LabelByte(packet, off, k), 0);
    r := at;
  }

  lemma SameLabels(mem: Memory, off: nat)
    requires LabelsEnd(mem, off)
    ensures LabelsEnd(mem, off % 0x1_0000)
    ensures (off % 0x1_0000 + 4 * Labels(mem, off % 0x1_0000)) % 0x1_0000 == (off + 4 * Labels(mem, off)) % 0x1_0000
  {
    var small := off % 0x1_0000;
    forall k: nat ensures LabelByte(mem, small, k) == LabelByte(mem, off, k) {
      WrapTwice(off, 4 * k);
    }
    var m := Labels(mem, off);
    assert LabelByte(mem, small, m) == LabelByte(mem, off, m);
    assert FirstClear(mem, small, m);
    var n := Labels(mem, small);
    assert LabelByte(mem, small, n) == LabelByte(mem, off, n);
    WrapTwice(off, 4 * m);
  }

  lemma NextTag(k: nat)
    ensures TypeAddress(k + 1) == (14 + 4 * k) % 0x1_0000 + 2
    ensures ((14 + 4 * k) % 0x1_0000 + 4) % 0x1_0000 == (14 + 4 * (k + 1)) % 0x1_0000
  {
    WrapTwice(14 + 4 * k, 4);
  }

  /** Where the tags end. */
  lemma BehindTags(mem: Memory, k: nat)
    requires WalkEnds(mem) && k <= Tags(mem) && TypeAt(mem, k) != VLAN
    ensures k == Tags(mem)
    ensures TypeAt(mem, k) == MPLS ==> LabelsEnd(mem, 14 + 4 * k)
    ensures LinkType(mem) == if TypeAt(mem, k) == MPLS || TypeAt(mem, k) == PPPOE then IP4 else TypeAt(mem, k)
    ensures LinkEnd(mem) == 14 + 4 * k + LinkRest(mem, TypeAt(mem, k), 14 + 4 * k)
  {
  }

  /** The label stack at `off`, which is `whole` in 16 bits. */
  method SkipStack(packet: Memory, ghost whole: nat, off: U16) returns (r: U16)
    requires LabelsEnd(packet, whole) && off == whole % 0x1_0000
    ensures r == (whole + 4 * Labels(packet, whole)) % 0x1_0000
  {
    SameLabels(packet, whole);
    r := SkipLabels(packet, off);
  }

  method SkipPppoe(ghost whole: nat, off: U16) returns (r: U16)
    requires off == whole % 0x1_0000
    ensures r == (whole + 8) % 0x1_0000
  {
    var at: nat := off;
    WrapTwice(whole, 8);
    r := (at + 8) % 0x1_0000;
  }

  /** What the loop over the link headers does with anything but a tag, before it stops. */
  method SkipUnder(packet: Memory, kind: nat, off: U16, ghost whole: nat) returns (kind': nat, off': U16)
    requires off == whole % 0x1_0000 && (kind == MPLS ==> LabelsEnd(packet, whole))
    ensures kind' == if kind == MPLS || kind == PPPOE then IP4 else kind
    ensures off' == (whole + LinkRest(packet, kind, whole)) % 0x1_0000
  {
    if kind == MPLS {
      off' := SkipStack(packet, whole, off);
      kind' := IP4;
    } else if kind == PPPOE {
      off' := SkipPppoe(whole, off);
      kind' := IP4;
    } else {
      kind', off' := kind, off;
    }
  }

  /** The loop over the link headers. */
  method SkipLink(packet: Memory) returns (kind: nat, off: U16)
    requires WalkEnds(packet)
    ensures kind == LinkType(packet) && off == LinkEnd(packet) % 0x1_0000
  {
    ghost var n, k := Tags(packet), 0;
    off := 14;
    kind := Le16(packet, 12);
    while kind != IP4 && kind != IP6
      invariant k <= n && kind == TypeAt(packet, k) && off == (14 + 4 * k) % 0x1_0000
      decreases n - k
    {
      if kind == VLAN {
        var at: nat := off;
        kind := Le16(packet, at + 2);
        off := (at + 4) % 0x1_0000;
        NextTag(k);
        k := k + 1;
      } else {
        BehindTags(packet, k);
        kind, off := SkipUnder(packet, kind, off, 14 + 4 * k);
        return;
      }
    }
    BehindTags(packet, k);
  }

  /** `ProcessPacketBasic`. */
  method ProcessPacketBasic(data: Option<Memory>, meta: PacketMeta?) returns (code: int)
    requires data.Some? ==> WalkEnds(data.value)
    modifies meta
    ensures data.None? || meta == null ==> code == -1
    ensures data.None? && meta != null ==> meta.Value() == old(meta.Value())
    ensures data.Some? && meta != null ==> Outcome(code, meta.Value()) == Decoded(data.value, old(meta.Value()))
  {
    if meta == null || data.None? {
      return -1;
    }
    meta.attr := meta.attr.(srcIP := 0, dstIP := 0, srcPort := 0, dstPort := 0);
    var kind, off := SkipLink(data.value);
    if kind == IP4 {
      code := meta.DecodeIp4(data.value, off);
    } else if kind == IP6 {
      code := meta.DecodeIp6(data.value, off);
    } else {
      code := 0;
    }
  }
}
