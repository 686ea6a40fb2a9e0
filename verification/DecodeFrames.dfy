/** The decoder on packets as the standards lay them out: what the headers say is what comes out, behind any stack
    of tags, in fragments and in cut-off packets, and inside a tunnel. */
module DecodeFrames {
  import opened Text
  import opened Decode
  import opened DecodeLaws

  /** Bytes are laid out from `i` on. */
  ghost predicate Laid(mem: Memory, i: nat, bytes: seq<Byte>) {
    forall k :: 0 <= k < |bytes| ==> At(mem, i + k) == bytes[k]
  }

  lemma {:induction false} BigLaid(mem: Memory, i: nat, bytes: seq<Byte>)
    requires Laid(mem, i, bytes)
    ensures Big(mem, i, |bytes|) == BigEndian(bytes)
    decreases |bytes|
  {
    if bytes != [] {
      var front := bytes[..|bytes| - 1];
      assert Laid(mem, i, front) by {
        forall k | 0 <= k < |front| ensures At(mem, i + k) == front[k] {
          assert front[k] == bytes[k];
        }
      }
      BigLaid(mem, i, front);
      assert At(mem, i + (|bytes| - 1)) == bytes[|bytes| - 1];
    }
  }

  function LittleEndian(bytes: seq<Byte>): nat {
    if bytes == [] then 0 else bytes[0] + 0x100 * LittleEndian(bytes[1..])
  }

  lemma {:induction false} LittleLaid(mem: Memory, i: nat, bytes: seq<Byte>)
    requires Laid(mem, i, bytes)
    ensures Little(mem, i, |bytes|) == LittleEndian(bytes)
    decreases |bytes|
  {
    if bytes != [] {
      var rest := bytes[1..];
      assert Laid(mem, i + 1, rest) by {
        forall k | 0 <= k < |rest| ensures At(mem, i + 1 + k) == rest[k] {
          assert rest[k] == bytes[k + 1];
          assert At(mem, i + (k + 1)) == bytes[k + 1];
        }
      }
      LittleLaid(mem, i + 1, rest);
      assert At(mem, i + 0) == bytes[0];
    }
  }

  lemma LaidPart(mem: Memory, i: nat, bytes: seq<Byte>, lo: nat, hi: nat)
    requires Laid(mem, i, bytes) && lo <= hi <= |bytes|
    ensures Laid(mem, i + lo, bytes[lo..hi])
  {
    var part := bytes[lo..hi];
    forall k | 0 <= k < |part| ensures At(mem, i + lo + k) == part[k] {
      assert part[k] == bytes[lo + k];
      assert At(mem, i + (lo + k)) == bytes[lo + k];
    }
  }

  lemma Shorts(bytes: seq<Byte>)
    requires |bytes| == 2
    ensures BigEndian(bytes) < 0x1_0000
  {
    BigEndianBound(bytes, 2);
  }

  lemma Longs(bytes: seq<Byte>)
    requires |bytes| == 4
    ensures BigEndian(bytes) < 0x1_0000_0000
  {
    BigEndianBound(bytes, 4);
  }

  // ------------------------------------------------------- link headers

  /** What is between the tags and the network header: nothing, a PPPoE header, or label stack entries, of which the
      source takes the `labels`-th for the last. */
  datatype Link = Plain(six: bool) | Pppoe | Stack(labels: nat)

  /** The memory holds `tags` 802.1Q tags and such a header behind the MAC addresses. */
  ghost predicate HoldsLink(mem: Memory, tags: nat, link: Link) {
    && (forall k :: 0 <= k < tags ==> Laid(mem, 12 + 4 * k, [0x81, 0x00]))
    && match link
       case Plain(six) => Laid(mem, 12 + 4 * tags, if six then [0x86, 0xDD] else [0x08, 0x00])
       case Pppoe => Laid(mem, 12 + 4 * tags, [0x88, 0x64])
       case Stack(labels) =>
         && Laid(mem, 12 + 4 * tags, [0x88, 0x47]) && labels >= 1
         && (forall k :: 1 <= k < labels ==> At(mem, 14 + 4 * tags + 4 * k + 3) % 2 == 1)
         && At(mem, 14 + 4 * tags + 4 * labels + 3) % 2 == 0
  }

  /** Where the network header is. */
  function Front(tags: nat, link: Link): nat {
    14 + 4 * tags + match link case Plain(_) => 0 case Pppoe => 8 case Stack(labels) => 4 * labels
  }

  lemma TypeLaid(mem: Memory, k: nat, first: Byte, second: Byte)
    requires 14 + 4 * k < 0x1_0000 && Laid(mem, 12 + 4 * k, [first, second])
    ensures TypeAt(mem, k) == first + 0x100 * second
  {
    assert At(mem, 12 + 4 * k + 0) == [first, second][0] && At(mem, 12 + 4 * k + 1) == [first, second][1];
    PlainAddress(k);
    LittleTwo(mem, 12 + 4 * k);
  }

  lemma TagsLaid(mem: Memory, tags: nat)
    requires 14 + 4 * tags < 0x1_0000 && TypeAt(mem, tags) != VLAN
    requires forall k :: 0 <= k < tags ==> Laid(mem, 12 + 4 * k, [0x81, 0x00])
    ensures TagsEnd(mem) && Tags(mem) == tags
  {
    forall k: nat | k < tags ensures TypeAt(mem, k) == VLAN {
      TypeLaid(mem, k, 0x81, 0x00);
    }
    assert FirstNonTag(mem, tags);
    assert FirstNonTag(mem, Tags(mem));
  }

  lemma StackLaid(mem: Memory, off: nat, labels: nat)
    requires labels >= 1 && off + 4 * labels < 0x1_0000
    requires forall k :: 1 <= k < labels ==> At(mem, off + 4 * k + 3) % 2 == 1
    requires At(mem, off + 4 * labels + 3) % 2 == 0
    ensures LabelsEnd(mem, off) && Labels(mem, off) == labels
  {
    forall k: nat | 1 <= k <= labels ensures LabelByte(mem, off, k) == At(mem, off + 4 * k + 3) {
      SmallOffset(off + 4 * k, 0);
    }
    assert FirstClear(mem, off, labels);
    LabelsAre(mem, off, labels);
  }

  predicate IsSix(link: Link) {
    link.Plain? && link.six
  }

  /** The walk finds the network header. */
  lemma LinkLaid(mem: Memory, tags: nat, link: Link)
    requires HoldsLink(mem, tags, link) && Front(tags, link) < 0x1_0000
    ensures WalkEnds(mem) && LinkEnd(mem) == Front(tags, link)
    ensures LinkType(mem) == if IsSix(link) then IP6 else IP4
  {
    LastType(mem, tags, link);
    TagsLaid(mem, tags);
    if link.Stack? {
      StackLaid(mem, 14 + 4 * tags, link.labels);
    }
    BehindTags(mem, tags);
  }

  lemma LastType(mem: Memory, tags: nat, link: Link)
    requires HoldsLink(mem, tags, link) && Front(tags, link) < 0x1_0000
    ensures TypeAt(mem, tags) ==
      match link case Plain(six) => (if six then IP6 else IP4) case Pppoe => PPPOE case Stack(_) => MPLS
  {
    match link {
      case Plain(six) =>
        if six {
          TypeLaid(mem, tags, 0x86, 0xDD);
        } else {
          TypeLaid(mem, tags, 0x08, 0x00);
        }
      case Pppoe =>
        TypeLaid(mem, tags, 0x88, 0x64);
      case Stack(_) =>
        TypeLaid(mem, tags, 0x88, 0x47);
    }
  }

  // ---------------------------------------------------- network headers

  /** An IPv4 or an IPv6 header; the fields are in network order, the length of the IPv4 header is in words. */
  datatype Net =
    | V4(words: nat, total: seq<Byte>, more: bool, fragment: nat, src: seq<Byte>, dst: seq<Byte>)
    | V6(len: seq<Byte>, src: seq<Byte>, dst: seq<Byte>)

  predicate NetOk(n: Net) {
    match n
    case V4(words, total, _, fragment, src, dst) =>
      words <= 15 && |total| == 2 && fragment < 0x2000 && |src| == |dst| == 4
    case V6(len, src, dst) => |len| == 2 && |src| == |dst| == 16
  }

  /** The memory holds the header at `at`, as RFC 791 and RFC 8200 lay it out. Don't Fragment may be set or not. */
  ghost predicate HoldsNet(mem: Memory, at: nat, n: Net, proto: Byte) {
    match n
    case V4(words, total, more, fragment, src, dst) =>
      && At(mem, at) == 0x40 + words && Laid(mem, at + 2, total)
      && At(mem, at + 6) % 64 == (if more then 32 else 0) + fragment / 0x100 && At(mem, at + 7) == fragment % 0x100
      && At(mem, at + 9) == proto && Laid(mem, at + 12, src) && Laid(mem, at + 16, dst)
    case V6(len, src, dst) =>
      && At(mem, at) / 16 == 6 && Laid(mem, at + 4, len) && At(mem, at + 6) == proto
      && Laid(mem, at + 8, src) && Laid(mem, at + 24, dst)
  }

  /** A part of a packet that was cut into several. */
  predicate IsPart(n: Net) {
    n.V4? && (n.more || n.fragment > 0)
  }

  function NetBytes(n: Net): nat {
    if n.V4? then 4 * n.words else 40
  }

  /** What must have been captured from the header on for the source to look at it. */
  function NetLeast(n: Net): nat {
    if n.V4? then 20 else 40
  }

  /** The length that the header announces for the transport packet, in 16 bits; a part counts as nothing. */
  function Announced(n: Net): (len: U16)
    requires NetOk(n)
  {
    match n
    case V4(words, total, _, _, _, _) => if IsPart(n) then 0 else (BigEndian(total) - 4 * words) % 0x1_0000
    case V6(len, _, _) => Shorts(len); BigEndian(len)
  }

  /** The number kept of an address: of an IPv6 address the sum of its last two words, as they are in memory. */
  function Kept(a: seq<Byte>): U32
    requires |a| == 4 || |a| == 16
  {
    if |a| == 4 then Longs(a); BigEndian(a)
    else (LittleEndian(a[8..12]) + LittleEndian(a[12..16])) % 0x1_0000_0000
  }

  lemma PartIff(mem: Memory, at: nat, n: Net, proto: Byte)
    requires n.V4? && NetOk(n) && HoldsNet(mem, at, n, proto)
    ensures IsFragment(mem, at) <==> IsPart(n)
  {
    PartBits(At(mem, at + 6), At(mem, at + 7), n.more, n.fragment);
  }

  lemma PartBits(high: nat, low: nat, more: bool, fragment: nat)
    requires high % 64 == (if more then 32 else 0) + fragment / 0x100 && low == fragment % 0x100
    ensures high % 64 != 0 || low != 0 <==> more || fragment > 0
  {
  }

  lemma LengthLaid(mem: Memory, at: nat, n: Net, proto: Byte)
    requires n.V4? && NetOk(n) && HoldsNet(mem, at, n, proto)
    ensures HeaderLen(mem, at) == NetBytes(n) && Version(mem, at) == 4
    ensures Ip4Payload(mem, at) == Announced(n)
  {
    PartIff(mem, at, n, proto);
    BigLaid(mem, at + 2, n.total);
  }

  lemma FoldedLaid(mem: Memory, i: nat, a: seq<Byte>)
    requires |a| == 16 && Laid(mem, i, a)
    ensures Folded(mem, i) == Kept(a)
  {
    LaidPart(mem, i, a, 8, 12);
    LittleLaid(mem, i + 8, a[8..12]);
    LaidPart(mem, i, a, 12, 16);
    LittleLaid(mem, i + 12, a[12..16]);
  }

  /** What is read from a header. */
  function NetRead(n: Net, at: nat, proto: Byte): IpHeader
    requires NetOk(n)
  {
    IpHeader(if n.V4? then 0 else 1, Kept(n.src), Kept(n.dst), at, at + NetBytes(n), Announced(n), proto)
  }

  lemma NetLaid(mem: Memory, at: nat, n: Net, proto: Byte)
    requires NetOk(n) && HoldsNet(mem, at, n, proto)
    ensures (if n.V4? then Header4(mem, at) else Header6(mem, at)) == NetRead(n, at, proto)
  {
    if n.V4? {
      LengthLaid(mem, at, n, proto);
      BigLaid(mem, at + 12, n.src);
      BigLaid(mem, at + 16, n.dst);
    } else {
      BigLaid(mem, at + 4, n.len);
      FoldedLaid(mem, at + 8, n.src);
      FoldedLaid(mem, at + 24, n.dst);
    }
  }

  // --------------------------------------------------- transport packets

  /** A TCP segment, with the length of its header in words, a UDP packet, or one of another protocol. */
  datatype Segment =
    | TcpSegment(srcPort: seq<Byte>, dstPort: seq<Byte>, seqNo: seq<Byte>, words: nat, flags: TcpFlags)
    | UdpPacket(srcPort: seq<Byte>, dstPort: seq<Byte>)
    | Foreign(proto: Byte)

  predicate SegmentOk(s: Segment) {
    match s
    case TcpSegment(srcPort, dstPort, seqNo, words, _) =>
      |srcPort| == |dstPort| == 2 && |seqNo| == 4 && words <= 15
    case UdpPacket(srcPort, dstPort) => |srcPort| == |dstPort| == 2
    case Foreign(proto) => proto != 6 && proto != 17
  }

  function ProtoOf(s: Segment): Byte {
    match s
    case TcpSegment(_, _, _, _, _) => 6
    case UdpPacket(_, _) => 17
    case Foreign(proto) => proto
  }

  function One(b: bool): nat {
    if b then 1 else 0
  }

  /** The memory holds the header at `at`, as RFC 9293 and RFC 768 lay it out. */
  ghost predicate HoldsSegment(mem: Memory, at: nat, s: Segment) {
    match s
    case TcpSegment(srcPort, dstPort, seqNo, words, f) =>
      && Laid(mem, at, srcPort) && Laid(mem, at + 2, dstPort) && Laid(mem, at + 4, seqNo)
      && At(mem, at + 12) / 16 == words
      && At(mem, at + 13) % 64 ==
           One(f.fin) + 2 * One(f.syn) + 4 * One(f.rst) + 8 * One(f.push) + 16 * One(f.ack) + 32 * One(f.urgent)
    case UdpPacket(srcPort, dstPort) => Laid(mem, at, srcPort) && Laid(mem, at + 2, dstPort)
    case Foreign(_) => true
  }

  lemma BitAbove(low: nat, high: nat, k: nat)
    requires low < 2
    ensures Bit(low + 2 * high, 0) <==> low == 1
    ensures Bit(low + 2 * high, k + 1) <==> Bit(high, k)
  {
  }

  lemma FlagsLaid(b: nat, f: TcpFlags)
    requires b % 64 ==
      One(f.fin) + 2 * One(f.syn) + 4 * One(f.rst) + 8 * One(f.push) + 16 * One(f.ack) + 32 * One(f.urgent)
    ensures FlagsOf(b) == f
  {
    var b6 := b / 64;
    var b5 := One(f.urgent) + 2 * b6;
    var b4 := One(f.ack) + 2 * b5;
    var b3 := One(f.push) + 2 * b4;
    var b2 := One(f.rst) + 2 * b3;
    var b1 := One(f.syn) + 2 * b2;
    assert b == One(f.fin) + 2 * b1;
    BitAbove(One(f.fin), b1, 0);
    BitsOf(b, b1, b2, b3, b4, b5, f, b6);
  }

  lemma BitsOf(b: nat, b1: nat, b2: nat, b3: nat, b4: nat, b5: nat, f: TcpFlags, b6: nat)
    requires b5 == One(f.urgent) + 2 * b6 && b4 == One(f.ack) + 2 * b5 && b3 == One(f.push) + 2 * b4
    requires b2 == One(f.rst) + 2 * b3 && b1 == One(f.syn) + 2 * b2 && b == One(f.fin) + 2 * b1
    ensures FlagsOf(b) == f
  {
    assert b / 2 == b1 && b1 / 2 == b2 && b2 / 2 == b3 && b3 / 2 == b4 && b4 / 2 == b5;
    BitAbove(One(f.fin), b1, 0);
    BitAbove(One(f.syn), b2, 0);
    BitAbove(One(f.rst), b3, 0);
    BitAbove(One(f.push), b4, 0);
    BitAbove(One(f.ack), b5, 0);
    BitAbove(One(f.urgent), b6, 0);
    assert Bit(b, 5) == Bit(b1, 4) == Bit(b2, 3) == Bit(b3, 2) == Bit(b4, 1) == Bit(b5, 0);
    assert Bit(b, 4) == Bit(b1, 3) == Bit(b2, 2) == Bit(b3, 1) == Bit(b4, 0);
    assert Bit(b, 3) == Bit(b1, 2) == Bit(b2, 1) == Bit(b3, 0);
    assert Bit(b, 2) == Bit(b1, 1) == Bit(b2, 0);
    assert Bit(b, 1) == Bit(b1, 0);
  }

  lemma PortsLaid(mem: Memory, at: nat, s: Segment)
    requires SegmentOk(s) && HoldsSegment(mem, at, s) && !s.Foreign?
    ensures Be16(mem, at) == BigEndian(s.srcPort) && Be16(mem, at + 2) == BigEndian(s.dstPort)
  {
    BigLaid(mem, at, s.srcPort);
    BigLaid(mem, at + 2, s.dstPort);
  }

  lemma TcpLaid(mem: Memory, at: nat, s: Segment)
    requires SegmentOk(s) && HoldsSegment(mem, at, s) && s.TcpSegment?
    ensures Be32(mem, at + 4) == BigEndian(s.seqNo) && TcpLen(mem, at) == 4 * s.words
    ensures FlagsOf(At(mem, at + 13)) == s.flags
  {
    BigLaid(mem, at + 4, s.seqNo);
    FlagsLaid(At(mem, at + 13), s.flags);
  }

  /** The transport header agrees with the packet as far as the packet says. */
  predicate Agrees(t: TransportHeader, s: Segment) {
    match s
    case TcpSegment(srcPort, dstPort, seqNo, words, flags) =>
      && t.srcPort == BigEndian(srcPort) && t.dstPort == BigEndian(dstPort) && t.seqNo == BigEndian(seqNo)
      && t.headerLen == 4 * words && t.flags == flags
    case UdpPacket(srcPort, dstPort) => t.srcPort == BigEndian(srcPort) && t.dstPort == BigEndian(dstPort)
    case Foreign(_) => true
  }

  lemma SegmentLaid(mem: Memory, at: nat, s: Segment)
    requires SegmentOk(s) && HoldsSegment(mem, at, s)
    ensures Agrees(TransportAt(mem, at), s)
  {
    if !s.Foreign? {
      PortsLaid(mem, at, s);
    }
    if s.TcpSegment? {
      TcpLaid(mem, at, s);
    }
  }

  // ----------------------------------------------------- what comes out

  /** As much of `announced` bytes from `l4` on as lies within the packet. */
  function Captured(announced: U16, l4: nat, pktLen: U16): (len: U16) {
    if pktLen <= l4 then 0 else if announced <= pktLen - l4 then announced else pktLen - l4
  }

  lemma ClampedIs(announced: U16, l4: nat, pktLen: U16)
    ensures Clamped(announced, l4, pktLen) == Captured(announced, l4, pktLen)
  {
  }

  /** What the network header makes of a meta. */
  function Located(n: Net, at: nat, m: MetaInfo): MetaInfo
    requires NetOk(n)
  {
    m.(attr := m.attr.(version := if n.V4? then 0 else 1, srcIP := Kept(n.src), dstIP := Kept(n.dst)),
       layer3Offset := at % 0x100, layer4Offset := (at + NetBytes(n)) % 0x100)
  }

  /** The meta that a packet with its network header at `at` should leave. */
  function Expected(n: Net, s: Segment, at: nat, m: MetaInfo): MetaInfo
    requires NetOk(n) && SegmentOk(s)
  {
    var seen := Located(n, at, m);
    Filled(s, Captured(Announced(n), seen.layer4Offset, m.attr.pktLen), seen)
  }

  /** What the transport packet makes of it when `len` bytes of it were captured: a TCP header counts from 20 bytes
      on, a UDP header from 8, and the payload when the whole header was captured. */
  function Filled(s: Segment, len: U16, m: MetaInfo): MetaInfo
    requires SegmentOk(s)
  {
    var l4: nat := m.layer4Offset;
    match s
    case TcpSegment(srcPort, dstPort, seqNo, words, flags) =>
      Shorts(srcPort);
      Shorts(dstPort);
      Longs(seqNo);
      if len < 20 then WithoutPorts(m)
      else
        var known := m.(attr := m.attr.(srcPort := BigEndian(srcPort), dstPort := BigEndian(dstPort),
                                        seqNo := BigEndian(seqNo), protocol := 0, flags := flags));
        if len < 4 * words then known
        else known.(layer5Offset := (l4 + 4 * words) % 0x100, layer5payloadLen := len - 4 * words)
    case UdpPacket(srcPort, dstPort) =>
      Shorts(srcPort);
      Shorts(dstPort);
      if len < 8 then WithoutPorts(m)
      else
        m.(attr := m.attr.(srcPort := BigEndian(srcPort), dstPort := BigEndian(dstPort), protocol := 1),
           layer5Offset := (l4 + 8) % 0x100, layer5payloadLen := len - 8)
    case Foreign(_) => WithoutPorts(m)
  }

  function WithoutPorts(m: MetaInfo): MetaInfo {
    m.(attr := m.attr.(srcPort := 0, dstPort := 0))
  }

  lemma AppliedIs(n: Net, s: Segment, at: nat, t: TransportHeader, m: MetaInfo)
    requires NetOk(n) && SegmentOk(s) && Agrees(t, s)
    ensures Applied(Headers(NetRead(n, at, ProtoOf(s)), t), m) == Outcome(0, Expected(n, s, at, m))
  {
    var seen := Located(n, at, m);
    assert WithNetwork(NetRead(n, at, ProtoOf(s)), Cleared(m)) == WithoutPorts(seen);
    ClampedIs(Announced(n), seen.layer4Offset, m.attr.pktLen);
    TransportIs(s, t, Announced(n), Captured(Announced(n), seen.layer4Offset, m.attr.pktLen), seen);
  }

  lemma TransportIs(s: Segment, t: TransportHeader, given: U16, len: U16, m: MetaInfo)
    requires SegmentOk(s) && Agrees(t, s) && len == Clamped(given, m.layer4Offset, m.attr.pktLen)
    ensures WithTransport(t, given, ProtoOf(s), m.attr.pktLen, WithoutPorts(m)) == Filled(s, len, m)
  {
    match s
    case TcpSegment(_, _, _, _, _) => TcpIs(s, t, len, m);
    case UdpPacket(_, _) => UdpIs(s, t, len, m);
    case Foreign(_) =>
  }

  lemma TcpIs(s: Segment, t: TransportHeader, len: U16, m: MetaInfo)
    requires SegmentOk(s) && s.TcpSegment? && Agrees(t, s)
    ensures len >= 20 ==> WithTcp(t, len, WithoutPorts(m)) == Filled(s, len, m)
  {
  }

  lemma UdpIs(s: Segment, t: TransportHeader, len: U16, m: MetaInfo)
    requires SegmentOk(s) && s.UdpPacket? && Agrees(t, s)
    ensures len >= 8 ==> WithUdp(t, len, WithoutPorts(m)) == Filled(s, len, m)
  {
  }

  /** The memory holds a whole packet. */
  ghost predicate HoldsPacket(mem: Memory, at: nat, n: Net, s: Segment) {
    HoldsNet(mem, at, n, ProtoOf(s)) && HoldsSegment(mem, at + NetBytes(n), s)
  }

  lemma PacketSeen(mem: Memory, at: nat, n: Net, s: Segment, m: MetaInfo, v: View)
    requires NetOk(n) && SegmentOk(s) && HoldsPacket(mem, at, n, s)
    requires v == ViewOf(mem, if n.V4? then Ip4(at) else Ip6(at))
    ensures Applied(v, m) == Outcome(0, Expected(n, s, at, m))
  {
    var t := SeenAs(mem, at, n, s, v);
    ViewApplied(v, n, s, at, t, m);
  }

  lemma SeenAs(mem: Memory, at: nat, n: Net, s: Segment, v: View) returns (t: TransportHeader)
    requires NetOk(n) && SegmentOk(s) && HoldsPacket(mem, at, n, s)
    requires v == ViewOf(mem, if n.V4? then Ip4(at) else Ip6(at))
    ensures v == Headers(NetRead(n, at, ProtoOf(s)), t) && Agrees(t, s)
  {
    t := ViewIs(mem, at, n, ProtoOf(s), v);
    AgreesAt(mem, at + NetBytes(n), s, t);
  }

  lemma AgreesAt(mem: Memory, at: nat, s: Segment, t: TransportHeader)
    requires SegmentOk(s) && HoldsSegment(mem, at, s) && ReadAt(mem, at, t)
    ensures Agrees(t, s)
  {
    SegmentLaid(mem, at, s);
  }

  ghost predicate ReadAt(mem: Memory, at: nat, t: TransportHeader) {
    t == TransportAt(mem, at)
  }

  lemma ViewApplied(v: View, n: Net, s: Segment, at: nat, t: TransportHeader, m: MetaInfo)
    requires NetOk(n) && SegmentOk(s) && v == Headers(NetRead(n, at, ProtoOf(s)), t) && Agrees(t, s)
    ensures Applied(v, m) == Outcome(0, Expected(n, s, at, m))
  {
    AppliedIs(n, s, at, t, m);
  }

  lemma ViewIs(mem: Memory, at: nat, n: Net, proto: Byte, v: View) returns (t: TransportHeader)
    requires NetOk(n) && HoldsNet(mem, at, n, proto) && v == ViewOf(mem, if n.V4? then Ip4(at) else Ip6(at))
    ensures v == Headers(NetRead(n, at, proto), t) && ReadAt(mem, at + NetBytes(n), t)
  {
    t := TransportAt(mem, at + NetBytes(n));
    NetLaid(mem, at, n, proto);
    ReadView(mem, at, NetRead(n, at, proto));
  }

  lemma ReadView(mem: Memory, at: nat, h: IpHeader)
    ensures Header4(mem, at) == h ==> ViewOf(mem, Ip4(at)) == Headers(h, TransportAt(mem, h.layer4))
    ensures Header6(mem, at) == h ==> ViewOf(mem, Ip6(at)) == Headers(h, TransportAt(mem, h.layer4))
  {
  }

  lemma DecodedAt(mem: Memory, tags: nat, link: Link, m: MetaInfo, net: Network)
    requires HoldsLink(mem, tags, link) && Front(tags, link) < 0x1_0000
    requires NetworkAt(mem, if IsSix(link) then IP6 else IP4, Front(tags, link), m.attr.pktLen) == net
    ensures WalkEnds(mem) && Decoded(mem, m) == Applied(ViewOf(mem, net), m)
  {
    LinkLaid(mem, tags, link);
    SmallOffset(Front(tags, link), 0);
  }

  // ------------------------------------------------------------- tunnels

  /** The port that the source takes for GTP's, in the order of the bytes in memory. */
  const TUNNEL_PORT: seq<Byte> := [0x68, 0x08]

  /** The optional fields that a GTP header announces. */
  datatype Gtp = Gtp(extension: bool, sequence: bool, pdu: bool)

  /** A GTP header of version 1 with a packet in it is at `at`. */
  ghost predicate HoldsGtp(mem: Memory, at: nat, g: Gtp) {
    && At(mem, at) / 32 == 1 && At(mem, at + 1) == 0xFF
    && At(mem, at) % 8 == 4 * One(g.extension) + 2 * One(g.sequence) + One(g.pdu)
  }

  function GtpBytes(g: Gtp): nat {
    8 + One(g.extension) + 4 * One(g.sequence) + One(g.pdu)
  }

  /** The packet leads into a tunnel: a UDP packet, whole, on the port, that holds a GTP header. */
  ghost predicate LeadsInside(mem: Memory, at: nat, n: Net, s: Segment) {
    && n.V4? && !IsPart(n) && s.UdpPacket? && (s.srcPort == TUNNEL_PORT || s.dstPort == TUNNEL_PORT)
    && var gtp := at + NetBytes(n) + 8;
       At(mem, gtp) / 32 == 1 && At(mem, gtp + 1) == 0xFF
  }

  lemma PortTwo(mem: Memory, at: nat, port: seq<Byte>)
    requires |port| == 2 && Laid(mem, at, port)
    ensures Le16(mem, at) == GTP_PORT <==> port == TUNNEL_PORT
  {
    assert At(mem, at + 0) == port[0] && At(mem, at + 1) == port[1];
    LittleTwo(mem, at);
    if port[0] == 0x68 && port[1] == 0x08 {
      assert port == TUNNEL_PORT;
    }
  }

  lemma TunnelIff(mem: Memory, at: nat, n: Net, s: Segment)
    requires NetOk(n) && n.V4? && SegmentOk(s) && HoldsPacket(mem, at, n, s)
    ensures IsTunnel(mem, at) <==> LeadsInside(mem, at, n, s)
  {
    LengthLaid(mem, at, n, ProtoOf(s));
    PartIff(mem, at, n, ProtoOf(s));
    if s.UdpPacket? {
      PortTwo(mem, at + NetBytes(n), s.srcPort);
      PortTwo(mem, at + NetBytes(n) + 2, s.dstPort);
    }
  }

  /** A packet is decoded to exactly its own fields: whatever the meta held before, behind any number of tags and any
      link header, in IPv4 or IPv6, TCP, UDP or neither, a fragment or whole, captured whole or in part. */
  lemma PacketDecoded(mem: Memory, tags: nat, link: Link, n: Net, s: Segment, m: MetaInfo)
    requires NetOk(n) && SegmentOk(s) && n.V6? == IsSix(link)
    requires HoldsLink(mem, tags, link) && HoldsPacket(mem, Front(tags, link), n, s)
    requires Front(tags, link) + NetLeast(n) <= m.attr.pktLen && !LeadsInside(mem, Front(tags, link), n, s)
    ensures WalkEnds(mem) && Decoded(mem, m) == Outcome(0, Expected(n, s, Front(tags, link), m))
  {
    var at := Front(tags, link);
    if n.V4? {
      TunnelIff(mem, at, n, s);
      LengthLaid(mem, at, n, ProtoOf(s));
      DecodedAt(mem, tags, link, m, Ip4(at));
    } else {
      DecodedAt(mem, tags, link, m, Ip6(at));
    }
    PacketSeen(mem, at, n, s, m, ViewOf(mem, if n.V4? then Ip4(at) else Ip6(at)));
  }

  lemma GtpLaid(mem: Memory, at: nat, g: Gtp)
    requires HoldsGtp(mem, at, g)
    ensures 8 + GtpOptions(At(mem, at)) == GtpBytes(g)
  {
    var b := At(mem, at);
    var b2 := One(g.extension) + 2 * (b / 8);
    var b1 := One(g.sequence) + 2 * b2;
    assert b == One(g.pdu) + 2 * b1;
    BitAbove(One(g.pdu), b1, 0);
    BitAbove(One(g.pdu), b1, 1);
    BitAbove(One(g.sequence), b2, 0);
    BitAbove(One(g.extension), b / 8, 0);
  }

  /** Where the packet in a tunnel is. */
  function Inside(at: nat, outer: Net, g: Gtp): nat {
    at + NetBytes(outer) + 8 + GtpBytes(g)
  }

  /** A packet in a tunnel is decoded to exactly the fields of the inner packet. */
  lemma TunnelDecoded(mem: Memory, tags: nat, link: Link, outer: Net, udp: Segment, g: Gtp, n: Net, s: Segment,
                      m: MetaInfo)
    requires NetOk(outer) && SegmentOk(udp) && NetOk(n) && SegmentOk(s) && n.V4? && !IsSix(link)
    requires HoldsLink(mem, tags, link) && HoldsPacket(mem, Front(tags, link), outer, udp)
    requires LeadsInside(mem, Front(tags, link), outer, udp)
    requires HoldsGtp(mem, Front(tags, link) + NetBytes(outer) + 8, g)
    requires HoldsPacket(mem, Inside(Front(tags, link), outer, g), n, s)
    requires Inside(Front(tags, link), outer, g) + 20 <= m.attr.pktLen
    ensures WalkEnds(mem) && Decoded(mem, m) == Outcome(0, Expected(n, s, Inside(Front(tags, link), outer, g), m))
  {
    var at, inner := Front(tags, link), Inside(Front(tags, link), outer, g);
    TunnelEnds(mem, at, outer, udp, g);
    LengthLaid(mem, at, outer, ProtoOf(udp));
    LengthLaid(mem, inner, n, ProtoOf(s));
    SmallOffset(inner, 0);
    DecodedAt(mem, tags, link, m, Ip4(inner));
    PacketSeen(mem, inner, n, s, m, ViewOf(mem, Ip4(inner)));
  }

  lemma TunnelEnds(mem: Memory, at: nat, outer: Net, udp: Segment, g: Gtp)
    requires NetOk(outer) && SegmentOk(udp) && HoldsPacket(mem, at, outer, udp) && LeadsInside(mem, at, outer, udp)
    requires HoldsGtp(mem, at + NetBytes(outer) + 8, g)
    ensures IsTunnel(mem, at) && TunnelEnd(mem, at) == Inside(at, outer, g)
  {
    TunnelIff(mem, at, outer, udp);
    LengthLaid(mem, at, outer, ProtoOf(udp));
    GtpLaid(mem, at + NetBytes(outer) + 8, g);
  }

  /** When a packet is refused: its network header is not of the version that the link header says, or it leads into
      a tunnel that holds no IPv4 header or whose header was not captured. Then, and when there is nothing to
      decode, the meta has no addresses and ports. */
  lemma RefusedIff(mem: Memory, m: MetaInfo, at: nat)
    requires WalkEnds(mem) && at == LinkEnd(mem) % 0x1_0000
    ensures Decoded(mem, m).code == 0 || Decoded(mem, m).code == -1
    ensures Decoded(mem, m).code == -1 <==>
      || (LinkType(mem) == IP6 && at + 40 <= m.attr.pktLen && At(mem, at) / 16 != 6)
      || (LinkType(mem) == IP4 && at + 20 <= m.attr.pktLen &&
          (At(mem, at) / 16 != 4 || (IsTunnel(mem, at) &&
             var inner := TunnelEnd(mem, at) % 0x1_0000; At(mem, inner) / 16 != 4 || m.attr.pktLen < inner + 20)))
    ensures Decoded(mem, m).code == -1 ==> Decoded(mem, m).meta == Cleared(m)
    ensures LinkType(mem) != IP4 && LinkType(mem) != IP6 ==> Decoded(mem, m) == Outcome(0, Cleared(m))
    ensures m.attr.pktLen < at + 20 ==> Decoded(mem, m) == Outcome(0, Cleared(m))
  {
  }

  // ---------------------------------------------------- complete packets

  /** The transport header is `h` bytes long, and all of the packet from `at` on was captured. */
  predicate Complete(n: Net, s: Segment, at: nat, pktLen: nat, h: nat)
    requires NetOk(n)
  {
    && !IsPart(n) && at + NetBytes(n) + Announced(n) <= pktLen && at + NetLeast(n) <= pktLen && h <= Announced(n)
    && match s
       case TcpSegment(_, _, _, words, _) => h == 4 * words && words >= 5
       case UdpPacket(_, _) => h == 8
       case Foreign(_) => false
  }

  /** In particular a complete TCP segment or UDP packet, as long as its offsets stay below 256, leaves its own
      addresses and ports, the offsets of its three layers, and the length of its payload. */
  lemma FrameRoundTrip(mem: Memory, tags: nat, link: Link, n: Net, s: Segment, m: MetaInfo, at: nat, h: nat)
    requires NetOk(n) && SegmentOk(s) && n.V6? == IsSix(link) && at == Front(tags, link)
    requires HoldsLink(mem, tags, link) && HoldsPacket(mem, at, n, s) && !LeadsInside(mem, at, n, s)
    requires Complete(n, s, at, m.attr.pktLen, h) && at + NetBytes(n) + h < 0x100
    ensures WalkEnds(mem) && Decoded(mem, m).code == 0 && OwnFields(n, s, at, h, m, Decoded(mem, m).meta)
  {
    PacketDecoded(mem, tags, link, n, s, m);
    ExpectedComplete(n, s, m, at, h);
  }

  /** The meta `r`, which was `m` before, has the fields of the packet. */
  predicate OwnFields(n: Net, s: Segment, at: nat, h: nat, m: MetaInfo, r: MetaInfo)
    requires NetOk(n) && !s.Foreign?
  {
    && r.attr.pktLen == m.attr.pktLen && (r.attr.version == 0 <==> n.V4?)
    && r.attr.srcIP == Kept(n.src) && r.attr.dstIP == Kept(n.dst)
    && r.attr.srcPort == BigEndian(s.srcPort) && r.attr.dstPort == BigEndian(s.dstPort)
    && r.layer3Offset == at && r.layer4Offset == at + NetBytes(n) && r.layer5Offset == at + NetBytes(n) + h
    && r.layer5payloadLen == Announced(n) - h
    && if s.TcpSegment? then
         r.attr.protocol == 0 && r.attr.seqNo == BigEndian(s.seqNo) && r.attr.flags == s.flags
       else
         r.attr.protocol == 1 && r.attr.seqNo == m.attr.seqNo && r.attr.flags == m.attr.flags
  }

  lemma ExpectedComplete(n: Net, s: Segment, m: MetaInfo, at: nat, h: nat)
    requires NetOk(n) && SegmentOk(s) && Complete(n, s, at, m.attr.pktLen, h) && at + NetBytes(n) + h < 0x100
    ensures OwnFields(n, s, at, h, m, Expected(n, s, at, m))
  {
    var l4: nat := at + NetBytes(n);
    assert l4 % 0x100 == l4 && (l4 + h) % 0x100 == l4 + h && at % 0x100 == at;
    WholeCaptured(n, s, m, at, h, l4);
    if s.TcpSegment? {
      TcpComplete(n, s, m, at, h, l4);
    } else {
      UdpComplete(n, s, m, at, h, l4);
    }
  }

  lemma WholeCaptured(n: Net, s: Segment, m: MetaInfo, at: nat, h: nat, l4: nat)
    requires NetOk(n) && Complete(n, s, at, m.attr.pktLen, h) && l4 == at + NetBytes(n)
    ensures Captured(Announced(n), l4, m.attr.pktLen) == Announced(n)
  {
  }

  lemma TcpComplete(n: Net, s: Segment, m: MetaInfo, at: nat, h: nat, l4: nat)
    requires NetOk(n) && SegmentOk(s) && s.TcpSegment? && Complete(n, s, at, m.attr.pktLen, h)
    requires l4 == at + NetBytes(n) && l4 % 0x100 == l4 && (l4 + h) % 0x100 == l4 + h && at % 0x100 == at
    requires Captured(Announced(n), l4, m.attr.pktLen) == Announced(n)
    ensures OwnFields(n, s, at, h, m, Expected(n, s, at, m))
  {
  }

  lemma UdpComplete(n: Net, s: Segment, m: MetaInfo, at: nat, h: nat, l4: nat)
    requires NetOk(n) && SegmentOk(s) && s.UdpPacket? && Complete(n, s, at, m.attr.pktLen, h)
    requires l4 == at + NetBytes(n) && l4 % 0x100 == l4 && (l4 + h) % 0x100 == l4 + h && at % 0x100 == at
    requires Captured(Announced(n), l4, m.attr.pktLen) == Announced(n)
    ensures OwnFields(n, s, at, h, m, Expected(n, s, at, m))
  {
  }
}
