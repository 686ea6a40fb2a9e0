/** Laws of the packet decoder: where the payload ends, and what VLAN tags change. */
module DecodeLaws {
  import opened Text
  import opened Decode

  // ---------------------------------------------------- when the walks end

  lemma WrapAgain(x: nat)
    ensures (x + 0x1_0000) % 0x1_0000 == x % 0x1_0000
  {
  }

  lemma {:induction false} TypeRepeats(mem: Memory, k: nat)
    requires k >= 1
    ensures TypeAt(mem, k + 0x4000) == TypeAt(mem, k)
  {
    WrapAgain(14 + 4 * (k - 1));
    assert 14 + 4 * (k + 0x4000 - 1) == 14 + 4 * (k - 1) + 0x1_0000;
  }

  lemma {:induction false} EarlyType(mem: Memory, k: nat) returns (e: nat)
    requires TypeAt(mem, k) != VLAN
    ensures e <= 0x4000 && TypeAt(mem, e) != VLAN
    decreases k
  {
    if k <= 0x4000 {
      e := k;
    } else {
      TypeRepeats(mem, k - 0x4000);
      e := EarlyType(mem, k - 0x4000);
    }
  }

  /** The walk over tags ends exactly when one of the first 16385 types it can come to is not a tag. */
  lemma TagsEndIff(mem: Memory)
    ensures TagsEnd(mem) <==> exists k: nat :: k <= 0x4000 && TypeAt(mem, k) != VLAN
  {
    if TagsEnd(mem) {
      var k: nat :| TypeAt(mem, k) != VLAN;
      var e := EarlyType(mem, k);
    }
  }

  lemma LabelRepeats(mem: Memory, off: nat, k: nat)
    ensures LabelByte(mem, off, k + 0x4000) == LabelByte(mem, off, k)
  {
    WrapAgain(off + 4 * k);
    assert off + 4 * (k + 0x4000) == off + 4 * k + 0x1_0000;
  }

  lemma {:induction false} EarlyLabel(mem: Memory, off: nat, m: nat) returns (e: nat)
    requires m >= 1 && !Bit(LabelByte(mem, off, m), 0)
    ensures 1 <= e <= 0x4000 && !Bit(LabelByte(mem, off, e), 0)
    decreases m
  {
    if m <= 0x4000 {
      e := m;
    } else {
      LabelRepeats(mem, off, m - 0x4000);
      e := EarlyLabel(mem, off, m - 0x4000);
    }
  }

  /** The walk over labels ends exactly when one of the 16384 positions it can come to has the bit clear. */
  lemma LabelsEndIff(mem: Memory, off: nat)
    ensures LabelsEnd(mem, off) <==> exists m: nat :: 1 <= m <= 0x4000 && !Bit(LabelByte(mem, off, m), 0)
  {
    if LabelsEnd(mem, off) {
      var m: nat :| m >= 1 && !Bit(LabelByte(mem, off, m), 0);
      var e := EarlyLabel(mem, off, m);
    }
  }

  // ----------------------------------------------------------- the payload

  /** Layer 5 is set by this packet. */
  predicate PayloadSet(v: View, pktLen: nat) {
    v.Headers? && SetsPayload(v.transport, v.ip.proto, Clamped(v.ip.len, v.ip.layer4 % 0x100, pktLen))
  }

  /** All that is read from the packet. */
  ghost function Seen(mem: Memory, pktLen: nat): View
    requires WalkEnds(mem)
  {
    ViewOf(mem, NetworkOf(mem, pktLen))
  }

  lemma ClampedFits(len: nat, l4: nat, pktLen: nat)
    ensures Clamped(len, l4, pktLen) <= len
    ensures Clamped(len, l4, pktLen) > 0 ==> Clamped(len, l4, pktLen) + l4 <= pktLen
  {
  }

  lemma TransportBound(t: TransportHeader, given: nat, proto: nat, pktLen: U16, m: MetaInfo)
    ensures var r := WithTransport(t, given, proto, pktLen, m);
      var len := Clamped(given, m.layer4Offset, pktLen);
      if SetsPayload(t, proto, len) then r.layer5Offset as int + r.layer5payloadLen as int <= pktLen
      else r.layer5Offset == m.layer5Offset && r.layer5payloadLen == m.layer5payloadLen
  {
    var len := Clamped(given, m.layer4Offset, pktLen);
    ClampedFits(given, m.layer4Offset, pktLen);
    if SetsPayload(t, proto, len) {
      PayloadFits(len, if TransportOf(proto, len) == Tcp then t.headerLen else 8, m, pktLen);
    }
  }

  lemma PayloadFits(len: nat, h: nat, m: MetaInfo, pktLen: U16)
    requires h <= len && m.layer4Offset + len <= pktLen
    ensures var r := WithPayload(len, h, m); r.layer5Offset as int + r.layer5payloadLen as int <= pktLen
  {
    var x: nat := m.layer4Offset + h;
    assert x % 0x100 <= x;
  }

  /** Whatever the headers hold, and however 16-bit lengths and 8-bit offsets wrap: the payload lies in the
      packet after decoding exactly when this packet set it, or the meta held such a payload before. */
  lemma PayloadBoundIff(mem: Memory, m: MetaInfo)
    requires WalkEnds(mem)
    ensures var r := Decoded(mem, m).meta;
      r.layer5Offset as int + r.layer5payloadLen as int <= m.attr.pktLen
      <==> PayloadSet(Seen(mem, m.attr.pktLen), m.attr.pktLen)
           || m.layer5Offset as int + m.layer5payloadLen as int <= m.attr.pktLen
  {
    AppliedBound(Seen(mem, m.attr.pktLen), m);
  }

  lemma AppliedBound(v: View, m: MetaInfo)
    ensures var r := Applied(v, m).meta;
      if PayloadSet(v, m.attr.pktLen) then r.layer5Offset as int + r.layer5payloadLen as int <= m.attr.pktLen
      else r.layer5Offset == m.layer5Offset && r.layer5payloadLen == m.layer5payloadLen
  {
    if v.Headers? {
      TransportBound(v.transport, v.ip.len, v.ip.proto, m.attr.pktLen, WithNetwork(v.ip, Cleared(m)));
    }
  }

  /** Decoding never touches the length of a packet. */
  lemma LengthKept(mem: Memory, m: MetaInfo)
    requires WalkEnds(mem)
    ensures Decoded(mem, m).meta.attr.pktLen == m.attr.pktLen
  {
    var v := Seen(mem, m.attr.pktLen);
    if v.Headers? {
      TransportKeepsLength(v.transport, v.ip.len, v.ip.proto, m.attr.pktLen, WithNetwork(v.ip, Cleared(m)));
    }
  }

  lemma TransportKeepsLength(t: TransportHeader, given: nat, proto: nat, pktLen: U16, m: MetaInfo)
    ensures WithTransport(t, given, proto, pktLen, m).attr.pktLen == m.attr.pktLen
  {
  }

  // ----------------------------------------------------------------- moving

  /** An address behind the MAC addresses. */
  predicate Behind(i: nat) {
    i >= 12
  }

  /** Behind the MAC addresses, the second memory is the first one moved up by `d`. */
  ghost predicate Moved(mem: Memory, mem': Memory, d: nat) {
    forall i: nat {:trigger Behind(i)} :: Behind(i) ==> At(mem', i + d) == At(mem, i)
  }

  lemma {:induction false} BigMoved(mem: Memory, mem': Memory, d: nat, i: nat, n: nat)
    requires Moved(mem, mem', d) && i >= 12
    ensures Big(mem', i + d, n) == Big(mem, i, n)
    decreases n
  {
    if n > 0 {
      BigMoved(mem, mem', d, i, n - 1);
      assert Behind(i + n - 1);
      assert i + d + n - 1 == (i + n - 1) + d;
    }
  }

  lemma {:induction false} LittleMoved(mem: Memory, mem': Memory, d: nat, i: nat, n: nat)
    requires Moved(mem, mem', d) && i >= 12
    ensures Little(mem', i + d, n) == Little(mem, i, n)
    decreases n
  {
    if n > 0 {
      LittleMoved(mem, mem', d, i + 1, n - 1);
      assert Behind(i);
      assert i + d + 1 == (i + 1) + d;
    }
  }

  lemma ReadsMoved(mem: Memory, mem': Memory, d: nat, i: nat)
    requires Moved(mem, mem', d) && i >= 12
    ensures At(mem', i + d) == At(mem, i)
    ensures Le16(mem', i + d) == Le16(mem, i) && Be16(mem', i + d) == Be16(mem, i)
  {
    assert Behind(i);
    BigMoved(mem, mem', d, i, 2);
    LittleMoved(mem, mem', d, i, 2);
  }

  lemma WordsMoved(mem: Memory, mem': Memory, d: nat, i: nat)
    requires Moved(mem, mem', d) && i >= 12
    ensures Be32(mem', i + d) == Be32(mem, i) && Le32(mem', i + d) == Le32(mem, i)
  {
    BigMoved(mem, mem', d, i, 4);
    LittleMoved(mem, mem', d, i, 4);
  }

  function MovedNetwork(net: Network, d: nat): Network {
    match net
    case Ip4(off) => Ip4(off + d)
    case Ip6(off) => Ip6(off + d)
    case _ => net
  }

  lemma HeaderMoved(mem: Memory, mem': Memory, d: nat, off: nat)
    requires Moved(mem, mem', d) && off >= 12
    ensures Version(mem', off + d) == Version(mem, off) && HeaderLen(mem', off + d) == HeaderLen(mem, off)
    ensures IsFragment(mem', off + d) == IsFragment(mem, off)
    ensures At(mem', off + d + 9) == At(mem, off + 9)
  {
    ReadsMoved(mem, mem', d, off);
    ReadsMoved(mem, mem', d, off + 6);
    ReadsMoved(mem, mem', d, off + 7);
    ReadsMoved(mem, mem', d, off + 9);
    assert off + 6 + d == off + d + 6 && off + 7 + d == off + d + 7 && off + 9 + d == off + d + 9;
  }

  lemma TunnelMoved(mem: Memory, mem': Memory, d: nat, off: nat)
    requires Moved(mem, mem', d) && off >= 12
    ensures IsTunnel(mem', off + d) == IsTunnel(mem, off)
    ensures TunnelEnd(mem', off + d) == TunnelEnd(mem, off) + d
  {
    HeaderMoved(mem, mem', d, off);
    var u := off + HeaderLen(mem, off);
    ReadsMoved(mem, mem', d, u);
    ReadsMoved(mem, mem', d, u + 2);
    ReadsMoved(mem, mem', d, u + 8);
    ReadsMoved(mem, mem', d, u + 9);
    var v := off + d + HeaderLen(mem', off + d);
    assert v == u + d && v + 2 == u + 2 + d && v + 8 == u + 8 + d && v + 9 == u + 9 + d;
  }

  /** A tunnel that the decoder follows ends early enough for its offset not to wrap. */
  predicate TunnelInRange(mem: Memory, kind: nat, off: nat, pktLen: nat, d: nat) {
    kind == IP4 && pktLen >= off + 20 && IsTunnel(mem, off) ==> TunnelEnd(mem, off) + d < 0x1_0000
  }

  lemma Ip4Moved(mem: Memory, mem': Memory, d: nat, off: nat, pktLen: nat)
    requires Moved(mem, mem', d) && off >= 12 && (IsTunnel(mem, off) ==> TunnelEnd(mem, off) + d < 0x1_0000)
    ensures Ip4At(mem', off + d, pktLen + d) == MovedNetwork(Ip4At(mem, off, pktLen), d)
  {
    HeaderMoved(mem, mem', d, off);
    TunnelMoved(mem, mem', d, off);
    if IsTunnel(mem, off) {
      var inner := TunnelEnd(mem, off);
      SmallOffset(inner, d);
      HeaderMoved(mem, mem', d, inner);
    }
  }

  lemma SmallOffset(x: nat, d: nat)
    requires x + d < 0x1_0000
    ensures x % 0x1_0000 == x && (x + d) % 0x1_0000 == x + d
  {
  }

  lemma NetworkMoved(mem: Memory, mem': Memory, d: nat, kind: nat, off: nat, pktLen: nat)
    requires Moved(mem, mem', d) && off >= 12 && TunnelInRange(mem, kind, off, pktLen, d)
    ensures NetworkAt(mem', kind, off + d, pktLen + d) == MovedNetwork(NetworkAt(mem, kind, off, pktLen), d)
  {
    if kind == IP4 && pktLen >= off + 20 {
      Ip4Moved(mem, mem', d, off, pktLen);
    } else if kind == IP6 && pktLen >= off + 40 {
      HeaderMoved(mem, mem', d, off);
    }
  }

  /** Clamping does not see the move exactly when the 8-bit offset does not wrap, or nothing is cut off. */
  lemma ClampMovedIff(len: nat, l4: Byte, pktLen: nat, d: nat)
    ensures Clamped(len, (l4 + d) % 0x100, pktLen + d) == Clamped(len, l4, pktLen)
      <==> l4 + d < 0x100 || len + l4 <= pktLen || len == 0
  {
    var x: nat := l4 + d;
    if x >= 0x100 {
      assert x % 0x100 <= x - 0x100;
    }
  }

  function WithLength(m: MetaInfo, pktLen: U16): MetaInfo {
    m.(attr := m.attr.(pktLen := pktLen))
  }

  function MovedByte(b: Byte, d: nat): Byte {
    (b + d) % 0x100
  }

  /** The meta for the moved packet: the layer offsets that were set have moved in 8 bits, and nothing else
      is different. */
  function Ahead(m: MetaInfo, pktLen: U16, d: nat, network: bool, payload: bool): MetaInfo {
    MetaInfo(m.attr.(pktLen := pktLen),
             if network then MovedByte(m.layer3Offset, d) else m.layer3Offset,
             if network then MovedByte(m.layer4Offset, d) else m.layer4Offset,
             if payload then MovedByte(m.layer5Offset, d) else m.layer5Offset,
             m.layer5payloadLen)
  }

  lemma ByteMoved(x: nat, d: nat)
    ensures (x % 0x100 + d) % 0x100 == (x + d) % 0x100
  {
  }

  lemma TransportAtMoved(mem: Memory, mem': Memory, d: nat, at: nat)
    requires Moved(mem, mem', d) && at >= 12
    ensures TransportAt(mem', at + d) == TransportAt(mem, at)
  {
    ReadsMoved(mem, mem', d, at);
    ReadsMoved(mem, mem', d, at + 2);
    WordsMoved(mem, mem', d, at + 4);
    ReadsMoved(mem, mem', d, at + 12);
    ReadsMoved(mem, mem', d, at + 13);
    assert at + 2 + d == at + d + 2 && at + 4 + d == at + d + 4;
    assert at + 12 + d == at + d + 12 && at + 13 + d == at + d + 13;
  }

  lemma PayloadMoved(m: MetaInfo, d: nat, h: nat)
    ensures (MovedByte(m.layer4Offset, d) + h) % 0x100 == MovedByte((m.layer4Offset + h) % 0x100, d)
  {
    var l4: nat := m.layer4Offset;
    ByteMoved(l4 + d, h);
    ByteMoved(l4 + h, d);
  }

  lemma TransportMoved(t: TransportHeader, d: nat, given: nat, proto: nat, pktLen: U16, pktLen': U16, m: MetaInfo)
    requires pktLen' == pktLen + d
    requires m.layer4Offset + d < 0x100 || given + m.layer4Offset <= pktLen
    ensures WithTransport(t, given, proto, pktLen', Ahead(m, pktLen', d, true, false)) ==
      Ahead(WithTransport(t, given, proto, pktLen, m), pktLen', d, true,
            SetsPayload(t, proto, Clamped(given, m.layer4Offset, pktLen)))
  {
    ClampMovedIff(given, m.layer4Offset, pktLen, d);
    PayloadMoved(m, d, t.headerLen);
    PayloadMoved(m, d, 8);
  }

  /** The header that is read after the move. */
  function MovedHeader(h: IpHeader, d: nat): IpHeader {
    h.(layer3 := h.layer3 + d, layer4 := h.layer4 + d)
  }

  lemma Words4Moved(mem: Memory, mem': Memory, d: nat, off: nat)
    requires Moved(mem, mem', d) && off >= 12
    ensures Be32(mem', off + d + 12) == Be32(mem, off + 12) && Be32(mem', off + d + 16) == Be32(mem, off + 16)
  {
    WordsMoved(mem, mem', d, off + 12);
    WordsMoved(mem, mem', d, off + 16);
    assert off + 12 + d == off + d + 12 && off + 16 + d == off + d + 16;
  }

  lemma Length4Moved(mem: Memory, mem': Memory, d: nat, off: nat)
    requires Moved(mem, mem', d) && off >= 12
    ensures Ip4Payload(mem', off + d) == Ip4Payload(mem, off)
  {
    HeaderMoved(mem, mem', d, off);
    ReadsMoved(mem, mem', d, off + 2);
    assert off + 2 + d == off + d + 2;
  }

  lemma Header4Moved(mem: Memory, mem': Memory, d: nat, off: nat)
    requires Moved(mem, mem', d) && off >= 12
    ensures Header4(mem', off + d) == MovedHeader(Header4(mem, off), d)
  {
    HeaderMoved(mem, mem', d, off);
    Words4Moved(mem, mem', d, off);
    Length4Moved(mem, mem', d, off);
  }

  lemma LastWordsMoved(mem: Memory, mem': Memory, d: nat, a: nat)
    requires Moved(mem, mem', d) && a >= 12
    ensures Le32(mem', a + d + 8) == Le32(mem, a + 8) && Le32(mem', a + d + 12) == Le32(mem, a + 12)
  {
    WordsMoved(mem, mem', d, a + 8);
    WordsMoved(mem, mem', d, a + 12);
    assert a + 8 + d == a + d + 8 && a + 12 + d == a + d + 12;
  }

  lemma FoldedMoved(mem: Memory, mem': Memory, d: nat, a: nat, a': nat)
    requires Moved(mem, mem', d) && a >= 12 && a' == a + d
    ensures Folded(mem', a') == Folded(mem, a)
  {
    LastWordsMoved(mem, mem', d, a);
  }

  lemma Rest6Moved(mem: Memory, mem': Memory, d: nat, off: nat)
    requires Moved(mem, mem', d) && off >= 12
    ensures Be16(mem', off + d + 4) == Be16(mem, off + 4) && At(mem', off + d + 6) == At(mem, off + 6)
  {
    ReadsMoved(mem, mem', d, off + 4);
    ReadsMoved(mem, mem', d, off + 6);
    assert off + 4 + d == off + d + 4 && off + 6 + d == off + d + 6;
  }

  lemma Header6Moved(mem: Memory, mem': Memory, d: nat, off: nat)
    requires Moved(mem, mem', d) && off >= 12
    ensures Header6(mem', off + d) == MovedHeader(Header6(mem, off), d)
  {
    FoldedMoved(mem, mem', d, off + 8, off + d + 8);
    FoldedMoved(mem, mem', d, off + 24, off + d + 24);
    Rest6Moved(mem, mem', d, off);
  }

  lemma WithNetworkMoved(h: IpHeader, d: nat, m: MetaInfo, pktLen: U16)
    ensures WithNetwork(MovedHeader(h, d), WithLength(m, pktLen)) == Ahead(WithNetwork(h, m), pktLen, d, true, false)
  {
    ByteMoved(h.layer3, d);
    ByteMoved(h.layer4, d);
  }

  lemma WithHeadersMoved(t: TransportHeader, d: nat, h: IpHeader, m: MetaInfo, pktLen': U16)
    requires pktLen' == m.attr.pktLen + d
    requires h.layer4 % 0x100 + d < 0x100 || h.len + h.layer4 % 0x100 <= m.attr.pktLen
    ensures WithHeaders(MovedHeader(h, d), t, WithLength(m, pktLen')) ==
      Ahead(WithHeaders(h, t, m), pktLen', d, true,
            SetsPayload(t, h.proto, Clamped(h.len, h.layer4 % 0x100, m.attr.pktLen)))
  {
    WithNetworkMoved(h, d, m, pktLen');
    HeaderKept(h, m);
    TransportMoved(t, d, h.len, h.proto, m.attr.pktLen, pktLen', WithNetwork(h, m));
  }

  lemma HeaderKept(h: IpHeader, m: MetaInfo)
    ensures WithNetwork(h, m).layer4Offset == h.layer4 % 0x100
  {
  }

  function MovedView(v: View, d: nat): View {
    match v
    case NoHeader(_) => v
    case Headers(h, t) => Headers(MovedHeader(h, d), t)
  }

  lemma ViewedMoved(mem: Memory, mem': Memory, d: nat, h: IpHeader)
    requires Moved(mem, mem', d) && h.layer4 >= 12
    ensures Viewed(mem', MovedHeader(h, d)) == MovedView(Viewed(mem, h), d)
  {
    TransportAtMoved(mem, mem', d, h.layer4);
  }

  lemma View4Moved(mem: Memory, mem': Memory, d: nat, off: nat, off': nat)
    requires Moved(mem, mem', d) && off >= 12 && off' == off + d
    ensures ViewOf(mem', Ip4(off')) == MovedView(ViewOf(mem, Ip4(off)), d)
  {
    Header4Moved(mem, mem', d, off);
    ViewedMoved(mem, mem', d, Header4(mem, off));
    Same4(mem, mem', d, off, off');
  }

  lemma Same4(mem: Memory, mem': Memory, d: nat, off: nat, off': nat)
    requires Viewed(mem', Header4(mem', off')) == MovedView(Viewed(mem, Header4(mem, off)), d)
    ensures ViewOf(mem', Ip4(off')) == MovedView(ViewOf(mem, Ip4(off)), d)
  {
  }

  lemma View6Moved(mem: Memory, mem': Memory, d: nat, off: nat, off': nat)
    requires Moved(mem, mem', d) && off >= 12 && off' == off + d
    ensures ViewOf(mem', Ip6(off')) == MovedView(ViewOf(mem, Ip6(off)), d)
  {
    Header6Moved(mem, mem', d, off);
    ViewedMoved(mem, mem', d, Header6(mem, off));
    Same6(mem, mem', d, off, off');
  }

  lemma Same6(mem: Memory, mem': Memory, d: nat, off: nat, off': nat)
    requires Viewed(mem', Header6(mem', off')) == MovedView(Viewed(mem, Header6(mem, off)), d)
    ensures ViewOf(mem', Ip6(off')) == MovedView(ViewOf(mem, Ip6(off)), d)
  {
  }

  lemma ViewMoved(mem: Memory, mem': Memory, d: nat, net: Network, net': Network)
    requires Moved(mem, mem', d) && (net.Ip4? || net.Ip6? ==> net.offset >= 12) && net' == MovedNetwork(net, d)
    ensures ViewOf(mem', net') == MovedView(ViewOf(mem, net), d)
  {
    if net.Ip4? {
      View4Moved(mem, mem', d, net.offset, net'.offset);
    } else if net.Ip6? {
      View6Moved(mem, mem', d, net.offset, net'.offset);
    }
  }

  /** The 8-bit layer 4 offset does not wrap, or the header announces no more than the packet holds. */
  predicate NotCut(v: View, pktLen: nat, d: nat) {
    v.Headers? ==> v.ip.layer4 % 0x100 + d < 0x100 || v.ip.len + v.ip.layer4 % 0x100 <= pktLen
  }

  lemma AppliedMoved(v: View, d: nat, m: MetaInfo, pktLen': U16)
    requires pktLen' == m.attr.pktLen + d && NotCut(v, m.attr.pktLen, d)
    ensures Applied(MovedView(v, d), WithLength(m, pktLen')) ==
      var r := Applied(v, m);
      Outcome(r.code, Ahead(r.meta, pktLen', d, v.Headers?, PayloadSet(v, m.attr.pktLen)))
  {
    ClearedMoved(m, d, pktLen');
    if v.Headers? {
      WithHeadersMoved(v.transport, d, v.ip, Cleared(m), pktLen');
    }
  }

  lemma ClearedMoved(m: MetaInfo, d: nat, pktLen: U16)
    ensures Cleared(WithLength(m, pktLen)) == WithLength(Cleared(m), pktLen)
    ensures WithLength(Cleared(m), pktLen) == Ahead(Cleared(m), pktLen, d, false, false)
  {
  }

  // ---------------------------------------------------------------- tagging

  /** The packet with `n` 802.1Q tags behind the MAC addresses. */
  function Tagged(mem: Memory, n: nat, tci: Memory): Memory {
    (i: nat) =>
      if i < 12 then mem(i)
      else if i >= 12 + 4 * n then mem(i - 4 * n)
      else if i % 4 == 0 then 0x81
      else if i % 4 == 1 then 0x00
      else tci(i)
  }

  lemma TaggedMoves(mem: Memory, n: nat, tci: Memory)
    ensures Moved(mem, Tagged(mem, n, tci), 4 * n)
  {
  }

  lemma PlainAddress(k: nat)
    requires 14 + 4 * k < 0x1_0004
    ensures TypeAddress(k) == 12 + 4 * k
  {
  }

  lemma LittleTwo(mem: Memory, i: nat)
    ensures Le16(mem, i) == At(mem, i) + 0x100 * At(mem, i + 1)
  {
    assert Little(mem, i + 1, 1) == At(mem, i + 1) + 0x100 * Little(mem, i + 2, 0);
  }

  lemma TagType(mem: Memory, n: nat, tci: Memory, k: nat)
    requires k < n && 14 + 4 * k < 0x1_0004
    ensures TypeAt(Tagged(mem, n, tci), k) == VLAN
  {
    PlainAddress(k);
    var i := 12 + 4 * k;
    assert i % 4 == 0 && (i + 1) % 4 == 1;
    LittleTwo(Tagged(mem, n, tci), i);
  }

  lemma OldType(mem: Memory, n: nat, tci: Memory, k: nat)
    requires 14 + 4 * (k + n) < 0x1_0004
    ensures TypeAt(Tagged(mem, n, tci), k + n) == TypeAt(mem, k)
  {
    PlainAddress(k);
    PlainAddress(k + n);
    TaggedMoves(mem, n, tci);
    ReadsMoved(mem, Tagged(mem, n, tci), 4 * n, 12 + 4 * k);
  }

  lemma TagsOfTagged(mem: Memory, n: nat, tci: Memory)
    requires TagsEnd(mem) && 14 + 4 * Tags(mem) + 4 * n < 0x1_0004
    ensures TagsEnd(Tagged(mem, n, tci)) && Tags(Tagged(mem, n, tci)) == Tags(mem) + n
  {
    var mem', t := Tagged(mem, n, tci), Tags(mem);
    OldType(mem, n, tci, t);
    forall k: nat | k < t + n ensures TypeAt(mem', k) == VLAN {
      if k < n {
        TagType(mem, n, tci, k);
      } else {
        OldType(mem, n, tci, k - n);
      }
    }
    assert FirstNonTag(mem', t + n);
    var u := Tags(mem');
    assert FirstNonTag(mem', u);
  }

  lemma LabelMoved(mem: Memory, mem': Memory, d: nat, off: nat, k: nat)
    requires Moved(mem, mem', d) && off >= 12 && off + d + 4 * k < 0x1_0000
    ensures LabelByte(mem', off + d, k) == LabelByte(mem, off, k)
  {
    ReadsMoved(mem, mem', d, off + 4 * k + 3);
    assert off + 4 * k + 3 + d == off + d + 4 * k + 3;
  }

  lemma LabelsMoved(mem: Memory, mem': Memory, d: nat, off: nat)
    requires Moved(mem, mem', d) && off >= 12 && LabelsEnd(mem, off) && off + d + 4 * Labels(mem, off) < 0x1_0000
    ensures LabelsEnd(mem', off + d) && Labels(mem', off + d) == Labels(mem, off)
  {
    var m := Labels(mem, off);
    forall k: nat | k <= m ensures LabelByte(mem', off + d, k) == LabelByte(mem, off, k) {
      LabelMoved(mem, mem', d, off, k);
    }
    ClearMoved(mem, mem', off, off + d, m);
    LabelsAre(mem', off + d, m);
  }

  lemma ClearMoved(mem: Memory, mem': Memory, off: nat, off': nat, m: nat)
    requires FirstClear(mem, off, m) && forall k: nat :: k <= m ==> LabelByte(mem', off', k) == LabelByte(mem, off, k)
    ensures FirstClear(mem', off', m)
  {
  }

  lemma LabelsAre(mem: Memory, off: nat, m: nat)
    requires FirstClear(mem, off, m)
    ensures LabelsEnd(mem, off) && Labels(mem, off) == m
  {
    assert FirstClear(mem, off, Labels(mem, off));
  }

  /** Tags are walked over, and the walk goes on as before. */
  lemma LinkOfTagged(mem: Memory, n: nat, tci: Memory)
    requires WalkEnds(mem) && LinkEnd(mem) + 4 * n < 0x1_0000
    ensures WalkEnds(Tagged(mem, n, tci))
    ensures LinkType(Tagged(mem, n, tci)) == LinkType(mem)
    ensures LinkEnd(Tagged(mem, n, tci)) == LinkEnd(mem) + 4 * n
  {
    TagsOfTagged(mem, n, tci);
    OldType(mem, n, tci, Tags(mem));
    TaggedMoves(mem, n, tci);
    LinkMoved(mem, Tagged(mem, n, tci), 4 * n, TypeAt(mem, Tags(mem)), 14 + 4 * Tags(mem));
  }

  lemma LinkMoved(mem: Memory, mem': Memory, d: nat, t: nat, off: nat)
    requires Moved(mem, mem', d) && WalkEnds(mem) && TagsEnd(mem')
    requires t == TypeAt(mem, Tags(mem)) == TypeAt(mem', Tags(mem'))
    requires off == 14 + 4 * Tags(mem) && off + d == 14 + 4 * Tags(mem')
    requires LinkEnd(mem) + d < 0x1_0000
    ensures WalkEnds(mem') && LinkType(mem') == LinkType(mem) && LinkEnd(mem') == LinkEnd(mem) + d
  {
    RestMoved(mem, mem', d, t, off);
  }

  lemma RestMoved(mem: Memory, mem': Memory, d: nat, t: nat, off: nat)
    requires Moved(mem, mem', d) && off >= 12 && (t == MPLS ==> LabelsEnd(mem, off))
    requires off + d + LinkRest(mem, t, off) < 0x1_0000
    ensures t == MPLS ==> LabelsEnd(mem', off + d)
    ensures LinkRest(mem', t, off + d) == LinkRest(mem, t, off)
  {
    if t == MPLS {
      LabelsMoved(mem, mem', d, off);
    }
  }

  lemma NetworkBehind(mem: Memory, kind: nat, off: nat, pktLen: nat)
    requires off >= 14 && TunnelInRange(mem, kind, off, pktLen, 0)
    ensures var net := NetworkAt(mem, kind, off, pktLen); net.Ip4? || net.Ip6? ==> net.offset >= 14
  {
  }

  lemma NetworkOfMoved(mem: Memory, mem': Memory, d: nat, pktLen: nat, kind: nat, off: nat)
    requires WalkEnds(mem) && WalkEnds(mem') && Moved(mem, mem', d)
    requires kind == LinkType(mem') == LinkType(mem) && off == LinkEnd(mem) && LinkEnd(mem') == off + d < 0x1_0000
    requires TunnelInRange(mem, kind, off, pktLen, d)
    ensures NetworkOf(mem', pktLen + d) == MovedNetwork(NetworkOf(mem, pktLen), d)
    ensures var net := NetworkOf(mem, pktLen); net.Ip4? || net.Ip6? ==> net.offset >= 14
  {
    SmallOffset(off, d);
    assert NetworkOf(mem, pktLen) == NetworkAt(mem, kind, off, pktLen);
    assert NetworkOf(mem', pktLen + d) == NetworkAt(mem', kind, off + d, pktLen + d);
    NetworkMoved(mem, mem', d, kind, off, pktLen);
    NetworkBehind(mem, kind, off, pktLen);
  }

  /** The headers that are seen through a stack of tags. */
  lemma SeenMoved(mem: Memory, pktLen: nat, n: nat, tci: Memory)
    requires WalkEnds(mem) && LinkEnd(mem) + 4 * n < 0x1_0000
    requires TunnelInRange(mem, LinkType(mem), LinkEnd(mem), pktLen, 4 * n)
    ensures WalkEnds(Tagged(mem, n, tci))
    ensures Seen(Tagged(mem, n, tci), pktLen + 4 * n) == MovedView(Seen(mem, pktLen), 4 * n)
  {
    var mem' := Tagged(mem, n, tci);
    LinkOfTagged(mem, n, tci);
    TaggedMoves(mem, n, tci);
    NetworkOfMoved(mem, mem', 4 * n, pktLen, LinkType(mem), LinkEnd(mem));
    ViewMoved(mem, mem', 4 * n, NetworkOf(mem, pktLen), NetworkOf(mem', pktLen + 4 * n));
  }

  lemma DecodedTagged(mem: Memory, m: MetaInfo, n: nat, tci: Memory, d: nat, pktLen': U16)
    requires WalkEnds(mem) && d == 4 * n && pktLen' == m.attr.pktLen + d
    requires LinkEnd(mem) + d < 0x1_0000 && TunnelInRange(mem, LinkType(mem), LinkEnd(mem), m.attr.pktLen, d)
    ensures WalkEnds(Tagged(mem, n, tci))
    ensures Decoded(Tagged(mem, n, tci), WithLength(m, pktLen')) ==
      Applied(MovedView(Seen(mem, m.attr.pktLen), d), WithLength(m, pktLen'))
  {
    SeenMoved(mem, m.attr.pktLen, n, tci);
  }

  lemma DecodedMoved(mem: Memory, m: MetaInfo, d: nat, v: View, pktLen': U16)
    requires WalkEnds(mem) && pktLen' == m.attr.pktLen + d
    requires v == Seen(mem, m.attr.pktLen) && NotCut(v, m.attr.pktLen, d)
    ensures Applied(MovedView(v, d), WithLength(m, pktLen')) ==
      var r := Decoded(mem, m);
      Outcome(r.code, Ahead(r.meta, pktLen', d, v.Headers?, PayloadSet(v, m.attr.pktLen)))
  {
    AppliedMoved(v, d, m, pktLen');
  }

  /** VLAN transparency. Any stack of tags leaves the return code, the addresses, the ports, the flags and
      the payload length as they were, and moves each layer offset that is set by 4 per tag, in 8 bits. The
      offsets of the IP headers have to stay within 16 bits, and the layer 4 offset within 8 unless the IP
      header announces no more than was captured. Here `d` is the length of the tags and `v` is what is seen
      without them. */
  lemma VlanTransparent(mem: Memory, m: MetaInfo, n: nat, tci: Memory, d: nat, v: View, pktLen': U16)
    requires WalkEnds(mem) && d == 4 * n && pktLen' == m.attr.pktLen + d
    requires LinkEnd(mem) + d < 0x1_0000 && TunnelInRange(mem, LinkType(mem), LinkEnd(mem), m.attr.pktLen, d)
    requires v == Seen(mem, m.attr.pktLen) && NotCut(v, m.attr.pktLen, d)
    ensures WalkEnds(Tagged(mem, n, tci))
    ensures Decoded(Tagged(mem, n, tci), WithLength(m, pktLen')) ==
      var r := Decoded(mem, m);
      Outcome(r.code, Ahead(r.meta, pktLen', d, v.Headers?, PayloadSet(v, m.attr.pktLen)))
  {
    DecodedTagged(mem, m, n, tci, d, pktLen');
    DecodedMoved(mem, m, d, v, pktLen');
  }
}
