/** VXLAN encapsulation of inbound packets and decapsulation of outbound ones,
    section 5 of RFC 7348, on whole packets. */
module Tunnel {
  import opened Words
  import opened Wrappers
  import opened WireFormat
  import opened HeaderStack
  import opened PacketParsers
  import opened FrameParsing
  import opened PacketState

  // ---------- what encapsulation makes of a header stack ----------

  /** The inner copy of an IPv4 header: every field but the checksum. */
  function InnerCopy(ip: Ipv4, r: Residue): Ipv4 {
    ip.(hdrChecksum := r.innerIpv4.hdrChecksum)
  }

  /** One of the six entries of `encap_outer` applies: exactly one outer IP
      version and at most one of UDP and TCP. */
  predicate Encapsulable(h: Headers) {
    && (h.ipv4.Some? <==> h.ipv6.None?)
    && (h.udp.None? || h.tcp.None?)
  }

  /** The L3 length the outer lengths are computed from. */
  function PayloadLen(h: Headers, r: Residue): bv16 {
    if !Encapsulable(h) then r.payloadLen
    else if h.ipv4.Some? then h.ipv4.value.totalLen
    else Add16(h.ipv6.value.payloadLen, 40)
  }

  function OuterIp(len: bv16, r: Residue): Ipv4 {
    r.ipv4.(version := 4, ihl := 5, dscp := 0, totalLen := Add16(len, 50), identification := 0, flags := 2,
            fragOffset := 0, ttl := 64, protocol := IP_PROTOCOLS_UDP)
  }

  function OuterUdpOf(len: bv16): Udp {
    Udp(0, UDP_PORT_VXLAN, Add16(len, 30), 0)
  }

  function OuterVxlan(r: Residue): Vxlan {
    r.vxlan.(flags := 0x08, tof := 0)
  }

  /** The L3/L4 headers moved behind the tunnel, when one entry applies. */
  function MovedInside(h: Headers, r: Residue): Headers {
    if !Encapsulable(h) then h
    else h.(ipv4 := None, ipv6 := None, udp := None, tcp := None,
            innerIpv4 := if h.ipv4.Some? then Some(InnerCopy(h.ipv4.value, r)) else h.innerIpv4,
            innerIpv6 := if h.ipv6.Some? then h.ipv6 else h.innerIpv6,
            innerTcp := if h.tcp.Some? then h.tcp else h.innerTcp,
            innerUdp := if h.udp.Some? then h.udp else h.innerUdp)
  }

  /** Reading a field of the bridge header, valid or not. */
  function BridgeOf(h: Headers, r: Residue): Bridge {
    if h.bridge.Some? then h.bridge.value else r.bridge
  }

  /** Writing to an invalid bridge header has no effect. */
  function SetOuterType(bg: Option<Bridge>, t: bv16): Option<Bridge> {
    if bg.Some? then Some(bg.value.(outerEthernetType := t)) else None
  }

  /** The outer headers around whatever is inside. */
  function Wrapped(h: Headers, len: bv16, r: Residue): Headers {
    h.(ethernet := if h.ethernet.Some? then Some(h.ethernet.value.(etherType := ETHERTYPE_IPV4)) else None,
       ipv4 := Some(OuterIp(len, r)),
       udp := Some(OuterUdpOf(len)),
       vxlan := Some(OuterVxlan(r)),
       innerEthernet := Some(r.innerEthernet.(etherType := BridgeOf(h, r).outerEthernetType)))
  }

  /** The headers after `EnCapVxlan`. */
  function Encapsulated(h: Headers, r: Residue): Headers {
    Wrapped(MovedInside(h, r), PayloadLen(h, r), r).(bridge := SetOuterType(h.bridge, ETHERTYPE_IPV4))
  }

  // ---------- the control, action by action ----------

  /** `copy_ipv4_header` */
  method CopyIpv4Header(phv: Phv, r: Residue)
    requires phv.hdr.ipv4.Some?
    modifies phv`hdr
    ensures phv.hdr == old(phv.hdr).(innerIpv4 := Some(InnerCopy(old(phv.hdr).ipv4.value, r)), ipv4 := None)
  {
    var src, dst := phv.hdr.ipv4.value, r.innerIpv4;
    dst := dst.(version := src.version);
    dst := dst.(ihl := src.ihl);
    dst := dst.(dscp := src.dscp);
    dst := dst.(ecn := src.ecn);
    dst := dst.(totalLen := src.totalLen);
    dst := dst.(identification := src.identification);
    dst := dst.(flags := src.flags);
    dst := dst.(fragOffset := src.fragOffset);
    dst := dst.(ttl := src.ttl);
    dst := dst.(protocol := src.protocol);
    dst := dst.(srcAddr := src.srcAddr);
    dst := dst.(dstAddr := src.dstAddr);
    phv.hdr := phv.hdr.(innerIpv4 := Some(dst), ipv4 := None);
  }

  method RewriteInnerIpv4Unknown(phv: Phv, r: Residue) returns (payloadLen: bv16)
    requires phv.hdr.ipv4.Some? && phv.hdr.ipv6.None? && phv.hdr.udp.None? && phv.hdr.tcp.None?
    modifies phv`hdr
    ensures payloadLen == PayloadLen(old(phv.hdr), r) && phv.hdr == MovedInside(old(phv.hdr), r)
  {
    payloadLen := phv.hdr.ipv4.value.totalLen;
    CopyIpv4Header(phv, r);
  }

  method RewriteInnerIpv4Udp(phv: Phv, r: Residue) returns (payloadLen: bv16)
    requires phv.hdr.ipv4.Some? && phv.hdr.ipv6.None? && phv.hdr.udp.Some? && phv.hdr.tcp.None?
    modifies phv`hdr
    ensures payloadLen == PayloadLen(old(phv.hdr), r) && phv.hdr == MovedInside(old(phv.hdr), r)
  {
    payloadLen := phv.hdr.ipv4.value.totalLen;
    CopyIpv4Header(phv, r);
    phv.hdr := phv.hdr.(innerUdp := phv.hdr.udp);
    phv.hdr := phv.hdr.(udp := None);
  }

  method RewriteInnerIpv4Tcp(phv: Phv, r: Residue) returns (payloadLen: bv16)
    requires phv.hdr.ipv4.Some? && phv.hdr.ipv6.None? && phv.hdr.udp.None? && phv.hdr.tcp.Some?
    modifies phv`hdr
    ensures payloadLen == PayloadLen(old(phv.hdr), r) && phv.hdr == MovedInside(old(phv.hdr), r)
  {
    payloadLen := phv.hdr.ipv4.value.totalLen;
    CopyIpv4Header(phv, r);
    phv.hdr := phv.hdr.(innerTcp := phv.hdr.tcp);
    phv.hdr := phv.hdr.(tcp := None);
  }

  method RewriteInnerIpv6Unknown(phv: Phv, r: Residue) returns (payloadLen: bv16)
    requires phv.hdr.ipv4.None? && phv.hdr.ipv6.Some? && phv.hdr.udp.None? && phv.hdr.tcp.None?
    modifies phv`hdr
    ensures payloadLen == PayloadLen(old(phv.hdr), r) && phv.hdr == MovedInside(old(phv.hdr), r)
  {
    payloadLen := phv.hdr.ipv6.value.payloadLen + 40;
    phv.hdr := phv.hdr.(innerIpv6 := phv.hdr.ipv6);
    phv.hdr := phv.hdr.(ipv6 := None);
  }

  method RewriteInnerIpv6Udp(phv: Phv, r: Residue) returns (payloadLen: bv16)
    requires phv.hdr.ipv4.None? && phv.hdr.ipv6.Some? && phv.hdr.udp.Some? && phv.hdr.tcp.None?
    modifies phv`hdr
    ensures payloadLen == PayloadLen(old(phv.hdr), r) && phv.hdr == MovedInside(old(phv.hdr), r)
  {
    payloadLen := phv.hdr.ipv6.value.payloadLen + 40;
    phv.hdr := phv.hdr.(innerIpv6 := phv.hdr.ipv6);
    phv.hdr := phv.hdr.(innerUdp := phv.hdr.udp);
    phv.hdr := phv.hdr.(udp := None);
    phv.hdr := phv.hdr.(ipv6 := None);
  }

  method RewriteInnerIpv6Tcp(phv: Phv, r: Residue) returns (payloadLen: bv16)
    requires phv.hdr.ipv4.None? && phv.hdr.ipv6.Some? && phv.hdr.udp.None? && phv.hdr.tcp.Some?
    modifies phv`hdr
    ensures payloadLen == PayloadLen(old(phv.hdr), r) && phv.hdr == MovedInside(old(phv.hdr), r)
  {
    payloadLen := phv.hdr.ipv6.value.payloadLen + 40;
    phv.hdr := phv.hdr.(innerIpv6 := phv.hdr.ipv6);
    phv.hdr := phv.hdr.(innerTcp := phv.hdr.tcp);
    phv.hdr := phv.hdr.(tcp := None);
    phv.hdr := phv.hdr.(ipv6 := None);
  }

  /** Table `encap_outer`: its six entries, and no action on a miss. */
  method EncapOuter(phv: Phv, r: Residue) returns (payloadLen: bv16)
    modifies phv`hdr
    ensures payloadLen == PayloadLen(old(phv.hdr), r) && phv.hdr == MovedInside(old(phv.hdr), r)
  {
    hide MovedInside;
    var key := (phv.hdr.ipv4.Some?, phv.hdr.udp.Some?, phv.hdr.tcp.Some?, phv.hdr.ipv6.Some?);
    if key == (true, false, false, false) {
      payloadLen := RewriteInnerIpv4Unknown(phv, r);
    } else if key == (true, true, false, false) {
      payloadLen := RewriteInnerIpv4Udp(phv, r);
    } else if key == (true, false, true, false) {
      payloadLen := RewriteInnerIpv4Tcp(phv, r);
    } else if key == (false, false, false, true) {
      payloadLen := RewriteInnerIpv6Unknown(phv, r);
    } else if key == (false, true, false, true) {
      payloadLen := RewriteInnerIpv6Udp(phv, r);
    } else if key == (false, false, true, true) {
      payloadLen := RewriteInnerIpv6Tcp(phv, r);
    } else {
      payloadLen := r.payloadLen;
      MissesLeaveHeaders(phv.hdr, r);
    }
  }

  lemma MissesLeaveHeaders(h: Headers, r: Residue)
    requires !Encapsulable(h)
    ensures MovedInside(h, r) == h
  {
  }

  /** `rewrite_ipv4_vxlan`: the outer headers, made valid one after the other. */
  method AddVxlan(phv: Phv, r: Residue, payloadLen: bv16)
    modifies phv`hdr
    ensures phv.hdr == Wrapped(old(phv.hdr), payloadLen, r)
  {
    phv.hdr := phv.hdr.(innerEthernet := Some(r.innerEthernet.(etherType := BridgeOf(phv.hdr, r).outerEthernetType)));
    var ip := r.ipv4.(version := 4, ihl := 5, identification := 0, flags := 2, fragOffset := 0);
    ip := ip.(protocol := IP_PROTOCOLS_UDP, ttl := 64, dscp := 0);
    ip := ip.(totalLen := Add16(payloadLen, 50));
    phv.hdr := phv.hdr.(ipv4 := Some(ip));
    var udp := r.udp.(srcPort := 0, dstPort := UDP_PORT_VXLAN, checksum := 0);
    udp := udp.(length := Add16(payloadLen, 30));
    phv.hdr := phv.hdr.(udp := Some(udp));
    phv.hdr := phv.hdr.(vxlan := Some(r.vxlan.(flags := 0x08, tof := 0)));
    if phv.hdr.ethernet.Some? {
      phv.hdr := phv.hdr.(ethernet := Some(phv.hdr.ethernet.value.(etherType := ETHERTYPE_IPV4)));
    }
  }

  method EnCapVxlan(phv: Phv, r: Residue)
    modifies phv`hdr
    ensures phv.hdr == Encapsulated(old(phv.hdr), r)
  {
    var payloadLen := EncapOuter(phv, r);
    AddVxlan(phv, r, payloadLen);
    phv.hdr := phv.hdr.(bridge := SetOuterType(phv.hdr.bridge, ETHERTYPE_IPV4));
  }

  // ---------- every byte is kept ----------

  /** A bridge header as P02 ingress writes it for an inbound packet that is
      not yet tunnelled: the outer Ethernet header is off, an IP packet follows. */
  predicate CarriesRawIp(bg: Bridge) {
    && bg.proto == PKT_BRIDGE && bg.outerEthernetInvalid == 1 && bg.dlPkt == 0
    && (bg.outerEthernetType == ETHERTYPE_IPV4 || bg.outerEthernetType == ETHERTYPE_IPV6)
  }

  function RawState(bg: Bridge): PacketParsers.State {
    if bg.outerEthernetType == ETHERTYPE_IPV4 then OuterIpv4V2 else OuterIpv6
  }

  /** The L3 packet as the tunnel carries it: byte for byte, except that an
      inner IPv4 checksum is whatever the header's container held. */
  function CarriedL3(bg: Bridge, l3: seq<byte>, r: Residue): seq<byte> {
    if bg.outerEthernetType == ETHERTYPE_IPV4 then PutChecksum(l3, r.innerIpv4.hdrChecksum) else l3
  }

  /** An IPv4 packet with its checksum field overwritten. */
  function PutChecksum(l3: seq<byte>, x: bv16): seq<byte> {
    if |l3| >= 20 then l3[..10] + Bytes2(x) + l3[12..] else l3
  }

  /** The length field of the L3 packet, as the encapsulation reads it. */
  function ClaimedLen(bg: Bridge, l3: seq<byte>): bv16 {
    if bg.outerEthernetType == ETHERTYPE_IPV4 then (match Ipv4At(l3) case None => 0 case Some(ip) => ip.totalLen)
    else (match Ipv6At(l3) case None => 0 case Some(ip) => Add16(ip.payloadLen, 40))
  }

  function ParseRaw(bg: Bridge, l3: seq<byte>): Outcome {
    Parse(P13Egress, EncodeBridge(bg) + l3)
  }

  function InnerEthernetOf(bg: Bridge, r: Residue): Ethernet {
    r.innerEthernet.(etherType := bg.outerEthernetType)
  }

  /** The shape P13 egress finds behind such a bridge header. */
  ghost predicate RawShape(bg: Bridge, l3: seq<byte>, h: Headers, payload: seq<byte>) {
    && h == NO_HEADERS.(bridge := Some(bg), ipv4 := h.ipv4, ipv6 := h.ipv6, udp := h.udp, tcp := h.tcp)
    && (h.udp.None? || h.tcp.None?)
    && (if bg.outerEthernetType == ETHERTYPE_IPV4
        then h.ipv4.Some? && h.ipv4 == Ipv4At(l3) && h.ipv6.None?
        else h.ipv6.Some? && h.ipv6 == Ipv6At(l3) && h.ipv4.None?)
    && EmitRange(h, 4, SLOTS) + payload == l3
  }

  lemma RawIsShaped(bg: Bridge, l3: seq<byte>)
    requires CarriesRawIp(bg)
    ensures ParseRaw(bg, l3).Accepted? ==> RawShape(bg, l3, ParseRaw(bg, l3).hdr, ParseRaw(bg, l3).payload)
  {
    hide EncodeBridge, Parse, Run, EmitRange, Emit, DecodeIpv4, DecodeIpv6;
    var h0 := NO_HEADERS.(bridge := Some(bg));
    ParsesBridge(P13Egress, bg, l3);
    RawSelects(bg);
    RunParsesRaw(RawState(bg), bg, l3);
    var r := ParseRaw(bg, l3);
    if r.Accepted? {
      EmitBehindBridge(r.hdr);
      EmitBehindBridge(h0);
      EmitsNothingBehind(bg);
      DropsSamePrefix(EncodeBridge(bg), EmitRange(r.hdr, 4, SLOTS), r.payload, l3);
    }
  }

  lemma RawSelects(bg: Bridge)
    requires CarriesRawIp(bg)
    ensures Next(P13Egress, BridgeHeader, NO_HEADERS.(bridge := Some(bg)), 0) == RawState(bg)
  {
  }

  lemma EmitBehindBridge(h: Headers)
    requires h.bridge.Some? && h.ethernet.None? && h.fabric.None? && h.cpu.None?
    ensures Emit(h) == EncodeBridge(h.bridge.value) + EmitRange(h, 4, SLOTS)
  {
    hide EncodeBridge;
    assert EmitRange(h, 3, SLOTS) == EmitRange(h, 4, SLOTS);
    assert EmitRange(h, 2, SLOTS) == EmitRange(h, 3, SLOTS);
    assert EmitRange(h, 1, SLOTS) == EmitRange(h, 2, SLOTS);
  }

  lemma EmitsNothingBehind(bg: Bridge)
    ensures EmitRange(NO_HEADERS.(bridge := Some(bg)), 4, SLOTS) == []
  {
    hide EmitRange;
    OnlyBridgeIsClear(bg);
    ClearFromHigher(NO_HEADERS.(bridge := Some(bg)), 1, 4);
    EmitRangeClear(NO_HEADERS.(bridge := Some(bg)), 4, SLOTS);
  }

  function L4Bytes(udp: Option<Udp>, tcp: Option<Tcp>): seq<byte> {
    (if udp.Some? then EncodeUdp(udp.value) else []) + (if tcp.Some? then EncodeTcp(tcp.value) else [])
  }

  lemma EmitRaw(h: Headers)
    requires h == NO_HEADERS.(bridge := h.bridge, ipv4 := h.ipv4, ipv6 := h.ipv6, udp := h.udp, tcp := h.tcp)
    requires h.ipv4.Some? <==> h.ipv6.None?
    ensures EmitRange(h, 4, SLOTS) ==
      (if h.ipv4.Some? then EncodeIpv4(h.ipv4.value) else EncodeIpv6(h.ipv6.value)) + L4Bytes(h.udp, h.tcp)
  {
    hide EncodeIpv4, EncodeIpv6, EncodeUdp, EncodeTcp;
    assert EmitRange(h, 12, SLOTS) == [];
    assert EmitRange(h, 8, SLOTS) == [];
    assert EmitRange(h, 6, SLOTS) == L4Bytes(h.udp, h.tcp);
  }

  lemma EmitEncapsulated(g: Headers)
    requires g.innerOptions == [] && (g.innerIpv4.Some? <==> g.innerIpv6.None?)
    requires g.innerUdp.None? || g.innerTcp.None?
    ensures EmitInner(g) ==
      (if g.innerIpv4.Some? then EncodeIpv4(g.innerIpv4.value) else EncodeIpv6(g.innerIpv6.value)) +
        L4Bytes(g.innerUdp, g.innerTcp)
  {
    hide EncodeIpv4, EncodeIpv6, EncodeUdp, EncodeTcp;
    assert EmitRange(g, 14, SLOTS) == L4Bytes(g.innerUdp, g.innerTcp);
  }

  lemma ChecksumBytes(ip: Ipv4, x: bv16, rest: seq<byte>)
    ensures EncodeIpv4(ip.(hdrChecksum := x)) + rest == PutChecksum(EncodeIpv4(ip) + rest, x)
  {
    hide Ipv4Front, Bytes2, Bytes4;
    var l3 := EncodeIpv4(ip) + rest;
    assert l3[..10] == EncodeIpv4Front(ip);
    assert l3[12..] == (Bytes4(ip.srcAddr) + Bytes4(ip.dstAddr)) + rest;
  }

  lemma CarriedIsEncoded(bg: Bridge, l3: seq<byte>, r: Residue, ip: Ipv4, rest: seq<byte>)
    requires bg.outerEthernetType == ETHERTYPE_IPV4 && l3 == EncodeIpv4(ip) + rest
    ensures EncodeIpv4(InnerCopy(ip, r)) + rest == CarriedL3(bg, l3, r)
  {
    hide EncodeIpv4, PutChecksum;
    ChecksumBytes(ip, r.innerIpv4.hdrChecksum, rest);
  }

  /** Encapsulation keeps every byte: what leaves P13 egress is the bridge
      header, fifty bytes of tunnel headers and the original L3 packet. */
  lemma EncapsulationKeepsEveryByte(bg: Bridge, l3: seq<byte>, r: Residue)
    requires CarriesRawIp(bg) && ParseRaw(bg, l3).Accepted?
    ensures var o := ParseRaw(bg, l3);
      var len := ClaimedLen(bg, l3);
      && o.hdr.bridge == Some(bg)
      && Emit(Encapsulated(o.hdr, r)) + o.payload ==
           EncodeBridge(bg.(outerEthernetType := ETHERTYPE_IPV4)) +
           VxlanStack(OuterIp(len, r), OuterUdpOf(len), OuterVxlan(r), InnerEthernetOf(bg, r), CarriedL3(bg, l3, r))
  {
    hide EncodeBridge, EncodeIpv4, EncodeIpv6, EncodeUdp, EncodeTcp, DecodeIpv4, DecodeIpv6, ParseRaw, EmitRange, Emit;
    hide CarriedL3, OuterIp, InnerCopy, VxlanStack;
    RawIsShaped(bg, l3);
    var o := ParseRaw(bg, l3);
    var g := Encapsulated(o.hdr, r);
    EncapsulatedInner(bg, l3, r, o.hdr, o.payload);
    EmitBehindBridge(g);
    EmitVxlan(g);
    StackAppends(OuterIp(ClaimedLen(bg, l3), r), OuterUdpOf(ClaimedLen(bg, l3)), OuterVxlan(r), InnerEthernetOf(bg, r),
                 EmitInner(g), o.payload);
  }

  lemma StackAppends(ip: Ipv4, udp: Udp, vx: Vxlan, ie: Ethernet, x: seq<byte>, y: seq<byte>)
    ensures VxlanStack(ip, udp, vx, ie, x) + y == VxlanStack(ip, udp, vx, ie, x + y)
    ensures |VxlanStack(ip, udp, vx, ie, x)| == 50 + |x|
  {
    hide EncodeIpv4, EncodeUdp, EncodeVxlan, EncodeEthernet;
    var a, b, c, d := EncodeIpv4(ip), EncodeUdp(udp), EncodeVxlan(vx), EncodeEthernet(ie);
    assert (a + (b + (c + (d + x)))) + y == a + (b + (c + (d + (x + y))));
  }

  lemma EncapsulatedInner(bg: Bridge, l3: seq<byte>, r: Residue, h: Headers, payload: seq<byte>)
    requires CarriesRawIp(bg) && RawShape(bg, l3, h, payload)
    ensures EmitInner(Encapsulated(h, r)) + payload == CarriedL3(bg, l3, r)
  {
    hide EncodeBridge, EncodeIpv4, EncodeIpv6, EncodeUdp, EncodeTcp, DecodeIpv4, DecodeIpv6, EmitRange, CarriedL3;
    hide OuterIp, InnerCopy;
    var g := Encapsulated(h, r);
    var l4 := L4Bytes(h.udp, h.tcp);
    EmitRaw(h);
    EmitEncapsulated(g);
    assert L4Bytes(g.innerUdp, g.innerTcp) == l4;
    if h.ipv4.Some? {
      assert l3 == EncodeIpv4(h.ipv4.value) + (l4 + payload);
      CarriedIsEncoded(bg, l3, r, h.ipv4.value, l4 + payload);
      assert EmitInner(g) + payload == EncodeIpv4(InnerCopy(h.ipv4.value, r)) + (l4 + payload);
    } else {
      assert EmitInner(g) + payload == (EncodeIpv6(h.ipv6.value) + l4) + payload == l3;
      CarriedIpv6(bg, l3, r);
    }
  }

  lemma CarriedIpv6(bg: Bridge, l3: seq<byte>, r: Residue)
    requires bg.outerEthernetType == ETHERTYPE_IPV6
    ensures CarriedL3(bg, l3, r) == l3
  {
  }

  // ---------- the outer lengths ----------

  /** A byte count as a 16-bit length field holds it: counted up from zero,
      wrapping around at 2^16. */
  function Len16(n: nat): bv16 {
    if n == 0 then 0 else Inc16(Len16(n - 1))
  }

  lemma Len16Steps(n: nat)
    ensures Len16(0) == 0
    ensures n > 0 ==> Len16(n) == Inc16(Len16(n - 1))
  {
  }

  lemma SumSteps(a: bv16, b: bv16)
    ensures Add16(a, Inc16(b)) == Inc16(Add16(a, b))
    ensures Add16(a, 0) == a
  {
  }

  lemma {:induction false} Len16Adds(m: nat, n: nat)
    ensures Len16(m + n) == Add16(Len16(m), Len16(n))
  {
    hide Len16, Add16, Inc16;
    Len16Steps(n);
    SumSteps(Len16(m), 0);
    if n != 0 {
      Len16Adds(m, n - 1);
      Len16Steps(m + n);
      SumSteps(Len16(m), Len16(n - 1));
    }
  }

  lemma Len16Values()
    ensures Len16(30) == 30 && Len16(50) == 50
  {
    assert Len16(5) == 5;
    Len16Adds(5, 5);
    Len16Adds(10, 10);
    Len16Adds(20, 10);
    Len16Adds(30, 20);
  }

  /** Both outer length fields give the true byte counts (modulo the field's
      2^16) exactly when the L3 packet's own length field gives the true length
      of the L3 bytes: no padding behind the packet and nothing cut off. */
  lemma OuterLengthsAreTrue(bg: Bridge, l3: seq<byte>, r: Residue)
    ensures var len := ClaimedLen(bg, l3);
      var stack := VxlanStack(OuterIp(len, r), OuterUdpOf(len), OuterVxlan(r), InnerEthernetOf(bg, r),
                              CarriedL3(bg, l3, r));
      && (OuterIp(len, r).totalLen == Len16(|stack|) <==> len == Len16(|l3|))
      && (OuterUdpOf(len).length == Len16(|stack| - 20) <==> len == Len16(|l3|))
  {
    hide VxlanStack, ClaimedLen, OuterVxlan, Len16, Add16, OuterIp, OuterUdpOf, CarriedL3;
    var len := ClaimedLen(bg, l3);
    StackAppends(OuterIp(len, r), OuterUdpOf(len), OuterVxlan(r), InnerEthernetOf(bg, r), CarriedL3(bg, l3, r), []);
    CarriedLength(bg, l3, r);
    OuterFields(len, r);
    Len16Adds(|l3|, 50);
    Len16Adds(|l3|, 30);
    Len16Values();
    SameOffset(len, Len16(|l3|));
  }

  function HighByte(x: bv16): byte { (x >> 8) as byte }
  function LowByte(x: bv16): byte { (x & 0xFF) as byte }
  function Inc16(x: bv16): bv16 { x + 1 }
  function Inc8(x: byte): byte { x + 1 }
  function ByteValue(x: byte): nat { x as nat }

  /** The number a 16-bit field's two bytes stand for. */
  function Value16(x: bv16): nat {
    256 * ByteValue(HighByte(x)) + ByteValue(LowByte(x))
  }

  lemma IncBytes(x: bv16)
    ensures LowByte(x) != 0xFF ==> HighByte(Inc16(x)) == HighByte(x) && LowByte(Inc16(x)) == Inc8(LowByte(x))
    ensures LowByte(x) == 0xFF ==> HighByte(Inc16(x)) == Inc8(HighByte(x)) && LowByte(Inc16(x)) == 0
  {
  }

  lemma IncValue(x: byte)
    ensures x != 0xFF ==> ByteValue(Inc8(x)) == ByteValue(x) + 1
    ensures ByteValue(0xFF) == 255 && ByteValue(0) == 0
  {
  }

  lemma NextValue(x: bv16)
    requires Value16(x) < 0xFFFF
    ensures Value16(Inc16(x)) == Value16(x) + 1
  {
    hide HighByte, LowByte, Inc16, Inc8, ByteValue;
    IncBytes(x);
    IncValue(LowByte(x));
    IncValue(HighByte(x));
  }

  /** Below 2^16 the count is the number itself. */
  lemma {:induction false} Len16IsNumber(n: nat)
    requires n < 0x1_0000
    ensures Value16(Len16(n)) == n
  {
    hide HighByte, LowByte, Inc16, ByteValue;
    Len16Steps(n);
    if n == 0 {
      ZeroValue();
    } else {
      hide Value16, Len16;
      Len16IsNumber(n - 1);
      NextValue(Len16(n - 1));
    }
  }

  lemma ZeroValue()
    ensures Value16(0) == 0
  {
  }

  lemma SameByte(x: byte, y: byte)
    requires ByteValue(x) == ByteValue(y)
    ensures x == y
  {
    assert (x as nat) as byte == x && (y as nat) as byte == y;
  }

  lemma ByteBound(x: byte)
    ensures ByteValue(x) < 256
  {
  }

  lemma BytesTell(x: bv16, y: bv16)
    requires HighByte(x) == HighByte(y) && LowByte(x) == LowByte(y)
    ensures x == y
  {
  }

  lemma SameValue(x: bv16, y: bv16)
    requires Value16(x) == Value16(y)
    ensures x == y
  {
    hide HighByte, LowByte, ByteValue;
    ByteBound(LowByte(x));
    ByteBound(LowByte(y));
    SameByte(HighByte(x), HighByte(y));
    SameByte(LowByte(x), LowByte(y));
    BytesTell(x, y);
  }

  lemma IsLen16Iff(x: bv16, n: nat)
    requires n < 0x1_0000
    ensures x == Len16(n) <==> Value16(x) == n
  {
    hide Value16, Len16;
    Len16IsNumber(n);
    if Value16(x) == n {
      SameValue(x, Len16(n));
    }
  }

  /** In numbers, when the sums do not overflow: the outer total length is the
      number of bytes behind the bridge header and the UDP length that number
      less the IP header, exactly when the packet's own length field is true. */
  lemma OuterLengthsInNumbers(bg: Bridge, l3: seq<byte>, r: Residue)
    requires |l3| + 50 < 0x1_0000
    ensures var len := ClaimedLen(bg, l3);
      && (Value16(OuterIp(len, r).totalLen) == |l3| + 50 <==> Value16(len) == |l3|)
      && (Value16(OuterUdpOf(len).length) == |l3| + 30 <==> Value16(len) == |l3|)
  {
    hide VxlanStack, ClaimedLen, OuterVxlan, Len16, Value16, OuterIp, OuterUdpOf, CarriedL3;
    var len := ClaimedLen(bg, l3);
    StackAppends(OuterIp(len, r), OuterUdpOf(len), OuterVxlan(r), InnerEthernetOf(bg, r), CarriedL3(bg, l3, r), []);
    CarriedLength(bg, l3, r);
    OuterLengthsAreTrue(bg, l3, r);
    IsLen16Iff(OuterIp(len, r).totalLen, |l3| + 50);
    IsLen16Iff(OuterUdpOf(len).length, |l3| + 30);
    IsLen16Iff(len, |l3|);
  }

  lemma CarriedLength(bg: Bridge, l3: seq<byte>, r: Residue)
    ensures |CarriedL3(bg, l3, r)| == |l3|
  {
  }

  lemma OuterFields(len: bv16, r: Residue)
    ensures OuterIp(len, r).totalLen == Add16(len, 50) && OuterUdpOf(len).length == Add16(len, 30)
  {
  }

  lemma SameOffset(x: bv16, y: bv16)
    ensures Add16(x, 50) == Add16(y, 50) <==> x == y
    ensures Add16(x, 30) == Add16(y, 30) <==> x == y
  {
  }

  // ---------- decapsulation ----------

  /** A checksum unit: any function of the other twelve IPv4 fields. */
  function Checksummed(ip: Ipv4, ck: Ipv4 -> bv16): Ipv4 {
    ip.(hdrChecksum := ck(ip.(hdrChecksum := 0)))
  }

  /** The headers after `InternetOutProcess`. */
  function Decapsulated(h: Headers): Headers {
    if h.innerIpv4.Some? == h.innerIpv6.Some? then h
    else h.(innerEthernet := None, vxlan := None, udp := None, ipv4 := None,
            ethernet := if h.innerIpv6.Some? && h.ethernet.Some?
                        then Some(h.ethernet.value.(etherType := ETHERTYPE_IPV6)) else h.ethernet)
  }

  method InternetOutProcess(phv: Phv)
    modifies phv`hdr, phv`meta
    ensures phv.hdr == Decapsulated(old(phv.hdr))
    ensures phv.meta == old(phv.meta).(innerChecksumEn :=
      old(phv.meta).innerChecksumEn || (old(phv.hdr).innerIpv4.Some? && old(phv.hdr).innerIpv6.None?))
  {
    var v4, v6 := phv.hdr.innerIpv4.Some?, phv.hdr.innerIpv6.Some?;
    if v4 && !v6 {
      phv.hdr := phv.hdr.(innerEthernet := None);
      phv.hdr := phv.hdr.(vxlan := None);
      phv.hdr := phv.hdr.(udp := None);
      phv.hdr := phv.hdr.(ipv4 := None);
      phv.meta := phv.meta.(innerChecksumEn := true);
    } else if !v4 && v6 {
      if phv.hdr.ethernet.Some? {
        phv.hdr := phv.hdr.(ethernet := Some(phv.hdr.ethernet.value.(etherType := ETHERTYPE_IPV6)));
      }
      phv.hdr := phv.hdr.(innerEthernet := None);
      phv.hdr := phv.hdr.(vxlan := None);
      phv.hdr := phv.hdr.(udp := None);
      phv.hdr := phv.hdr.(ipv4 := None);
    }
  }

  /** The P02 egress deparser recomputes the outer IPv4 checksum always and
      the inner one when asked to. */
  function WithChecksums(h: Headers, innerEn: bool, ck: Ipv4 -> bv16): Headers {
    h.(ipv4 := if h.ipv4.Some? then Some(Checksummed(h.ipv4.value, ck)) else None,
       innerIpv4 := if innerEn && h.innerIpv4.Some? then Some(Checksummed(h.innerIpv4.value, ck)) else h.innerIpv4)
  }

  method P02EgressDeparse(phv: Phv, ck: Ipv4 -> bv16) returns (bytes: seq<byte>)
    modifies phv`hdr
    ensures phv.hdr == WithChecksums(old(phv.hdr), phv.meta.innerChecksumEn, ck)
    ensures bytes == Emit(phv.hdr)
  {
    if phv.hdr.ipv4.Some? {
      phv.hdr := phv.hdr.(ipv4 := Some(Checksummed(phv.hdr.ipv4.value, ck)));
    }
    if phv.meta.innerChecksumEn && phv.hdr.innerIpv4.Some? {
      phv.hdr := phv.hdr.(innerIpv4 := Some(Checksummed(phv.hdr.innerIpv4.value, ck)));
    }
    bytes := Emit(phv.hdr);
  }

  /** An L3 packet with a freshly computed checksum when it is IPv4. */
  function FreshL3(etherType: bv16, l3: seq<byte>, ck: Ipv4 -> bv16): seq<byte> {
    if etherType == ETHERTYPE_IPV4 && Ipv4At(l3).Some?
    then PutChecksum(l3, Checksummed(Ipv4At(l3).value, ck).hdrChecksum)
    else l3
  }

  /** A parsed frame: outer headers as given, inner packet as `l3`. */
  ghost predicate ParsedFrame(h: Headers, payload: seq<byte>, etherType: bv16, l3: seq<byte>) {
    && h.fabric.None? && h.cpu.None? && IsVxlan(h)
    && (etherType == ETHERTYPE_IPV4 ==> h.innerIpv4.Some? && h.innerIpv4 == Ipv4At(l3) && h.innerIpv6 == None)
    && (etherType == ETHERTYPE_IPV6 ==> h.innerIpv6.Some? && h.innerIpv4 == None)
    && EmitInner(h) + payload == l3
  }

  /** Decapsulation strips exactly the tunnel: what is left is the outer
      Ethernet header and the inner packet with a fresh IPv4 checksum. */
  lemma DecapsulationLeavesInner(h: Headers, payload: seq<byte>, etherType: bv16, l3: seq<byte>, ck: Ipv4 -> bv16)
    requires etherType == ETHERTYPE_IPV4 || etherType == ETHERTYPE_IPV6
    requires ParsedFrame(h, payload, etherType, l3) && h.bridge.None? && h.ethernet.Some?
    ensures var e := if etherType == ETHERTYPE_IPV6 then h.ethernet.value.(etherType := ETHERTYPE_IPV6)
      else h.ethernet.value;
      Emit(WithChecksums(Decapsulated(h), h.innerIpv4.Some?, ck)) + payload ==
        EncodeEthernet(e) + FreshL3(etherType, l3, ck)
  {
    hide EncodeEthernet, EncodeIpv4, DecodeIpv4, EmitRange, PutChecksum, Emit;
    var d := WithChecksums(Decapsulated(h), h.innerIpv4.Some?, ck);
    EmitDecapsulated(d);
    if etherType == ETHERTYPE_IPV4 {
      var ip := h.innerIpv4.value;
      var x := ck(ip.(hdrChecksum := 0));
      InnerIpv4First(h);
      InnerIpv4First(d);
      SameTail(h, d);
      var rest := EmitRange(h, 12, SLOTS) + payload;
      assert l3 == EncodeIpv4(ip) + rest;
      ChecksumBytes(ip, x, rest);
      assert EmitInner(d) + payload == EncodeIpv4(ip.(hdrChecksum := x)) + rest;
    } else {
      assert EmitInner(d) == EmitInner(h) by { EmitRangeAgrees(h, d, 11, SLOTS); }
    }
  }

  lemma {:induction false} EmptyPieces(h: Headers, lo: nat, mid: nat)
    requires lo <= mid <= SLOTS && forall k :: lo <= k < mid ==> Piece(h, k) == []
    ensures EmitRange(h, lo, SLOTS) == EmitRange(h, mid, SLOTS)
    decreases mid - lo
  {
    hide Piece;
    if lo < mid {
      EmptyPieces(h, lo + 1, mid);
    }
  }

  lemma EmitDecapsulated(h: Headers)
    requires h.bridge.None? && h.ethernet.Some? && h.fabric.None? && h.cpu.None? && h.ipv4.None? && h.ipv6.None?
    requires h.udp.None? && h.tcp.None? && h.icmp.None? && h.vxlan.None? && h.innerEthernet.None?
    ensures Emit(h) == EncodeEthernet(h.ethernet.value) + EmitInner(h)
  {
    hide EncodeEthernet;
    assert forall k :: 2 <= k < 11 ==> Piece(h, k) == [];
    EmptyPieces(h, 2, 11);
    assert Piece(h, 0) == [] && Piece(h, 1) == EncodeEthernet(h.ethernet.value);
    hide Piece;
    assert EmitRange(h, 1, SLOTS) == Piece(h, 1) + EmitRange(h, 2, SLOTS);
  }

  lemma InnerIpv4First(h: Headers)
    requires h.innerIpv4.Some?
    ensures EmitInner(h) == EncodeIpv4(h.innerIpv4.value) + EmitRange(h, 12, SLOTS)
  {
    hide EncodeIpv4;
  }

  lemma SameTail(h: Headers, g: Headers)
    requires h.innerOptions == g.innerOptions && h.innerIpv6 == g.innerIpv6 && h.innerTcp == g.innerTcp
    requires h.innerUdp == g.innerUdp
    ensures EmitRange(h, 12, SLOTS) == EmitRange(g, 12, SLOTS)
  {
    hide EncodeIpv6, EncodeTcp, EncodeUdp, EmitRange;
    EmitRangeAgrees(h, g, 12, SLOTS);
  }

  // ---------- there and back ----------

  /** The bytes P13 egress sends around for a raw packet it does not redirect. */
  function TunnelledBytes(bg: Bridge, l3: seq<byte>, r: Residue): seq<byte> {
    match ParseRaw(bg, l3)
    case Rejected => []
    case Accepted(h, _, payload) => Emit(Encapsulated(h, r)) + payload
  }

  /** A tunnelled packet taken apart at fixed places: a bridge header, four tunnel
      headers and what they are around. */
  datatype OnWire = OnWire(bridge: Bridge, ip: Ipv4, udp: Udp, vx: Vxlan, ie: Ethernet, l3: seq<byte>)

  function ReadOff(b: seq<byte>): Option<OnWire> {
    if |b| < 79 then None
    else Some(OnWire(DecodeBridge(b[..29]), DecodeIpv4(b[29..49]), DecodeUdp(b[49..57]), DecodeVxlan(b[57..65]),
                     DecodeEthernet(b[65..79]), b[79..]))
  }

  lemma StackOnWire(bg: Bridge, ip: Ipv4, udp: Udp, vx: Vxlan, ie: Ethernet, l3: seq<byte>)
    ensures ReadOff(EncodeBridge(bg) + VxlanStack(ip, udp, vx, ie, l3)) == Some(OnWire(bg, ip, udp, vx, ie, l3))
  {
    hide EncodeBridge, EncodeIpv4, EncodeUdp, EncodeVxlan, EncodeEthernet, DecodeBridge, DecodeIpv4, DecodeUdp;
    hide DecodeVxlan, DecodeEthernet;
    BridgeRoundTrip(bg);
    Ipv4RoundTrip(ip);
    UdpRoundTrip(udp);
    VxlanRoundTrip(vx);
    EthernetRoundTrip(ie);
    var b := EncodeBridge(bg) + VxlanStack(ip, udp, vx, ie, l3);
    assert b[..29] == EncodeBridge(bg);
    assert b[29..49] == EncodeIpv4(ip);
    assert b[49..57] == EncodeUdp(udp);
    assert b[57..65] == EncodeVxlan(vx);
    assert b[65..79] == EncodeEthernet(ie);
    assert b[79..] == l3;
  }

  /** The same bytes but for the IPv4 checksum. */
  ghost predicate SameButChecksum(etherType: bv16, a: seq<byte>, b: seq<byte>) {
    |a| == |b| && forall i :: 0 <= i < |a| && (etherType == 0x86DD || !(10 <= i < 12)) ==> b[i] == a[i]
  }

  /** The tunnel headers in numbers, read off the bytes sent: IPv4 without options or
      fragments, DF set, a TTL of 64 and UDP; UDP to port 4789 without a checksum;
      a standard VXLAN header; and lengths that are the true ones exactly when the
      packet's own length is, as long as the sums do not overflow. */
  lemma TunnelOnWire(bg: Bridge, l3: seq<byte>, r: Residue)
    requires CarriesRawIp(bg) && ParseRaw(bg, l3).Accepted?
    ensures ReadOff(TunnelledBytes(bg, l3, r)).Some?
    ensures var w := ReadOff(TunnelledBytes(bg, l3, r)).value;
      && w.bridge == bg.(outerEthernetType := 0x0800)
      && w.ip.version == 4 && w.ip.ihl == 5 && w.ip.dscp == 0 && w.ip.identification == 0 && w.ip.flags == 2
      && w.ip.fragOffset == 0 && w.ip.ttl == 64 && w.ip.protocol == 17
      && w.udp.srcPort == 0 && w.udp.dstPort == 4789 && w.udp.checksum == 0
      && w.vx.flags == 8 && w.vx.tof == 0
      && w.ie.etherType == bg.outerEthernetType && SameButChecksum(bg.outerEthernetType, l3, w.l3)
    ensures |l3| + 50 < 0x1_0000 ==>
      var w := ReadOff(TunnelledBytes(bg, l3, r)).value;
      && (Value16(w.ip.totalLen) == |l3| + 50 <==> Value16(ClaimedLen(bg, l3)) == |l3|)
      && (Value16(w.udp.length) == |l3| + 30 <==> Value16(ClaimedLen(bg, l3)) == |l3|)
  {
    hide VxlanStack, ClaimedLen, Value16, CarriedL3, ParseRaw, Encapsulated, Emit, OuterIp, OuterUdpOf, OuterVxlan;
    hide EncodeBridge, ReadOff, SameButChecksum;
    EncapsulationKeepsEveryByte(bg, l3, r);
    var len := ClaimedLen(bg, l3);
    StackOnWire(bg.(outerEthernetType := ETHERTYPE_IPV4), OuterIp(len, r), OuterUdpOf(len), OuterVxlan(r),
                InnerEthernetOf(bg, r), CarriedL3(bg, l3, r));
    OuterNumbers(len, r);
    CarriedBytes(bg, l3, r);
    if |l3| + 50 < 0x1_0000 {
      OuterLengthsInNumbers(bg, l3, r);
    }
  }

  lemma OuterNumbers(len: bv16, r: Residue)
    ensures var ip := OuterIp(len, r);
      && ip.version == 4 && ip.ihl == 5 && ip.dscp == 0 && ip.identification == 0 && ip.flags == 2 && ip.fragOffset == 0
      && ip.ttl == 64 && ip.protocol == 17
    ensures var udp := OuterUdpOf(len); udp.srcPort == 0 && udp.dstPort == 4789 && udp.checksum == 0
    ensures OuterVxlan(r).flags == 8 && OuterVxlan(r).tof == 0
  {
  }

  lemma CarriedBytes(bg: Bridge, l3: seq<byte>, r: Residue)
    requires CarriesRawIp(bg)
    ensures SameButChecksum(bg.outerEthernetType, l3, CarriedL3(bg, l3, r))
  {
    hide Bytes2;
  }

  /** What a later parser finds in a tunnelled packet: the inner header the
      encapsulation made of `h`, and all the inner bytes. */
  ghost predicate Reparsed(o: Outcome, bg: Bridge, l3: seq<byte>, r: Residue, h: Headers) {
    o.Accepted? ==>
      && o.vxlanType == VXLAN_TYPE_STD
      && o.hdr.bridge == Some(bg.(outerEthernetType := ETHERTYPE_IPV4))
      && o.hdr.innerIpv4 == Encapsulated(h, r).innerIpv4
      && o.hdr.innerIpv6 == Encapsulated(h, r).innerIpv6
      && ParsedFrame(o.hdr, o.payload, bg.outerEthernetType, CarriedL3(bg, l3, r))
  }

  /** Re-parsing a tunnelled packet, in P13 ingress or in P02 egress, gives back
      the inner header the encapsulation made and all the inner bytes. */
  lemma TunnelledPacketReparses(p: Parser, bg: Bridge, l3: seq<byte>, r: Residue)
    requires p == P13Ingress || p == P02Egress
    requires CarriesRawIp(bg) && ParseRaw(bg, l3).Accepted?
    ensures Reparsed(Parse(p, TunnelledBytes(bg, l3, r)), bg, l3, r, ParseRaw(bg, l3).hdr)
  {
    hide Parse, ParseRaw, EncodeBridge, VxlanStack, CarriedL3, OuterIp, InnerParsed, RawShape, ParsedFrame, TakenAsJd;
    hide CarriesVxlan, Encapsulated, Emit;
    RawIsShaped(bg, l3);
    EncapsulationKeepsEveryByte(bg, l3, r);
    var len := ClaimedLen(bg, l3);
    var bg' := bg.(outerEthernetType := ETHERTYPE_IPV4);
    var ip, udp, vx, ie := OuterIp(len, r), OuterUdpOf(len), OuterVxlan(r), InnerEthernetOf(bg, r);
    OuterCarriesVxlan(len, r);
    StandardIsNotJd(p, r);
    ParsesBridgedFrame(p, bg', ip, udp, vx, ie, CarriedL3(bg, l3, r));
    ReadsBehindStandardVxlan(p, bg', ip, udp, vx, ie, CarriedL3(bg, l3, r), Parse(p, TunnelledBytes(bg, l3, r)));
    CarriesEncapsulated(bg, l3, r, ParseRaw(bg, l3).hdr, ParseRaw(bg, l3).payload);
  }

  /** P02 egress accepts whatever the encapsulation sends. */
  lemma EgressAcceptsTunnelled(bg: Bridge, l3: seq<byte>, r: Residue)
    requires CarriesRawIp(bg) && ParseRaw(bg, l3).Accepted?
    ensures Parse(P02Egress, TunnelledBytes(bg, l3, r)).Accepted?
  {
    hide Parse, ParseRaw, EncodeBridge, VxlanStack, CarriedL3, OuterIp, TakenAsJd, CarriesVxlan, Encapsulated, Emit;
    hide Run, EmitRange, FrameType;
    RawIsShaped(bg, l3);
    EncapsulationKeepsEveryByte(bg, l3, r);
    var len := ClaimedLen(bg, l3);
    var bg' := bg.(outerEthernetType := ETHERTYPE_IPV4);
    var ip, udp, vx, ie := OuterIp(len, r), OuterUdpOf(len), OuterVxlan(r), InnerEthernetOf(bg, r);
    OuterCarriesVxlan(len, r);
    BridgedFrameReachesInner(P02Egress, bg', ip, udp, vx, ie, CarriedL3(bg, l3, r));
    CarriedLength(bg, l3, r);
    EgressStops(InnerIpState(P02Egress, vx, ie), WithVxlan(NO_HEADERS.(bridge := Some(bg')), ip, udp, vx, ie),
                FrameType(P02Egress, vx), CarriedL3(bg, l3, r));
  }

  /** What a parser that finds a standard VXLAN frame has read. */
  lemma ReadsBehindStandardVxlan(p: Parser, bg: Bridge, ip: Ipv4, udp: Udp, vx: Vxlan, ie: Ethernet, l3: seq<byte>,
                                 o: Outcome)
    requires p == P13Ingress || p == P02Egress
    requires !TakenAsJd(p, vx) && (ie.etherType == ETHERTYPE_IPV4 || ie.etherType == ETHERTYPE_IPV6)
    requires InnerParsed(InnerIpState(p, vx, ie), WithVxlan(NO_HEADERS.(bridge := Some(bg)), ip, udp, vx, ie),
                         FrameType(p, vx), l3, o)
    ensures o.Accepted? ==>
      && o.vxlanType == VXLAN_TYPE_STD && o.hdr.bridge == Some(bg) && ParsedFrame(o.hdr, o.payload, ie.etherType, l3)
      && o.hdr.innerIpv4 == (if ie.etherType == ETHERTYPE_IPV4 then Ipv4At(l3) else None)
      && o.hdr.innerIpv6 == (if ie.etherType == ETHERTYPE_IPV6 then Ipv6At(l3) else None)
  {
    hide TakenAsJd, Ipv4At, Ipv6At, EmitInner;
  }

  /** The inner IP headers the encapsulation makes are the ones it sends. */
  lemma CarriesEncapsulated(bg: Bridge, l3: seq<byte>, r: Residue, h: Headers, payload: seq<byte>)
    requires CarriesRawIp(bg) && RawShape(bg, l3, h, payload)
    ensures Encapsulated(h, r).innerIpv4 == (if bg.outerEthernetType == ETHERTYPE_IPV4 then Ipv4At(CarriedL3(bg, l3, r))
                                             else None)
    ensures Encapsulated(h, r).innerIpv6 == (if bg.outerEthernetType == ETHERTYPE_IPV6 then Ipv6At(CarriedL3(bg, l3, r))
                                             else None)
  {
    hide Ipv4At, Ipv6At, EmitRange, CarriedL3, OuterIp, InnerCopy;
    CarriedHeader(bg, l3, r);
  }

  lemma OuterCarriesVxlan(len: bv16, r: Residue)
    ensures CarriesVxlan(OuterIp(len, r), OuterUdpOf(len))
  {
  }

  lemma StandardIsNotJd(p: Parser, r: Residue)
    ensures !TakenAsJd(p, OuterVxlan(r))
  {
  }

  lemma CarriedHeader(bg: Bridge, l3: seq<byte>, r: Residue)
    ensures bg.outerEthernetType == ETHERTYPE_IPV4 && Ipv4At(l3).Some? ==>
      Ipv4At(CarriedL3(bg, l3, r)) == Some(InnerCopy(Ipv4At(l3).value, r))
    ensures bg.outerEthernetType == ETHERTYPE_IPV6 ==> CarriedL3(bg, l3, r) == l3
  {
    hide EncodeIpv4, DecodeIpv4, PutChecksum, Bytes2;
    if bg.outerEthernetType == ETHERTYPE_IPV4 && |l3| >= 20 {
      var ip, rest := DecodeIpv4(l3[..20]), l3[20..];
      Ipv4Bytes(l3[..20]);
      assert l3 == l3[..20] + rest;
      CarriedIsEncoded(bg, l3, r, ip, rest);
      assert CarriedL3(bg, l3, r)[..20] == EncodeIpv4(InnerCopy(ip, r));
      Ipv4RoundTrip(InnerCopy(ip, r));
    }
  }

  lemma PutChecksumTwice(l3: seq<byte>, x: bv16, y: bv16)
    ensures PutChecksum(PutChecksum(l3, x), y) == PutChecksum(l3, y)
    ensures Ipv4At(l3).Some? ==> PutChecksum(l3, Ipv4At(l3).value.hdrChecksum) == l3
  {
    hide Bytes2, DecodeIpv4;
    if |l3| >= 20 {
      ChecksumOnWire(l3);
      assert PutChecksum(l3, x)[..10] == l3[..10];
      assert PutChecksum(l3, x)[12..] == l3[12..];
      assert l3 == l3[..10] + l3[10..12] + l3[12..];
    }
  }

  lemma ChecksumOnWire(l3: seq<byte>)
    requires |l3| >= 20
    ensures Bytes2(DecodeIpv4(l3[..20]).hdrChecksum) == l3[10..12]
  {
  }

  /** What leaves P02 egress when the parsed packet is decapsulated behind the
      outer Ethernet header `e`. */
  function DecapsulatedBytes(o: Outcome, e: Ethernet, ck: Ipv4 -> bv16): seq<byte> {
    match o
    case Rejected => []
    case Accepted(g, _, payload) =>
      var h := g.(bridge := None, ethernet := Some(e));
      Emit(WithChecksums(Decapsulated(h), h.innerIpv4.Some?, ck)) + payload
  }

  /** The outer EtherType follows the inner packet. */
  function OuterEthernetAfter(e: Ethernet, etherType: bv16): Ethernet {
    if etherType == ETHERTYPE_IPV6 then e.(etherType := ETHERTYPE_IPV6) else e
  }

  /** Decapsulating what encapsulation sent gives the original L3 packet, with
      a fresh IPv4 checksum. */
  lemma TunnelRoundTrip(bg: Bridge, l3: seq<byte>, r: Residue, e: Ethernet, ck: Ipv4 -> bv16)
    requires CarriesRawIp(bg) && ParseRaw(bg, l3).Accepted?
    ensures Parse(P02Egress, TunnelledBytes(bg, l3, r)).Accepted?
    ensures DecapsulatedBytes(Parse(P02Egress, TunnelledBytes(bg, l3, r)), e, ck) ==
      EncodeEthernet(OuterEthernetAfter(e, bg.outerEthernetType)) + FreshL3(bg.outerEthernetType, l3, ck)
  {
    hide Parse, EncodeBridge, TunnelledBytes, Ipv4At, EmitRange, Emit, EmitInner, PutChecksum, CarriedL3, Decapsulated;
    hide WithChecksums, EncodeEthernet, FreshL3, Encapsulated, ParseRaw;
    TunnelledPacketReparses(P02Egress, bg, l3, r);
    EgressAcceptsTunnelled(bg, l3, r);
    var o := Parse(P02Egress, TunnelledBytes(bg, l3, r));
    var h := o.hdr.(bridge := None, ethernet := Some(e));
    SameInnerBytes(o.hdr, h);
    DecapsulationLeavesInner(h, o.payload, bg.outerEthernetType, CarriedL3(bg, l3, r), ck);
    FreshCarried(bg, l3, r, ck);
  }

  /** The round trip is exact for IPv6, and for IPv4 exactly when the original
      checksum was the one the unit computes. */
  lemma FreshIsExact(bg: Bridge, l3: seq<byte>, ck: Ipv4 -> bv16)
    requires CarriesRawIp(bg) && ParseRaw(bg, l3).Accepted?
    ensures FreshL3(bg.outerEthernetType, l3, ck) == l3 <==>
      (bg.outerEthernetType == ETHERTYPE_IPV6 ||
       (Ipv4At(l3).Some? && Ipv4At(l3).value == Checksummed(Ipv4At(l3).value, ck)))
  {
    hide DecodeIpv4, PutChecksum, ParseRaw, EmitRange;
    RawIsShaped(bg, l3);
    if bg.outerEthernetType == ETHERTYPE_IPV4 {
      var ip := Ipv4At(l3).value;
      var x := Checksummed(ip, ck).hdrChecksum;
      PutChecksumTwice(l3, x, x);
      ChecksumIsRead(l3, x);
    }
  }

  lemma ChecksumIsRead(l3: seq<byte>, x: bv16)
    requires Ipv4At(l3).Some?
    ensures Ipv4At(PutChecksum(l3, x)).Some? && Ipv4At(PutChecksum(l3, x)).value.hdrChecksum == x
  {
    hide EncodeIpv4, DecodeIpv4, PutChecksum;
    var ip, rest := DecodeIpv4(l3[..20]), l3[20..];
    Ipv4Bytes(l3[..20]);
    assert l3 == l3[..20] + rest;
    ChecksumBytes(ip, x, rest);
    assert PutChecksum(l3, x)[..20] == EncodeIpv4(ip.(hdrChecksum := x));
    Ipv4RoundTrip(ip.(hdrChecksum := x));
  }

  lemma SameInnerBytes(g: Headers, h: Headers)
    requires g.innerIpv4 == h.innerIpv4 && g.innerOptions == h.innerOptions && g.innerIpv6 == h.innerIpv6
    requires g.innerTcp == h.innerTcp && g.innerUdp == h.innerUdp
    ensures EmitInner(g) == EmitInner(h)
  {
    hide EncodeIpv4, EncodeIpv6, EncodeTcp, EncodeUdp, EmitRange;
    EmitRangeAgrees(g, h, 11, SLOTS);
  }

  lemma FreshCarried(bg: Bridge, l3: seq<byte>, r: Residue, ck: Ipv4 -> bv16)
    requires CarriesRawIp(bg) && ParseRaw(bg, l3).Accepted?
    ensures FreshL3(bg.outerEthernetType, CarriedL3(bg, l3, r), ck) == FreshL3(bg.outerEthernetType, l3, ck)
  {
    hide Ipv4At, PutChecksum, ParseRaw, EmitRange;
    RawIsShaped(bg, l3);
    CarriedHeader(bg, l3, r);
    if bg.outerEthernetType == ETHERTYPE_IPV4 {
      var ip := Ipv4At(l3).value;
      assert InnerCopy(ip, r).(hdrChecksum := 0) == ip.(hdrChecksum := 0);
      PutChecksumTwice(l3, r.innerIpv4.hdrChecksum, Checksummed(ip, ck).hdrChecksum);
    }
  }
}
