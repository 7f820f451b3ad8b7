/** The header between the switch and its CPU: built by P4 on one side, by C on
    the other, from two declarations of one layout. */
module CpuHeader {
  import opened Words
  import opened Wrappers
  import opened WireFormat
  import opened HeaderStack
  import opened PacketParsers
  import opened FrameParsing
  import opened IngressShape
  import opened PacketState

  // ---------- the C layout ----------

  /** `htons`: a little-endian machine's byte swap. */
  function Htons(x: bv16): bv16 {
    (x << 8) | (x >> 8)
  }

  /** A 16-bit field in the memory of a little-endian machine. */
  function InMemory(x: bv16): (b: seq<byte>)
    ensures |b| == 2
  {
    [(x & 0xFF) as byte, (x >> 8) as byte]
  }

  /** `switch_fabric_header_t`, packed; bit-fields start at the lowest bit. */
  datatype FabricC = FabricC(etherType: bv16, pad1: bv1, packetVersion: bv2, headerVersion: bv2, packetType: bv3,
                             color: bv3, qos: bv5, dstDevice: byte, dstPortOrGroup: bv16)

  /** `switch_cpu_header_t`, packed. */
  datatype CpuC = CpuC(reserved: bv1, captureTs: bv1, txBypass: bv1, egressQueue: bv5, ingressPort: bv16,
                       ingressIfindex: bv16, ingressBd: bv16, reasonCode: bv16)

  const ZERO_FABRIC_C := FabricC(0, 0, 0, 0, 0, 0, 0, 0, 0)
  const ZERO_CPU_C := CpuC(0, 0, 0, 0, 0, 0, 0, 0)

  function FabricMemory(f: FabricC): (b: seq<byte>)
    ensures |b| == 7
  {
    InMemory(f.etherType) +
    [(f.pad1 as byte) | ((f.packetVersion as byte) << 1) | ((f.headerVersion as byte) << 3) |
     ((f.packetType as byte) << 5),
     (f.color as byte) | ((f.qos as byte) << 3), f.dstDevice] + InMemory(f.dstPortOrGroup)
  }

  function CpuMemory(c: CpuC): (b: seq<byte>)
    ensures |b| == 9
  {
    [(c.reserved as byte) | ((c.captureTs as byte) << 1) | ((c.txBypass as byte) << 2) |
     ((c.egressQueue as byte) << 3)] +
    InMemory(c.ingressPort) + InMemory(c.ingressIfindex) + InMemory(c.ingressBd) + InMemory(c.reasonCode)
  }

  /** `switch_packet_header_t` */
  function HeaderMemory(f: FabricC, c: CpuC): (b: seq<byte>)
    ensures |b| == 16
  {
    FabricMemory(f) + CpuMemory(c)
  }

  lemma HtonsInMemory(x: bv16)
    ensures InMemory(Htons(x)) == Bytes2(x) && Htons(Htons(x)) == x
  {
  }

  lemma MemoryIsSwapped(x: bv16)
    ensures InMemory(x) == Bytes2(Htons(x)) && Word2(InMemory(x)[0], InMemory(x)[1]) == Htons(x)
  {
  }

  /** The two declarations agree on where every field is: what the C structures
      hold (in network byte order) is what P4 reads behind the type field, with
      the frame's own type as the last field of the CPU header. */
  lemma LayoutsAgree(f: FabricC, c: CpuC, type0: byte, type1: byte)
    ensures var p := DecodeFabric(FabricMemory(f)[2..]);
      p.reserved2 == f.dstDevice && p.dstPortOrGroup == Htons(f.dstPortOrGroup) &&
        (p.reserved >> 5) == f.packetType as byte
    ensures DecodeCpu(CpuMemory(c) + [type0, type1]) ==
      Cpu(c.egressQueue, c.txBypass, c.captureTs, c.reserved, Htons(c.ingressPort), Htons(c.ingressIfindex),
          Htons(c.ingressBd), Htons(c.reasonCode), Word2(type0, type1))
    ensures Word2(FabricMemory(f)[0], FabricMemory(f)[1]) == Htons(f.etherType)
  {
    hide InMemory, Htons;
    MemoryIsSwapped(f.etherType);
    MemoryIsSwapped(f.dstPortOrGroup);
    CpuFieldsAgree(c, type0, type1);
    FabricByte(f);
    hide Word2;
  }

  lemma FabricByte(f: FabricC)
    ensures ((f.pad1 as byte) | ((f.packetVersion as byte) << 1) | ((f.headerVersion as byte) << 3) |
             ((f.packetType as byte) << 5)) >> 5 == f.packetType as byte
  {
  }

  lemma CpuFieldsAgree(c: CpuC, type0: byte, type1: byte)
    ensures DecodeCpu(CpuMemory(c) + [type0, type1]) ==
      Cpu(c.egressQueue, c.txBypass, c.captureTs, c.reserved, Htons(c.ingressPort), Htons(c.ingressIfindex),
          Htons(c.ingressBd), Htons(c.reasonCode), Word2(type0, type1))
  {
    hide InMemory, Htons, Word2;
    MemoryIsSwapped(c.ingressPort);
    MemoryIsSwapped(c.ingressIfindex);
    MemoryIsSwapped(c.ingressBd);
    MemoryIsSwapped(c.reasonCode);
  }

  /** Colour and QoS are the exception: their bit-fields are declared in opposite
      order, and P4 reads what C wrote exactly for two values, both fields all zeros
      or both all ones. */
  lemma ColourAgreesIff(f: FabricC)
    ensures var p := DecodeFabric(FabricMemory(f)[2..]);
      (p.color == f.color && p.qos == f.qos) <==> (f.color == 0 && f.qos == 0) || (f.color == 7 && f.qos == 31)
  {
    hide InMemory, Word2;
    ColourBits(f.color, f.qos);
  }

  lemma ColourBits(color: bv3, qos: bv5)
    ensures var b := (color as byte) | ((qos as byte) << 3);
      ((b >> 5) as bv3 == color && (b & 0x1F) as bv5 == qos) <==> (color == 0 && qos == 0) || (color == 7 && qos == 31)
  {
  }

  /** Colour 1 with QoS 0 is read as colour 0 with QoS 1. */
  lemma ColourIsMisread()
    ensures var p := DecodeFabric(FabricMemory(ZERO_FABRIC_C.(color := 1))[2..]); p.color == 0 && p.qos == 1
  {
    hide InMemory, Word2;
    assert 1 as byte | ((0 as byte) << 3) == 1;
  }

  // ---------- knet mutations ----------

  const ETHER_TYPE_OFFSET := 12
  const PACKET_HEADER_LEN := 16

  /** `BF_KNET_RX_MUT_STRIP` of the packet header at the type field. */
  function Strip(frame: seq<byte>): seq<byte> {
    if |frame| < ETHER_TYPE_OFFSET + PACKET_HEADER_LEN then frame
    else frame[..ETHER_TYPE_OFFSET] + frame[ETHER_TYPE_OFFSET + PACKET_HEADER_LEN..]
  }

  /** `BF_KNET_RX_MUT_INSERT` of a packet header at the type field. */
  function Insert(frame: seq<byte>, hdr: seq<byte>): seq<byte>
    requires |frame| >= ETHER_TYPE_OFFSET
  {
    frame[..ETHER_TYPE_OFFSET] + hdr + frame[ETHER_TYPE_OFFSET..]
  }

  lemma StripUndoesInsert(frame: seq<byte>, hdr: seq<byte>)
    requires |frame| >= ETHER_TYPE_OFFSET && |hdr| == PACKET_HEADER_LEN
    ensures Strip(Insert(frame, hdr)) == frame
  {
  }

  // ---------- the P4 actions ----------

  /** `add_nos_cpu_header` */
  function WithCpuHeader(h: Headers, port: bv9, r: Residue): Headers {
    var etherType := if h.ethernet.Some? then h.ethernet.value.etherType else r.ethernet.etherType;
    h.(fabric := Some(Fabric(0, 0, 0, 0, 0)),
       cpu := Some(r.cpu.(egressQueue := 0, txBypass := 0, reserved := 0, ingressPort := port as bv16,
                          etherType := etherType)),
       ethernet := if h.ethernet.Some? then Some(h.ethernet.value.(etherType := ETHERTYPE_BFN)) else None)
  }

  method AddNosCpuHeader(phv: Phv, port: bv9, r: Residue)
    modifies phv`hdr
    ensures phv.hdr == WithCpuHeader(old(phv.hdr), port, r)
  {
    var f := r.fabric.(reserved := 0, color := 0);
    f := f.(qos := 0, reserved2 := 0);
    f := f.(dstPortOrGroup := 0);
    var c := r.cpu.(egressQueue := 0, txBypass := 0, reserved := 0);
    c := c.(ingressPort := port as bv16);
    c := c.(etherType := if phv.hdr.ethernet.Some? then phv.hdr.ethernet.value.etherType else r.ethernet.etherType);
    phv.hdr := phv.hdr.(fabric := Some(f), cpu := Some(c));
    if phv.hdr.ethernet.Some? {
      phv.hdr := phv.hdr.(ethernet := Some(phv.hdr.ethernet.value.(etherType := ETHERTYPE_BFN)));
    }
  }

  /** `receive_from_cpu_nos`: the headers, and the port asked for. */
  function WithoutCpuHeader(h: Headers, r: Residue): Headers {
    var etherType := if h.cpu.Some? then h.cpu.value.etherType else r.cpu.etherType;
    h.(ethernet := if h.ethernet.Some? then Some(h.ethernet.value.(etherType := etherType)) else None,
       fabric := None, cpu := None)
  }

  function PortBits(x: bv16): bv9 {
    (x & 0x1FF) as bv9
  }

  function RequestedPort(h: Headers, r: Residue): bv9 {
    PortBits((if h.fabric.Some? then h.fabric.value else r.fabric).dstPortOrGroup)
  }

  method ReceiveFromCpuNos(phv: Phv, r: Residue) returns (port: bv9)
    modifies phv`hdr
    ensures phv.hdr == WithoutCpuHeader(old(phv.hdr), r)
    ensures port == RequestedPort(old(phv.hdr), r)
  {
    hide PortBits;
    if phv.hdr.ethernet.Some? {
      var t := if phv.hdr.cpu.Some? then phv.hdr.cpu.value.etherType else r.cpu.etherType;
      phv.hdr := phv.hdr.(ethernet := Some(phv.hdr.ethernet.value.(etherType := t)));
    }
    port := PortBits((if phv.hdr.fabric.Some? then phv.hdr.fabric.value else r.fabric).dstPortOrGroup);
    phv.hdr := phv.hdr.(fabric := None);
    phv.hdr := phv.hdr.(cpu := None);
  }

  /** Receiving undoes adding. */
  lemma ReceiveUndoesAdd(h: Headers, port: bv9, r: Residue, s: Residue)
    requires h.fabric.None? && h.cpu.None?
    ensures WithoutCpuHeader(WithCpuHeader(h, port, r), s) == h
  {
  }

  // ---------- both sides on the wire ----------

  lemma EmitWithCpu(h: Headers)
    requires h.bridge.None? && h.ethernet.Some? && h.fabric.Some? && h.cpu.Some?
    ensures Emit(h) == EncodeEthernet(h.ethernet.value) +
      (EncodeFabric(h.fabric.value) + (EncodeCpu(h.cpu.value) + EmitRange(h, 4, SLOTS)))
  {
    hide EncodeEthernet, EncodeFabric, EncodeCpu;
    assert EmitRange(h, 3, SLOTS) == EncodeCpu(h.cpu.value) + EmitRange(h, 4, SLOTS);
    assert EmitRange(h, 2, SLOTS) == EncodeFabric(h.fabric.value) + EmitRange(h, 3, SLOTS);
    assert EmitRange(h, 1, SLOTS) == EncodeEthernet(h.ethernet.value) + EmitRange(h, 2, SLOTS);
  }

  lemma EmitPlain(h: Headers)
    requires h.bridge.None? && h.ethernet.Some? && h.fabric.None? && h.cpu.None?
    ensures Emit(h) == EncodeEthernet(h.ethernet.value) + EmitRange(h, 4, SLOTS)
  {
    hide EncodeEthernet;
    assert EmitRange(h, 3, SLOTS) == EmitRange(h, 4, SLOTS);
    assert EmitRange(h, 2, SLOTS) == EmitRange(h, 3, SLOTS);
    assert EmitRange(h, 1, SLOTS) == EncodeEthernet(h.ethernet.value) + EmitRange(h, 2, SLOTS);
  }

  lemma CpuEndsInType(c: Cpu)
    ensures EncodeCpu(c)[9..] == Bytes2(c.etherType)
  {
    hide Bytes2;
  }

  lemma StrippedBytes(macs: seq<byte>, type2: seq<byte>, fabric: seq<byte>, cpu9: seq<byte>, orig: seq<byte>,
                      rest: seq<byte>)
    requires |macs| == 12 && |type2| == 2 && |fabric| == 5 && |cpu9| == 9
    ensures Strip((macs + type2) + (fabric + ((cpu9 + orig) + rest))) == (macs + orig) + rest
  {
    var b := (macs + type2) + (fabric + ((cpu9 + orig) + rest));
    assert b == ((macs + type2) + (fabric + cpu9)) + (orig + rest);
    assert b[..12] == macs;
    assert b[28..] == orig + rest;
  }

  lemma TypeEndsEthernet(e: Ethernet, t: bv16)
    ensures EncodeEthernet(e.(etherType := t)) == EncodeEthernet(e)[..12] + Bytes2(t)
  {
    hide Bytes2, Bytes6;
  }

  /** Taking the CPU header off in P4 is, on the wire, exactly what the C driver's
      strip does: sixteen bytes at the type field. */
  lemma ReceiveIsStrip(h: Headers, r: Residue, payload: seq<byte>)
    requires h.bridge.None? && h.ethernet.Some? && h.fabric.Some? && h.cpu.Some?
    ensures Emit(WithoutCpuHeader(h, r)) + payload == Strip(Emit(h) + payload)
  {
    hide EncodeEthernet, EncodeFabric, EncodeCpu, EmitRange, Emit, Strip, Bytes2;
    var n := WithoutCpuHeader(h, r);
    EmitWithCpu(h);
    EmitPlain(n);
    SameFrom4(h, n);
    var e, c := h.ethernet.value, h.cpu.value;
    var rest := EmitRange(h, 4, SLOTS) + payload;
    TypeEndsEthernet(e, c.etherType);
    TypeEndsEthernet(e, e.etherType);
    CpuEndsInType(c);
    var macs, cpu9 := EncodeEthernet(e)[..12], EncodeCpu(c)[..9];
    assert EncodeCpu(c) == cpu9 + Bytes2(c.etherType);
    StrippedBytes(macs, Bytes2(e.etherType), EncodeFabric(h.fabric.value), cpu9, Bytes2(c.etherType), rest);
    assert Emit(h) + payload == (macs + Bytes2(e.etherType)) +
      (EncodeFabric(h.fabric.value) + ((cpu9 + Bytes2(c.etherType)) + rest));
    assert Emit(n) + payload == (macs + Bytes2(c.etherType)) + rest;
  }

  lemma SameFrom4(h: Headers, n: Headers)
    requires n == h.(ethernet := n.ethernet, fabric := n.fabric, cpu := n.cpu)
    ensures EmitRange(n, 4, SLOTS) == EmitRange(h, 4, SLOTS)
  {
    hide EmitRange, EncodeEthernet, EncodeFabric, EncodeCpu, EncodeIpv4, EncodeIpv6, EncodeUdp, EncodeTcp, EncodeIcmp;
    hide EncodeVxlan;
    EmitRangeAgrees(h, n, 4, SLOTS);
  }

  /** Towards the CPU: stripping sixteen bytes at offset 12 from a frame built by
      `add_nos_cpu_header` gives the original frame. */
  lemma PuntedFrameIsOriginal(h: Headers, port: bv9, r: Residue, payload: seq<byte>)
    requires h.bridge.None? && h.ethernet.Some? && h.fabric.None? && h.cpu.None?
    ensures Strip(Emit(WithCpuHeader(h, port, r)) + payload) == Emit(h) + payload
  {
    hide Emit, Strip;
    ReceiveUndoesAdd(h, port, r, r);
    ReceiveIsStrip(WithCpuHeader(h, port, r), r, payload);
  }

  // ---------- the driver's transmit header ----------

  const SWITCH_BYPASS_ALL: bv16 := 0xFFFF
  const SWITCH_INVALID_HW_PORT: bv16 := 0x1FF
  const FABRIC_HEADER_TYPE_CPU: bv3 := 5
  const TX_EGRESS_QUEUE_DEFAULT: bv5 := 7

  /** The data `switch_knet_tx_filter_create` has inserted into every frame. */
  function TxHeader(bypass: bv16, bd: bv16, devPort: bv16): seq<byte> {
    var f := ZERO_FABRIC_C.(
      dstPortOrGroup := if bypass == SWITCH_BYPASS_ALL then Htons(devPort) else SWITCH_INVALID_HW_PORT,
      packetType := FABRIC_HEADER_TYPE_CPU, etherType := Htons(ETHERTYPE_BFN));
    var c := ZERO_CPU_C.(txBypass := if bypass == SWITCH_BYPASS_ALL then 1 else 0,
                         ingressBd := if bypass == SWITCH_BYPASS_ALL then 0 else Htons(bd),
                         reasonCode := Htons(bypass), egressQueue := TX_EGRESS_QUEUE_DEFAULT);
    HeaderMemory(f, c)
  }

  method KnetTxFilterCreate(bypass: bv16, bd: bv16, devPort: bv16) returns (data: array<byte>)
    ensures fresh(data) && data[..] == TxHeader(bypass, bd, devPort)
  {
    var f, c := ZERO_FABRIC_C, ZERO_CPU_C;
    if bypass == SWITCH_BYPASS_ALL {
      f := f.(dstPortOrGroup := Htons(devPort));
      c := c.(txBypass := 1);
    } else {
      f := f.(dstPortOrGroup := SWITCH_INVALID_HW_PORT);
      c := c.(ingressBd := Htons(bd));
    }
    c := c.(reasonCode := Htons(bypass));
    f := f.(packetType := FABRIC_HEADER_TYPE_CPU);
    f := f.(etherType := Htons(ETHERTYPE_BFN));
    c := c.(egressQueue := TX_EGRESS_QUEUE_DEFAULT);
    var memory := HeaderMemory(f, c);
    data := new byte[16];
    for i := 0 to 16
      invariant forall k :: 0 <= k < i ==> data[k] == memory[k]
    {
      data[i] := memory[i];
    }
    assert data[..] == memory;
  }

  /** A frame from the CPU as P02 ingress sees it: the type field announces the
      fabric header, which names the port.  With the bypass flags the port is
      the requested one; without them it is 0xFF01, since the invalid port is
      stored without a byte swap. */
  lemma TxHeaderSays(bypass: bv16, bd: bv16, devPort: bv16)
    ensures var b := TxHeader(bypass, bd, devPort);
      && |b| == 16 && b[..2] == Bytes2(ETHERTYPE_BFN)
      && DecodeFabric(b[2..7]).dstPortOrGroup == (if bypass == SWITCH_BYPASS_ALL then devPort else 0xFF01)
  {
    var f := ZERO_FABRIC_C.(
      dstPortOrGroup := if bypass == SWITCH_BYPASS_ALL then Htons(devPort) else SWITCH_INVALID_HW_PORT,
      packetType := FABRIC_HEADER_TYPE_CPU, etherType := Htons(ETHERTYPE_BFN));
    HtonsInMemory(ETHERTYPE_BFN);
    HtonsInMemory(devPort);
    LayoutsAgree(f, ZERO_CPU_C, 0, 0);
    assert Htons(0x1FF) == 0xFF01;
    hide CpuMemory, InMemory, Htons;
    var b := TxHeader(bypass, bd, devPort);
    assert b[..7] == FabricMemory(f);
    assert b[2..7] == FabricMemory(f)[2..];
  }

  /** The rest of what P4 reads, in numbers: packet type 5, queue 7, and, without the
      bypass flags, the bridge domain. */
  lemma TxHeaderFields(bypass: bv16, bd: bv16, devPort: bv16, type0: byte, type1: byte)
    ensures var b := TxHeader(bypass, bd, devPort);
      && DecodeFabric(b[2..7]) == Fabric(0xA0, 0, 0, 0, if bypass == 0xFFFF then devPort else 0xFF01)
      && DecodeCpu(b[7..] + [type0, type1]) ==
           Cpu(7, if bypass == 0xFFFF then 1 else 0, 0, 0, 0, 0, if bypass == 0xFFFF then 0 else bd, bypass,
               Word2(type0, type1))
  {
    var c := ZERO_CPU_C.(txBypass := if bypass == SWITCH_BYPASS_ALL then 1 else 0,
                         ingressBd := if bypass == SWITCH_BYPASS_ALL then 0 else Htons(bd),
                         reasonCode := Htons(bypass), egressQueue := TX_EGRESS_QUEUE_DEFAULT);
    TxHeaderSays(bypass, bd, devPort);
    HtonsInMemory(bypass);
    HtonsInMemory(bd);
    assert Htons(0) == 0;
    LayoutsAgree(ZERO_FABRIC_C, c, type0, type1);
    var b := TxHeader(bypass, bd, devPort);
    assert b[7..] == CpuMemory(c);
    TxFabricBytes(bypass, bd, devPort);
    hide TxHeader, CpuMemory, Htons, DecodeCpu, Word2;
  }

  lemma TxFabricBytes(bypass: bv16, bd: bv16, devPort: bv16)
    ensures var p := DecodeFabric(TxHeader(bypass, bd, devPort)[2..7]);
      p == Fabric(0xA0, 0, 0, 0, p.dstPortOrGroup)
  {
    hide Htons, InMemory, CpuMemory, Word2;
    assert ((0 as byte) | ((0 as byte) << 1) | ((0 as byte) << 3) | ((5 as byte) << 5)) == 0xA0;
  }

  /** What stands in front of a punted frame, in numbers: the CPU header with the port it
      came in on and the frame's own type, every other field that P4 sets zero. */
  lemma PuntedHeaderSays(h: Headers, port: bv9, r: Residue, payload: seq<byte>)
    requires h.bridge.None? && h.ethernet.Some?
    ensures var b := Emit(WithCpuHeader(h, port, r)) + payload;
      && |b| >= 30 && b[..14] == EncodeEthernet(h.ethernet.value.(etherType := 0x9000))
      && DecodeFabric(b[14..19]) == Fabric(0, 0, 0, 0, 0)
      && var c := DecodeCpu(b[19..30]);
      && c.egressQueue == 0 && c.txBypass == 0 && c.reserved == 0 && c.ingressPort == port as bv16
      && c.etherType == h.ethernet.value.etherType
  {
    hide EncodeEthernet, EncodeFabric, EncodeCpu, DecodeFabric, DecodeCpu, EmitRange, Emit;
    var n := WithCpuHeader(h, port, r);
    EmitWithCpu(n);
    var e, f, c := EncodeEthernet(n.ethernet.value), EncodeFabric(n.fabric.value), EncodeCpu(n.cpu.value);
    var b := Emit(n) + payload;
    assert b == ((e + f) + c) + (EmitRange(n, 4, SLOTS) + payload);
    assert b[..14] == e && b[14..19] == f && b[19..30] == c;
    FabricRoundTrip(n.fabric.value);
    CpuRoundTrip(n.cpu.value);
  }

  /** Two stacks that agree behind the headers the CPU header is put between. */
  predicate SameBehindFront(g: Headers, h: Headers) {
    g == h.(bridge := g.bridge, ethernet := g.ethernet, fabric := g.fabric, cpu := g.cpu)
  }

  lemma OuterSelectsIgnoreFront(g: Headers, h: Headers)
    requires SameBehindFront(g, h)
    ensures SelectIhl(g, Ipv4NoOptions) == SelectIhl(h, Ipv4NoOptions)
    ensures SelectL4(g, OuterTcp, OuterUdp, OuterIcmp) == SelectL4(h, OuterTcp, OuterUdp, OuterIcmp)
    ensures SelectNextHdr(g, OuterUdpV2) == SelectNextHdr(h, OuterUdpV2) && SelectUdpPort(g) == SelectUdpPort(h)
  {
  }

  lemma InnerSelectsIgnoreFront(g: Headers, h: Headers)
    requires SameBehindFront(g, h)
    ensures SelectInnerIp(g) == SelectInnerIp(h) && SelectInnerIhl(g) == SelectInnerIhl(h)
    ensures SelectInnerProtocol(g) == SelectInnerProtocol(h) && SelectInnerNextHdr(g) == SelectInnerNextHdr(h)
  {
    hide OptionWords;
  }

  lemma SelectsIgnoreFront(s: PacketParsers.State, g: Headers, h: Headers)
    requires SameBehindFront(g, h) && Depth(s) >= 11
    ensures Next(P02Ingress, s, g, 0) == Next(P02Ingress, s, h, 0)
  {
    hide SelectIhl, SelectL4, SelectNextHdr, SelectUdpPort, SelectInnerIp, SelectInnerIhl, SelectInnerProtocol;
    hide SelectInnerNextHdr, JdFlag;
    OuterSelectsIgnoreFront(g, h);
    InnerSelectsIgnoreFront(g, h);
  }

  lemma FillIgnoresFront(g: Headers, h: Headers, k: nat, b: seq<byte>)
    requires SameBehindFront(g, h) && k < SLOTS && (k != 12 ==> |b| == SlotWidth(k))
    ensures SameBehindFront(Fill(g, k, b), Fill(h, k, b))
  {
    hide DecodeBridge, DecodeEthernet, DecodeFabric, DecodeCpu, DecodeIpv4, DecodeIpv6, DecodeUdp, DecodeTcp;
    hide DecodeIcmp, DecodeVxlan;
  }

  /** From the outer IPv4 header on, P02 ingress does not ask what came before it. */
  lemma {:induction false} RunIgnoresFront(c: Config, d: Config)
    requires c.s == d.s && Depth(c.s) >= 11 && c.b == d.b && SameBehindFront(c.h, d.h)
    ensures Run(P02Ingress, c).Accepted? <==> Run(P02Ingress, d).Accepted?
    decreases 34 - Depth(c.s)
  {
    hide Fill, Next, Depth, SlotWidth;
    if c.s != Accept {
      StepGoesDeeper(P02Ingress, c);
      FrontIsBehind(c.s);
      match ActionOf(c.s) {
        case Select =>
          SelectsIgnoreFront(c.s, c.h, d.h);
        case Extract(k, w) =>
          if |c.b| >= w {
            ExtractsAtFloor(c.s);
            FillIgnoresFront(c.h, d.h, k, c.b[..w]);
            SelectsIgnoreFront(c.s, Fill(c.h, k, c.b[..w]), Fill(d.h, k, c.b[..w]));
          }
      }
      if Step(P02Ingress, c).Some? {
        RunIgnoresFront(Step(P02Ingress, c).value, Step(P02Ingress, d).value);
      }
    }
  }

  lemma FrontIsBehind(s: PacketParsers.State)
    requires Depth(s) >= 11
    ensures ActionOf(s).Select? || ActionOf(s).Extract?
  {
  }

  /** The type field of a frame. */
  function TypeOf(frame: seq<byte>): bv16
    requires |frame| >= 14
  {
    Word2(frame[12], frame[13])
  }

  /** P02 ingress does not look behind a CPU header but for IPv4, so it accepts a
      frame with an inserted header exactly when it accepts the frame or the frame's
      own type is not IPv4. */
  lemma InsertedAcceptedIff(frame: seq<byte>, hdr: seq<byte>)
    requires |frame| >= 14 && |hdr| == 16 && hdr[..2] == Bytes2(ETHERTYPE_BFN)
    ensures Parse(P02Ingress, Insert(frame, hdr)).Accepted? <==>
      TypeOf(frame) != ETHERTYPE_IPV4 || Parse(P02Ingress, frame).Accepted?
  {
    hide Run, EncodeEthernet, EncodeFabric, EncodeCpu, DecodeEthernet, DecodeFabric, DecodeCpu, Insert, TypeOf, Next;
    var e, rest := DecodeEthernet(frame[..14]), frame[14..];
    var f := DecodeFabric(hdr[2..7]);
    var c := DecodeCpu(hdr[7..] + frame[12..14]);
    EthernetBytes(frame[..14]);
    InsertedBytes(frame, hdr);
    TypeRead(frame, hdr);
    assert frame == EncodeEthernet(e) + rest;
    var e' := e.(etherType := ETHERTYPE_BFN);
    var h0 := NO_HEADERS.(ethernet := Some(e));
    var h1 := NO_HEADERS.(ethernet := Some(e'));
    var h2 := h1.(fabric := Some(f));
    var h3 := h2.(cpu := Some(c));
    RunTakesEthernet(P02Ingress, NO_HEADERS, 0, e, rest);
    RunTakesEthernet(P02Ingress, NO_HEADERS, 0, e', EncodeFabric(f) + (EncodeCpu(c) + rest));
    CpuSelects(h0, h1, h2, h3);
    RunTakesFabric(P02Ingress, h1, 0, f, EncodeCpu(c) + rest);
    RunTakesCpu(P02Ingress, h2, 0, c, rest);
    if TypeOf(frame) == ETHERTYPE_IPV4 {
      StartsAtDepth();
      RunIgnoresFront(Config(OuterIpv4, h3, 0, rest), Config(OuterIpv4, h0, 0, rest));
    } else {
      StopsThere(h3, rest);
    }
  }

  lemma StartsAtDepth()
    ensures Depth(OuterIpv4) == 11
  {
  }

  lemma StopsThere(h: Headers, rest: seq<byte>)
    ensures Run(P02Ingress, Config(Accept, h, 0, rest)).Accepted?
  {
  }

  lemma CpuSelects(h0: Headers, h1: Headers, h2: Headers, h3: Headers)
    requires h0.ethernet.Some? && h3.cpu.Some? && h1.ethernet.Some? && h1.ethernet.value.etherType == ETHERTYPE_BFN
    ensures h0.ethernet.value.etherType == ETHERTYPE_IPV4 ==> Next(P02Ingress, OuterEthernet, h0, 0) == OuterIpv4
    ensures Next(P02Ingress, OuterEthernet, h1, 0) == FabricHeader
    ensures Next(P02Ingress, FabricHeader, h2, 0) == PacketParsers.State.CpuHeader
    ensures Next(P02Ingress, PacketParsers.State.CpuHeader, h3, 0) ==
      if h3.cpu.value.etherType == ETHERTYPE_IPV4 then OuterIpv4 else Accept
  {
  }

  /** The inserted header on the wire, as P4 headers. */
  lemma InsertedBytes(frame: seq<byte>, hdr: seq<byte>)
    requires |frame| >= 14 && |hdr| == 16 && hdr[..2] == Bytes2(ETHERTYPE_BFN)
    ensures var e := DecodeEthernet(frame[..14]).(etherType := ETHERTYPE_BFN);
      Insert(frame, hdr) == EncodeEthernet(e) +
        (EncodeFabric(DecodeFabric(hdr[2..7])) + (EncodeCpu(DecodeCpu(hdr[7..] + frame[12..14])) + frame[14..]))
  {
    hide EncodeEthernet, EncodeFabric, EncodeCpu, DecodeEthernet, DecodeFabric, DecodeCpu, Bytes2;
    EthernetBytes(frame[..14]);
    FabricBytes(hdr[2..7]);
    CpuBytes(hdr[7..] + frame[12..14]);
    TypeEndsEthernet(DecodeEthernet(frame[..14]), ETHERTYPE_BFN);
    assert frame[..14][..12] == frame[..12];
    assert Insert(frame, hdr) == (frame[..12] + hdr[..2]) + (hdr[2..7] + ((hdr[7..] + frame[12..14]) + frame[14..]));
  }

  lemma TypeRead(frame: seq<byte>, hdr: seq<byte>)
    requires |frame| >= 14 && |hdr| == 16
    ensures DecodeEthernet(frame[..14]).etherType == TypeOf(frame)
    ensures DecodeCpu(hdr[7..] + frame[12..14]).etherType == TypeOf(frame)
  {
    hide Word2, Word6;
  }

  /** From the CPU: the frame with the driver's header inserted is accepted exactly
      when the frame is, or when its own type is not IPv4; `receive_from_cpu_nos`
      then gives the original frame back, bound for the requested port. */
  lemma CpuFrameRoundTrip(frame: seq<byte>, bd: bv16, devPort: bv16, r: Residue)
    requires |frame| >= 14 && devPort < 512
    ensures var o := Parse(P02Ingress, Insert(frame, TxHeader(SWITCH_BYPASS_ALL, bd, devPort)));
      && (o.Accepted? <==> TypeOf(frame) != ETHERTYPE_IPV4 || Parse(P02Ingress, frame).Accepted?)
      && (o.Accepted? ==>
            Emit(WithoutCpuHeader(o.hdr, r)) + o.payload == frame && RequestedPort(o.hdr, r) as bv16 == devPort)
  {
    hide Parse, Emit, EmitRange, Strip, Insert, TxHeader, IpFits, FrameFits, InnerFits, NoTunnel;
    hide EncodeEthernet, EncodeFabric, EncodeCpu, Bytes2, Word2;
    var hdr := TxHeader(SWITCH_BYPASS_ALL, bd, devPort);
    var packet := Insert(frame, hdr);
    TxHeaderSays(SWITCH_BYPASS_ALL, bd, devPort);
    InsertedAcceptedIff(frame, hdr);
    IngressIsShaped(packet);
    var o := Parse(P02Ingress, packet);
    if o.Accepted? {
      InsertedFront(frame, hdr);
      StartsWithEthernet(o.hdr, o.payload, packet);
      StripUndoesInsert(frame, hdr);
      ReceiveIsStrip(o.hdr, r, o.payload);
      StartsWithFabric(o.hdr, o.payload, packet);
      LowPort(devPort);
    }
  }

  lemma LowPort(devPort: bv16)
    requires devPort < 512
    ensures PortBits(devPort) as bv16 == devPort
  {
  }

  lemma InsertedFront(frame: seq<byte>, hdr: seq<byte>)
    requires |frame| >= 14 && |hdr| == 16
    ensures |Insert(frame, hdr)| >= 30 && Insert(frame, hdr)[12..14] == hdr[..2]
    ensures Insert(frame, hdr)[14..19] == hdr[2..7]
  {
  }

  /** The type field P02 ingress read is the one on the wire. */
  lemma StartsWithEthernet(h: Headers, payload: seq<byte>, packet: seq<byte>)
    requires h.bridge.None? && h.ethernet.Some? && Emit(h) + payload == packet && |packet| >= 30
    requires packet[12..14] == Bytes2(ETHERTYPE_BFN)
    ensures EthTypeIs(h, ETHERTYPE_BFN)
  {
    hide EncodeEthernet, EmitRange, Bytes2;
    assert EmitRange(h, 0, SLOTS) == Piece(h, 0) + EmitRange(h, 1, SLOTS) by { EmitStep(h, 0); }
    assert EmitRange(h, 1, SLOTS) == Piece(h, 1) + EmitRange(h, 2, SLOTS) by { EmitStep(h, 1); }
    var e := h.ethernet.value;
    assert packet == EncodeEthernet(e) + (EmitRange(h, 2, SLOTS) + payload);
    TypeEndsEthernet(e, e.etherType);
    assert packet[12..14] == Bytes2(e.etherType);
    Bytes2Injective(e.etherType, ETHERTYPE_BFN);
  }

  lemma Bytes2Injective(x: bv16, y: bv16)
    requires Bytes2(x) == Bytes2(y)
    ensures x == y
  {
    hide Bytes2, Word2;
    Word2RoundTrip(x);
    Word2RoundTrip(y);
  }

  lemma StartsWithFabric(h: Headers, payload: seq<byte>, packet: seq<byte>)
    requires h.bridge.None? && h.ethernet.Some? && h.fabric.Some? && h.cpu.Some? && Emit(h) + payload == packet
    ensures |packet| >= 30 && DecodeFabric(packet[14..19]) == h.fabric.value
  {
    hide EncodeEthernet, EncodeFabric, EncodeCpu, DecodeFabric, EmitRange;
    EmitWithCpu(h);
    var f := EncodeFabric(h.fabric.value);
    assert packet == (EncodeEthernet(h.ethernet.value) + f) +
      (EncodeCpu(h.cpu.value) + (EmitRange(h, 4, SLOTS) + payload));
    assert packet[14..19] == f;
    FabricRoundTrip(h.fabric.value);
  }
}
