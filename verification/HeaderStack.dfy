/** The parsed headers of a packet (`headers_t`) and the deparser's `emit`,
    which writes the valid ones in the order of their declaration. */
module HeaderStack {
  import opened Words
  import opened Wrappers
  import opened WireFormat

  /** One slot per header; `None` is an invalid header. The ten option words
      are always valid as a prefix, so one byte string stands for them. */
  datatype Headers = Headers(
    bridge: Option<Bridge>,
    ethernet: Option<Ethernet>,
    fabric: Option<Fabric>,
    cpu: Option<Cpu>,
    ipv4: Option<Ipv4>,
    ipv6: Option<Ipv6>,
    udp: Option<Udp>,
    tcp: Option<Tcp>,
    icmp: Option<Icmp>,
    vxlan: Option<Vxlan>,
    innerEthernet: Option<Ethernet>,
    innerIpv4: Option<Ipv4>,
    innerOptions: seq<byte>,
    innerIpv6: Option<Ipv6>,
    innerTcp: Option<Tcp>,
    innerUdp: Option<Udp>)

  const NO_HEADERS := Headers(None, None, None, None, None, None, None, None, None, None, None, None, [], None, None,
                              None)

  const SLOTS := 16

  /** The bytes the slot at position `k` of the emit order contributes. */
  function Piece(h: Headers, k: nat): seq<byte>
    requires k < SLOTS
  {
    match k
    case 0 => (match h.bridge case None => [] case Some(x) => EncodeBridge(x))
    case 1 => (match h.ethernet case None => [] case Some(x) => EncodeEthernet(x))
    case 2 => (match h.fabric case None => [] case Some(x) => EncodeFabric(x))
    case 3 => (match h.cpu case None => [] case Some(x) => EncodeCpu(x))
    case 4 => (match h.ipv4 case None => [] case Some(x) => EncodeIpv4(x))
    case 5 => (match h.ipv6 case None => [] case Some(x) => EncodeIpv6(x))
    case 6 => (match h.udp case None => [] case Some(x) => EncodeUdp(x))
    case 7 => (match h.tcp case None => [] case Some(x) => EncodeTcp(x))
    case 8 => (match h.icmp case None => [] case Some(x) => EncodeIcmp(x))
    case 9 => (match h.vxlan case None => [] case Some(x) => EncodeVxlan(x))
    case 10 => (match h.innerEthernet case None => [] case Some(x) => EncodeEthernet(x))
    case 11 => (match h.innerIpv4 case None => [] case Some(x) => EncodeIpv4(x))
    case 12 => h.innerOptions
    case 13 => (match h.innerIpv6 case None => [] case Some(x) => EncodeIpv6(x))
    case 14 => (match h.innerTcp case None => [] case Some(x) => EncodeTcp(x))
    case _ => (match h.innerUdp case None => [] case Some(x) => EncodeUdp(x))
  }

  /** The bytes of slots `lo` up to but not including `hi`, in emit order. */
  function EmitRange(h: Headers, lo: nat, hi: nat): seq<byte>
    requires lo <= hi <= SLOTS
    decreases hi - lo
  {
    if lo == hi then [] else Piece(h, lo) + EmitRange(h, lo + 1, hi)
  }

  /** What `pkt.emit(hdr)` writes. */
  function Emit(h: Headers): seq<byte> {
    EmitRange(h, 0, SLOTS)
  }

  /** No slot from position `k` on is valid. */
  ghost predicate ClearFrom(h: Headers, k: nat) {
    forall j :: k <= j < SLOTS ==> Piece(h, j) == []
  }

  lemma {:induction false} EmitRangeSplits(h: Headers, lo: nat, mid: nat, hi: nat)
    requires lo <= mid <= hi <= SLOTS
    ensures EmitRange(h, lo, hi) == EmitRange(h, lo, mid) + EmitRange(h, mid, hi)
    decreases mid - lo
  {
    hide Piece;
    if lo < mid {
      EmitRangeSplits(h, lo + 1, mid, hi);
      var p, q, r := Piece(h, lo), EmitRange(h, lo + 1, mid), EmitRange(h, mid, hi);
      assert p + (q + r) == (p + q) + r;
    }
  }

  lemma {:induction false} EmitRangeClear(h: Headers, lo: nat, hi: nat)
    requires lo <= hi <= SLOTS
    requires ClearFrom(h, lo)
    ensures EmitRange(h, lo, hi) == []
    decreases hi - lo
  {
    hide Piece;
    if lo < hi {
      EmitRangeClear(h, lo + 1, hi);
    }
  }

  /** Two stacks that agree on the slots of a range emit the same bytes there. */
  lemma {:induction false} EmitRangeAgrees(h: Headers, g: Headers, lo: nat, hi: nat)
    requires lo <= hi <= SLOTS
    requires forall j :: lo <= j < hi ==> Piece(h, j) == Piece(g, j)
    ensures EmitRange(h, lo, hi) == EmitRange(g, lo, hi)
    decreases hi - lo
  {
    hide Piece;
    if lo < hi {
      EmitRangeAgrees(h, g, lo + 1, hi);
    }
  }

  lemma EmitStep(h: Headers, k: nat)
    requires k < SLOTS
    ensures EmitRange(h, k, SLOTS) == Piece(h, k) + EmitRange(h, k + 1, SLOTS)
  {
    hide Piece;
  }

  /** Filling one slot of a stack that is clear from there on appends the
      slot's bytes to what the stack emits. */
  lemma EmitAppends(h: Headers, g: Headers, k: nat)
    requires k < SLOTS
    requires ClearFrom(h, k) && ClearFrom(g, k + 1)
    requires forall j :: 0 <= j < k ==> Piece(h, j) == Piece(g, j)
    ensures Emit(g) == Emit(h) + Piece(g, k)
  {
    hide Piece, EmitRange, ClearFrom;
    EmitRangeSplits(h, 0, k, SLOTS);
    EmitRangeClear(h, k, SLOTS);
    EmitRangeSplits(g, 0, k, SLOTS);
    EmitRangeAgrees(h, g, 0, k);
    EmitRangeClear(g, k + 1, SLOTS);
    EmitStep(g, k);
  }

  // ---------- the VXLAN shape of a stack ----------

  /** An IPv4/UDP/VXLAN/Ethernet stack around an inner L3 packet. */
  function VxlanStack(ip: Ipv4, udp: Udp, vx: Vxlan, ie: Ethernet, l3: seq<byte>): seq<byte> {
    EncodeIpv4(ip) + (EncodeUdp(udp) + (EncodeVxlan(vx) + (EncodeEthernet(ie) + l3)))
  }

  /** The four outer headers are valid and nothing else sits among them. */
  predicate IsVxlan(h: Headers) {
    && h.ipv4.Some? && h.udp.Some? && h.vxlan.Some? && h.innerEthernet.Some?
    && h.ipv6.None? && h.tcp.None? && h.icmp.None?
  }

  /** What a stack emits from its inner IP header on. */
  function EmitInner(h: Headers): seq<byte> {
    EmitRange(h, 11, SLOTS)
  }

  lemma VxlanPieces(h: Headers)
    requires IsVxlan(h)
    ensures Piece(h, 4) == EncodeIpv4(h.ipv4.value) && Piece(h, 5) == [] && Piece(h, 6) == EncodeUdp(h.udp.value)
    ensures Piece(h, 7) == [] && Piece(h, 8) == [] && Piece(h, 9) == EncodeVxlan(h.vxlan.value)
    ensures Piece(h, 10) == EncodeEthernet(h.innerEthernet.value)
  {
    hide EncodeIpv4, EncodeUdp, EncodeVxlan, EncodeEthernet;
  }

  lemma EmitVxlan(h: Headers)
    requires IsVxlan(h)
    ensures EmitRange(h, 4, SLOTS) ==
      VxlanStack(h.ipv4.value, h.udp.value, h.vxlan.value, h.innerEthernet.value, EmitInner(h))
  {
    hide EncodeIpv4, EncodeUdp, EncodeVxlan, EncodeEthernet, Piece, EmitRange;
    VxlanPieces(h);
    EmitStep(h, 10);
    EmitStep(h, 9);
    EmitStep(h, 8);
    EmitStep(h, 7);
    EmitStep(h, 6);
    EmitStep(h, 5);
    EmitStep(h, 4);
  }
}
