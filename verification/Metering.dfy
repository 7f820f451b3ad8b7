/** Rate limits: the meters that colour a packet, the counters that follow the
    colour, and the marks that get it dropped. */
module Metering {
  import opened Words
  import opened Wrappers
  import opened WireFormat
  import opened PacketState
  import opened Tunnel
  import opened Classification

  const COLOR_RED: bv2 := 3
  const TWO_TO_32 := 0x1_0000_0000

  // ---------- fields of the bridge header ----------

  function Colour(s: State, r: Residue): bv2 {
    BridgeOf(s.hdr, r).meterPacketColor
  }

  predicate IsRed(s: State, r: Residue) {
    Colour(s, r) == COLOR_RED
  }

  predicate NeedsDrop(s: State, r: Residue) {
    BridgeOf(s.hdr, r).needDrop == 1
  }

  function SetColour(bg: Option<Bridge>, c: bv2): Option<Bridge> {
    if bg.None? then None else Some(bg.value.(meterPacketColor := c))
  }

  function SetNeedDrop(bg: Option<Bridge>): Option<Bridge> {
    if bg.None? then None else Some(bg.value.(needDrop := 1))
  }

  function SetNexthop(bg: Option<Bridge>, n: bv16): Option<Bridge> {
    if bg.None? then None else Some(bg.value.(tunnelNexthop := n))
  }

  function WithColour(s: State, c: bv2): State {
    s.(hdr := s.hdr.(bridge := SetColour(s.hdr.bridge, c)))
  }

  function MarkedForDrop(s: State): State {
    s.(hdr := s.hdr.(bridge := SetNeedDrop(s.hdr.bridge)))
  }

  function WithNexthop(s: State, n: bv16): State {
    s.(hdr := s.hdr.(bridge := SetNexthop(s.hdr.bridge, n)))
  }

  // ---------- counters ----------

  datatype LedgerState = LedgerState(pass: map<nat, nat>, drop: map<nat, nat>)

  function Bumped(m: map<nat, nat>, key: nat): map<nat, nat> {
    if key in m then m[key := (m[key] + 1) % TWO_TO_32] else m
  }

  function Counted(l: LedgerState, key: nat, red: bool): LedgerState {
    if red then l.(drop := Bumped(l.drop, key)) else l.(pass := Bumped(l.pass, key))
  }

  /** A table of pass counters and one of drop counters with the same keys: only
      keys that have an entry are counted, in 32 bits. */
  class Ledger {
    var pass: map<nat, nat>
    var drop: map<nat, nat>

    constructor (keys: set<nat>)
      ensures pass == drop == map k | k in keys :: 0
    {
      pass := map k | k in keys :: 0;
      drop := map k | k in keys :: 0;
    }

    function Value(): LedgerState
      reads this
    {
      LedgerState(pass, drop)
    }

    method Count(key: nat, red: bool)
      modifies this
      ensures Value() == Counted(old(Value()), key, red)
    {
      if red {
        if key in drop {
          drop := drop[key := (drop[key] + 1) % TWO_TO_32];
        }
      } else {
        if key in pass {
          pass := pass[key := (pass[key] + 1) % TWO_TO_32];
        }
      }
    }
  }

  /** What a ledger is told of one packet. */
  datatype Event = Event(key: nat, red: bool)

  function CountedAll(l: LedgerState, es: seq<Event>): LedgerState {
    if es == [] then l
    else
      var before := CountedAll(l, es[..|es| - 1]);
      Counted(before, es[|es| - 1].key, es[|es| - 1].red)
  }

  /** How many of the packets have a key, with one verdict. */
  function Occurrences(es: seq<Event>, key: nat, red: bool): nat {
    if es == [] then 0
    else Occurrences(es[..|es| - 1], key, red) + (if es[|es| - 1] == Event(key, red) then 1 else 0)
  }

  /** How many of the packets have a key. */
  function Packets(es: seq<Event>, key: nat): nat {
    if es == [] then 0
    else Packets(es[..|es| - 1], key) + (if es[|es| - 1].key == key then 1 else 0)
  }

  function At(m: map<nat, nat>, key: nat): nat {
    if key in m then m[key] else 0
  }

  lemma CountedOne(l: LedgerState, e: Event, key: nat)
    requires key in l.pass && key in l.drop
    ensures var n := Counted(l, e.key, e.red);
      && key in n.pass && key in n.drop
      && At(n.pass, key) == (if e == Event(key, false) then (At(l.pass, key) + 1) % TWO_TO_32 else At(l.pass, key))
      && At(n.drop, key) == (if e == Event(key, true) then (At(l.drop, key) + 1) % TWO_TO_32 else At(l.drop, key))
  {
  }

  lemma WrapsOn(a: nat, n: nat)
    ensures ((a + n) % TWO_TO_32 + 1) % TWO_TO_32 == (a + n + 1) % TWO_TO_32
  {
  }

  /** For a key with entries: each counter moves by its verdict's packets, and
      the two together by all the key's packets. */
  lemma {:induction false} PassPlusDrop(l: LedgerState, es: seq<Event>, key: nat)
    requires key in l.pass && key in l.drop && l.pass[key] < TWO_TO_32 && l.drop[key] < TWO_TO_32
    ensures var n := CountedAll(l, es);
      && key in n.pass && key in n.drop
      && At(n.pass, key) == (At(l.pass, key) + Occurrences(es, key, false)) % TWO_TO_32
      && At(n.drop, key) == (At(l.drop, key) + Occurrences(es, key, true)) % TWO_TO_32
    ensures Occurrences(es, key, false) + Occurrences(es, key, true) == Packets(es, key)
  {
    hide Counted, At;
    if es == [] {
      SmallStays(l, key);
    } else {
      var front, e := es[..|es| - 1], es[|es| - 1];
      PassPlusDrop(l, front, key);
      CountedOne(CountedAll(l, front), e, key);
      WrapsOn(At(l.pass, key), Occurrences(front, key, false));
      WrapsOn(At(l.drop, key), Occurrences(front, key, true));
    }
  }

  lemma SumOfWraps(a: nat, b: nat)
    ensures (a % TWO_TO_32 + b % TWO_TO_32) % TWO_TO_32 == (a + b) % TWO_TO_32
  {
  }

  /** A packet may tell a ledger nothing. */
  function Told(l: LedgerState, e: Option<Event>): LedgerState {
    if e.Some? then Counted(l, e.value.key, e.value.red) else l
  }

  function ToldAll(l: LedgerState, os: seq<Option<Event>>): LedgerState {
    if os == [] then l else Told(ToldAll(l, os[..|os| - 1]), os[|os| - 1])
  }

  function EventsOf(os: seq<Option<Event>>): seq<Event> {
    if os == [] then []
    else EventsOf(os[..|os| - 1]) + (if os[|os| - 1].Some? then [os[|os| - 1].value] else [])
  }

  function PacketsOf(os: seq<Option<Event>>, key: nat): nat {
    if os == [] then 0
    else PacketsOf(os[..|os| - 1], key) + (if os[|os| - 1].Some? && os[|os| - 1].value.key == key then 1 else 0)
  }

  lemma {:induction false} ToldIsCounted(l: LedgerState, os: seq<Option<Event>>, key: nat)
    ensures ToldAll(l, os) == CountedAll(l, EventsOf(os))
    ensures Packets(EventsOf(os), key) == PacketsOf(os, key)
  {
    hide Counted;
    if os != [] {
      var front, o := os[..|os| - 1], os[|os| - 1];
      ToldIsCounted(l, front, key);
      if o.Some? {
        assert EventsOf(os)[..|EventsOf(os)| - 1] == EventsOf(front);
      } else {
        assert EventsOf(os) == EventsOf(front);
      }
    }
  }

  /** Conservation: a key's passed and dropped counts together grow by exactly the
      packets that told the ledger of the key, in 32 bits. */
  lemma Conservation(l: LedgerState, os: seq<Option<Event>>, key: nat)
    requires key in l.pass && key in l.drop && l.pass[key] < TWO_TO_32 && l.drop[key] < TWO_TO_32
    ensures var n := ToldAll(l, os);
      (At(n.pass, key) + At(n.drop, key)) % TWO_TO_32 ==
        (At(l.pass, key) + At(l.drop, key) + PacketsOf(os, key)) % TWO_TO_32
  {
    hide At, EventsOf, PacketsOf, CountedAll, ToldAll, Occurrences, Packets;
    ToldIsCounted(l, os, key);
    PassPlusDrop(l, EventsOf(os), key);
    SumOfWraps(At(l.pass, key) + Occurrences(EventsOf(os), key, false), At(l.drop, key) +
               Occurrences(EventsOf(os), key, true));
  }

  lemma {:induction false} OccurrencesAreToldOnes(os: seq<Option<Event>>, key: nat, red: bool)
    ensures Occurrences(EventsOf(os), key, red) == multiset(os)[Some(Event(key, red))]
  {
    if os != [] {
      var front, o := os[..|os| - 1], os[|os| - 1];
      OccurrencesAreToldOnes(front, key, red);
      CountsLast(os, Some(Event(key, red)));
      OccurrencesOfLast(os, key, red);
    }
  }

  lemma CountsLast(os: seq<Option<Event>>, x: Option<Event>)
    requires os != []
    ensures multiset(os)[x] == multiset(os[..|os| - 1])[x] + if os[|os| - 1] == x then 1 else 0
  {
    assert os == os[..|os| - 1] + [os[|os| - 1]];
    assert multiset(os) == multiset(os[..|os| - 1]) + multiset{os[|os| - 1]};
  }

  lemma OccurrencesOfLast(os: seq<Option<Event>>, key: nat, red: bool)
    requires os != []
    ensures Occurrences(EventsOf(os), key, red) == Occurrences(EventsOf(os[..|os| - 1]), key, red) +
      if os[|os| - 1] == Some(Event(key, red)) then 1 else 0
  {
    var front, o := EventsOf(os[..|os| - 1]), os[|os| - 1];
    if o.Some? {
      assert EventsOf(os) == front + [o.value];
      assert EventsOf(os)[..|EventsOf(os)| - 1] == front;
    } else {
      assert EventsOf(os) == front;
    }
  }

  /** Each counter of a key grows by exactly as many packets as told the ledger that
      verdict, in 32 bits. */
  lemma EachVerdict(l: LedgerState, os: seq<Option<Event>>, key: nat)
    requires key in l.pass && key in l.drop && l.pass[key] < TWO_TO_32 && l.drop[key] < TWO_TO_32
    ensures var n := ToldAll(l, os);
      && key in n.pass && n.pass[key] == (l.pass[key] + multiset(os)[Some(Event(key, false))]) % 0x1_0000_0000
      && key in n.drop && n.drop[key] == (l.drop[key] + multiset(os)[Some(Event(key, true))]) % 0x1_0000_0000
  {
    hide EventsOf, PacketsOf, CountedAll, ToldAll, Occurrences, Packets;
    ToldIsCounted(l, os, key);
    PassPlusDrop(l, EventsOf(os), key);
    OccurrencesAreToldOnes(os, key, false);
    OccurrencesAreToldOnes(os, key, true);
  }

  lemma SmallStays(l: LedgerState, key: nat)
    requires key in l.pass && key in l.drop && l.pass[key] < TWO_TO_32 && l.drop[key] < TWO_TO_32
    ensures At(l.pass, key) == At(l.pass, key) % TWO_TO_32 && At(l.drop, key) == At(l.drop, key) % TWO_TO_32
  {
  }

  // ---------- the meters ----------

  predicate MeteredAt(s: State, entries: set<bv32>) {
    (s.hdr.innerIpv4.Some? || s.hdr.innerIpv6.Some?) && s.meta.bandwidthId in entries
  }

  /** The state after the EIP's own meter. */
  function Metered(s: State, entries: set<bv32>, answer: bv2): State {
    if MeteredAt(s, entries) then WithColour(s, answer) else s
  }

  /** `EipInMeter` and `EipOutMeter`. */
  method EipMeter(phv: Phv, entries: set<bv32>, answer: bv2)
    modifies phv`hdr
    ensures phv.Value() == Metered(old(phv.Value()), entries, answer)
  {
    if phv.hdr.innerIpv4.Some? || phv.hdr.innerIpv6.Some? {
      if phv.meta.bandwidthId in entries {
        phv.hdr := phv.hdr.(bridge := SetColour(phv.hdr.bridge, answer));
      }
    }
  }

  predicate SharedRuns(s: State, r: Residue) {
    !IsRed(s, r) && s.hdr.innerIpv4.Some?
  }

  predicate SharedAt(s: State, entries: set<bv16>, r: Residue) {
    SharedRuns(s, r) && BridgeOf(s.hdr, r).sharedBandwidthId in entries
  }

  /** The state after the shared meter. */
  function SharedMetered(s: State, entries: set<bv16>, answer: bv2, r: Residue): State {
    if SharedAt(s, entries, r) then WithColour(s, answer) else s
  }

  function SharedKey(s: State, r: Residue): nat {
    BridgeOf(s.hdr, r).sharedBandwidthId as nat
  }

  /** What the shared ledger is told: the colour after its own meter. */
  function SharedEvent(s: State, entries: set<bv16>, answer: bv2, r: Residue): Option<Event> {
    if SharedRuns(s, r) then Some(Event(SharedKey(s, r), IsRed(SharedMetered(s, entries, answer, r), r))) else None
  }

  /** `EipOutSharedMeter`, and the metering part of `EipInSharedMeter`. */
  method SharedMeter(phv: Phv, entries: set<bv16>, ledger: Ledger, answer: bv2, r: Residue)
    modifies phv`hdr, ledger
    ensures phv.Value() == SharedMetered(old(phv.Value()), entries, answer, r)
    ensures ledger.Value() == Told(old(ledger.Value()), SharedEvent(old(phv.Value()), entries, answer, r))
  {
    hide Counted;
    if BridgeOf(phv.hdr, r).meterPacketColor != COLOR_RED && phv.hdr.innerIpv4.Some? {
      var key := SharedKey(phv.Value(), r);
      if BridgeOf(phv.hdr, r).sharedBandwidthId in entries {
        phv.hdr := phv.hdr.(bridge := SetColour(phv.hdr.bridge, answer));
      }
      ledger.Count(key, BridgeOf(phv.hdr, r).meterPacketColor == COLOR_RED);
    }
  }

  function RateDropped(s: State, drops: set<bv2>, r: Residue): State {
    s.(drop := s.drop || Colour(s, r) in drops)
  }

  /** `eip_in_meter_drop_init`: the colours whose packets are dropped. */
  method EipInMeterDropInit() returns (drops: set<bv2>)
    ensures drops == {COLOR_RED}
  {
    drops := {};
    drops := drops + {COLOR_RED};
  }

  /** `EipInSharedMeter` */
  method EipInSharedMeter(phv: Phv, entries: set<bv16>, drops: set<bv2>, ledger: Ledger, answer: bv2, r: Residue)
    modifies phv`hdr, phv`drop, ledger
    ensures phv.Value() == RateDropped(SharedMetered(old(phv.Value()), entries, answer, r), drops, r)
    ensures ledger.Value() == Told(old(ledger.Value()), SharedEvent(old(phv.Value()), entries, answer, r))
  {
    SharedMeter(phv, entries, ledger, answer, r);
    if BridgeOf(phv.hdr, r).meterPacketColor in drops {
      phv.drop := true;
    }
  }

  /** What the shared ledger is told, in the packet's terms: of an IPv4 packet that did
      not come RED, whether its group has a meter and this said RED. */
  lemma SharedIsTold(s: State, entries: set<bv16>, answer: bv2, r: Residue)
    requires s.hdr.bridge.Some?
    ensures var bg := s.hdr.bridge.value;
      SharedEvent(s, entries, answer, r) ==
        if s.hdr.innerIpv4.None? || bg.meterPacketColor == 3 then None
        else Some(Event(SharedKey(s, r), bg.sharedBandwidthId in entries && answer == 3))
  {
    hide SharedKey;
  }

  /** What the meters that ran said, in order. */
  function Answers(s: State, eip: set<bv32>, shared: set<bv16>, a: (bv2, bv2), r: Residue): seq<bv2> {
    (if MeteredAt(s, eip) then [a.0] else []) + (if SharedAt(Metered(s, eip, a.0), shared, r) then [a.1] else [])
  }

  function BothMetered(s: State, eip: set<bv32>, shared: set<bv16>, a: (bv2, bv2), r: Residue): State {
    SharedMetered(Metered(s, eip, a.0), shared, a.1, r)
  }

  /** The final colour is RED exactly when a meter that ran said RED, for all
      packets that were not RED to begin with or whose EIP meter runs; the
      bridge header's initial colour is nowhere set, and a RED one that meets no
      EIP meter stays RED though no meter ran. */
  lemma RedIffMeterSaidRed(s: State, eip: set<bv32>, shared: set<bv16>, a: (bv2, bv2), r: Residue)
    requires s.hdr.bridge.Some?
    ensures (IsRed(BothMetered(s, eip, shared, a, r), r) <==> COLOR_RED in Answers(s, eip, shared, a, r)) <==>
      (!IsRed(s, r) || MeteredAt(s, eip))
  {
  }

  // ---------- P13 ingress ----------

  datatype NexthopEntry = NexthopEntry(srcId: byte, dstId: bv12, vni: bv24, innerMacId: bv16)

  /** What the tables after the meters answer for one packet. */
  datatype Lookups = Lookups(fipDip: bv32, vm: Option<bv16>, az: Option<bv16>, ecmp: Option<bv16>,
                             nexthop: Option<NexthopEntry>)

  function VmHost(s: State, vm: Option<bv16>): State {
    if vm.Some? then WithNexthop(s, vm.value) else MarkedForDrop(s)
  }

  function VmLocated(s: State, l: Lookups): State {
    if s.hdr.innerIpv4.Some? then
      var n := VmHost(s, l.vm);
      n.(hdr := n.hdr.(innerIpv4 := Some(s.hdr.innerIpv4.value.(dstAddr := l.fipDip))))
    else if s.hdr.innerIpv6.Some? then VmHost(s, l.vm)
    else s
  }

  /** `VmLocationMapping`: an address without a host marks the packet. */
  method VmLocationMapping(phv: Phv, l: Lookups)
    modifies phv`hdr
    ensures phv.Value() == VmLocated(old(phv.Value()), l)
  {
    if phv.hdr.innerIpv4.Some? || phv.hdr.innerIpv6.Some? {
      phv.hdr := phv.hdr.(bridge := if l.vm.Some? then SetNexthop(phv.hdr.bridge, l.vm.value)
                          else SetNeedDrop(phv.hdr.bridge));
    }
    if phv.hdr.innerIpv4.Some? {
      phv.hdr := phv.hdr.(innerIpv4 := Some(phv.hdr.innerIpv4.value.(dstAddr := l.fipDip)));
    }
  }

  function AzSelected(s: State, l: Lookups, r: Residue): State {
    if BridgeOf(s.hdr, r).nlbEip == 1 && l.az.Some? then WithNexthop(s, l.az.value) else s
  }

  method AzSelector(phv: Phv, l: Lookups, r: Residue)
    modifies phv`hdr
    ensures phv.Value() == AzSelected(old(phv.Value()), l, r)
  {
    if BridgeOf(phv.hdr, r).nlbEip == 1 {
      if l.az.Some? {
        phv.hdr := phv.hdr.(bridge := SetNexthop(phv.hdr.bridge, l.az.value));
      }
    }
  }

  function SetHop(bg: Option<Bridge>, e: NexthopEntry): Option<Bridge> {
    if bg.None? then None
    else Some(bg.value.(lkpVni := e.vni, tunnelSrcId := e.srcId, tunnelDstId := e.dstId, innerMacId := e.innerMacId))
  }

  function EcmpHop(s: State, l: Lookups): State {
    if l.ecmp.Some? then WithNexthop(s, l.ecmp.value) else s
  }

  /** The packet has a next hop that is unknown. */
  predicate HopMissing(s: State, l: Lookups, r: Residue) {
    l.nexthop.None? && BridgeOf(s.hdr, r).tunnelNexthop != 0
  }

  function HopSet(s: State, l: Lookups, r: Residue): State {
    if l.nexthop.Some? then s.(hdr := s.hdr.(bridge := SetHop(s.hdr.bridge, l.nexthop.value)))
    else if HopMissing(s, l, r) then MarkedForDrop(s)
    else s
  }

  /** `NexthopProcess` */
  method NexthopProcess(phv: Phv, l: Lookups, r: Residue)
    modifies phv`hdr
    ensures phv.Value() == HopSet(EcmpHop(old(phv.Value()), l), l, r)
  {
    if l.ecmp.Some? {
      phv.hdr := phv.hdr.(bridge := SetNexthop(phv.hdr.bridge, l.ecmp.value));
    }
    if l.nexthop.Some? {
      phv.hdr := phv.hdr.(bridge := SetHop(phv.hdr.bridge, l.nexthop.value));
    } else if BridgeOf(phv.hdr, r).tunnelNexthop != 0 {
      phv.hdr := phv.hdr.(bridge := SetNeedDrop(phv.hdr.bridge));
    }
  }

  function Key32(x: bv32): nat { x as nat }
  function Key128(x: bv128): nat { x as nat }

  /** What the inbound ledgers are told: nothing of packets marked for dropping. */
  function InboundEvent4(s: State, r: Residue): Option<Event> {
    if s.hdr.innerIpv4.Some? && !NeedsDrop(s, r) then Some(Event(Key32(BridgeOf(s.hdr, r).eipOrBwid), IsRed(s, r)))
      else None
  }

  function InboundEvent6(s: State, r: Residue): Option<Event> {
    if s.hdr.innerIpv4.None? && s.hdr.innerIpv6.Some? && !NeedsDrop(s, r)
    then Some(Event(Key128(s.hdr.innerIpv6.value.dstAddr), IsRed(s, r))) else None
  }

  method EipInEgressPktStats(phv: Phv, l4: Ledger, l6: Ledger, r: Residue)
    requires l4 != l6
    modifies l4, l6
    ensures l4.Value() == Told(old(l4.Value()), InboundEvent4(phv.Value(), r))
    ensures l6.Value() == Told(old(l6.Value()), InboundEvent6(phv.Value(), r))
  {
    hide Counted, Key32, Key128;
    var bg := BridgeOf(phv.hdr, r);
    if phv.hdr.innerIpv4.Some? && bg.needDrop != 1 && bg.meterPacketColor != COLOR_RED {
      l4.Count(Key32(bg.eipOrBwid), false);
    } else if phv.hdr.innerIpv4.Some? && bg.needDrop != 1 && bg.meterPacketColor == COLOR_RED {
      l4.Count(Key32(bg.eipOrBwid), true);
    } else if phv.hdr.innerIpv6.Some? && bg.needDrop != 1 && bg.meterPacketColor != COLOR_RED {
      l6.Count(Key128(phv.hdr.innerIpv6.value.dstAddr), false);
    } else if phv.hdr.innerIpv6.Some? && bg.needDrop != 1 && bg.meterPacketColor == COLOR_RED {
      l6.Count(Key128(phv.hdr.innerIpv6.value.dstAddr), true);
    }
  }

  /** The tables and the meter's answer one packet meets in P13 ingress. */
  datatype Visit = Visit(shared: set<bv16>, drops: set<bv2>, answer: bv2, lookups: Lookups)

  function AfterMeter(s: State, v: Visit, r: Residue): State {
    RateDropped(SharedMetered(s, v.shared, v.answer, r), v.drops, r)
  }

  function Located(s: State, l: Lookups, r: Residue): State {
    HopSet(EcmpHop(AzSelected(VmLocated(s, l), l, r), l), l, r)
  }

  predicate IsMatched(s: State, r: Residue) {
    BridgeOf(s.hdr, r).tunnelDirectSend == MATCH_PACKET
  }

  /** `P13_Ingress` on what decides counting and dropping. */
  function P13IngressResult(s: State, v: Visit, r: Residue): State {
    var t := s.(port := BridgeOf(s.hdr, r).igrPort as nat);
    if IsMatched(s, r) then Located(AfterMeter(t, v, r), v.lookups, r) else t
  }

  method P13IngressControl(phv: Phv, v: Visit, shared: Ledger, l4: Ledger, l6: Ledger, r: Residue)
    requires shared != l4 && shared != l6 && l4 != l6
    modifies phv, shared, l4, l6
    ensures phv.Value() == P13IngressResult(old(phv.Value()), v, r)
    ensures IsMatched(old(phv.Value()), r) ==>
      && shared.Value() == Told(old(shared.Value()), SharedEvent(old(phv.Value()), v.shared, v.answer, r))
      && l4.Value() == Told(old(l4.Value()), InboundEvent4(phv.Value(), r))
      && l6.Value() == Told(old(l6.Value()), InboundEvent6(phv.Value(), r))
    ensures !IsMatched(old(phv.Value()), r) ==>
      shared.Value() == old(shared.Value()) && l4.Value() == old(l4.Value()) && l6.Value() == old(l6.Value())
  {
    hide Told, InboundEvent4, InboundEvent6, VmLocated, AzSelected, EcmpHop, HopSet, SharedMetered, RateDropped;
    phv.port := BridgeOf(phv.hdr, r).igrPort as nat;
    if BridgeOf(phv.hdr, r).tunnelDirectSend == MATCH_PACKET {
      PortIsNotMetered(old(phv.Value()), phv.port, v, r);
      EipInSharedMeter(phv, v.shared, v.drops, shared, v.answer, r);
      VmLocationMapping(phv, v.lookups);
      AzSelector(phv, v.lookups, r);
      NexthopProcess(phv, v.lookups, r);
      EipInEgressPktStats(phv, l4, l6, r);
    }
  }

  lemma PortIsNotMetered(s: State, port: nat, v: Visit, r: Residue)
    ensures SharedEvent(s.(port := port), v.shared, v.answer, r) == SharedEvent(s, v.shared, v.answer, r)
  {
    hide Colour, SharedKey;
    assert Colour(s.(port := port), r) == Colour(s, r) &&
      SharedKey(s.(port := port), r) == SharedKey(s, r) by { SameHeaders(s, port, r); }
    assert SharedMetered(s.(port := port), v.shared, v.answer, r) ==
      SharedMetered(s, v.shared, v.answer, r).(port := port);
    SameHeaders(SharedMetered(s, v.shared, v.answer, r), port, r);
  }

  lemma SameHeaders(s: State, port: nat, r: Residue)
    ensures Colour(s.(port := port), r) == Colour(s, r) && SharedKey(s.(port := port), r) == SharedKey(s, r)
  {
  }

  /** The outer IPv4 header and the direction are the same. */
  predicate SameWay(a: State, b: State, r: Residue) {
    a.hdr.ipv4 == b.hdr.ipv4 && BridgeOf(a.hdr, r).igrTunnelType == BridgeOf(b.hdr, r).igrTunnelType
  }

  /** Looking up the host and the next hop never changes the colour, the EIP or
      the drop decision, and marks a packet exactly when it had the mark before,
      its address has no host, or its next hop is unknown: the mark is never
      cleared. */
  lemma MarkIsNeverCleared(s: State, l: Lookups, r: Residue)
    requires s.hdr.bridge.Some?
    ensures var n := Located(s, l, r);
      && n.hdr.bridge.Some? && Colour(n, r) == Colour(s, r) && n.drop == s.drop
      && BridgeOf(n.hdr, r).eipOrBwid == BridgeOf(s.hdr, r).eipOrBwid && SameWay(n, s, r)
      && (NeedsDrop(n, r) <==>
        NeedsDrop(s, r) || (l.vm.None? && (s.hdr.innerIpv4.Some? || s.hdr.innerIpv6.Some?)) ||
        HopMissing(EcmpHop(AzSelected(VmLocated(s, l), l, r), l), l, r))
  {
    VmMarks(s, l, r);
    var a := VmLocated(s, l);
    hide VmLocated;
    NexthopMarks(a, l, r);
  }

  /** Inbound, with the installed drop entry: P13 ingress drops a packet exactly
      when a meter that ran, in P13 egress or here, called it RED. */
  lemma InboundDroppedIffMeterSaidRed(s: State, eip: set<bv32>, answer: bv2, v: Visit, r: Residue)
    requires s.hdr.bridge.Some? && IsMatched(s, r) && !s.drop && v.drops == {COLOR_RED}
    requires !IsRed(s, r) || MeteredAt(s, eip)
    ensures P13IngressResult(Metered(s, eip, answer), v, r).drop <==>
      COLOR_RED in Answers(s, eip, v.shared, (answer, v.answer), r)
  {
    RedIffMeterSaidRed(s, eip, v.shared, (answer, v.answer), r);
    var m := Metered(s, eip, answer);
    var t := m.(port := BridgeOf(m.hdr, r).igrPort as nat);
    AfterMeterDrops(m, t.port, v, r);
    hide Answers;
    MarkIsNeverCleared(AfterMeter(t, v, r), v.lookups, r);
  }

  /** The fate of an inbound packet in terms of its headers, the entries and the
      answers.  The EIP's meter gives the colour of a packet of either IP version whose
      id has an entry; the shared one is asked for IPv4 packets only. */
  lemma InboundFate(s: State, eip: set<bv32>, answer: bv2, v: Visit, r: Residue)
    requires s.hdr.bridge.Some? && s.hdr.bridge.value.tunnelDirectSend == 0 && !s.drop && v.drops == {3}
    ensures var bg := s.hdr.bridge.value;
      var eipRed := if (s.hdr.innerIpv4.Some? || s.hdr.innerIpv6.Some?) && s.meta.bandwidthId in eip
                    then answer == 3 else bg.meterPacketColor == 3;
      P13IngressResult(Metered(s, eip, answer), v, r).drop <==>
        eipRed || (s.hdr.innerIpv4.Some? && bg.sharedBandwidthId in v.shared && v.answer == 3)
  {
    var m := Metered(s, eip, answer);
    var t := m.(port := BridgeOf(m.hdr, r).igrPort as nat);
    AfterMeterDrops(m, t.port, v, r);
    ColourAfterMeters(s, eip, answer, v, r);
    hide AfterMeter, Metered, SharedMetered;
    MarkIsNeverCleared(AfterMeter(t, v, r), v.lookups, r);
  }

  lemma ColourAfterMeters(s: State, eip: set<bv32>, answer: bv2, v: Visit, r: Residue)
    requires s.hdr.bridge.Some?
    ensures var bg := s.hdr.bridge.value;
      var m := Metered(s, eip, answer);
      && m.hdr.bridge.Some? && m.hdr.bridge.value.tunnelDirectSend == bg.tunnelDirectSend && m.drop == s.drop
      && (IsRed(SharedMetered(m, v.shared, v.answer, r), r) <==>
           (if (s.hdr.innerIpv4.Some? || s.hdr.innerIpv6.Some?) && s.meta.bandwidthId in eip
            then answer == 3 else bg.meterPacketColor == 3) ||
           (s.hdr.innerIpv4.Some? && bg.sharedBandwidthId in v.shared && v.answer == 3))
  {
  }

  /** An IPv6 packet whose EIP is limited is dropped exactly when its meter says RED. */
  lemma InboundIpv6Fate(s: State, eip: set<bv32>, answer: bv2, v: Visit, r: Residue)
    requires s.hdr.bridge.Some? && s.hdr.bridge.value.tunnelDirectSend == 0 && !s.drop && v.drops == {3}
    requires s.hdr.innerIpv4.None? && s.hdr.innerIpv6.Some? && s.meta.bandwidthId in eip
    ensures P13IngressResult(Metered(s, eip, answer), v, r).drop <==> answer == 3
  {
    hide Metered, P13IngressResult;
    InboundFate(s, eip, answer, v, r);
  }

  /** An IPv4 packet whose EIP is limited is dropped exactly when its meter says RED,
      or the shared one does that its group has. */
  lemma InboundIpv4Fate(s: State, eip: set<bv32>, answer: bv2, v: Visit, r: Residue)
    requires s.hdr.bridge.Some? && s.hdr.bridge.value.tunnelDirectSend == 0 && !s.drop && v.drops == {3}
    requires s.hdr.innerIpv4.Some? && s.meta.bandwidthId in eip
    ensures P13IngressResult(Metered(s, eip, answer), v, r).drop <==>
      answer == 3 || (s.hdr.bridge.value.sharedBandwidthId in v.shared && v.answer == 3)
  {
    hide Metered, P13IngressResult;
    InboundFate(s, eip, answer, v, r);
  }

  /** The packet with that next hop, that mark, and the tunnel of the next hop's entry;
      its IPv4 destination is the host's own address, and nothing else changed. */
  predicate Forwarded(s: State, n: State, l: Lookups, hop: bv16, marked: bool) {
    && s.hdr.bridge.Some? && n.hdr.bridge.Some?
    && n == s.(hdr := s.hdr.(bridge := n.hdr.bridge, innerIpv4 := n.hdr.innerIpv4))
    && n.hdr.innerIpv4 ==
         (if s.hdr.innerIpv4.Some? then Some(s.hdr.innerIpv4.value.(dstAddr := l.fipDip)) else None)
    && var bg := s.hdr.bridge.value.(tunnelNexthop := hop, needDrop := if marked then 1 else 0);
    n.hdr.bridge.value ==
    (if l.nexthop.None? then bg
     else
       var e := l.nexthop.value;
       bg.(lkpVni := e.vni, tunnelSrcId := e.srcId, tunnelDstId := e.dstId, innerMacId := e.innerMacId))
  }

  /** Only the next hop and the mark are new, and perhaps the inner IPv4 header. */
  predicate HopAndMark(s: State, n: State, hop: bv16, mark: bv1) {
    s.hdr.bridge.Some? &&
    n == s.(hdr := s.hdr.(bridge := Some(s.hdr.bridge.value.(tunnelNexthop := hop, needDrop := mark)),
                          innerIpv4 := n.hdr.innerIpv4))
  }

  lemma HostForwards(s: State, l: Lookups)
    requires s.hdr.bridge.Some?
    ensures var bg := s.hdr.bridge.value;
      var inner := s.hdr.innerIpv4.Some? || s.hdr.innerIpv6.Some?;
      var n := VmLocated(s, l);
      && HopAndMark(s, n, if inner && l.vm.Some? then l.vm.value else bg.tunnelNexthop,
                    if inner && l.vm.None? then 1 else bg.needDrop)
      && n.hdr.innerIpv4 == (if s.hdr.innerIpv4.Some? then Some(s.hdr.innerIpv4.value.(dstAddr := l.fipDip)) else None)
  {
  }

  lemma GroupsForward(s: State, l: Lookups, r: Residue)
    requires s.hdr.bridge.Some?
    ensures var bg := s.hdr.bridge.value;
      var n := EcmpHop(AzSelected(s, l, r), l);
      && HopAndMark(s, n, if l.ecmp.Some? then l.ecmp.value
                          else if bg.nlbEip == 1 && l.az.Some? then l.az.value
                          else bg.tunnelNexthop, bg.needDrop)
      && n.hdr.innerIpv4 == s.hdr.innerIpv4
  {
  }

  /** What P13 ingress leaves in the bridge header for P02 egress, field by field: the
      last lookup that hits gives the next hop, its entry the tunnel, and the mark is
      set for an address without a host and for a next hop without an entry. */
  lemma InboundForwarding(s: State, l: Lookups, r: Residue)
    requires s.hdr.bridge.Some?
    ensures var bg := s.hdr.bridge.value;
      var inner := s.hdr.innerIpv4.Some? || s.hdr.innerIpv6.Some?;
      var hop := if l.ecmp.Some? then l.ecmp.value
                 else if bg.nlbEip == 1 && l.az.Some? then l.az.value
                 else if inner && l.vm.Some? then l.vm.value
                 else bg.tunnelNexthop;
      var marked := bg.needDrop == 1 || (inner && l.vm.None?) || (l.nexthop.None? && hop != 0);
      Forwarded(s, Located(s, l, r), l, hop, marked)
  {
    HostForwards(s, l);
    var a := VmLocated(s, l);
    GroupsForward(a, l, r);
    var b := EcmpHop(AzSelected(a, l, r), l);
    hide VmLocated, EcmpHop, AzSelected, Forwarded;
    var bg := s.hdr.bridge.value;
    var inner := s.hdr.innerIpv4.Some? || s.hdr.innerIpv6.Some?;
    var hop := if l.ecmp.Some? then l.ecmp.value
               else if bg.nlbEip == 1 && l.az.Some? then l.az.value
               else if inner && l.vm.Some? then l.vm.value
               else bg.tunnelNexthop;
    var mark: bv1 := if inner && l.vm.None? then 1 else bg.needDrop;
    assert HopAndMark(s, b, hop, mark);
    assert b.hdr.innerIpv4 == a.hdr.innerIpv4;
    hide HopAndMark;
    EntryForwards(s, b, l, hop, mark, r);
  }

  lemma EntryForwards(s: State, b: State, l: Lookups, hop: bv16, mark: bv1, r: Residue)
    requires HopAndMark(s, b, hop, mark)
    requires b.hdr.innerIpv4 ==
      (if s.hdr.innerIpv4.Some? then Some(s.hdr.innerIpv4.value.(dstAddr := l.fipDip)) else None)
    ensures Forwarded(s, HopSet(b, l, r), l, hop, mark == 1 || (l.nexthop.None? && hop != 0))
  {
  }

  lemma AfterMeterDrops(m: State, port: nat, v: Visit, r: Residue)
    requires m.hdr.bridge.Some? && v.drops == {COLOR_RED}
    ensures var n := AfterMeter(m.(port := port), v, r);
      n.hdr.bridge.Some? && n.drop == (m.drop || IsRed(SharedMetered(m, v.shared, v.answer, r), r))
  {
  }

  lemma VmMarks(s: State, l: Lookups, r: Residue)
    requires s.hdr.bridge.Some?
    ensures var n := VmLocated(s, l);
      && n.hdr.bridge.Some? && Colour(n, r) == Colour(s, r) && n.drop == s.drop
      && BridgeOf(n.hdr, r).eipOrBwid == BridgeOf(s.hdr, r).eipOrBwid && SameWay(n, s, r)
      && (NeedsDrop(n, r) <==> NeedsDrop(s, r) || (l.vm.None? && (s.hdr.innerIpv4.Some? || s.hdr.innerIpv6.Some?)))
  {
    HostMarks(s, l.vm, r);
    assert VmLocated(s, l).hdr.bridge == (if s.hdr.innerIpv4.Some? || s.hdr.innerIpv6.Some? then VmHost(s, l.vm)
                                          else s).hdr.bridge;
    assert VmLocated(s, l).drop == s.drop && VmLocated(s, l).hdr.ipv4 == s.hdr.ipv4;
    hide VmLocated, VmHost;
  }

  lemma HostMarks(s: State, vm: Option<bv16>, r: Residue)
    requires s.hdr.bridge.Some?
    ensures var n := VmHost(s, vm);
      && n.hdr.bridge.Some? && Colour(n, r) == Colour(s, r) && n.drop == s.drop
      && BridgeOf(n.hdr, r).eipOrBwid == BridgeOf(s.hdr, r).eipOrBwid && SameWay(n, s, r)
      && (NeedsDrop(n, r) <==> NeedsDrop(s, r) || vm.None?)
  {
  }

  lemma NexthopMarks(s: State, l: Lookups, r: Residue)
    requires s.hdr.bridge.Some?
    ensures var n := HopSet(EcmpHop(AzSelected(s, l, r), l), l, r);
      && n.hdr.bridge.Some? && Colour(n, r) == Colour(s, r) && n.drop == s.drop
      && BridgeOf(n.hdr, r).eipOrBwid == BridgeOf(s.hdr, r).eipOrBwid && SameWay(n, s, r)
      && (NeedsDrop(n, r) <==> NeedsDrop(s, r) || HopMissing(EcmpHop(AzSelected(s, l, r), l), l, r))
  {
    hide HopMissing, MarksAs;
    NexthopOnly(s, l, r);
    var e := EcmpHop(AzSelected(s, l, r), l);
    hide EcmpHop, AzSelected;
    HopMarks(e, l, r);
    MarksAsIs(e, s, r);
  }

  /** The same colour, drop decision, EIP, way and mark. */
  predicate MarksAs(n: State, s: State, r: Residue) {
    && n.hdr.bridge.Some? && Colour(n, r) == Colour(s, r) && n.drop == s.drop
    && BridgeOf(n.hdr, r).eipOrBwid == BridgeOf(s.hdr, r).eipOrBwid && SameWay(n, s, r)
    && (NeedsDrop(n, r) <==> NeedsDrop(s, r))
  }

  lemma MarksAsIs(n: State, s: State, r: Residue)
    requires MarksAs(n, s, r)
    ensures n.hdr.bridge.Some? && Colour(n, r) == Colour(s, r) && n.drop == s.drop
    ensures BridgeOf(n.hdr, r).eipOrBwid == BridgeOf(s.hdr, r).eipOrBwid && SameWay(n, s, r)
    ensures NeedsDrop(n, r) <==> NeedsDrop(s, r)
  {
  }

  lemma NexthopOnly(s: State, l: Lookups, r: Residue)
    requires s.hdr.bridge.Some?
    ensures MarksAs(EcmpHop(AzSelected(s, l, r), l), s, r)
  {
  }

  lemma HopMarks(s: State, l: Lookups, r: Residue)
    requires s.hdr.bridge.Some?
    ensures var n := HopSet(s, l, r);
      && n.hdr.bridge.Some? && Colour(n, r) == Colour(s, r) && n.drop == s.drop
      && BridgeOf(n.hdr, r).eipOrBwid == BridgeOf(s.hdr, r).eipOrBwid && SameWay(n, s, r)
      && (NeedsDrop(n, r) <==> NeedsDrop(s, r) || HopMissing(s, l, r))
  {
  }

  // ---------- runs of packets ----------

  /** A packet that reaches P13 ingress. */
  datatype Arrival = Arrival(s: State, v: Visit, r: Residue)

  /** The three ledgers of a direction: the EIPs of either IP version, and the
      shared-bandwidth groups. */
  datatype Book = Eip4 | Eip6 | SharedBandwidth

  /** What an inbound packet tells a ledger. */
  function EventOf(a: Arrival, book: Book): Option<Event> {
    if !IsMatched(a.s, a.r) then None
    else
      match book
      case Eip4 => InboundEvent4(P13IngressResult(a.s, a.v, a.r), a.r)
      case Eip6 => InboundEvent6(P13IngressResult(a.s, a.v, a.r), a.r)
      case SharedBandwidth => SharedEvent(a.s, a.v.shared, a.v.answer, a.r)
  }

  /** What a run tells a ledger, packet by packet. */
  function EventsOfRun(run: seq<Arrival>, book: Book): (es: seq<Option<Event>>)
    ensures |es| == |run|
  {
    if run == [] then [] else EventsOfRun(run[..|run| - 1], book) + [EventOf(run[|run| - 1], book)]
  }

  /** The packet is one of those the ledger counts under the key: in an EIP's ledger
      its packets that are not marked for dropping, in the shared ledger the IPv4
      packets of the group that did not come RED. */
  predicate CountsFor(a: Arrival, book: Book, key: nat) {
    var n := P13IngressResult(a.s, a.v, a.r);
    IsMatched(a.s, a.r) &&
    match book
    case Eip4 => n.hdr.innerIpv4.Some? && !NeedsDrop(n, a.r) && Key32(BridgeOf(n.hdr, a.r).eipOrBwid) == key
    case Eip6 =>
      && n.hdr.innerIpv4.None? && n.hdr.innerIpv6.Some? && !NeedsDrop(n, a.r)
      && Key128(n.hdr.innerIpv6.value.dstAddr) == key
    case SharedBandwidth => a.s.hdr.innerIpv4.Some? && !IsRed(a.s, a.r) && SharedKey(a.s, a.r) == key
  }

  function MeteredPackets(run: seq<Arrival>, book: Book, key: nat): nat {
    if run == [] then 0
    else MeteredPackets(run[..|run| - 1], book, key) + (if CountsFor(run[|run| - 1], book, key) then 1 else 0)
  }

  lemma CountsWhenTold(a: Arrival, book: Book, key: nat)
    ensures CountsFor(a, book, key) <==> EventOf(a, book).Some? && EventOf(a, book).value.key == key
  {
    hide P13IngressResult, IsMatched, Key32, Key128, NeedsDrop, SharedKey, SharedMetered;
  }

  lemma {:induction false} RunCounts(run: seq<Arrival>, book: Book, key: nat)
    ensures PacketsOf(EventsOfRun(run, book), key) == MeteredPackets(run, book, key)
  {
    hide CountsFor, EventOf;
    if run != [] {
      RunCounts(run[..|run| - 1], book, key);
      CountsWhenTold(run[|run| - 1], book, key);
      assert EventsOfRun(run, book)[..|run| - 1] == EventsOfRun(run[..|run| - 1], book);
    }
  }

  /** Over any run of inbound packets, with any meter answers and any lookups, and in
      each of the three ledgers: the passed and dropped counts of a key together grow
      by exactly the packets counted under it. */
  lemma InboundConservation(l: LedgerState, run: seq<Arrival>, book: Book, key: nat)
    requires key in l.pass && key in l.drop && l.pass[key] < TWO_TO_32 && l.drop[key] < TWO_TO_32
    ensures var n := ToldAll(l, EventsOfRun(run, book));
      (At(n.pass, key) + At(n.drop, key)) % TWO_TO_32 ==
        (At(l.pass, key) + At(l.drop, key) + MeteredPackets(run, book, key)) % TWO_TO_32
  {
    hide At, EventsOfRun, MeteredPackets, ToldAll, PacketsOf;
    RunCounts(run, book, key);
    Conservation(l, EventsOfRun(run, book), key);
  }
}
