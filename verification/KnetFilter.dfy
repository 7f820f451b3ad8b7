/** The driver's receive filter: bytes compared under a mask at the place where
    P4 puts the ingress port and its neighbours. */
module KnetFilter {
  import opened Words
  import opened WireFormat
  import opened HeaderStack
  import opened PacketState
  import opened CpuHeader

  const FILTER_SIZE := 30
  const CPU_HDR_OFFSET := 19

  /** `bit_mask` */
  function BitMask(x: nat): bv64 {
    if x >= 64 then 0xFFFF_FFFF_FFFF_FFFF else ((1 as bv64) << x) - 1
  }

  lemma BitMaskIsLowBits()
    ensures BitMask(0) == 0 && BitMask(16) == 0xFFFF && BitMask(64) == BitMask(100) == 0xFFFF_FFFF_FFFF_FFFF
  {
  }

  /** The mask of a 16-bit field. */
  function FieldMask(): bv16 {
    (BitMask(16) & 0xFFFF) as bv16
  }

  lemma FieldMaskBytes()
    ensures InMemory(FieldMask()) == [0xFF, 0xFF]
  {
    BitMaskIsLowBits();
    assert ((0xFFFF as bv64) & 0xFFFF) as bv16 == 0xFFFF;
  }

  /** Which fields to match, and their values; the 32-bit keys are truncated by
      `htons`. */
  datatype RxKey = RxKey(onPort: bool, devPort: bv16, onBd: bool, bd: bv16, onReason: bool, reason: bv32,
                         onIfindex: bool, ifindex: bv32)

  function Low16(x: bv32): bv16 { (x & 0xFFFF) as bv16 }
  function Hi(x: bv16): byte { (x >> 8) as byte }
  function Lo(x: bv16): byte { (x & 0xFF) as byte }

  /** Two bytes agree where the mask is set. */
  predicate Agree(a: byte, b: byte, mask: byte) { a & mask == b & mask }

  lemma AgreeExtremes(a: byte, b: byte)
    ensures Agree(a, b, 0xFF) <==> a == b
    ensures Agree(a, b, 0)
  {
  }

  /** A frame passes the filter when it agrees with it wherever the mask is set. */
  predicate Passes(filter: seq<byte>, mask: seq<byte>, frame: seq<byte>) {
    && |filter| == FILTER_SIZE && |mask| == FILTER_SIZE && |frame| >= FILTER_SIZE
    && forall i :: 0 <= i < FILTER_SIZE ==> Agree(frame[i], filter[i], mask[i])
  }

  /** The value and mask bytes of one 16-bit field, high byte first. */
  predicate FieldFilter(filter: seq<byte>, mask: seq<byte>, at: nat, on: bool, x: bv16) {
    && at + 2 <= |filter| && at + 2 <= |mask|
    && (if on then filter[at] == Hi(x) && filter[at + 1] == Lo(x) && mask[at] == 0xFF && mask[at + 1] == 0xFF
        else mask[at] == 0 && mask[at + 1] == 0)
  }

  /** What the filter is for a key: the four fields at their places, and nothing
      else compared. */
  ghost predicate FilterFor(filter: seq<byte>, mask: seq<byte>, k: RxKey) {
    && |filter| == FILTER_SIZE && |mask| == FILTER_SIZE
    && FieldFilter(filter, mask, 20, k.onPort, k.devPort)
    && FieldFilter(filter, mask, 22, k.onIfindex, Low16(k.ifindex))
    && FieldFilter(filter, mask, 24, k.onBd, k.bd)
    && FieldFilter(filter, mask, 26, k.onReason, Low16(k.reason))
    && forall i :: 0 <= i < FILTER_SIZE && !(20 <= i < 28) ==> mask[i] == 0
  }

  /** Nothing changed outside one 16-bit field. */
  ghost predicate OnlyField(f: seq<byte>, m: seq<byte>, filter: seq<byte>, mask: seq<byte>, at: nat) {
    && |f| == |m| == |filter| == |mask| == FILTER_SIZE
    && forall i :: 0 <= i < FILTER_SIZE && i != at && i != at + 1 ==> filter[i] == f[i] && mask[i] == m[i]
  }

  lemma SwappedBytes(x: bv16)
    ensures InMemory(Htons(x)) == [Hi(x), Lo(x)]
  {
    HtonsInMemory(x);
  }

  /** One of the four `if`s: the field under a flag, stored in place through
      `htons`. */
  method StoreField(on: bool, filter: array<byte>, mask: array<byte>, at: nat, x: bv16)
    requires filter != mask && filter.Length == FILTER_SIZE && mask.Length == FILTER_SIZE && at + 2 <= FILTER_SIZE
    requires FieldFilter(filter[..], mask[..], at, false, x)
    modifies filter, mask
    ensures FieldFilter(filter[..], mask[..], at, on, x)
    ensures OnlyField(old(filter[..]), old(mask[..]), filter[..], mask[..], at)
  {
    if on {
      var net := InMemory(Htons(x));
      SwappedBytes(x);
      FieldMaskBytes();
      hide InMemory, Htons, Hi, Lo, FieldMask;
      var ones := InMemory(FieldMask());
      filter[at] := net[0];
      filter[at + 1] := net[1];
      mask[at] := ones[0];
      mask[at + 1] := ones[1];
    }
  }

  method KnetRxFilterCreate(k: RxKey) returns (filter: array<byte>, mask: array<byte>)
    ensures fresh(filter) && fresh(mask) && FilterFor(filter[..], mask[..], k)
  {
    hide Hi, Lo, Low16;
    filter := new byte[FILTER_SIZE](_ => 0);
    mask := new byte[FILTER_SIZE](_ => 0);
    ghost var f0, m0 := filter[..], mask[..];
    StoreField(k.onPort, filter, mask, CPU_HDR_OFFSET + 1, k.devPort);
    ghost var f1, m1 := filter[..], mask[..];
    OthersKept(f0, m0, f1, m1, 20, k);
    StoreField(k.onBd, filter, mask, CPU_HDR_OFFSET + 5, k.bd);
    ghost var f2, m2 := filter[..], mask[..];
    OthersKept(f1, m1, f2, m2, 24, k);
    StoreField(k.onReason, filter, mask, CPU_HDR_OFFSET + 7, Low16(k.reason));
    ghost var f3, m3 := filter[..], mask[..];
    OthersKept(f2, m2, f3, m3, 26, k);
    StoreField(k.onIfindex, filter, mask, CPU_HDR_OFFSET + 3, Low16(k.ifindex));
    OthersKept(f3, m3, filter[..], mask[..], 22, k);
  }

  /** Storing one field leaves the others as they were. */
  lemma OthersKept(f: seq<byte>, m: seq<byte>, filter: seq<byte>, mask: seq<byte>, at: nat, k: RxKey)
    requires OnlyField(f, m, filter, mask, at) && (at == 20 || at == 22 || at == 24 || at == 26)
    ensures at != 20 ==> forall on :: FieldFilter(f, m, 20, on, k.devPort) ==>
      FieldFilter(filter, mask, 20, on, k.devPort)
    ensures at != 22 ==> forall on :: FieldFilter(f, m, 22, on, Low16(k.ifindex)) ==>
      FieldFilter(filter, mask, 22, on, Low16(k.ifindex))
    ensures at != 24 ==> forall on :: FieldFilter(f, m, 24, on, k.bd) ==> FieldFilter(filter, mask, 24, on, k.bd)
    ensures at != 26 ==> forall on :: FieldFilter(f, m, 26, on, Low16(k.reason)) ==>
      FieldFilter(filter, mask, 26, on, Low16(k.reason))
    ensures forall i :: 0 <= i < FILTER_SIZE && !(20 <= i < 28) ==> mask[i] == m[i]
  {
    hide Hi, Lo, Low16;
  }

  lemma FieldPasses(filter: seq<byte>, mask: seq<byte>, frame: seq<byte>, at: nat, on: bool, x: bv16, y: bv16)
    requires |filter| == FILTER_SIZE && |mask| == FILTER_SIZE && |frame| >= FILTER_SIZE && at + 2 <= FILTER_SIZE
    requires FieldFilter(filter, mask, at, on, x) && frame[at..at + 2] == Bytes2(y)
    ensures Agree(frame[at], filter[at], mask[at]) && Agree(frame[at + 1], filter[at + 1], mask[at + 1]) <==>
      (on ==> x == y)
  {
    hide Agree, Bytes2, Hi, Lo;
    AgreeExtremes(frame[at], filter[at]);
    AgreeExtremes(frame[at + 1], filter[at + 1]);
    assert frame[at] == frame[at..at + 2][0] && frame[at + 1] == frame[at..at + 2][1];
    BytesAreHiLo(y);
    HiLoDecide(x, y);
  }

  lemma BytesAreHiLo(y: bv16)
    ensures Bytes2(y) == [Hi(y), Lo(y)]
  {
  }

  lemma HiLoDecide(x: bv16, y: bv16)
    ensures Hi(x) == Hi(y) && Lo(x) == Lo(y) <==> x == y
  {
    BytesAreHiLo(x);
    BytesAreHiLo(y);
    hide Bytes2, Hi, Lo;
    if Hi(x) == Hi(y) && Lo(x) == Lo(y) {
      Bytes2Injective(x, y);
    }
  }

  /** The CPU header's fields on the wire. */
  lemma CpuBytesAt(c: Cpu)
    ensures var b := EncodeCpu(c);
      && b[1..3] == Bytes2(c.ingressPort) && b[3..5] == Bytes2(c.ingressIfindex)
      && b[5..7] == Bytes2(c.ingressBd) && b[7..9] == Bytes2(c.reasonCode)
  {
    hide Bytes2, CpuFlags;
    FieldsAt([CpuFlags(c)], Bytes2(c.ingressPort), Bytes2(c.ingressIfindex), Bytes2(c.ingressBd), Bytes2(c.reasonCode),
             Bytes2(c.etherType));
  }

  lemma FieldsAt(f: seq<byte>, p: seq<byte>, q: seq<byte>, r: seq<byte>, s: seq<byte>, t: seq<byte>)
    requires |f| == 1 && |p| == |q| == |r| == |s| == 2
    ensures var b := f + p + q + r + s + t; b[1..3] == p && b[3..5] == q && b[5..7] == r && b[7..9] == s
  {
  }

  lemma FrameFields(h: Headers, payload: seq<byte>, frame: seq<byte>)
    requires h.bridge.None? && h.ethernet.Some? && h.fabric.Some? && h.cpu.Some? && Emit(h) + payload == frame
    ensures |frame| >= FILTER_SIZE
    ensures var c := h.cpu.value;
      frame[20..22] == Bytes2(c.ingressPort) && frame[22..24] == Bytes2(c.ingressIfindex)
      && frame[24..26] == Bytes2(c.ingressBd) && frame[26..28] == Bytes2(c.reasonCode)
  {
    hide EncodeEthernet, EncodeFabric, EncodeCpu, EmitRange, Bytes2;
    EmitWithCpu(h);
    CpuBytesAt(h.cpu.value);
    var front, cpu := EncodeEthernet(h.ethernet.value) + EncodeFabric(h.fabric.value), EncodeCpu(h.cpu.value);
    assert frame == front + (cpu + (EmitRange(h, 4, SLOTS) + payload));
    assert frame[19..30] == cpu;
    assert frame[20..22] == cpu[1..3] && frame[22..24] == cpu[3..5] && frame[24..26] == cpu[5..7] &&
      frame[26..28] == cpu[7..9];
  }

  /** The filter accepts a frame with a CPU header exactly when each field the key
      asks for has the value it asks for. */
  lemma PassesIffFieldsMatch(k: RxKey, filter: seq<byte>, mask: seq<byte>, h: Headers, payload: seq<byte>)
    requires FilterFor(filter, mask, k)
    requires h.bridge.None? && h.ethernet.Some? && h.fabric.Some? && h.cpu.Some?
    ensures Passes(filter, mask, Emit(h) + payload) <==>
      && (k.onPort ==> k.devPort == h.cpu.value.ingressPort)
      && (k.onIfindex ==> Low16(k.ifindex) == h.cpu.value.ingressIfindex)
      && (k.onBd ==> k.bd == h.cpu.value.ingressBd)
      && (k.onReason ==> Low16(k.reason) == h.cpu.value.reasonCode)
  {
    hide Emit, FieldFilter, Bytes2, Low16, Agree, EmitRange;
    var frame := Emit(h) + payload;
    var c := h.cpu.value;
    FrameFields(h, payload, frame);
    FieldPasses(filter, mask, frame, 20, k.onPort, k.devPort, c.ingressPort);
    FieldPasses(filter, mask, frame, 22, k.onIfindex, Low16(k.ifindex), c.ingressIfindex);
    FieldPasses(filter, mask, frame, 24, k.onBd, k.bd, c.ingressBd);
    FieldPasses(filter, mask, frame, 26, k.onReason, Low16(k.reason), c.reasonCode);
    AllBytes(filter, mask, frame);
  }

  lemma AllBytes(filter: seq<byte>, mask: seq<byte>, frame: seq<byte>)
    requires |filter| == FILTER_SIZE && |mask| == FILTER_SIZE && |frame| >= FILTER_SIZE
    requires forall i :: 0 <= i < FILTER_SIZE && !(20 <= i < 28) ==> mask[i] == 0
    ensures Passes(filter, mask, frame) <==>
      && Agree(frame[20], filter[20], mask[20]) && Agree(frame[21], filter[21], mask[21])
      && Agree(frame[22], filter[22], mask[22]) && Agree(frame[23], filter[23], mask[23])
      && Agree(frame[24], filter[24], mask[24]) && Agree(frame[25], filter[25], mask[25])
      && Agree(frame[26], filter[26], mask[26]) && Agree(frame[27], filter[27], mask[27])
  {
    hide Agree;
    forall i | 0 <= i < FILTER_SIZE && !(20 <= i < 28)
      ensures Agree(frame[i], filter[i], mask[i])
    {
      AgreeExtremes(frame[i], filter[i]);
    }
  }

  /** The filter for a port accepts a frame P4 built for the CPU exactly when the
      frame came in on that port. */
  lemma PortFilterIff(devPort: bv16, filter: seq<byte>, mask: seq<byte>, h: Headers, port: bv9, r: Residue,
                      payload: seq<byte>)
    requires FilterFor(filter, mask, RxKey(true, devPort, false, 0, false, 0, false, 0))
    requires h.bridge.None? && h.ethernet.Some?
    ensures Passes(filter, mask, Emit(WithCpuHeader(h, port, r)) + payload) <==> port as bv16 == devPort
  {
    hide Emit, Passes, FilterFor;
    PassesIffFieldsMatch(RxKey(true, devPort, false, 0, false, 0, false, 0), filter, mask, WithCpuHeader(h, port, r),
                         payload);
  }
}
