/** The neighbour cache: one entry per host interface, and the hardware table of
    outer MAC addresses it must agree with. */
module NeighbourCache {
  import opened Words
  import opened Wrappers
  import opened HashTables

  // ---------- MAC addresses ----------

  type Mac = m: seq<byte> | |m| == 6 witness [0, 0, 0, 0, 0, 0]

  predicate IsMulticast(m: Mac) {
    0x01 & m[0] != 0
  }

  predicate IsZero(m: Mac) {
    m[0] | m[1] | m[2] | m[3] | m[4] | m[5] == 0
  }

  /** `is_valid_ether_addr` */
  predicate IsValidEtherAddr(m: Mac) {
    !IsMulticast(m) && !IsZero(m)
  }

  /** Unicast and non-zero, said of the address as a number: the group bit is the
      lowest bit of its first byte. */
  predicate UnicastNonZero(x: bv48) {
    x & 0x0100_0000_0000 == 0 && x != 0
  }

  lemma ValidIsUnicastNonZero(m: Mac)
    ensures IsValidEtherAddr(m) <==> UnicastNonZero(Word6(m))
  {
  }

  function Reversed(m: Mac): Mac {
    [m[5], m[4], m[3], m[2], m[1], m[0]]
  }

  /** `reverse_mac` */
  method ReverseMac(rmac: array<byte>, mac: Mac)
    requires rmac.Length == 6
    modifies rmac
    ensures rmac[..] == Reversed(mac)
  {
    rmac[0] := mac[5];
    rmac[1] := mac[4];
    rmac[2] := mac[3];
    rmac[3] := mac[2];
    rmac[4] := mac[1];
    rmac[5] := mac[0];
  }

  /** A 64-bit variable whose first six bytes in memory are given; its high
      sixteen bits keep whatever the stack held. */
  function LittleEndian(b: Mac, residue: bv16): bv64 {
    ((residue as bv64) << 48) | ((b[5] as bv64) << 40) | ((b[4] as bv64) << 32) | ((b[3] as bv64) << 24) |
    ((b[2] as bv64) << 16) | ((b[1] as bv64) << 8) | (b[0] as bv64)
  }

  function Low48(x: bv64): bv48 {
    (x & 0xFFFF_FFFF_FFFF) as bv48
  }

  /** The reversed bytes, read as the C side lays them out, give the address as
      the hardware numbers it, whatever was on the stack. */
  lemma ReversedBytesAreTheAddress(m: Mac, residue: bv16)
    ensures Low48(LittleEndian(Reversed(m), residue)) == Word6(m)
  {
    assert Reversed(m)[0] == m[5] && Reversed(m)[1] == m[4] && Reversed(m)[2] == m[3];
    assert Reversed(m)[3] == m[2] && Reversed(m)[4] == m[1] && Reversed(m)[5] == m[0];
    hide Reversed;
  }

  // ---------- the hardware table ----------

  datatype Rewrite = Rewrite(src: bv48, dst: bv48)

  /** One attempt to write an entry, and whether it succeeded. */
  datatype Write = Write(port: nat, rewrite: Rewrite, ok: bool)

  function RewriteOf(smac: Mac, dmac: Mac): Rewrite {
    Rewrite(Word6(smac), Word6(dmac))
  }

  /** What can go wrong: the lookup fails, or the write itself does. */
  datatype Faults = Faults(findOk: bool, writeOk: bool)

  /** The key's width: the port is passed as 16 bits. */
  function EgressPort(devPort: nat): nat {
    devPort % 0x1_0000
  }

  /** Adding needs a new key and modifying an old one; the choice follows the
      lookup, and a failed lookup counts as a missing entry. */
  predicate Succeeds(hw: map<nat, Rewrite>, port: nat, f: Faults) {
    f.writeOk && (port in hw ==> f.findOk)
  }

  class MacRewriteTable {
    var entries: map<nat, Rewrite>
    /** Every write attempted so far. */
    ghost var log: seq<Write>

    constructor ()
      ensures entries == map[] && log == []
    {
      entries, log := map[], [];
    }

    /** `mac_rewrite_table_entry_add`: find, then add or modify. */
    method EntryAdd(devPort: nat, smac: Mac, dmac: Mac, f: Faults, residue: bv16) returns (ok: bool)
      modifies this
      ensures ok == Succeeds(old(entries), EgressPort(devPort), f)
      ensures entries == if ok then old(entries)[EgressPort(devPort) := RewriteOf(smac, dmac)] else old(entries)
      ensures log == old(log) + [Write(EgressPort(devPort), RewriteOf(smac, dmac), ok)]
    {
      hide LittleEndian, Low48, Word6, Reversed;
      var port := EgressPort(devPort);
      var rmac := new byte[6];
      ReverseMac(rmac, smac);
      var src := LittleEndian(rmac[..], residue);
      ReverseMac(rmac, dmac);
      var dst := LittleEndian(rmac[..], residue);
      ReversedBytesAreTheAddress(smac, residue);
      ReversedBytesAreTheAddress(dmac, residue);
      var rewrite := Rewrite(Low48(src), Low48(dst));
      var found := f.findOk && port in entries;
      ok := f.writeOk && (if found then port in entries else port !in entries);
      if ok {
        entries := entries[port := rewrite];
      }
      log := log + [Write(port, rewrite, ok)];
    }
  }

  // ---------- the cache ----------

  class MacEntry {
    const gwIp: nat
    const smac: Mac
    const devPort: nat
    var dmac: Mac
    var valid: bool

    constructor (gwIp: nat, smac: Mac, devPort: nat)
      ensures this.gwIp == gwIp && this.smac == smac && this.devPort == devPort
      ensures !valid && dmac == [0, 0, 0, 0, 0, 0]
    {
      this.gwIp, this.smac, this.devPort := gwIp, smac, devPort;
      dmac, valid := [0, 0, 0, 0, 0, 0], false;
    }
  }

  /** What an entry holds. */
  datatype Slot = Slot(ifindex: nat, gwIp: nat, smac: Mac, devPort: nat, dmac: Mac, valid: bool)

  function PortOfSlot(s: Slot): nat {
    EgressPort(s.devPort)
  }

  /** A neighbour message: `fits` when it is long enough for its own header. */
  datatype NeighMsg = NeighMsg(isNew: bool, fits: bool, inet: bool, ifindex: nat, dst: Option<nat>, lladdr: Option<Mac>)

  datatype State = State(slots: seq<Slot>, hw: map<nat, Rewrite>, log: seq<Write>)

  function LastSlot(slots: seq<Slot>, ifindex: nat): Option<nat> {
    if slots == [] then None
    else if slots[|slots| - 1].ifindex == ifindex then Some(|slots| - 1)
    else LastSlot(slots[..|slots| - 1], ifindex)
  }

  /** The address a message gives for its interface's gateway. */
  function Announced(gwIp: nat, m: NeighMsg): Option<Mac> {
    if m.dst == Some(gwIp) && m.lladdr.Some? && IsValidEtherAddr(m.lladdr.value) then m.lladdr else None
  }

  /** The slot and address a message makes the agent write. */
  function ToWrite(slots: seq<Slot>, m: NeighMsg): (r: Option<(nat, Mac)>)
  {
    if !m.isNew || !m.fits || !m.inet then None
    else
      match LastSlot(slots, m.ifindex)
      case None => None
      case Some(i) =>
        if i >= |slots| then None
        else
          var mac := Announced(slots[i].gwIp, m);
          if mac.Some? && (!slots[i].valid || slots[i].dmac != mac.value) then Some((i, mac.value)) else None
  }

  function Programmed(s: State, i: nat, mac: Mac, f: Faults): State
    requires i < |s.slots|
  {
    var slot := s.slots[i];
    var port, rewrite, ok := PortOfSlot(slot), RewriteOf(slot.smac, mac), Succeeds(s.hw, PortOfSlot(slot), f);
    State(if ok then s.slots[i := slot.(dmac := mac, valid := true)] else s.slots,
          if ok then s.hw[port := rewrite] else s.hw,
          s.log + [Write(port, rewrite, ok)])
  }

  /** One message, whatever fails. */
  function Step(s: State, m: NeighMsg, f: Faults): State {
    match ToWrite(s.slots, m)
    case None => s
    case Some(w) => if w.0 < |s.slots| then Programmed(s, w.0, w.1, f) else s
  }

  lemma {:induction false} LastSlotInside(slots: seq<Slot>, ifindex: nat)
    ensures match LastSlot(slots, ifindex)
      case None => forall i :: 0 <= i < |slots| ==> slots[i].ifindex != ifindex
      case Some(i) =>
        i < |slots| && slots[i].ifindex == ifindex && forall j :: i < j < |slots| ==> slots[j].ifindex != ifindex
  {
    if slots != [] {
      LastSlotInside(slots[..|slots| - 1], ifindex);
    }
  }

  class NeighbourAgent {
    const table: HashTable<MacEntry>
    const hw: MacRewriteTable

    constructor (t: HashTable<MacEntry>, h: MacRewriteTable)
      requires t.Valid() && EntriesApart(t.contents)
      ensures Ready() && table == t && hw == h
    {
      table, hw := t, h;
    }

    ghost predicate Ready()
      reads table, table.buckets, table.buckets[..], table.entryOf.Keys
    {
      table.Valid() && EntriesApart(table.contents)
    }

    ghost function View(): State
      reads table, hw, ValuesOf(table.contents)
    {
      State(SlotsOf(table.contents), hw.entries, hw.log)
    }

    /** `process_neigh_msg` */
    method ProcessNeighMsg(m: NeighMsg, f: Faults, residue: bv16)
      requires Ready()
      modifies hw, ValuesOf(table.contents)
      ensures Ready() && View() == Step(old(View()), m, f)
    {
      hide IsValidEtherAddr, RewriteOf, LastSlot, LastWith, EgressPort, Succeeds;
      if !m.isNew || !m.fits || !m.inet {
        return;
      }
      var e := table.Get(m.ifindex);
      ghost var slots := SlotsOf(table.contents);
      GetIsLastSlot(table.contents, m.ifindex);
      if e.None? {
        return;
      }
      ghost var i := LastSlot(slots, m.ifindex).value;
      var entry := e.value;
      if m.dst.Some? && m.dst.value != entry.gwIp {
        return;
      }
      if m.lladdr.Some? && !IsValidEtherAddr(m.lladdr.value) {
        return;
      }
      if m.dst.None? || m.lladdr.None? {
        return;
      }
      if entry.valid && entry.dmac == m.lladdr.value {
        return;
      }
      assert ToWrite(slots, m) == Some((i, m.lladdr.value));
      hide SlotsOf, Programmed, Announced;
      WriteEntry(entry, i, m.lladdr.value, f, residue);
    }

    /** The write, and on success the cache's copy of it. */
    method WriteEntry(entry: MacEntry, ghost i: nat, mac: Mac, f: Faults, residue: bv16)
      requires Ready() && i < |table.contents| && table.contents[i].value == entry
      modifies hw, entry
      ensures Ready() && View() == Programmed(old(View()), i, mac, f)
    {
      hide RewriteOf, EgressPort, Succeeds;
      ghost var slots := SlotsOf(table.contents);
      var ok := hw.EntryAdd(entry.devPort, entry.smac, mac, f, residue);
      if ok {
        entry.dmac := mac;
        entry.valid := true;
      }
      assert SlotsOf(table.contents) == if ok then slots[i := slots[i].(dmac := mac, valid := true)] else slots;
    }
  }

  ghost predicate EntriesApart(a: seq<Entry<MacEntry>>) {
    forall i, j :: 0 <= i < j < |a| ==> a[i].value != a[j].value
  }

  ghost function ValuesOf(a: seq<Entry<MacEntry>>): set<MacEntry> {
    set i | 0 <= i < |a| :: a[i].value
  }

  ghost function SlotOf(e: Entry<MacEntry>): Slot
    reads e.value
  {
    Slot(e.key, e.value.gwIp, e.value.smac, e.value.devPort, e.value.dmac, e.value.valid)
  }

  ghost function SlotsOf(a: seq<Entry<MacEntry>>): seq<Slot>
    reads ValuesOf(a)
  {
    seq(|a|, i requires 0 <= i < |a| reads ValuesOf(a) => SlotOf(a[i]))
  }

  lemma {:induction false} GetIsLastSlot(a: seq<Entry<MacEntry>>, ifindex: nat)
    ensures match LastSlot(SlotsOf(a), ifindex)
      case None => LastWith(a, ifindex) == None
      case Some(i) => i < |a| && a[i].key == ifindex && LastWith(a, ifindex) == Some(a[i].value)
  {
    hide LastWith, LastSlot;
    LastSlotInside(SlotsOf(a), ifindex);
    LastWithIsLast(a, ifindex);
    assert forall i :: 0 <= i < |a| ==> SlotsOf(a)[i].ifindex == a[i].key;
    if LastSlot(SlotsOf(a), ifindex).Some? {
      var i := LastSlot(SlotsOf(a), ifindex).value;
      assert forall j :: i < j < |a| ==> a[j].key != ifindex;
    }
  }

  // ---------- setting up ----------

  datatype Hostif = Hostif(ifindex: nat, gwIp: nat, mac: Mac, devPort: nat)

  function FreshSlot(h: Hostif): Slot {
    Slot(h.ifindex, h.gwIp, h.mac, h.devPort, [0, 0, 0, 0, 0, 0], false)
  }

  ghost predicate FreshSlots(slots: seq<Slot>, hostifs: seq<Hostif>) {
    |slots| == |hostifs| && forall i :: 0 <= i < |slots| ==> slots[i] == FreshSlot(hostifs[i])
  }

  /** `hostif_array_to_mac_entry_table`: one invalid entry per interface; the
      source aborts when an interface has no index. */
  method HostifArrayToMacEntryTable(hostifs: seq<Hostif>) returns (r: Option<HashTable<MacEntry>>)
    ensures r.Some? <==> forall i :: 0 <= i < |hostifs| ==> hostifs[i].ifindex != 0
    ensures r.Some? ==> r.value.Valid() && EntriesApart(r.value.contents)
    ensures r.Some? ==> FreshSlots(SlotsOf(r.value.contents), hostifs)
  {
    var a: seq<Entry<MacEntry>> := [];
    for i := 0 to |hostifs|
      invariant |a| == i && EntriesApart(a) && forall j :: 0 <= j < i ==> fresh(a[j].value)
      invariant forall j :: 0 <= j < i ==> hostifs[j].ifindex != 0 && SlotOf(a[j]) == FreshSlot(hostifs[j])
    {
      if hostifs[i].ifindex == 0 {
        return None;
      }
      var e := new MacEntry(hostifs[i].gwIp, hostifs[i].mac, hostifs[i].devPort);
      a := a + [Entry(hostifs[i].ifindex, e)];
    }
    var t := ArrayToHashTable(a);
    r := Some(t);
  }

  // ---------- runs of messages ----------

  function Run(s: State, ms: seq<(NeighMsg, Faults)>): State {
    if ms == [] then s else Step(Run(s, ms[..|ms| - 1]), ms[|ms| - 1].0, ms[|ms| - 1].1)
  }

  /** The entry that lookups by its interface find. */
  predicate Visible(slots: seq<Slot>, i: nat)
  {
    i < |slots| && LastSlot(slots, slots[i].ifindex) == Some(i)
  }

  ghost predicate DistinctPorts(slots: seq<Slot>) {
    forall i, j :: 0 <= i < j < |slots| && Visible(slots, i) && Visible(slots, j) ==>
      PortOfSlot(slots[i]) != PortOfSlot(slots[j])
  }

  /** A valid entry is what the hardware holds for its port. */
  predicate SlotCoherent(s: State, i: nat) {
    i < |s.slots| && s.slots[i].valid ==>
      PortOfSlot(s.slots[i]) in s.hw && s.hw[PortOfSlot(s.slots[i])] == RewriteOf(s.slots[i].smac, s.slots[i].dmac)
  }

  ghost predicate Coherent(s: State) {
    forall i :: 0 <= i < |s.slots| ==> SlotCoherent(s, i)
  }

  /** The last write of a port that succeeded. */
  function LastOk(log: seq<Write>, port: nat): Option<Rewrite> {
    if log == [] then None
    else if log[|log| - 1].port == port && log[|log| - 1].ok then Some(log[|log| - 1].rewrite)
    else LastOk(log[..|log| - 1], port)
  }

  /** A write is only attempted for a unicast, non-zero destination that is not
      what was last written for the port. */
  predicate Changes(log: seq<Write>, k: nat)
  {
    k < |log| ==> UnicastNonZero(log[k].rewrite.dst) && LastOk(log[..k], log[k].port) != Some(log[k].rewrite)
  }

  ghost predicate OnlyChanges(log: seq<Write>) {
    forall k :: 0 <= k < |log| ==> Changes(log, k)
  }

  function ValidRewrite(slot: Slot): Option<Rewrite> {
    if slot.valid then Some(RewriteOf(slot.smac, slot.dmac)) else None
  }

  /** What a run keeps of each entry: shadowed ones stay invalid, and a visible
      one is valid exactly when its port has been written, with what it says. */
  predicate SlotAgrees(s: State, i: nat)
  {
    i < |s.slots| ==>
      && (!Visible(s.slots, i) ==> !s.slots[i].valid)
      && (Visible(s.slots, i) ==> LastOk(s.log, PortOfSlot(s.slots[i])) == ValidRewrite(s.slots[i]))
      && SlotCoherent(s, i)
  }

  ghost predicate Agrees(s: State) {
    && DistinctPorts(s.slots) && OnlyChanges(s.log)
    && forall i :: 0 <= i < |s.slots| ==> SlotAgrees(s, i)
  }

  /** Only `dmac` and `valid` ever change in an entry. */
  predicate SameIdentity(a: Slot, b: Slot) {
    a.ifindex == b.ifindex && a.gwIp == b.gwIp && a.smac == b.smac && a.devPort == b.devPort
  }

  ghost predicate SameIdentities(a: seq<Slot>, b: seq<Slot>) {
    |a| == |b| && forall i :: 0 <= i < |a| ==> SameIdentity(a[i], b[i])
  }

  lemma {:induction false} SameLookup(a: seq<Slot>, b: seq<Slot>, ifindex: nat)
    requires SameIdentities(a, b)
    ensures LastSlot(a, ifindex) == LastSlot(b, ifindex)
  {
    if a != [] {
      assert SameIdentity(a[|a| - 1], b[|b| - 1]);
      SameLookup(a[..|a| - 1], b[..|b| - 1], ifindex);
    }
  }

  lemma SameVisible(a: seq<Slot>, b: seq<Slot>, i: nat)
    requires SameIdentities(a, b)
    ensures Visible(a, i) == Visible(b, i)
  {
    hide LastSlot;
    if i < |a| {
      assert SameIdentity(a[i], b[i]);
      SameLookup(a, b, a[i].ifindex);
    }
  }

  lemma StepIdentities(s: State, m: NeighMsg, f: Faults)
    ensures SameIdentities(s.slots, Step(s, m, f).slots)
  {
    hide ToWrite, Succeeds, RewriteOf, EgressPort;
  }

  lemma {:induction false} RunIdentities(s: State, ms: seq<(NeighMsg, Faults)>)
    ensures SameIdentities(s.slots, Run(s, ms).slots)
  {
    hide Step;
    if ms != [] {
      RunIdentities(s, ms[..|ms| - 1]);
      StepIdentities(Run(s, ms[..|ms| - 1]), ms[|ms| - 1].0, ms[|ms| - 1].1);
    }
  }

  lemma ToWriteIs(slots: seq<Slot>, m: NeighMsg)
    requires ToWrite(slots, m).Some?
    ensures var (i, mac) := ToWrite(slots, m).value;
      && i < |slots| && Visible(slots, i) && IsValidEtherAddr(mac)
      && (slots[i].valid ==> slots[i].dmac != mac)
  {
    hide IsValidEtherAddr;
    LastSlotInside(slots, m.ifindex);
  }

  lemma RewriteTellsMac(smac: Mac, a: Mac, b: Mac)
    requires RewriteOf(smac, a) == RewriteOf(smac, b)
    ensures a == b
  {
    hide Word6;
    Word6RoundTrip(0, a);
    Word6RoundTrip(0, b);
  }

  lemma LastOkGrows(log: seq<Write>, w: Write, port: nat)
    ensures LastOk(log + [w], port) == if w.port == port && w.ok then Some(w.rewrite) else LastOk(log, port)
  {
    assert (log + [w])[..|log|] == log;
  }

  /** Every step keeps the agreement, whatever fails. */
  lemma StepAgrees(s: State, m: NeighMsg, f: Faults)
    requires Agrees(s)
    ensures Agrees(Step(s, m, f))
  {
    hide ToWrite, Succeeds, RewriteOf, EgressPort, IsValidEtherAddr, UnicastNonZero, LastSlot, LastOk;
    if ToWrite(s.slots, m).Some? {
      ToWriteIs(s.slots, m);
      var (i, mac) := ToWrite(s.slots, m).value;
      ProgrammedAgrees(s, i, mac, f);
    }
  }

  lemma ProgrammedAgrees(s: State, i: nat, mac: Mac, f: Faults)
    requires i < |s.slots| && Agrees(s) && Visible(s.slots, i) && IsValidEtherAddr(mac)
    requires s.slots[i].valid ==> s.slots[i].dmac != mac
    ensures Agrees(Programmed(s, i, mac, f))
  {
    hide Succeeds, RewriteOf, EgressPort, IsValidEtherAddr, UnicastNonZero, LastSlot, LastOk, Visible, SlotAgrees;
    hide Changes;
    var n := Programmed(s, i, mac, f);
    assert SameIdentities(s.slots, n.slots);
    forall j: nat | j < |s.slots|
      ensures SlotAgrees(n, j)
      ensures Visible(s.slots, j) == Visible(n.slots, j)
      ensures PortOfSlot(s.slots[j]) == PortOfSlot(n.slots[j])
    {
      SameVisible(s.slots, n.slots, j);
      assert SlotAgrees(s, j);
      SlotKept(s, i, mac, f, j);
    }
    forall k: nat | k < |n.log|
      ensures Changes(n.log, k)
    {
      if k < |s.log| {
        assert Changes(s.log, k);
        ChangesGrows(s.log, n.log[|s.log|], k);
      } else {
        assert SlotAgrees(s, i);
        WriteChanges(s, i, mac, f);
      }
    }
  }

  lemma ChangesGrows(log: seq<Write>, w: Write, k: nat)
    requires k < |log| && Changes(log, k)
    ensures Changes(log + [w], k)
  {
    hide LastOk, UnicastNonZero;
    assert (log + [w])[..k] == log[..k];
  }

  lemma WriteChanges(s: State, i: nat, mac: Mac, f: Faults)
    requires i < |s.slots| && SlotAgrees(s, i) && Visible(s.slots, i)
    requires IsValidEtherAddr(mac) && (s.slots[i].valid ==> s.slots[i].dmac != mac)
    ensures Changes(Programmed(s, i, mac, f).log, |s.log|)
  {
    hide LastOk, UnicastNonZero, Succeeds, EgressPort, IsValidEtherAddr, Visible;
    var n := Programmed(s, i, mac, f);
    assert n.log[..|s.log|] == s.log;
    ValidIsUnicastNonZero(mac);
    if s.slots[i].valid && RewriteOf(s.slots[i].smac, s.slots[i].dmac) == RewriteOf(s.slots[i].smac, mac) {
      RewriteTellsMac(s.slots[i].smac, s.slots[i].dmac, mac);
    }
  }

  lemma SlotKept(s: State, i: nat, mac: Mac, f: Faults, j: nat)
    requires i < |s.slots| && j < |s.slots| && Visible(s.slots, i) && SlotAgrees(s, j)
    requires Visible(s.slots, j) && i != j ==> PortOfSlot(s.slots[i]) != PortOfSlot(s.slots[j])
    requires Visible(s.slots, j) == Visible(Programmed(s, i, mac, f).slots, j)
    ensures SlotAgrees(Programmed(s, i, mac, f), j)
  {
    hide LastOk, Succeeds, RewriteOf, EgressPort, Visible;
    var slot := s.slots[i];
    LastOkGrows(s.log, Write(PortOfSlot(slot), RewriteOf(slot.smac, mac), Succeeds(s.hw, PortOfSlot(slot), f)),
                PortOfSlot(s.slots[j]));
  }

  /** Set-up leaves every entry invalid and nothing written. */
  ghost predicate Started(s: State) {
    s.log == [] && forall i :: 0 <= i < |s.slots| ==> !s.slots[i].valid
  }

  /** The table the initialiser leaves is one to start from: every slot is its interface's
      and none is valid. */
  lemma FreshIsStarted(s: State, hostifs: seq<Hostif>)
    requires FreshSlots(s.slots, hostifs) && s.log == []
    ensures Started(s)
    ensures |s.slots| == |hostifs| && forall i :: 0 <= i < |hostifs| ==>
      && s.slots[i].ifindex == hostifs[i].ifindex && s.slots[i].gwIp == hostifs[i].gwIp
      && s.slots[i].smac == hostifs[i].mac && s.slots[i].devPort == hostifs[i].devPort
  {
  }

  /** Over every run of messages and whatever writes fail: a valid entry is what
      the hardware holds for its port, and the hardware is written only to change
      it, with unicast, non-zero destinations. */
  lemma {:induction false} AgreesAfterRun(s: State, ms: seq<(NeighMsg, Faults)>)
    requires Started(s) && DistinctPorts(s.slots)
    ensures Agrees(Run(s, ms)) && Coherent(Run(s, ms))
  {
    hide Step, Visible, EgressPort;
    if ms != [] {
      AgreesAfterRun(s, ms[..|ms| - 1]);
      hide SlotCoherent;
      StepAgrees(Run(s, ms[..|ms| - 1]), ms[|ms| - 1].0, ms[|ms| - 1].1);
    }
    forall i: nat | i < |Run(s, ms).slots|
      ensures SlotCoherent(Run(s, ms), i)
    {
      assert SlotAgrees(Run(s, ms), i);
    }
  }

  // ---------- which messages count ----------

  /** The message gives a new address for the gateway of the interface whose entry is
      the i-th: a new IPv4 neighbour, long enough, with the gateway's own address and
      a unicast, non-zero link address. */
  predicate GivesAddress(slots: seq<Slot>, m: NeighMsg, i: nat, mac: Mac) {
    && m.isNew && m.fits && m.inet
    && Visible(slots, i) && slots[i].ifindex == m.ifindex
    && m.dst == Some(slots[i].gwIp) && m.lladdr == Some(mac) && UnicastNonZero(Word6(mac))
  }

  lemma ToWriteIff(slots: seq<Slot>, m: NeighMsg, i: nat, mac: Mac)
    ensures ToWrite(slots, m) == Some((i, mac)) <==>
      GivesAddress(slots, m, i, mac) && !(slots[i].valid && slots[i].dmac == mac)
  {
    hide IsValidEtherAddr, UnicastNonZero, LastSlot;
    ValidIsUnicastNonZero(mac);
    LastSlotInside(slots, m.ifindex);
  }

  /** A message leaves everything as it was unless it gives the gateway of a visible
      interface an address its entry does not hold yet: a message that is no new
      neighbour, is too short, is not IPv4, names no known interface, has no address
      or is about any other neighbour of the interface is ignored. */
  lemma IgnoredIff(s: State, m: NeighMsg, f: Faults)
    ensures Step(s, m, f) == s <==>
      forall i: nat, mac: Mac :: GivesAddress(s.slots, m, i, mac) ==> s.slots[i].valid && s.slots[i].dmac == mac
  {
    hide ToWrite, Programmed, LastSlot, UnicastNonZero;
    match ToWrite(s.slots, m)
    case None =>
      forall i: nat, mac: Mac | GivesAddress(s.slots, m, i, mac)
        ensures s.slots[i].valid && s.slots[i].dmac == mac
      {
        ToWriteIff(s.slots, m, i, mac);
      }
    case Some((i, mac)) =>
      ToWriteIff(s.slots, m, i, mac);
      ToWriteIs(s.slots, m);
      ProgrammedLogs(s, i, mac, f);
  }

  lemma ProgrammedLogs(s: State, i: nat, mac: Mac, f: Faults)
    requires i < |s.slots|
    ensures |Programmed(s, i, mac, f).log| == |s.log| + 1
  {
    hide Succeeds, RewriteOf, EgressPort;
  }

  /** And what an attended message does: the gateway's address is written for the
      interface's port, and the entry takes it over exactly when the write succeeds. */
  lemma AttendedWrites(s: State, m: NeighMsg, f: Faults, i: nat, mac: Mac)
    requires GivesAddress(s.slots, m, i, mac) && !(s.slots[i].valid && s.slots[i].dmac == mac)
    ensures var n := Step(s, m, f);
      var port, rewrite := s.slots[i].devPort % 0x1_0000, Rewrite(Word6(s.slots[i].smac), Word6(mac));
      var ok := f.writeOk && (port in s.hw ==> f.findOk);
      && n.log == s.log + [Write(port, rewrite, ok)]
      && n.hw == (if ok then s.hw[port := rewrite] else s.hw)
      && n.slots == if ok then s.slots[i := s.slots[i].(dmac := mac, valid := true)] else s.slots
  {
    hide ToWrite, GivesAddress, Word6;
    ToWriteIff(s.slots, m, i, mac);
    ToWriteIs(s.slots, m);
  }

  /** Some message of the run gave the address for the entry's gateway. */
  predicate GivenBy(ms: seq<(NeighMsg, Faults)>, slot: Slot, k: nat) {
    && k < |ms| && ms[k].0.isNew && ms[k].0.fits && ms[k].0.inet && ms[k].0.ifindex == slot.ifindex
    && ms[k].0.dst == Some(slot.gwIp) && ms[k].0.lladdr == Some(slot.dmac)
  }

  ghost predicate Given(ms: seq<(NeighMsg, Faults)>, slot: Slot) {
    exists k: nat :: GivenBy(ms, slot, k)
  }

  lemma GivenLater(ms: seq<(NeighMsg, Faults)>, e: (NeighMsg, Faults), slot: Slot)
    requires Given(ms, slot)
    ensures Given(ms + [e], slot)
  {
    var k: nat :| GivenBy(ms, slot, k);
    assert GivenBy(ms + [e], slot, k);
  }

  /** After any run, every valid entry holds an address that some message of the run
      gave, on the entry's interface, for the entry's own gateway. */
  lemma {:induction false} ValidWasGiven(s: State, ms: seq<(NeighMsg, Faults)>, i: nat)
    requires Started(s) && i < |Run(s, ms).slots| && Run(s, ms).slots[i].valid
    ensures Given(ms, Run(s, ms).slots[i])
  {
    hide Step, Given;
    if ms != [] {
      var m := |ms| - 1;
      var before := Run(s, ms[..m]);
      StepIdentities(before, ms[m].0, ms[m].1);
      assert ms == ms[..m] + [ms[m]];
      if Run(s, ms).slots[i] == before.slots[i] {
        ValidWasGiven(s, ms[..m], i);
        GivenLater(ms[..m], ms[m], before.slots[i]);
      } else {
        ChangedIsGiven(before, ms[m].0, ms[m].1, i);
        assert GivenBy(ms, Run(s, ms).slots[i], m);
        GivenNow(ms, Run(s, ms).slots[i], m);
      }
    }
  }

  lemma GivenNow(ms: seq<(NeighMsg, Faults)>, slot: Slot, k: nat)
    requires GivenBy(ms, slot, k)
    ensures Given(ms, slot)
  {
  }

  lemma ChangedIsGiven(s: State, m: NeighMsg, f: Faults, i: nat)
    requires i < |s.slots| && i < |Step(s, m, f).slots| && Step(s, m, f).slots[i] != s.slots[i]
    ensures var n := Step(s, m, f).slots[i];
      m.isNew && m.fits && m.inet && m.ifindex == n.ifindex && m.dst == Some(n.gwIp) && m.lladdr == Some(n.dmac)
  {
    hide ToWrite, Succeeds, RewriteOf, EgressPort, UnicastNonZero;
    if ToWrite(s.slots, m).Some? {
      var (j, mac) := ToWrite(s.slots, m).value;
      ToWriteIff(s.slots, m, j, mac);
    }
  }

  const NO_FAULT := Faults(true, true)
  const MAC_A: Mac := [2, 0, 0, 0, 0, 1]
  const MAC_B: Mac := [2, 0, 0, 0, 0, 2]

  /** The message with which a slot's gateway announces an address. */
  function Announcement(slot: Slot, mac: Mac): NeighMsg {
    NeighMsg(true, true, true, slot.ifindex, Some(slot.gwIp), Some(mac))
  }

  /** A gateway's announcement, when nothing fails, ends with the entry valid and
      the hardware sending to the announced address. */
  lemma AnnouncementIsProgrammed(s: State, i: nat, mac: Mac)
    requires Visible(s.slots, i) && SlotCoherent(s, i) && IsValidEtherAddr(mac)
    ensures var n := Step(s, Announcement(s.slots[i], mac), NO_FAULT);
      && i < |n.slots| && n.slots[i].valid && n.slots[i].dmac == mac
      && PortOfSlot(s.slots[i]) in n.hw && n.hw[PortOfSlot(s.slots[i])] == RewriteOf(s.slots[i].smac, mac)
      && forall j :: 0 <= j < |s.slots| && j != i ==> n.slots[j] == s.slots[j]
  {
    hide IsValidEtherAddr, LastSlot, RewriteOf, EgressPort;
  }

  /** Two visible interfaces on one port break the coherence, with one
      announcement each. */
  lemma SharedPortClash(s: State, i: nat, j: nat) returns (ms: seq<(NeighMsg, Faults)>)
    requires Started(s) && i < |s.slots| && j < |s.slots| && i != j
    requires Visible(s.slots, i) && Visible(s.slots, j) && PortOfSlot(s.slots[i]) == PortOfSlot(s.slots[j])
    ensures !Coherent(Run(s, ms))
  {
    hide Visible, EgressPort, RewriteOf, IsValidEtherAddr;
    assert IsValidEtherAddr(MAC_A) && IsValidEtherAddr(MAC_B) by { BothValid(); }
    var x, y := (Announcement(s.slots[i], MAC_A), NO_FAULT), (Announcement(s.slots[j], MAC_B), NO_FAULT);
    ms := [x, y];
    assert ms[..1] == [x];
    var s1 := Step(s, x.0, x.1);
    var s2 := Step(s1, y.0, y.1);
    assert Run(s, ms) == s2 by {
      hide Step;
      assert Run(s, []) == s;
      assert Run(s, [x]) == s1;
    }
    hide Step, Run;
    AnnouncementIsProgrammed(s, i, MAC_A);
    StepIdentities(s, x.0, x.1);
    SameVisible(s.slots, s1.slots, j);
    assert s1.slots[j] == s.slots[j];
    AnnouncementIsProgrammed(s1, j, MAC_B);
    DifferentRewrites(s.slots[i].smac, s.slots[j].smac);
    StepIdentities(s1, y.0, y.1);
    assert s2.slots[i] == s1.slots[i] && SameIdentity(s.slots[i], s1.slots[i]);
    assert !SlotCoherent(s2, i);
  }

  lemma BothValid()
    ensures IsValidEtherAddr(MAC_A) && IsValidEtherAddr(MAC_B)
  {
  }

  lemma DifferentRewrites(smac: Mac, other: Mac)
    ensures RewriteOf(smac, MAC_A) != RewriteOf(other, MAC_B)
  {
    hide Word6;
    Word6RoundTrip(0, MAC_A);
    Word6RoundTrip(0, MAC_B);
  }

  /** The cache agrees with the hardware on every run exactly when no two visible
      interfaces share a port. */
  lemma CoherentIffPortsDistinct(s: State)
    requires Started(s)
    ensures DistinctPorts(s.slots) <==> forall ms :: Coherent(Run(s, ms))
  {
    hide Visible, Coherent, Run, Agrees, EgressPort;
    if DistinctPorts(s.slots) {
      forall ms
        ensures Coherent(Run(s, ms))
      {
        AgreesAfterRun(s, ms);
      }
    } else {
      var i, j :| 0 <= i < j < |s.slots| && Visible(s.slots, i) && Visible(s.slots, j) &&
        PortOfSlot(s.slots[i]) == PortOfSlot(s.slots[j]);
      var ms := SharedPortClash(s, i, j);
    }
  }
}
