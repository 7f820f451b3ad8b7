/** Netlink attributes: the walk that stores the first attribute of each type. */
module NetlinkAttributes {
  import opened Wrappers

  type octet = n: nat | n < 256

  /** The size of `struct rtattr`: a 16-bit length, then a 16-bit type, both in
      the host's little-endian order. */
  const HEADER := 4

  /** `RTA_ALIGN` */
  function Align(n: nat): (r: nat)
    ensures n <= r < n + 4 && r % 4 == 0
  {
    (n + 3) / 4 * 4
  }

  function U16(lo: octet, hi: octet): (r: nat)
    ensures r < 0x1_0000
  {
    lo + 256 * hi
  }

  /** `RTA_OK` with the buffer as the bytes that remain. */
  predicate RtaOk(rest: seq<octet>) {
    |rest| >= HEADER && HEADER <= U16(rest[0], rest[1]) <= |rest|
  }

  function RtaLen(rest: seq<octet>): (n: nat)
    requires RtaOk(rest)
    ensures HEADER <= n <= |rest|
  {
    U16(rest[0], rest[1])
  }

  /** `kind & ~flags`, bit by bit. */
  function Masked(kind: nat, flags: nat): nat {
    if kind == 0 then 0 else (if flags % 2 == 0 then kind % 2 else 0) + 2 * Masked(kind / 2, flags / 2)
  }

  predicate Bit(n: nat, i: nat) {
    if i == 0 then n % 2 == 1 else Bit(n / 2, i - 1)
  }

  /** A bit of the type stays exactly when it is not one of the flags. */
  lemma {:induction false} MaskedBit(kind: nat, flags: nat, i: nat)
    ensures Bit(Masked(kind, flags), i) <==> Bit(kind, i) && !Bit(flags, i)
  {
    if kind == 0 {
      NoBit(i);
    } else if i > 0 {
      MaskedBit(kind / 2, flags / 2, i - 1);
      MaskedHalves(kind, flags);
    } else {
      MaskedHalves(kind, flags);
    }
  }

  lemma MaskedHalves(kind: nat, flags: nat)
    ensures Masked(kind, flags) / 2 == Masked(kind / 2, flags / 2)
    ensures Masked(kind, flags) % 2 == if flags % 2 == 0 then kind % 2 else 0
  {
    var low := if flags % 2 == 0 then kind % 2 else 0;
    HalvesOf(low, Masked(kind / 2, flags / 2));
  }

  lemma HalvesOf(low: nat, high: nat)
    requires low < 2
    ensures (low + 2 * high) / 2 == high && (low + 2 * high) % 2 == low
  {
  }

  lemma {:induction false} NoBit(i: nat)
    ensures !Bit(0, i)
  {
    if i > 0 {
      NoBit(i - 1);
    }
  }

  /** The callers pass no flags, so the types are compared as they are. */
  lemma {:induction false} NoFlagsNoMask(kind: nat)
    ensures Masked(kind, 0) == kind
  {
    if kind > 0 {
      NoFlagsNoMask(kind / 2);
    }
  }

  datatype Attr = Attr(kind: nat, payload: seq<octet>)

  /** The first attribute of the bytes (`rta_type`, `RTA_DATA`, `RTA_PAYLOAD`). */
  function Head(rest: seq<octet>): Attr
    requires RtaOk(rest)
  {
    Attr(U16(rest[2], rest[3]), rest[HEADER..RtaLen(rest)])
  }

  /** `RTA_NEXT`: the last attribute may lack its padding. */
  function Next(rest: seq<octet>): (r: seq<octet>)
    requires RtaOk(rest)
    ensures |r| < |rest|
  {
    if Align(RtaLen(rest)) <= |rest| then rest[Align(RtaLen(rest))..] else []
  }

  /** The well-formed attributes a buffer starts with. */
  function Attributes(rest: seq<octet>): seq<Attr>
    decreases |rest|
  {
    if RtaOk(rest) then [Head(rest)] + Attributes(Next(rest)) else []
  }

  /** Where the first attribute of a type starts. */
  function FirstFrom(buf: seq<octet>, p: nat, t: nat, flags: nat): Option<nat>
    decreases |buf| - p
  {
    if p > |buf| || !RtaOk(buf[p..]) then None
    else if Masked(Head(buf[p..]).kind, flags) == t then Some(p)
    else FirstFrom(buf, p + Align(RtaLen(buf[p..])), t, flags)
  }

  /** What the walk has stored when it stands at `p`. */
  ghost predicate Walked(tb: seq<Option<nat>>, buf: seq<octet>, p: nat, flags: nat) {
    forall t :: 0 <= t < |tb| ==>
      FirstFrom(buf, 0, t, flags) == if tb[t].Some? then tb[t] else FirstFrom(buf, p, t, flags)
  }

  /** The entry for a type, set unless it is out of range or already set. */
  function Stored(tb: seq<Option<nat>>, kind: nat, p: nat): seq<Option<nat>> {
    if kind < |tb| && tb[kind].None? then tb[kind := Some(p)] else tb
  }

  lemma WalkOn(tb: seq<Option<nat>>, buf: seq<octet>, p: nat, flags: nat)
    requires p <= |buf| && RtaOk(buf[p..]) && Walked(tb, buf, p, flags)
    ensures Walked(Stored(tb, Masked(Head(buf[p..]).kind, flags), p), buf, p + Align(RtaLen(buf[p..])), flags)
  {
    hide Masked, Align, RtaOk, RtaLen, Head;
  }

  lemma WalkEnds(tb: seq<Option<nat>>, buf: seq<octet>, p: nat, flags: nat)
    requires Walked(tb, buf, p, flags) && (p > |buf| || !RtaOk(buf[p..]))
    ensures forall t :: 0 <= t < |tb| ==> tb[t] == FirstFrom(buf, 0, t, flags)
  {
    hide Masked, Align, RtaOk;
  }

  /** `parse_rtattr_flags` over a buffer: `tb` gets an attribute's offset where the
      source stores its address.  It ends on every buffer. */
  method ParseRtattrFlags(tb: array<Option<nat>>, max: nat, buf: seq<octet>, flags: nat) returns (deficit: int)
    requires tb.Length == max + 1
    modifies tb
    ensures forall t :: 0 <= t <= max ==> tb[t] == FirstFrom(buf, 0, t, flags)
  {
    hide Masked, FirstFrom, Walked, Align, RtaOk;
    for t := 0 to max + 1
      invariant forall u :: 0 <= u < t ==> tb[u] == None
    {
      tb[t] := None;
    }
    var p: nat, len: int := 0, |buf|;
    assert Walked(tb[..], buf, p, flags) by { WalkStarts(tb[..], buf, flags); }
    while len >= HEADER && RtaOk(buf[p..])
      invariant p + len == |buf| && Walked(tb[..], buf, p, flags)
      decreases len
    {
      var a := Head(buf[p..]);
      var kind := Masked(a.kind, flags);
      WalkOn(tb[..], buf, p, flags);
      ghost var next := Stored(tb[..], kind, p);
      if kind <= max && tb[kind].None? {
        tb[kind] := Some(p);
      }
      assert tb[..] == next;
      var step := Align(RtaLen(buf[p..]));
      len := len - step;
      p := p + step;
    }
    if p <= |buf| && len < HEADER {
      TooShort(buf[p..]);
    }
    WalkEnds(tb[..], buf, p, flags);
    deficit := len;
  }

  lemma WalkStarts(tb: seq<Option<nat>>, buf: seq<octet>, flags: nat)
    requires forall t :: 0 <= t < |tb| ==> tb[t] == None
    ensures Walked(tb, buf, 0, flags)
  {
  }

  lemma TooShort(rest: seq<octet>)
    requires |rest| < HEADER
    ensures !RtaOk(rest)
  {
  }

  // ---------- what the offsets mean ----------

  function FirstOfType(attrs: seq<Attr>, t: nat, flags: nat): Option<Attr> {
    if attrs == [] then None
    else if Masked(attrs[0].kind, flags) == t then Some(attrs[0])
    else FirstOfType(attrs[1..], t, flags)
  }

  /** `FirstOfType` is what it says. */
  lemma {:induction false} FirstOfTypeIsFirst(attrs: seq<Attr>, t: nat, flags: nat, k: nat)
    requires k < |attrs| && Masked(attrs[k].kind, flags) == t
    requires forall i :: 0 <= i < k ==> Masked(attrs[i].kind, flags) != t
    ensures FirstOfType(attrs, t, flags) == Some(attrs[k])
  {
    hide Masked;
    if k > 0 {
      FirstOfTypeIsFirst(attrs[1..], t, flags, k - 1);
    }
  }

  /** The attribute that starts at an offset, if one does. */
  function AttrAt(buf: seq<octet>, q: nat): Option<Attr> {
    if q <= |buf| && RtaOk(buf[q..]) then Some(Head(buf[q..])) else None
  }

  /** The stored offset is that of the first well-formed attribute of the type,
      inside the buffer; nothing is stored exactly when there is none. */
  lemma {:induction false} FirstFromIsFirst(buf: seq<octet>, p: nat, t: nat, flags: nat)
    requires p <= |buf|
    ensures match FirstFrom(buf, p, t, flags)
      case None => FirstOfType(Attributes(buf[p..]), t, flags) == None
      case Some(q) => AttrAt(buf, q).Some? && FirstOfType(Attributes(buf[p..]), t, flags) == AttrAt(buf, q)
    decreases |buf| - p
  {
    hide Masked, Align, RtaLen, Head;
    var rest := buf[p..];
    if RtaOk(rest) {
      assert Attributes(rest)[1..] == Attributes(Next(rest));
      var q := p + Align(RtaLen(rest));
      if q <= |buf| {
        assert rest[Align(RtaLen(rest))..] == buf[q..];
        FirstFromIsFirst(buf, q, t, flags);
      }
    }
  }

  // ---------- building ----------

  predicate Encodable(a: Attr) {
    a.kind < 0x1_0000 && HEADER + |a.payload| < 0x1_0000
  }

  function Padding(n: nat): (s: seq<octet>)
    ensures |s| == Align(n) - n
  {
    seq(Align(n) - n, _ => 0)
  }

  function Encode(a: Attr): (s: seq<octet>)
    requires Encodable(a)
    ensures |s| == Align(HEADER + |a.payload|)
  {
    var n := HEADER + |a.payload|;
    [n % 256, n / 256, a.kind % 256, a.kind / 256] + a.payload + Padding(n)
  }

  function EncodeAll(attrs: seq<Attr>): seq<octet>
    requires forall i :: 0 <= i < |attrs| ==> Encodable(attrs[i])
  {
    if attrs == [] then [] else Encode(attrs[0]) + EncodeAll(attrs[1..])
  }

  lemma EncodeThenHead(a: Attr, tail: seq<octet>)
    requires Encodable(a)
    ensures RtaOk(Encode(a) + tail) && Head(Encode(a) + tail) == a && Next(Encode(a) + tail) == tail
  {
    var s, n := Encode(a) + tail, HEADER + |a.payload|;
    assert s[0] == n % 256 && s[1] == n / 256 && s[2] == a.kind % 256 && s[3] == a.kind / 256;
    assert U16(s[0], s[1]) == n && U16(s[2], s[3]) == a.kind;
    assert s[HEADER..n] == a.payload;
    assert s[Align(n)..] == tail;
  }

  /** Parsing a built list gives the list back, whatever incomplete bytes follow. */
  lemma {:induction false} AttributesOfBuilt(attrs: seq<Attr>, tail: seq<octet>)
    requires forall i :: 0 <= i < |attrs| ==> Encodable(attrs[i])
    requires !RtaOk(tail)
    ensures Attributes(EncodeAll(attrs) + tail) == attrs
  {
    hide RtaOk, Head, Next, Encode;
    if attrs == [] {
      assert EncodeAll(attrs) + tail == tail;
    } else {
      var rest := EncodeAll(attrs[1..]) + tail;
      assert EncodeAll(attrs) + tail == Encode(attrs[0]) + rest;
      EncodeThenHead(attrs[0], rest);
      AttributesOfBuilt(attrs[1..], tail);
    }
  }

  /** Round trip: after parsing a built list, each type's slot leads to the value
      of its first attribute, and is empty when the list has none. */
  lemma ParseOfBuilt(attrs: seq<Attr>, t: nat, flags: nat)
    requires forall i :: 0 <= i < |attrs| ==> Encodable(attrs[i])
    ensures match FirstFrom(EncodeAll(attrs), 0, t, flags)
      case None => FirstOfType(attrs, t, flags) == None
      case Some(q) => AttrAt(EncodeAll(attrs), q).Some? && FirstOfType(attrs, t, flags) == AttrAt(EncodeAll(attrs), q)
  {
    hide Masked, AttrAt, RtaOk, FirstFrom, FirstOfType;
    var buf := EncodeAll(attrs);
    assert !RtaOk([]) by { EmptyIsNotOk(); }
    assert buf + [] == buf && buf[0..] == buf;
    AttributesOfBuilt(attrs, []);
    FirstFromIsFirst(buf, 0, t, flags);
  }

  lemma EmptyIsNotOk()
    ensures !RtaOk([])
  {
  }
}
