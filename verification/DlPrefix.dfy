/** The DL block: its netmask, built bit by bit, and the enumeration of the DL
    addresses a redirect picks from. */
module DlPrefix {
  import opened Words
  import opened IpTypeTable

  const MAX_DL_IP_NUM: byte := 120

  // ---------- the mask ----------

  /** `SWITCH_IPV4_COMPUTE_MASK`; a shift by 32 is left out. */
  function MaskOf(len: nat): bv32
    requires len <= 32
  {
    if len == 0 then 0 else (0xFFFF_FFFF as bv32) << (32 - len)
  }

  lemma MaskStep(i: nat)
    requires 1 <= i <= 32
    ensures MaskOf(i) == MaskOf(i - 1) | ((1 as bv32) << (32 - i))
  {
    if i <= 8 {
      if i == 1 {
      } else if i == 2 {
      } else if i == 3 {
      } else if i == 4 {
      } else if i == 5 {
      } else if i == 6 {
      } else if i == 7 {
      } else {
        assert i == 8;
      }
    } else if i <= 13 {
      NextMaskStep(i);
    } else if i <= 20 {
      MiddleMaskStep(i);
    } else {
      LaterMaskStep(i);
    }
  }

  lemma NextMaskStep(i: nat)
    requires 9 <= i <= 13
    ensures MaskOf(i) == MaskOf(i - 1) | ((1 as bv32) << (32 - i))
  {
  }

  lemma MiddleMaskStep(i: nat)
    requires 14 <= i <= 20
    ensures MaskOf(i) == MaskOf(i - 1) | ((1 as bv32) << (32 - i))
  {
  }

  lemma LaterMaskStep(i: nat)
    requires 21 <= i <= 32
    ensures MaskOf(i) == MaskOf(i - 1) | ((1 as bv32) << (32 - i))
  {
  }

  /** `get_mask_by_prefix_len`: the loop sets the top bits one by one and ends
      with the mask the shift macro gives in one step. */
  method GetMaskByPrefixLen(prefixLen: nat) returns (mask: bv32)
    requires prefixLen <= 32
    ensures mask == MaskOf(prefixLen)
  {
    mask := 0;
    hide MaskOf;
    MaskOfZero();
    for i := 1 to prefixLen + 1
      invariant mask == MaskOf(i - 1)
    {
      MaskStep(i);
      mask := mask | ((1 as bv32) << (32 - i));
    }
  }

  lemma MaskOfZero()
    ensures MaskOf(0) == 0
  {
  }

  /** The mask as a number is 2^32 - 2^(32 - len), in arithmetic wide enough not
      to wrap around. */
  lemma MaskValue(len: nat)
    requires len <= 32
    ensures MaskOf(len) as bv33 == ((1 as bv33) << 32) - ((1 as bv33) << (32 - len))
  {
    if len <= 8 {
      if len == 0 {
      } else if len <= 4 {
        assert len == 1 || len == 2 || len == 3 || len == 4;
      } else {
        assert len == 5 || len == 6 || len == 7 || len == 8;
      }
    } else {
      LaterMaskValue(len);
    }
  }

  lemma LaterMaskValue(len: nat)
    requires 8 < len <= 32
    ensures MaskOf(len) as bv33 == ((1 as bv33) << 32) - ((1 as bv33) << (32 - len))
  {
  }

  // ---------- enumerating the block ----------

  /** `htonl` and `ntohl` */
  function Swap32(x: bv32): bv32 {
    (x << 24) | ((x & 0xFF00) << 8) | ((x >> 8) & 0xFF00) | (x >> 24)
  }

  /** The block's first and last address. */
  function FirstIp(dlIp: bv32, mask: bv32): bv32 { dlIp & mask }
  function LastIp(dlIp: bv32, mask: bv32): bv32 { dlIp | !mask }

  /** The bounds as the code computes them, through network byte order. */
  function FirstSwapped(dlIp: bv32, mask: bv32): bv32 { Swap32(Swap32(dlIp) & Swap32(mask)) }
  function LastSwapped(dlIp: bv32, mask: bv32): bv32 { Swap32(Swap32(dlIp) | !Swap32(mask)) }

  lemma FirstSwapCancels(a: bv32, m: bv32)
    ensures FirstSwapped(a, m) == FirstIp(a, m)
  {
  }

  lemma LastSwapCancels(a: bv32, m: bv32)
    ensures LastSwapped(a, m) == LastIp(a, m)
  {
  }

  lemma SwapsCancel(a: bv32, m: bv32)
    ensures FirstSwapped(a, m) == FirstIp(a, m) && LastSwapped(a, m) == LastIp(a, m)
  {
    hide FirstSwapped, LastSwapped, FirstIp, LastIp;
    FirstSwapCancels(a, m);
    LastSwapCancels(a, m);
  }

  /** How many addresses are listed: the whole block, at most 120. */
  function BlockCount(mask: bv32): byte {
    if !mask < 120 then ((!mask & 0xFF) as byte) + 1 else MAX_DL_IP_NUM
  }

  /** The block ends at 255.255.255.255 and is too small to fill the list: the
      counter runs past the last address to 0.0.0.0 and goes on. */
  predicate RunsOver(dlIp: bv32, mask: bv32) {
    LastIp(dlIp, mask) == 0xFFFF_FFFF && !mask < 119
  }

  /** The members that are listed. */
  function MemberCount(dlIp: bv32, mask: bv32): byte {
    if RunsOver(dlIp, mask) then MAX_DL_IP_NUM else BlockCount(mask)
  }

  function Succ(x: bv32): bv32 { x + 1 }
  function Wide(k: byte): bv32 { k as bv32 }
  function Add(a: bv32, b: bv32): bv32 { a + b }
  function Plus(first: bv32, k: byte): bv32 { Add(first, Wide(k)) }
  predicate AtMost(a: bv32, b: bv32) { a <= b }
  predicate Below(n: byte, m: byte) { n < m }
  predicate NotAbove(n: byte, m: byte) { n <= m }
  function Nat(k: byte): nat { k as nat }
  function Next(k: byte): byte { k + 1 }
  function Prev(k: byte): byte { k - 1 }

  /** The address n steps on, wrapping around behind 255.255.255.255. */
  function Onward(first: bv32, n: nat): bv32 {
    if n == 0 then first else Succ(Onward(first, n - 1))
  }

  /** An action-profile member: its id and its address. */
  datatype DlMember = DlMember(id: nat, dlIp: bv32)

  /** Members have dense ids from 1 and hold consecutive addresses. */
  ghost predicate Lists(members: seq<DlMember>, first: bv32) {
    forall i :: 0 <= i < |members| ==> members[i] == DlMember(i + 1, Onward(first, i))
  }

  /** A byte counter and the number it stands for. */
  lemma CountUp(first: bv32, k: byte)
    requires Below(k, MAX_DL_IP_NUM)
    ensures Nat(k) < 120
    ensures Nat(Next(k)) == Nat(k) + 1 && Plus(first, Next(k)) == Succ(Plus(first, k))
    ensures Nat(0) == 0 && Plus(first, 0) == first
  {
    hide Nat, Plus, Succ, Next;
    NatUp(k);
    PlusUp(first, k);
  }

  lemma NatUp(k: byte)
    requires k < MAX_DL_IP_NUM
    ensures Nat(Next(k)) == Nat(k) + 1 && Nat(k) < 120 && Nat(0) == 0
  {
  }

  lemma PlusUp(first: bv32, k: byte)
    requires k < MAX_DL_IP_NUM
    ensures Plus(first, Next(k)) == Succ(Plus(first, k)) && Plus(first, 0) == first
  {
    hide Add, Wide, Succ, Next;
    WideUp(k);
    AddUp(first, Wide(k));
    AddUp(first, 0);
  }

  lemma WideUp(k: byte)
    requires k < MAX_DL_IP_NUM
    ensures Wide(Next(k)) == Succ(Wide(k)) && Wide(0) == 0
  {
  }

  lemma AddUp(a: bv32, b: bv32)
    ensures Add(a, Succ(b)) == Succ(Add(a, b)) && Add(a, 0) == a
  {
  }

  /** With a prefix of 24 to 32 bits the host part is one of nine values. */
  predicate ShortMask(mask: bv32) {
    || mask == 0xFFFF_FF00 || mask == 0xFFFF_FF80 || mask == 0xFFFF_FFC0 || mask == 0xFFFF_FFE0 || mask == 0xFFFF_FFF0
    || mask == 0xFFFF_FFF8 || mask == 0xFFFF_FFFC || mask == 0xFFFF_FFFE || mask == 0xFFFF_FFFF
  }

  lemma PrefixIsShort(prefixLen: nat)
    requires 24 <= prefixLen <= 32
    ensures ShortMask(MaskOf(prefixLen))
  {
  }

  lemma StaysBelow(d: bv32, m: bv32, f: bv32, l: bv32, w: bv32)
    requires ShortMask(m) && w <= !m && f == d & m && l == d | !m
    ensures AtMost(Add(f, w), l)
  {
    if m == 0xFFFF_FF00 {
    } else if m == 0xFFFF_FF80 {
    } else if m == 0xFFFF_FFC0 {
    } else if m == 0xFFFF_FFE0 {
    } else if m == 0xFFFF_FFF0 {
    } else if m == 0xFFFF_FFF8 {
    } else if m == 0xFFFF_FFFC {
    } else if m == 0xFFFF_FFFE {
    } else {
      assert m == 0xFFFF_FFFF;
    }
  }

  lemma IsBlock(d: bv32, m: bv32)
    ensures FirstIp(d, m) == d & m && LastIp(d, m) == d | !m
  {
  }

  lemma OffsetInBlock(d: bv32, m: bv32, w: bv32)
    requires ShortMask(m) && w <= !m
    ensures AtMost(Add(FirstIp(d, m), w), LastIp(d, m))
  {
    hide ShortMask, FirstIp, LastIp, Add, AtMost;
    IsBlock(d, m);
    StaysBelow(d, m, FirstIp(d, m), LastIp(d, m), w);
  }

  /** Steps from the first address stay in the block up to its host part. */
  lemma InBlock(d: bv32, m: bv32, k: byte)
    requires ShortMask(m) && Wide(k) <= !m
    ensures AtMost(Plus(FirstIp(d, m), k), LastIp(d, m))
  {
    hide ShortMask, FirstIp, LastIp, Wide, Add, AtMost;
    OffsetInBlock(d, m, Wide(k));
  }

  /** One more leaves it, unless it wraps around. */
  lemma PastBlock(d: bv32, m: bv32, k: byte)
    requires ShortMask(m) && LastIp(d, m) != 0xFFFF_FFFF && Wide(k) == !m + 1
    ensures !AtMost(Plus(FirstIp(d, m), k), LastIp(d, m))
  {
  }

  lemma CountDecides(m: bv32, n: byte)
    requires ShortMask(m) && n <= BlockCount(m) && n < MAX_DL_IP_NUM
    ensures n < BlockCount(m) ==> Wide(n) <= !m
    ensures n == BlockCount(m) ==> Wide(n) == !m + 1 && !m < 119
  {
  }

  /** The loop goes on exactly while there are members to list. */
  lemma GoesOnIff(dlIp: bv32, mask: bv32, n: byte)
    requires ShortMask(mask) && Below(n, MAX_DL_IP_NUM) && NotAbove(n, MemberCount(dlIp, mask))
    ensures AtMost(Plus(FirstIp(dlIp, mask), n), LastIp(dlIp, mask)) <==> Below(n, MemberCount(dlIp, mask))
  {
    hide Plus, FirstIp, BlockCount, Wide;
    if RunsOver(dlIp, mask) {
    } else {
      CountDecides(mask, n);
      if n < BlockCount(mask) {
        InBlock(dlIp, mask, n);
      } else {
        PastBlock(dlIp, mask, n);
      }
    }
  }

  lemma NextOrder(n: byte, m: byte)
    requires Below(n, m) && NotAbove(m, MAX_DL_IP_NUM)
    ensures NotAbove(Next(n), m) && Below(n, MAX_DL_IP_NUM)
    ensures if Next(n) == MAX_DL_IP_NUM then m == MAX_DL_IP_NUM else Below(Next(n), MAX_DL_IP_NUM)
  {
  }

  lemma SomeMembers(dlIp: bv32, mask: bv32)
    requires ShortMask(mask)
    ensures NotAbove(0, MemberCount(dlIp, mask)) && Below(0, MemberCount(dlIp, mask))
    ensures NotAbove(MemberCount(dlIp, mask), MAX_DL_IP_NUM) && Below(0, MAX_DL_IP_NUM)
  {
    hide RunsOver;
  }

  /** Where the loop stands after n members: below the limit, going on exactly
      while members are missing. */
  ghost predicate Midway(dlIp: bv32, mask: bv32, n: byte) {
    && Below(n, MAX_DL_IP_NUM) && NotAbove(n, MemberCount(dlIp, mask))
    && (AtMost(Plus(FirstIp(dlIp, mask), n), LastIp(dlIp, mask)) <==> Below(n, MemberCount(dlIp, mask)))
  }

  lemma Starts(dlIp: bv32, mask: bv32)
    requires ShortMask(mask)
    ensures Midway(dlIp, mask, 0) && Nat(0) == 0 && Plus(FirstIp(dlIp, mask), 0) == FirstIp(dlIp, mask)
  {
    hide ShortMask, MemberCount, FirstIp, LastIp, Plus, AtMost, Below, NotAbove;
    SomeMembers(dlIp, mask);
    CountUp(FirstIp(dlIp, mask), 0);
    GoesOnIff(dlIp, mask, 0);
  }

  lemma Advances(dlIp: bv32, mask: bv32, first: bv32, n: byte)
    requires ShortMask(mask) && Midway(dlIp, mask, n) && Below(n, MemberCount(dlIp, mask))
    ensures Nat(n) < 120 && Nat(Next(n)) == Nat(n) + 1 && Plus(first, Next(n)) == Succ(Plus(first, n))
    ensures Next(n) == MAX_DL_IP_NUM ==> MemberCount(dlIp, mask) == MAX_DL_IP_NUM
    ensures Next(n) != MAX_DL_IP_NUM ==> Midway(dlIp, mask, Next(n))
  {
    hide ShortMask, MemberCount, FirstIp, LastIp, Plus, Succ, AtMost, Nat, Next, Below, NotAbove;
    SomeMembers(dlIp, mask);
    NextOrder(n, MemberCount(dlIp, mask));
    CountUp(first, n);
    if Next(n) != MAX_DL_IP_NUM {
      GoesOnIff(dlIp, mask, Next(n));
    }
  }

  lemma Ends(dlIp: bv32, mask: bv32, n: byte)
    requires Midway(dlIp, mask, n) && !AtMost(Plus(FirstIp(dlIp, mask), n), LastIp(dlIp, mask))
    ensures n == MemberCount(dlIp, mask)
  {
    hide MemberCount, FirstIp, LastIp, Plus, AtMost;
  }

  /** The first loop: an action-profile member for every address, until the block
      or the table is full. */
  method ListBlock(dlIp: bv32, mask: bv32, first: bv32, last: bv32) returns (members: seq<DlMember>)
    requires ShortMask(mask) && first == FirstIp(dlIp, mask) && last == LastIp(dlIp, mask)
    ensures Lists(members, first) && |members| == Nat(MemberCount(dlIp, mask))
  {
    hide ShortMask, MemberCount, FirstIp, LastIp, Succ, Plus, Nat, Next, AtMost, Below, NotAbove;
    Starts(dlIp, mask);
    members := [];
    var memberNums: byte := 0;
    var ip, i := first, 0;
    while AtMost(ip, last)
      invariant |members| == i == Nat(memberNums) && Lists(members, first)
      invariant ip == Plus(first, memberNums) == Onward(first, i)
      invariant Midway(dlIp, mask, memberNums) && memberNums != MAX_DL_IP_NUM
      decreases 120 - i
    {
      Advances(dlIp, mask, first, memberNums);
      members := members + [DlMember(i + 1, ip)];
      memberNums := Next(memberNums);
      if memberNums == MAX_DL_IP_NUM {
        break;
      }
      ip, i := Succ(ip), i + 1;
    }
    if memberNums != MAX_DL_IP_NUM {
      Ends(dlIp, mask, memberNums);
    }
  }

  /** The second loop: every member joins the group, active. */
  method AllActive(memberNums: nat) returns (ids: seq<nat>, status: seq<bool>)
    ensures |ids| == |status| == memberNums && forall i :: 0 <= i < memberNums ==> ids[i] == i + 1 && status[i]
  {
    var memberIds, active := new nat[memberNums], new bool[memberNums];
    for i := 0 to memberNums
      invariant forall k :: 0 <= k < i ==> memberIds[k] == k + 1 && active[k]
    {
      memberIds[i] := i + 1;
      active[i] := true;
    }
    ids, status := memberIds[..], active[..];
  }

  /** `eip_in_ecmp_dl_table_init` and its outbound twin: the action profile's
      members, and the ids and states of the selector group that holds them. */
  method EcmpDlTableInit(dlIp: bv32, prefixLen: nat) returns (members: seq<DlMember>, ids: seq<nat>, status: seq<bool>)
    requires 24 <= prefixLen <= 32
    ensures Lists(members, FirstIp(dlIp, MaskOf(prefixLen)))
    ensures |members| == Nat(MemberCount(dlIp, MaskOf(prefixLen)))
    ensures |ids| == |status| == |members| && forall i :: 0 <= i < |members| ==> ids[i] == members[i].id && status[i]
  {
    hide MaskOf, FirstSwapped, LastSwapped, FirstIp, LastIp, MemberCount, Nat, Onward, ShortMask;
    var mask := GetMaskByPrefixLen(prefixLen);
    SwapsCancel(dlIp, mask);
    PrefixIsShort(prefixLen);
    var first, last := FirstSwapped(dlIp, mask), LastSwapped(dlIp, mask);
    members := ListBlock(dlIp, mask, first, last);
    ids, status := AllActive(|members|);
  }

  // ---------- what is listed ----------

  lemma BytesOrdered(a: byte, b: byte)
    ensures Nat(a) < Nat(b) <==> a < b
    ensures Nat(a) == Nat(b) <==> a == b
  {
  }

  lemma PrevNext(k: byte)
    ensures k != 0 ==> Next(Prev(k)) == k && Prev(k) < k
  {
  }

  /** The position as a byte counter. */
  lemma {:induction false} Position(first: bv32, i: nat, n: byte) returns (k: byte)
    requires i < Nat(n) && n <= MAX_DL_IP_NUM
    ensures k < n && Nat(k) == i && Onward(first, i) == Plus(first, k)
    decreases n
  {
    hide Nat, Plus, Succ, Next, Prev;
    BytesOrdered(0, n);
    CountUp(first, 0);
    assert n != 0;
    k := Prev(n);
    PrevNext(n);
    CountUp(first, k);
    if Nat(k) != i {
      k := Position(first, i, Prev(n));
    } else {
      OnwardFrom(first, k);
    }
  }

  lemma {:induction false} OnwardFrom(first: bv32, k: byte)
    requires k < MAX_DL_IP_NUM
    ensures Onward(first, Nat(k)) == Plus(first, k)
    decreases k
  {
    hide Nat, Plus, Succ, Next, Prev;
    CountUp(first, 0);
    if k != 0 {
      PrevNext(k);
      OnwardFrom(first, Prev(k));
      CountUp(first, Prev(k));
    }
  }

  /** The list holds only addresses of the block, for either direction, exactly
      when the block does not run over 255.255.255.255. */
  lemma MembersInBlockIff(dlIp: bv32, prefixLen: nat, members: seq<DlMember>)
    requires 24 <= prefixLen <= 32
    requires Lists(members, FirstIp(dlIp, MaskOf(prefixLen))) && |members| == Nat(MemberCount(dlIp, MaskOf(prefixLen)))
    ensures (forall m :: m in members ==> Ternary32(m.dlIp, dlIp, MaskOf(prefixLen))) <==>
      !RunsOver(dlIp, MaskOf(prefixLen))
  {
    hide MaskOf, Nat, Plus, Ternary32, FirstIp, MemberCount, RunsOver, Onward, ShortMask;
    PrefixIsShort(prefixLen);
    var mask := MaskOf(prefixLen);
    SomeMembers(dlIp, mask);
    if RunsOver(dlIp, mask) {
      OverByOne(dlIp, mask);
      var k := HostPlusOne(mask);
      OnwardFrom(FirstIp(dlIp, mask), k);
      BytesOrdered(k, MemberCount(dlIp, mask));
      assert !Ternary32(members[Nat(k)].dlIp, dlIp, mask);
    } else {
      forall i | 0 <= i < |members|
        ensures Ternary32(members[i].dlIp, dlIp, mask)
      {
        var k := Position(FirstIp(dlIp, mask), i, MemberCount(dlIp, mask));
        MemberMatches(dlIp, mask, k);
      }
    }
  }

  function HostPlusOne(mask: bv32): byte {
    ((!mask & 0xFF) as byte) + 1
  }

  lemma OverByOne(dlIp: bv32, mask: bv32)
    requires ShortMask(mask) && RunsOver(dlIp, mask)
    ensures var k := HostPlusOne(mask);
      k < MAX_DL_IP_NUM && k < MemberCount(dlIp, mask) && !Ternary32(Plus(FirstIp(dlIp, mask), k), dlIp, mask)
  {
  }

  lemma MemberMatches(dlIp: bv32, mask: bv32, k: byte)
    requires ShortMask(mask) && !RunsOver(dlIp, mask) && k < MemberCount(dlIp, mask)
    ensures Ternary32(Plus(FirstIp(dlIp, mask), k), dlIp, mask)
  {
  }

  /** How many: 2^(32 - len), at most 120. */
  lemma BlockSize(prefixLen: nat)
    requires 24 <= prefixLen <= 32
    ensures Nat(BlockCount(MaskOf(prefixLen))) ==
      match prefixLen
      case 26 => 64
      case 27 => 32
      case 28 => 16
      case 29 => 8
      case 30 => 4
      case 31 => 2
      case 32 => 1
      case _ => 120
  {
  }
}
