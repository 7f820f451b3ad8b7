/** The two intrusive lists of the control plane, on the heap: a circular doubly
    linked list, and a list whose nodes point back at the pointer that points at
    them. */
module IntrusiveLists {

  // ---------- jd_list: circular, doubly linked ----------

  /** `struct jd_list_head`, both the head and the links inside entries. */
  class ListHead {
    var next: ListHead
    var prev: ListHead

    /** `JD_INIT_LIST_HEAD` */
    constructor ()
      ensures next == this && prev == this
    {
      next, prev := this, this;
    }
  }

  /** No node twice. */
  ghost predicate Distinct<T>(s: seq<T>) {
    forall i, j :: 0 <= i < j < |s| ==> s[i] != s[j]
  }

  /** All the way round: the head, the entries, and the head again. */
  function Ring(head: ListHead, s: seq<ListHead>): seq<ListHead> {
    [head] + s + [head]
  }

  /** Every node of the ring points at the next one, which points back. */
  ghost predicate Linked(c: seq<ListHead>)
    reads set i | 0 <= i < |c| :: c[i]
  {
    forall i :: 0 <= i < |c| - 1 ==> c[i].next == c[i + 1] && c[i + 1].prev == c[i]
  }

  /** `head` heads the list of exactly the entries `s`, in that order, and next
      and prev are mutually inverse all the way round. */
  ghost predicate IsList(head: ListHead, s: seq<ListHead>)
    reads set i | 0 <= i < |Ring(head, s)| :: Ring(head, s)[i]
  {
    Distinct(s) && head !in s && Linked(Ring(head, s))
  }

  lemma InsertDistinct<T>(s: seq<T>, k: nat, x: T)
    requires Distinct(s) && x !in s && k <= |s|
    ensures Distinct(s[..k] + [x] + s[k..])
  {
  }

  lemma RemoveDistinct<T>(s: seq<T>, k: nat)
    requires Distinct(s) && k < |s|
    ensures Distinct(s[..k] + s[k + 1..]) && s[k] !in s[..k] + s[k + 1..]
  {
  }

  lemma RingInsert(head: ListHead, s: seq<ListHead>, k: nat, x: ListHead)
    requires k <= |s|
    ensures var c := Ring(head, s);
      Ring(head, s[..k] + [x] + s[k..]) == c[..k + 1] + [x] + c[k + 1..]
  {
  }

  lemma RingRemove(head: ListHead, s: seq<ListHead>, k: nat)
    requires k < |s|
    ensures var c := Ring(head, s);
      Ring(head, s[..k] + s[k + 1..]) == c[..k + 1] + c[k + 2..]
  {
  }

  /** The links around the new node, and the others as they were. */
  lemma LinkedInsert(head: ListHead, s: seq<ListHead>, c: seq<ListHead>, k: nat, x: ListHead)
    requires k <= |s| && Distinct(s) && head !in s && x != head && x !in s
    requires c == Ring(head, s)
    requires x.next == c[k + 1] && x.prev == c[k] && c[k].next == x && c[k + 1].prev == x
    requires forall i :: 0 <= i < |c| - 1 && c[i] != c[k] ==> c[i].next == c[i + 1]
    requires forall i :: 0 <= i < |c| - 1 && c[i + 1] != c[k + 1] ==> c[i + 1].prev == c[i]
    ensures Linked(c[..k + 1] + [x] + c[k + 1..])
  {
    var d := c[..k + 1] + [x] + c[k + 1..];
    forall i | 0 <= i < |d| - 1
      ensures d[i].next == d[i + 1] && d[i + 1].prev == d[i]
    {
      if i < k {
        RingApart(head, s, i, k);
        RingBack(head, s, i + 1, k + 1);
        assert d[i] == c[i] && d[i + 1] == c[i + 1];
      } else if i > k + 1 {
        RingApart(head, s, i - 1, k);
        RingBack(head, s, i, k + 1);
        assert d[i] == c[i - 1] && d[i + 1] == c[i];
      } else {
        assert d[k] == c[k] && d[k + 1] == x && d[k + 2] == c[k + 1];
      }
    }
  }

  /** Only the two ends of a ring are the same node. */
  lemma RingApart(head: ListHead, s: seq<ListHead>, i: nat, j: nat)
    requires Distinct(s) && head !in s && i <= |s| && j <= |s| && i != j
    ensures Ring(head, s)[i] != Ring(head, s)[j]
  {
  }

  lemma RingBack(head: ListHead, s: seq<ListHead>, i: nat, j: nat)
    requires Distinct(s) && head !in s && 1 <= i <= |s| + 1 && 1 <= j <= |s| + 1 && i != j
    ensures Ring(head, s)[i] != Ring(head, s)[j]
  {
  }

  /** `jd_list_add`: behind the k-th node of the ring; behind the head for k = 0,
      as a stack does. */
  method JdListAdd(x: ListHead, at: ListHead, ghost head: ListHead, ghost s: seq<ListHead>, ghost k: nat)
    requires IsList(head, s) && x != head && x !in s && k <= |s| && at == Ring(head, s)[k]
    modifies x, at`next, at.next`prev
    ensures IsList(head, s[..k] + [x] + s[k..])
  {
    ghost var c := Ring(head, s);
    assert c[k].next == c[k + 1];
    LinkBetween(x, at, at.next, head, s, k);
  }

  /** `__jd_list_add`: between the k-th node of the ring and the one after it. */
  method LinkBetween(x: ListHead, before: ListHead, after: ListHead, ghost head: ListHead, ghost s: seq<ListHead>,
                     ghost k: nat)
    requires IsList(head, s) && x != head && x !in s && k <= |s|
    requires before == Ring(head, s)[k] && after == Ring(head, s)[k + 1]
    modifies x, before`next, after`prev
    ensures IsList(head, s[..k] + [x] + s[k..])
  {
    InsertDistinct(s, k, x);
    RingInsert(head, s, k, x);
    after.prev := x;
    x.next := after;
    x.prev := before;
    before.next := x;
    LinkedInsert(head, s, Ring(head, s), k, x);
  }

  /** `jd_list_add_tail`: before the k-th node of the ring; before the head for
      k = |s| + 1, as a queue does. */
  method JdListAddTail(x: ListHead, at: ListHead, ghost head: ListHead, ghost s: seq<ListHead>, ghost k: nat)
    requires IsList(head, s) && x != head && x !in s && 1 <= k <= |s| + 1 && at == Ring(head, s)[k]
    modifies x, at`prev, at.prev`next
    ensures IsList(head, s[..k - 1] + [x] + s[k - 1..])
  {
    ghost var c := Ring(head, s);
    assert c[k - 1].next == c[k];
    LinkBetween(x, at.prev, at, head, s, k - 1);
  }

  /** `jd_list_del`: the neighbours close the gap; the entry itself is left as it
      was. */
  method JdListDel(entry: ListHead, ghost head: ListHead, ghost s: seq<ListHead>, ghost k: nat)
    requires IsList(head, s) && k < |s| && entry == s[k]
    modifies entry.prev`next, entry.next`prev
    ensures IsList(head, s[..k] + s[k + 1..])
  {
    ghost var c := Ring(head, s);
    assert c[k + 1] == entry && c[k].next == c[k + 1] && c[k + 1].next == c[k + 2];
    RemoveDistinct(s, k);
    RingRemove(head, s, k);
    RingApart(head, s, k, k + 1);
    RingBack(head, s, k + 2, k + 1);
    var before, after := entry.prev, entry.next;
    after.prev := before;
    before.next := after;
    LinkedRemove(head, s, c, k);
  }

  lemma LinkedRemove(head: ListHead, s: seq<ListHead>, c: seq<ListHead>, k: nat)
    requires k < |s| && Distinct(s) && head !in s
    requires c == Ring(head, s)
    requires c[k].next == c[k + 2] && c[k + 2].prev == c[k]
    requires forall i :: 0 <= i < |c| - 1 && c[i] != c[k] ==> c[i].next == c[i + 1]
    requires forall i :: 0 <= i < |c| - 1 && c[i + 1] != c[k + 2] ==> c[i + 1].prev == c[i]
    ensures Linked(c[..k + 1] + c[k + 2..])
  {
    var d := c[..k + 1] + c[k + 2..];
    forall i | 0 <= i < |d| - 1
      ensures d[i].next == d[i + 1] && d[i + 1].prev == d[i]
    {
      if i < k {
        RingApart(head, s, i, k);
        RingBack(head, s, i + 1, k + 2);
        assert d[i] == c[i] && d[i + 1] == c[i + 1];
      } else if i > k {
        RingApart(head, s, i + 1, k);
        RingBack(head, s, i + 2, k + 2);
        assert d[i] == c[i + 1] && d[i + 1] == c[i + 2];
      } else {
        assert d[k] == c[k] && d[k + 1] == c[k + 2];
      }
    }
  }

  /** `jd_list_empty` */
  predicate JdListEmpty(head: ListHead)
    reads head
  {
    head.next == head
  }

  /** The test means what it says. */
  lemma EmptyIff(head: ListHead, s: seq<ListHead>)
    requires IsList(head, s)
    ensures JdListEmpty(head) <==> s == []
  {
    var c := Ring(head, s);
    assert c[0].next == c[1];
    if s != [] {
      assert c[1] == s[0];
    }
  }

  /** The entries that are not dropped, in order. */
  ghost function Kept<T>(s: seq<T>, drop: set<T>): seq<T> {
    if s == [] then []
    else Kept(s[..|s| - 1], drop) + (if s[|s| - 1] in drop then [] else [s[|s| - 1]])
  }

  lemma KeptNext<T>(s: seq<T>, drop: set<T>, x: T)
    ensures Kept(s + [x], drop) == Kept(s, drop) + (if x in drop then [] else [x])
  {
    assert (s + [x])[..|s|] == s;
  }

  lemma KeptEmpty<T>(drop: set<T>)
    ensures Kept([], drop) == []
  {
  }

  lemma {:induction false} KeptWithin<T>(s: seq<T>, drop: set<T>)
    ensures forall x :: x in Kept(s, drop) ==> x in s
  {
    if s != [] {
      KeptWithin(s[..|s| - 1], drop);
    }
  }

  /** The k-th node of the ring. */
  function NodeAt(head: ListHead, s: seq<ListHead>, k: nat): ListHead {
    if 1 <= k <= |s| then s[k - 1] else head
  }

  /** The node after the first part of a list: the next entry, or the head. */
  lemma NodeAfter(head: ListHead, done: seq<ListHead>, rest: seq<ListHead>)
    requires IsList(head, done + rest)
    ensures var x := NodeAt(head, done + rest, |done| + 1);
      && (x == head <==> rest == []) && (rest != [] ==> x == rest[0])
      && (rest != [] ==> x.next == NodeAt(head, done + rest, |done| + 2))
  {
    var c := Ring(head, done + rest);
    if rest != [] {
      assert (done + rest)[|done|] == rest[0];
      assert c[|done| + 1].next == c[|done| + 2];
    }
  }

  /** The nodes of a list. */
  ghost function Nodes(head: ListHead, s: seq<ListHead>): set<object> {
    {head} + set i | 0 <= i < |s| :: s[i]
  }

  lemma NodesWithin(head: ListHead, visited: seq<ListHead>, rest: seq<ListHead>, drop: set<ListHead>)
    ensures Nodes(head, Kept(visited, drop) + rest) <= Nodes(head, visited + rest)
  {
    KeptWithin(visited, drop);
    var s, t := visited + rest, Kept(visited, drop) + rest;
    forall k | 0 <= k < |t|
      ensures t[k] in s
    {
      if k >= |Kept(visited, drop)| {
        assert t[k] == s[|visited| + (k - |Kept(visited, drop)|)];
      }
    }
  }

  /** The list without the entry a visit stands at. */
  lemma DroppedList(done: seq<ListHead>, rest: seq<ListHead>)
    requires rest != []
    ensures var cur := done + rest;
      cur[|done|] == rest[0] && cur[..|done|] + cur[|done| + 1..] == done + rest[1..]
  {
  }

  /** That entry is on the ring no more. */
  lemma DroppedApart(head: ListHead, done: seq<ListHead>, rest: seq<ListHead>)
    requires rest != [] && IsList(head, done + rest)
    ensures rest[0] !in Ring(head, done + rest[1..])
  {
    DroppedList(done, rest);
    RemoveDistinct(done + rest, |done|);
    Unlinked(head, done + rest[1..], rest[0]);
  }

  /** The pointers a deletion writes belong to nodes of the list. */
  lemma NeighboursWithin(head: ListHead, s: seq<ListHead>, k: nat)
    requires IsList(head, s) && k < |s|
    ensures s[k] in Nodes(head, s) && s[k].prev in Nodes(head, s) && s[k].next in Nodes(head, s)
  {
    InRing(head, s, k);
  }

  /** The visited entry is deleted and reused. */
  method DropEntry(pos: ListHead, reuse: ListHead, ghost head: ListHead, ghost done: seq<ListHead>,
                   ghost rest: seq<ListHead>)
    requires rest != [] && IsList(head, done + rest) && pos == rest[0]
    modifies Nodes(head, done + rest)
    ensures IsList(head, done + rest[1..])
  {
    hide IsList, Nodes, Ring;
    DroppedList(done, rest);
    DroppedApart(head, done, rest);
    NeighboursWithin(head, done + rest, |done|);
    JdListDel(pos, head, done + rest, |done|);
    pos.next, pos.prev := reuse, reuse;
  }

  /** One visit of the loop: the entry is deleted and reused, or left alone. */
  method VisitEntry(pos: ListHead, drop: bool, reuse: ListHead, ghost head: ListHead, ghost done: seq<ListHead>,
                    ghost rest: seq<ListHead>)
    requires rest != [] && IsList(head, done + rest) && pos == rest[0]
    modifies Nodes(head, done + rest)
    ensures IsList(head, (if drop then done else done + [pos]) + rest[1..])
  {
    hide IsList, Nodes;
    if drop {
      DropEntry(pos, reuse, head, done, rest);
    } else {
      assert done + rest == (done + [pos]) + rest[1..];
    }
  }

  /** `jd_list_for_each_safe` with a body that deletes some of the entries it
      visits, and reuses them: every entry is visited once, in order, and exactly
      the others are left. */
  method ForEachSafe(head: ListHead, drop: set<ListHead>, reuse: ListHead,
                     ghost s: seq<ListHead>) returns (visited: seq<ListHead>)
    requires IsList(head, s)
    modifies Nodes(head, s)
    ensures visited == s && IsList(head, Kept(s, drop))
  {
    hide IsList, Nodes, Kept, NodeAt;
    visited := [];
    ghost var done: seq<ListHead>, rest := [], s;
    assert [] + s == s;
    NodeAfter(head, [], s);
    FirstNode(head, s);
    var pos, n := head.next, head.next.next;
    KeptEmpty(drop);
    while pos != head
      invariant visited + rest == s && done == Kept(visited, drop)
      invariant IsList(head, done + rest)
      invariant pos == NodeAt(head, done + rest, |done| + 1) && n == pos.next
      decreases |rest|
    {
      NodeAfter(head, done, rest);
      NodesWithin(head, visited, rest, drop);
      KeptNext(visited, drop, pos);
      RingAfter(head, done, rest, pos in drop);
      VisitEntry(pos, pos in drop, reuse, head, done, rest);
      assert (visited + [pos]) + rest[1..] == visited + rest;
      visited := visited + [pos];
      done := if pos in drop then done else done + [pos];
      rest := rest[1..];
      pos := n;
      n := pos.next;
    }
    NodeAfter(head, done, rest);
    assert done + [] == done && visited + [] == visited;
  }

  lemma FirstNode(head: ListHead, s: seq<ListHead>)
    requires IsList(head, s)
    ensures head.next == NodeAt(head, s, 1)
  {
    var c := Ring(head, s);
    assert c[0].next == c[1];
  }

  lemma RingAfter(head: ListHead, done: seq<ListHead>, rest: seq<ListHead>, drop: bool)
    requires rest != []
    ensures var kept := if drop then done else done + [rest[0]];
      NodeAt(head, kept + rest[1..], |kept| + 1) == NodeAt(head, done + rest, |done| + 2)
  {
  }

  lemma InRing(head: ListHead, s: seq<ListHead>, k: nat)
    requires IsList(head, s) && k < |s|
    ensures s[k].prev == Ring(head, s)[k] && s[k].next == Ring(head, s)[k + 2]
  {
    var c := Ring(head, s);
    assert c[k].next == c[k + 1] && c[k + 1].next == c[k + 2];
  }

  /** An entry outside a list is on no ring. */
  lemma Unlinked(head: ListHead, s: seq<ListHead>, x: ListHead)
    requires x !in s && x != head
    ensures x !in Ring(head, s)
  {
  }

  // ---------- jd_hlist: single pointer head, pprev ----------

  /** `struct jd_hlist_head` */
  class HListHead {
    var first: HListNode?

    constructor ()
      ensures first == null
    {
      first := null;
    }
  }

  /** What a `pprev` points at: the `first` of a head or the `next` of a node. */
  datatype Slot = Nowhere | FirstOf(h: HListHead) | NextOf(n: HListNode)

  /** `struct jd_hlist_node` */
  class HListNode {
    var next: HListNode?
    var pprev: Slot

    /** `JD_INIT_HLIST_NODE` */
    constructor ()
      ensures next == null && pprev == Nowhere
    {
      next, pprev := null, Nowhere;
    }
  }

  /** `jd_hlist_unhashed` and `jd_hlist_empty` */
  predicate Unhashed(n: HListNode)
    reads n
  {
    n.pprev == Nowhere
  }

  predicate HListEmpty(h: HListHead)
    reads h
  {
    h.first == null
  }

  function At(s: seq<HListNode>, i: nat): HListNode? {
    if i < |s| then s[i] else null
  }

  /** The slot that points at the i-th node. */
  function SlotBefore(h: HListHead, s: seq<HListNode>, i: nat): Slot
    requires i <= |s|
  {
    if i == 0 then FirstOf(h) else NextOf(s[i - 1])
  }

  /** `h` heads exactly the nodes `s`, in that order, and every `pprev` points at
      the pointer that points at its node. */
  ghost predicate IsHList(h: HListHead, s: seq<HListNode>)
    reads h, set i | 0 <= i < |s| :: s[i]
  {
    && Distinct(s) && h.first == At(s, 0)
    && (forall i :: 0 <= i < |s| ==> s[i].next == At(s, i + 1) && s[i].pprev == SlotBefore(h, s, i))
  }

  /** The two tests say what they mean: no chain, and in no chain. */
  lemma HashedIff(h: HListHead, s: seq<HListNode>)
    requires IsHList(h, s)
    ensures HListEmpty(h) <==> s == []
    ensures forall i :: 0 <= i < |s| ==> !Unhashed(s[i])
  {
    forall i | 0 <= i < |s|
      ensures !Unhashed(s[i])
    {
      assert s[i].pprev == SlotBefore(h, s, i);
    }
  }

  lemma OnlyAt<T>(s: seq<T>, k: nat)
    requires Distinct(s) && k < |s|
    ensures forall i :: 0 <= i < |s| && i != k ==> s[i] != s[k]
  {
  }

  lemma HListInsert(h: HListHead, s: seq<HListNode>, k: nat, n: HListNode)
    requires k <= |s| && Distinct(s) && n !in s
    requires h.first == if k == 0 then n else At(s, 0)
    requires n.next == At(s, k) && n.pprev == SlotBefore(h, s, k)
    requires k > 0 ==> s[k - 1].next == n
    requires k < |s| ==> s[k].pprev == NextOf(n)
    requires forall i :: 0 <= i < |s| && i != k - 1 ==> s[i].next == At(s, i + 1)
    requires forall i :: 0 <= i < |s| && i != k ==> s[i].pprev == SlotBefore(h, s, i)
    ensures IsHList(h, s[..k] + [n] + s[k..])
  {
    InsertDistinct(s, k, n);
    var t := s[..k] + [n] + s[k..];
    forall i | 0 <= i < |t|
      ensures t[i].next == At(t, i + 1) && t[i].pprev == SlotBefore(h, t, i)
    {
      if i < k {
        assert t[i] == s[i];
      } else if i > k {
        assert t[i] == s[i - 1];
      }
    }
  }

  /** `jd_hlist_add_head` */
  method HListAddHead(n: HListNode, h: HListHead, ghost s: seq<HListNode>)
    requires IsHList(h, s) && n !in s
    modifies n, h, if s == [] then {} else {s[0]}
    ensures IsHList(h, [n] + s)
    ensures s != [] ==> s[0].next == old(s[0].next)
  {
    var first := h.first;
    n.next := first;
    if first != null {
      OnlyAt(s, 0);
      first.pprev := NextOf(n);
    }
    h.first := n;
    n.pprev := FirstOf(h);
    HListInsert(h, s, 0, n);
    assert s[..0] + [n] + s[0..] == [n] + s;
  }

  /** The object a slot is part of. */
  function Owner(p: Slot): set<object> {
    match p
    case Nowhere => {}
    case FirstOf(h) => {h}
    case NextOf(n) => {n}
  }

  /** `*pprev = v` */
  method Store(p: Slot, v: HListNode?)
    requires p != Nowhere
    modifies Owner(p)
    ensures match p
      case Nowhere => true
      case FirstOf(h) => h.first == v
      case NextOf(n) => n.next == v && n.pprev == old(n.pprev)
  {
    match p {
      case FirstOf(h) => h.first := v;
      case NextOf(n) => n.next := v;
    }
  }

  lemma HListRemove(h: HListHead, s: seq<HListNode>, k: nat)
    requires k < |s| && Distinct(s)
    requires h.first == if k == 0 then At(s, 1) else At(s, 0)
    requires k > 0 ==> s[k - 1].next == At(s, k + 1)
    requires k + 1 < |s| ==> s[k + 1].pprev == SlotBefore(h, s, k)
    requires forall i :: 0 <= i < |s| && i != k && i != k - 1 ==> s[i].next == At(s, i + 1)
    requires forall i :: 0 <= i < |s| && i != k && i != k + 1 ==> s[i].pprev == SlotBefore(h, s, i)
    ensures IsHList(h, s[..k] + s[k + 1..])
  {
    RemoveDistinct(s, k);
    var t := s[..k] + s[k + 1..];
    forall i | 0 <= i < |t|
      ensures t[i].next == At(t, i + 1) && t[i].pprev == SlotBefore(h, t, i)
    {
      if i < k {
        assert t[i] == s[i];
      } else {
        assert t[i] == s[i + 1];
      }
    }
  }

  /** `jd_hlist_del`: `*pprev` takes over the node's `next`; the node itself is
      left as it was. */
  method HListDel(n: HListNode, ghost h: HListHead, ghost s: seq<HListNode>, ghost k: nat)
    requires IsHList(h, s) && k < |s| && n == s[k]
    modifies Owner(SlotBefore(h, s, k)), if k + 1 < |s| then {s[k + 1]} else {}
    ensures IsHList(h, s[..k] + s[k + 1..])
  {
    var next, pprev := n.next, n.pprev;
    Store(pprev, next);
    if next != null {
      next.pprev := pprev;
    }
    HListRemove(h, s, k);
  }

  /** `jd_hlist_add_before` */
  method HListAddBefore(n: HListNode, next: HListNode, ghost h: HListHead, ghost s: seq<HListNode>, ghost k: nat)
    requires IsHList(h, s) && n !in s && k < |s| && next == s[k]
    modifies n, next, Owner(SlotBefore(h, s, k))
    ensures IsHList(h, s[..k] + [n] + s[k..])
  {
    OnlyAt(s, k);
    if k > 0 {
      OnlyAt(s, k - 1);
    }
    n.pprev := next.pprev;
    n.next := next;
    next.pprev := NextOf(n);
    assert n.pprev == SlotBefore(h, s, k);
    match n.pprev {
      case FirstOf(head) =>
        assert k == 0;
        head.first := n;
        HListInsert(h, s, 0, n);
      case NextOf(node) =>
        assert k > 0 && node == s[k - 1];
        node.next := n;
        HListInsert(h, s, k, n);
    }
  }

  /** `jd_hlist_add_after`: puts `next` behind `n`. */
  method HListAddAfter(n: HListNode, next: HListNode, ghost h: HListHead, ghost s: seq<HListNode>, ghost k: nat)
    requires IsHList(h, s) && next !in s && k < |s| && n == s[k]
    modifies n, next, if k + 1 < |s| then {s[k + 1]} else {}
    ensures IsHList(h, s[..k + 1] + [next] + s[k + 1..])
  {
    next.next := n.next;
    n.next := next;
    next.pprev := NextOf(n);
    if next.next != null {
      next.next.pprev := NextOf(next);
    }
    HListInsert(h, s, k + 1, next);
  }

  ghost function HNodes(h: HListHead, s: seq<HListNode>): set<object> {
    {h} + set i | 0 <= i < |s| :: s[i]
  }

  lemma HNodesWithin(h: HListHead, visited: seq<HListNode>, rest: seq<HListNode>, drop: set<HListNode>)
    ensures HNodes(h, Kept(visited, drop) + rest) <= HNodes(h, visited + rest)
  {
    KeptWithin(visited, drop);
    var s, t := visited + rest, Kept(visited, drop) + rest;
    forall k | 0 <= k < |t|
      ensures t[k] in s
    {
      if k >= |Kept(visited, drop)| {
        assert t[k] == s[|visited| + (k - |Kept(visited, drop)|)];
      }
    }
  }

  /** The visited node is deleted and reused. */
  method DropNode(pos: HListNode, reuse: HListNode?, ghost h: HListHead, ghost done: seq<HListNode>,
                  ghost rest: seq<HListNode>)
    requires rest != [] && IsHList(h, done + rest) && pos == rest[0]
    modifies HNodes(h, done + rest)
    ensures IsHList(h, done + rest[1..])
  {
    ghost var cur := done + rest;
    assert cur[|done|] == pos && cur[..|done|] + cur[|done| + 1..] == done + rest[1..];
    OwnerWithin(h, cur, |done|);
    HListDel(pos, h, cur, |done|);
    NotInRest(h, done, rest);
    pos.next, pos.pprev := reuse, Nowhere;
  }

  lemma OwnerWithin(h: HListHead, s: seq<HListNode>, k: nat)
    requires k < |s|
    ensures Owner(SlotBefore(h, s, k)) <= HNodes(h, s) && s[k] in HNodes(h, s)
    ensures k + 1 < |s| ==> s[k + 1] in HNodes(h, s)
  {
  }

  lemma NotInRest(h: HListHead, done: seq<HListNode>, rest: seq<HListNode>)
    requires rest != [] && Distinct(done + rest)
    ensures rest[0] !in done + rest[1..]
  {
    var cur := done + rest;
    assert cur[..|done|] + cur[|done| + 1..] == done + rest[1..] && cur[|done|] == rest[0];
    RemoveDistinct(cur, |done|);
  }

  /** The node after the first part of a list. */
  lemma HNodeAfter(h: HListHead, done: seq<HListNode>, rest: seq<HListNode>)
    requires IsHList(h, done + rest)
    ensures done == [] ==> h.first == At(rest, 0)
    ensures rest != [] ==> rest[0].next == At(rest, 1)
  {
    if rest != [] {
      assert (done + rest)[|done|] == rest[0];
    }
  }

  /** `jd_hlist_for_each_safe` with a body that deletes some of the nodes it
      visits, and reuses them. */
  method HListForEachSafe(h: HListHead, drop: set<HListNode>, reuse: HListNode?,
                          ghost s: seq<HListNode>) returns (visited: seq<HListNode>)
    requires IsHList(h, s)
    modifies HNodes(h, s)
    ensures visited == s && IsHList(h, Kept(s, drop))
  {
    hide IsHList, HNodes, Kept;
    visited := [];
    ghost var done: seq<HListNode>, rest := [], s;
    assert [] + s == s;
    HNodeAfter(h, [], s);
    var pos := h.first;
    KeptEmpty(drop);
    while pos != null
      invariant visited + rest == s && done == Kept(visited, drop)
      invariant IsHList(h, done + rest)
      invariant pos == At(rest, 0)
      decreases |rest|
    {
      HNodeAfter(h, done, rest);
      HNodesWithin(h, visited, rest, drop);
      KeptNext<HListNode>(visited, drop, pos);
      var n := pos.next;
      if pos in drop {
        DropNode(pos, reuse, h, done, rest);
      } else {
        assert done + rest == (done + [pos]) + rest[1..];
        done := done + [pos];
      }
      assert (visited + [pos]) + rest[1..] == visited + rest;
      visited := visited + [pos];
      rest := rest[1..];
      pos := n;
    }
    assert done + [] == done && visited + [] == visited;
  }
}
