/** The hash tables over intrusive lists: sixty-four buckets, entries added at the
    head of the bucket their key's low six bits select.  The three tables of the
    control plane (host interfaces by port, MAC entries by interface index,
    gateways by address) are instances. */
module HashTables {
  import opened Wrappers
  import opened IntrusiveLists

  const HASH_TBL_SIZE := 64

  /** `key & (HASH_TBL_SIZE - 1)` of an unsigned key. */
  function BucketOf(key: nat): (b: nat)
    ensures b < HASH_TBL_SIZE
  {
    key % HASH_TBL_SIZE
  }

  datatype Entry<V> = Entry(key: nat, value: V)

  /** The value the array gives a key: its last element with that key. */
  function LastWith<V>(a: seq<Entry<V>>, key: nat): Option<V> {
    if a == [] then None
    else if a[|a| - 1].key == key then Some(a[|a| - 1].value)
    else LastWith(a[..|a| - 1], key)
  }

  /** `LastWith` is what it says: the last element with the key, none exactly when
      no element has it. */
  lemma {:induction false} LastWithIsLast<V>(a: seq<Entry<V>>, key: nat)
    ensures LastWith(a, key) == None <==> forall i :: 0 <= i < |a| ==> a[i].key != key
    ensures forall i :: 0 <= i < |a| && a[i].key == key && (forall j :: i < j < |a| ==> a[j].key != key) ==>
      LastWith(a, key) == Some(a[i].value)
  {
    if a != [] {
      var front := a[..|a| - 1];
      LastWithIsLast(front, key);
      assert forall i :: 0 <= i < |front| ==> front[i] == a[i];
    }
  }

  /** What a bucket's chain holds when the array has been added: its elements of
      that bucket, the latest first. */
  ghost function Bucket<V>(a: seq<Entry<V>>, b: nat): seq<Entry<V>> {
    if a == [] then []
    else
      var rest := Bucket(a[..|a| - 1], b);
      if BucketOf(a[|a| - 1].key) == b then [a[|a| - 1]] + rest else rest
  }

  ghost function FirstWith<V>(c: seq<Entry<V>>, key: nat): Option<V> {
    if c == [] then None
    else if c[0].key == key then Some(c[0].value)
    else FirstWith(c[1..], key)
  }

  /** Walking the bucket of a key finds what the array gives it. */
  lemma {:induction false} BucketFindsLast<V>(a: seq<Entry<V>>, key: nat)
    ensures FirstWith(Bucket(a, BucketOf(key)), key) == LastWith(a, key)
  {
    if a != [] {
      BucketFindsLast(a[..|a| - 1], key);
      var rest := Bucket(a[..|a| - 1], BucketOf(key));
      assert ([a[|a| - 1]] + rest)[1..] == rest;
    }
  }

  lemma BucketGrows<V>(a: seq<Entry<V>>, e: Entry<V>, b: nat)
    ensures Bucket(a + [e], b) == (if BucketOf(e.key) == b then [e] else []) + Bucket(a, b)
  {
    assert (a + [e])[..|a|] == a;
  }

  /** The entries the nodes of a chain are embedded in (`jd_hlist_entry`). */
  ghost function EntriesOf<V>(entryOf: map<HListNode, Entry<V>>, chain: seq<HListNode>): seq<Entry<V>>
    requires forall i :: 0 <= i < |chain| ==> chain[i] in entryOf
  {
    seq(|chain|, i requires 0 <= i < |chain| => entryOf[chain[i]])
  }

  lemma EntriesGrow<V>(entryOf: map<HListNode, Entry<V>>, n: HListNode, e: Entry<V>, chain: seq<HListNode>)
    requires n !in entryOf && forall i :: 0 <= i < |chain| ==> chain[i] in entryOf
    ensures EntriesOf(entryOf[n := e], chain) == EntriesOf(entryOf, chain)
    ensures forall i :: 0 <= i < |[n] + chain| ==> ([n] + chain)[i] in entryOf[n := e]
    ensures EntriesOf(entryOf[n := e], [n] + chain) == [e] + EntriesOf(entryOf, chain)
  {
  }

  class HashTable<V> {
    const buckets: array<HListHead>
    /** `jd_container_of`: the entry each node is embedded in. */
    var entryOf: map<HListNode, Entry<V>>
    ghost var chains: seq<seq<HListNode>>
    /** What has been added, in order. */
    ghost var contents: seq<Entry<V>>

    ghost predicate Chained(b: nat)
      requires b < buckets.Length && b < |chains|
      reads this, buckets, buckets[b], entryOf.Keys
    {
      && (forall i :: 0 <= i < |chains[b]| ==> chains[b][i] in entryOf)
      && IsHList(buckets[b], chains[b])
      && EntriesOf(entryOf, chains[b]) == Bucket(contents, b)
    }

    /** Buckets share no head and no node. */
    ghost predicate Apart()
      reads this, buckets
    {
      && |chains| == buckets.Length
      && (forall b, c :: 0 <= b < c < buckets.Length ==> buckets[b] != buckets[c])
      && (forall b, c, i, j :: 0 <= b < c < |chains| && 0 <= i < |chains[b]| && 0 <= j < |chains[c]| ==>
          chains[b][i] != chains[c][j])
    }

    ghost predicate Valid()
      reads this, buckets, buckets[..], entryOf.Keys
    {
      && buckets.Length == HASH_TBL_SIZE && |chains| == HASH_TBL_SIZE
      && Apart()
      && forall b :: 0 <= b < HASH_TBL_SIZE ==> Chained(b)
    }

    /** The table as it is set up: every bucket empty. */
    constructor ()
      ensures Valid() && contents == [] && fresh(buckets) && fresh(buckets[..]) && fresh(entryOf.Keys)
    {
      var first := new HListHead();
      buckets := new HListHead[HASH_TBL_SIZE](_ => first);
      entryOf := map[];
      chains := seq(HASH_TBL_SIZE, _ => []);
      contents := [];
      new;
      for i := 0 to HASH_TBL_SIZE
        invariant forall b :: 0 <= b < i ==> fresh(buckets[b]) && buckets[b].first == null
        invariant forall b, c :: 0 <= b < c < i ==> buckets[b] != buckets[c]
        invariant forall b :: i <= b < HASH_TBL_SIZE ==> buckets[b] == first
        invariant fresh(first) && forall b :: 0 <= b < i ==> buckets[b] != first
        modifies buckets
      {
        buckets[i] := new HListHead();
      }
    }

    /** An element joins at the head of its bucket. */
    method Add(e: Entry<V>)
      requires Valid()
      modifies this, buckets[BucketOf(e.key)], entryOf.Keys
      ensures Valid() && contents == old(contents) + [e]
      ensures fresh(entryOf.Keys - old(entryOf.Keys))
    {
      hide IsHList, Bucket, EntriesOf, BucketOf;
      var b := BucketOf(e.key);
      assert Chained(b);
      var n := new HListNode();
      label Before:
      ghost var chain := chains[b];
      assert chain != [] ==> chain[0] in entryOf.Keys;
      HListAddHead(n, buckets[b], chain);
      forall c | 0 <= c < HASH_TBL_SIZE && c != b
        ensures IsHList(buckets[c], chains[c])
      {
        assert old@Before(Chained(c));
        OtherBucket(b, c);
      }
      entryOf := entryOf[n := e];
      chains := chains[b := [n] + chains[b]];
      contents := contents + [e];
      forall c | 0 <= c < HASH_TBL_SIZE
        ensures Chained(c)
      {
        BucketGrows(old(contents), e, c);
        assert old@Before(Chained(c));
        EntriesGrow(old(entryOf), n, e, old(chains)[c]);
      }
    }

    lemma OtherBucket(b: nat, c: nat)
      requires Apart() && b < |chains| && c < |chains| && b != c
      ensures buckets[b] != buckets[c]
      ensures forall i, j :: 0 <= i < |chains[b]| && 0 <= j < |chains[c]| ==> chains[b][i] != chains[c][j]
    {
    }

    /** Walking the bucket (`jd_hlist_for_each_entry`). */
    method Get(key: nat) returns (r: Option<V>)
      requires Valid()
      ensures r == LastWith(contents, key)
    {
      var b := BucketOf(key);
      BucketFindsLast(contents, key);
      ghost var c, i := chains[b], 0;
      ghost var es := Bucket(contents, b);
      assert Chained(b);
      assert es == es[0..];
      var pos := buckets[b].first;
      while pos != null
        invariant 0 <= i <= |c| && pos == At(c, i)
        invariant FirstWith(es[i..], key) == FirstWith(es, key)
        decreases |c| - i
      {
        assert es[i] == entryOf[pos] && es[i..][1..] == es[i + 1..];
        if entryOf[pos].key == key {
          return Some(entryOf[pos].value);
        }
        pos := pos.next;
        i := i + 1;
      }
      assert es[i..] == [];
      r := None;
    }
  }

  /** `hostif_array_to_hash_table` and its two twins: the whole array, in order. */
  method ArrayToHashTable<V>(a: seq<Entry<V>>) returns (t: HashTable<V>)
    ensures t.Valid() && t.contents == a
  {
    t := new HashTable<V>();
    for i := 0 to |a|
      invariant t.Valid() && t.contents == a[..i]
      invariant fresh(t) && fresh(t.buckets) && fresh(t.buckets[..]) && fresh(t.entryOf.Keys)
    {
      assert t.buckets[BucketOf(a[i].key)] in t.buckets[..];
      t.Add(a[i]);
    }
    assert a[..|a|] == a;
  }
}
