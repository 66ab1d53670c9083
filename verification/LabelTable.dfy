/** The assembler's label table: the hash table macros that `put`, `get` and the final
    clean-up reach, over linked entries, refining a map. */
module LabelTable {
  import opened Bits
  import opened Uapi
  import opened Isa
  import opened HashChains
  import opened HashBuckets

  const INITIAL_NUM_BUCKETS: nat := 32
  const INITIAL_NUM_BUCKETS_LOG2: nat := 5
  const CAPACITY_THRESH: nat := 10
  const KEY_SIZE: nat := 64

  ghost predicate BucketHolds(b: Bucket, c: seq<Entry>)
    reads c`hhNext, c`hhPrev
  {
    b.head == At(c, 0) && b.count == |c| && ChainLinked(c)
  }

  /** The bucket array holds the given chains. */
  ghost predicate TableHolds(bs: seq<Bucket>, chains: seq<seq<Entry>>, items: set<Entry>)
    requires Placed(chains, |chains|, items)
    reads items`hhNext, items`hhPrev
  {
    |bs| == |chains| && forall b :: 0 <= b < |bs| ==>
      InBucket(chains[b], b, |chains|, items) && BucketHolds(bs[b], chains[b])
  }

  ghost predicate MultipliersSet(bs: seq<Bucket>, ideal: nat) {
    forall b :: 0 <= b < |bs| ==> bs[b].expandMult == Multiplier(bs[b].count, ideal)
  }

  ghost predicate NextOnly(c: seq<Entry>, i: nat)
    requires i < |c|
    reads {c[i]}`hhNext
  {
    c[i].hhNext == At(c, i + 1)
  }

  /** A chain still to be moved: its forward links are intact. */
  ghost predicate Pending(c: seq<Entry>, from: nat)
    reads c`hhNext
  {
    forall i :: from <= i < |c| ==> NextOnly(c, i)
  }

  /** Put an entry in front of its chain, as HASH_ADD_TO_BKT and HASH_EXPAND_BUCKETS do. */
  method PutFirst(e: Entry, bs: array<Bucket>, b: nat, mult: nat, ghost chains: seq<seq<Entry>>,
      ghost items: set<Entry>)
    requires Placed(chains, bs.Length, items) && e !in items && b == BucketOf(e.hashv, bs.Length)
    requires TableHolds(bs[..], chains, items)
    modifies bs, {e}`hhNext, ({e} + items)`hhPrev
    ensures bs[..] == old(bs[..])[b := Bucket(e, |chains[b]| + 1, mult)]
    ensures Placed(MoveOne(chains, e), bs.Length, items + {e})
    ensures TableHolds(bs[..], MoveOne(chains, e), items + {e})
  {
    MoveOnePlaced(chains, bs.Length, items, e);
    ghost var c, bs0 := chains[b], bs[..];
    assert BucketHolds(bs0[b], c);
    ghost var head := bs[b].head;
    assert InBucket(c, b, bs.Length, items);
    PushFront(e, bs[b].head, c);
    bs[b] := Bucket(e, bs[b].count + 1, mult);
    ghost var chains', items' := MoveOne(chains, e), items + {e};
    forall k | 0 <= k < bs.Length
      ensures InBucket(chains'[k], k, bs.Length, items') && BucketHolds(bs[..][k], chains'[k]) {
      if k != b {
        assert InBucket(chains[k], k, bs.Length, items) && old(BucketHolds(bs0[k], chains[k]));
        assert chains'[k] == chains[k] && e !in chains[k] && (head != null ==> head !in chains[k]);
      }
    }
  }

  /** One entry into its new bucket: the body of the loop in HASH_EXPAND_BUCKETS. */
  method MoveEntry(e: Entry, newBuckets: array<Bucket>, ideal: nat, ghost chains: seq<seq<Entry>>,
      ghost items: set<Entry>) returns (beyond: nat)
    requires newBuckets.Length > 0 && Placed(chains, newBuckets.Length, items) && e !in items
    requires TableHolds(newBuckets[..], chains, items) && MultipliersSet(newBuckets[..], ideal)
    modifies newBuckets, {e}`hhNext, ({e} + items)`hhPrev
    ensures Placed(MoveOne(chains, e), newBuckets.Length, items + {e})
    ensures TableHolds(newBuckets[..], MoveOne(chains, e), items + {e}) && MultipliersSet(newBuckets[..], ideal)
    ensures NonIdeal(MoveOne(chains, e), ideal) == NonIdeal(chains, ideal) + beyond
  {
    var b := BucketOf(e.hashv, newBuckets.Length);
    var bucket := newBuckets[b];
    NonIdealUpdate(chains, b, [e] + chains[b], ideal);
    assert BucketHolds(newBuckets[..][b], chains[b]);
    var count, mult := bucket.count + 1, bucket.expandMult;
    beyond := 0;
    if count > ideal {
      beyond := 1;
      if count > mult * ideal {
        mult := mult + 1;
      }
    }
    assert mult == Multiplier(count, ideal);
    PutFirst(e, newBuckets, b, mult, chains, items);
  }

  /** One chain into the new buckets: the inner loop of HASH_EXPAND_BUCKETS. */
  method MoveChain(head: Entry?, newBuckets: array<Bucket>, ideal: nat, ghost c: seq<Entry>,
      ghost chains: seq<seq<Entry>>, ghost items: set<Entry>)
    returns (beyond: nat)
    requires newBuckets.Length > 0 && Placed(chains, newBuckets.Length, items)
    requires TableHolds(newBuckets[..], chains, items) && MultipliersSet(newBuckets[..], ideal)
    requires NoDup(c) && SetOf(c) !! items && Pending(c, 0) && head == At(c, 0)
    modifies newBuckets, c`hhNext, (SetOf(c) + items)`hhPrev
    ensures Placed(MoveAll(chains, c), newBuckets.Length, items + SetOf(c))
    ensures TableHolds(newBuckets[..], MoveAll(chains, c), items + SetOf(c)) && MultipliersSet(newBuckets[..], ideal)
    ensures NonIdeal(MoveAll(chains, c), ideal) == NonIdeal(chains, ideal) + beyond
  {
    hide MoveOne, MoveAll, NonIdeal, TableHolds, MultipliersSet;
    ghost var i, chains', items' := 0, chains, items;
    MoveNone(chains);
    var thh := head;
    beyond := 0;
    while thh != null
      invariant i <= |c| && thh == At(c, i) && Pending(c, i)
      invariant chains' == MoveAll(chains, c[..i]) && items' == items + SetOf(c[..i])
      invariant Placed(chains', newBuckets.Length, items')
      invariant TableHolds(newBuckets[..], chains', items') && MultipliersSet(newBuckets[..], ideal)
      invariant NonIdeal(chains', ideal) == NonIdeal(chains, ideal) + beyond
      decreases |c| - i
    {
      assert NextOnly(c, i) && c[i] !in items';
      MoveAllNext(chains, c, i);
      var nxt := thh.hhNext;
      var more := MoveEntry(thh, newBuckets, ideal, chains', items');
      beyond := beyond + more;
      chains', items', i := MoveOne(chains', thh), items' + {thh}, i + 1;
      thh := nxt;
    }
    assert c[..i] == c;
  }

  lemma MoveNone(chains: seq<seq<Entry>>)
    requires |chains| > 0
    ensures MoveAll(chains, []) == chains
  {}

  lemma MoveAllNext(chains: seq<seq<Entry>>, c: seq<Entry>, i: nat)
    requires |chains| > 0 && i < |c|
    ensures MoveAll(chains, c[..i + 1]) == MoveOne(MoveAll(chains, c[..i]), c[i])
    ensures SetOf(c[..i + 1]) == SetOf(c[..i]) + {c[i]}
  {
    assert c[..i + 1][..i] == c[..i];
  }

  /** A bucket whose chain is still to be moved. */
  ghost predicate Waits(b: Bucket, c: seq<Entry>)
    reads c`hhNext
  {
    b.head == At(c, 0) && Pending(c, 0)
  }

  lemma HoldsThenWaits(b: Bucket, c: seq<Entry>)
    requires BucketHolds(b, c)
    ensures Waits(b, c)
  {
    forall i | 0 <= i < |c| ensures NextOnly(c, i) { assert ChainAt(c, i); }
  }

  /** The first `b` chains have been moved, the others wait. */
  ghost predicate Partly(bs: seq<Bucket>, newBs: seq<Bucket>, b: nat, ideal: nat, chains: seq<seq<Entry>>,
      items: set<Entry>, beyond: nat)
    requires Placed(chains, |bs|, items) && b <= |bs| && newBs != []
    reads items`hhNext, items`hhPrev
  {
    var chains', done := Redistributed(chains, b, |newBs|), Members(chains, b);
    && done <= items && Placed(chains', |newBs|, done) && TableHolds(newBs, chains', done)
    && MultipliersSet(newBs, ideal) && beyond == NonIdeal(chains', ideal)
    && forall k :: b <= k < |bs| ==> InBucket(chains[k], k, |bs|, items) && Waits(bs[k], chains[k])
  }

  /** One iteration of the outer loop of HASH_EXPAND_BUCKETS. */
  method MoveBucket(buckets: array<Bucket>, newBuckets: array<Bucket>, b: nat, ideal: nat, beyond: nat,
      ghost chains: seq<seq<Entry>>, ghost items: set<Entry>)
    returns (beyond': nat)
    requires Placed(chains, buckets.Length, items) && b < buckets.Length && newBuckets != buckets
      && newBuckets.Length > 0
    requires Partly(buckets[..], newBuckets[..], b, ideal, chains, items, beyond)
    modifies newBuckets, items`hhNext, items`hhPrev
    ensures buckets[..] == old(buckets[..]) && Partly(buckets[..], newBuckets[..], b + 1, ideal, chains, items, beyond')
  {
    hide MoveAll, MoveOne;
    var n := buckets.Length;
    ghost var bs, c, done := buckets[..], chains[b], Members(chains, b);
    MembersIn(chains, b, n, items);
    MembersIn(chains, b + 1, n, items);
    assert InBucket(c, b, n, items) && Waits(bs[b], c);
    var more := MoveChain(buckets[b].head, newBuckets, ideal, c, Redistributed(chains, b, newBuckets.Length), done);
    beyond' := beyond + more;
    forall k | b + 1 <= k < n ensures InBucket(chains[k], k, n, items) && Waits(bs[k], chains[k]) {
      assert InBucket(chains[k], k, n, items);
      assert forall e :: e in chains[k] ==> e !in c && e !in done;
    }
  }

  /** All chains into the new buckets: the loops of HASH_EXPAND_BUCKETS. */
  method Redistribute(buckets: array<Bucket>, newBuckets: array<Bucket>, ideal: nat, ghost chains: seq<seq<Entry>>,
      ghost items: set<Entry>)
    returns (beyond: nat)
    requires Placed(chains, buckets.Length, items) && TableHolds(buckets[..], chains, items)
    requires newBuckets != buckets && newBuckets.Length > 0
    requires forall k :: 0 <= k < newBuckets.Length ==> newBuckets[k] == Bucket(null, 0, 0)
    modifies newBuckets, items`hhNext, items`hhPrev
    ensures var chains' := Redistributed(chains, buckets.Length, newBuckets.Length);
      && Placed(chains', newBuckets.Length, items) && TableHolds(newBuckets[..], chains', items)
      && MultipliersSet(newBuckets[..], ideal) && beyond == NonIdeal(chains', ideal)
  {
    hide Partly, Placed, TableHolds;
    NothingMoved(buckets[..], newBuckets[..], ideal, chains, items);
    beyond := 0;
    var b := 0;
    while b < buckets.Length
      invariant b <= buckets.Length && Partly(buckets[..], newBuckets[..], b, ideal, chains, items, beyond)
    {
      beyond := MoveBucket(buckets, newBuckets, b, ideal, beyond, chains, items);
      b := b + 1;
    }
    AllMoved(buckets[..], newBuckets[..], ideal, chains, items, beyond);
  }

  lemma AllMoved(bs: seq<Bucket>, newBs: seq<Bucket>, ideal: nat, chains: seq<seq<Entry>>, items: set<Entry>,
      beyond: nat)
    requires Placed(chains, |bs|, items) && newBs != [] && Partly(bs, newBs, |bs|, ideal, chains, items, beyond)
    ensures var chains' := Redistributed(chains, |bs|, |newBs|);
      && Placed(chains', |newBs|, items) && TableHolds(newBs, chains', items)
      && MultipliersSet(newBs, ideal) && beyond == NonIdeal(chains', ideal)
  {
    AllMembers(chains, |bs|, items);
  }

  lemma NothingMoved(bs: seq<Bucket>, newBs: seq<Bucket>, ideal: nat, chains: seq<seq<Entry>>, items: set<Entry>)
    requires Placed(chains, |bs|, items) && TableHolds(bs, chains, items)
    requires newBs != [] && forall k :: 0 <= k < |newBs| ==> newBs[k] == Bucket(null, 0, 0)
    ensures Partly(bs, newBs, 0, ideal, chains, items, 0)
  {
    NonIdealEmpty(|newBs|, ideal);
    RedistributedPlaced(chains, |bs|, items, 0, |newBs|);
    forall k | 0 <= k < |bs| ensures InBucket(chains[k], k, |bs|, items) && Waits(bs[k], chains[k]) {
      assert BucketHolds(bs[k], chains[k]);
      HoldsThenWaits(bs[k], chains[k]);
    }
  }

  // ---- the table ----

  ghost predicate KeysDistinct(es: seq<Entry>) {
    forall i, j :: 0 <= i < j < |es| ==> es[i].key != es[j].key
  }

  /** Entries hold their hash value, and keys that fit. */
  ghost predicate Hashed(es: seq<Entry>, hash: string -> nat) {
    forall e :: e in es ==> e.hashv == hash(e.key) && |e.key| < KEY_SIZE
  }

  /** What an entry keeps of a key. */
  function Stored(key: string): (s: string)
    ensures |s| < KEY_SIZE && s <= key
  {
    if |key| < KEY_SIZE then key else key[..KEY_SIZE - 1]
  }

  /** Does `put` treat the key as the table does? It looks a long key up whole, finds
      nothing, and adds an entry for the cut key, which must not be there yet. */
  predicate Storable(key: string, entries: map<string, Word>) {
    |key| < KEY_SIZE || Stored(key) !in entries
  }

  /** The map that the entries of a table stand for. */
  ghost predicate Mirrors(es: seq<Entry>, entries: map<string, Word>)
    reads es`value
  {
    && (forall e :: e in es ==> e.key in entries && entries[e.key] == e.value)
    && (forall k :: k in entries ==> HasKey(es, k))
  }

  ghost predicate HasKey(es: seq<Entry>, key: string) {
    exists i :: 0 <= i < |es| && es[i].key == key
  }

  /** A key that is not on its chain is not in the table. */
  lemma NotOnChain(es: seq<Entry>, chains: seq<seq<Entry>>, n: nat, hash: string -> nat, key: string)
    requires Placed(chains, n, SetOf(es)) && Hashed(es, hash)
    requires forall e :: e in chains[BucketOf(hash(key), n)] ==> e.key != key
    ensures !HasKey(es, key)
  {
    forall i | 0 <= i < |es| ensures es[i].key != key {
      var e := es[i];
      assert e in SetOf(es) && e in chains[BucketOf(e.hashv, n)];
    }
  }

  lemma OneMore(es: seq<Entry>, e: Entry, hash: string -> nat, entries: map<string, Word>, entries0: map<string, Word>)
    requires Mirrors(es, entries0) && KeysDistinct(es) && e.key !in entries0
    requires entries == entries0[e.key := e.value] && Hashed(es, hash) && e.hashv == hash(e.key) && |e.key| < KEY_SIZE
    ensures Mirrors(es + [e], entries) && KeysDistinct(es + [e]) && Hashed(es + [e], hash) && e !in es
    ensures SetOf(es + [e]) == SetOf(es) + {e}
  {
    hide Hashed;
    var es' := es + [e];
    OneMoreHashed(es, e, hash);
    forall k | k in entries ensures HasKey(es', k) {
      if k == e.key {
        assert es'[|es|] == e;
      } else {
        var i :| 0 <= i < |es| && es[i].key == k;
        assert es'[i].key == k;
      }
    }
    forall i | 0 <= i < |es| ensures es[i].key != e.key { assert es[i] in es; }
  }

  lemma OneMoreHashed(es: seq<Entry>, e: Entry, hash: string -> nat)
    requires Hashed(es, hash) && e.hashv == hash(e.key) && |e.key| < KEY_SIZE
    ensures Hashed(es + [e], hash)
  {}

  lemma DistinctKeys(es: seq<Entry>)
    requires KeysDistinct(es)
    ensures NoDup(es)
  {}

  lemma EmptyTable(bs: seq<Bucket>, n: nat)
    requires n > 0 && |bs| == n && forall k :: 0 <= k < n ==> bs[k] == Bucket(null, 0, 0)
    ensures Placed(seq(n, _ => []), n, {}) && TableHolds(bs, seq(n, _ => []), {})
  {
    forall k | 0 <= k < n ensures InBucket([], k, n, {}) && BucketHolds(bs[k], []) {}
  }

  /** A new array of twice as many buckets with every item in it, the ideal chain
      length, and the number of items beyond it. */
  method Doubled(buckets: array<Bucket>, log2: nat, numItems: nat, ghost chains: seq<seq<Entry>>,
      ghost items: set<Entry>)
    returns (newBuckets: array<Bucket>, ideal: nat, beyond: nat)
    requires buckets.Length == Pow2(log2) && Placed(chains, buckets.Length, items)
      && TableHolds(buckets[..], chains, items)
    modifies items`hhNext, items`hhPrev
    ensures var n' := 2 * buckets.Length; var chains' := Redistributed(chains, buckets.Length, n');
      && fresh(newBuckets) && newBuckets.Length == n' == Pow2(log2 + 1)
      && Placed(chains', n', items) && TableHolds(newBuckets[..], chains', items)
      && MultipliersSet(newBuckets[..], ideal)
      && ideal == (numItems + n' - 1) / n' && beyond == NonIdeal(chains', ideal)
    ensures Shr(numItems, 1) == numItems / 2
  {
    hide Redistributed, TableHolds, NonIdeal, Shr, And;
    newBuckets := new Bucket[2 * buckets.Length](_ => Bucket(null, 0, 0));
    ideal := Shr(numItems, log2 + 1) + if And(numItems, 2 * buckets.Length - 1) != 0 then 1 else 0;
    IdealIsCeiling(numItems, log2 + 1);
    ShrIsDivision(numItems, 1);
    assert Pow2(1) == 2;
    beyond := Redistribute(buckets, newBuckets, ideal, chains, items);
  }

  class LabelTable {
    /** The hash function, left abstract. */
    const hash: string -> nat
    var head: Entry?
    var tail: Entry?
    var numItems: nat
    var buckets: array<Bucket>
    var numBuckets: nat
    var log2NumBuckets: nat
    var idealChainMaxlen: nat
    var nonidealItems: nat
    var ineffExpands: nat
    var noexpand: bool
    /** The entries in insertion order, on their chains, and as a map. */
    ghost var order: seq<Entry>
    ghost var chains: seq<seq<Entry>>
    ghost var entries: map<string, Word>

    /** `items` are on the chains their hash values select. */
    ghost predicate InTable(items: set<Entry>)
      reads this`numBuckets, this`log2NumBuckets, this`buckets, this`chains, buckets, items`hhNext, items`hhPrev
    {
      && numBuckets == Pow2(log2NumBuckets) == buckets.Length
      && Placed(chains, numBuckets, items) && TableHolds(buckets[..], chains, items)
    }

    ghost predicate Valid()
      reads this, buckets, order
    {
      && head == At(order, 0) && KeysDistinct(order) && Hashed(order, hash) && ListLinked(order)
      && Mirrors(order, entries)
      && (order != [] ==> tail == order[|order| - 1] && numItems == |order| && InTable(SetOf(order)))
    }

    constructor (hash: string -> nat)
      ensures Valid() && entries == map[] && order == [] && this.hash == hash && fresh(buckets)
    {
      this.hash := hash;
      head, tail, numItems, numBuckets, log2NumBuckets := null, null, 0, 0, 0;
      idealChainMaxlen, nonidealItems, ineffExpands, noexpand := 0, 0, 0, false;
      buckets := new Bucket[0](_ => Bucket(null, 0, 0));
      order, chains, entries := [], [], map[];
    }

    /** HASH_FIND_STR: walk the chain that the key's hash value selects. */
    method Find(key: string) returns (out: Entry?)
      requires Valid()
      ensures out == null <==> key !in entries
      ensures out != null ==> out in order && out.key == key && out.value == entries[key]
    {
      if head == null {
        return null;
      }
      var hashv := hash(key);
      var b := BucketOf(hashv, numBuckets);
      ghost var c, i := chains[b], 0;
      assert InBucket(c, b, numBuckets, SetOf(order)) && BucketHolds(buckets[..][b], c);
      out := buckets[b].head;
      while out != null && !(out.hashv == hashv && out.key == key)
        invariant i <= |c| && out == At(c, i) && forall j :: 0 <= j < i ==> c[j].key != key
        decreases |c| - i
      {
        assert ChainAt(c, i) && c[i] in order;
        out := out.hhNext;
        i := i + 1;
      }
      if out == null {
        NotOnChain(order, chains, numBuckets, hash, key);
      }
    }

    /** `get`. */
    method Get(key: string) returns (value: Option<Word>)
      requires Valid()
      ensures value == if key in entries then Some(entries[key]) else None
    {
      var entry := Find(key);
      if entry == null {
        return None;
      }
      value := Some(entry.value);
    }

    /** The doubling of HASH_EXPAND_BUCKETS: every item moves to the chain its hash
        value now selects; the ideal chain length is the number of items over the new
        number of buckets, rounded up, and the items beyond it are counted. */
    method ExpandBuckets(ghost items: set<Entry>)
      requires InTable(items)
      modifies this`buckets, this`numBuckets, this`log2NumBuckets, this`idealChainMaxlen, this`nonidealItems,
        this`ineffExpands, this`noexpand, this`chains
      modifies items`hhNext, items`hhPrev
      ensures InTable(items) && fresh(buckets)
      ensures numBuckets == 2 * old(numBuckets) && chains == Redistributed(old(chains), old(numBuckets), numBuckets)
      ensures idealChainMaxlen == (numItems + numBuckets - 1) / numBuckets
        && nonidealItems == NonIdeal(chains, idealChainMaxlen)
      ensures MultipliersSet(buckets[..], idealChainMaxlen)
      ensures ineffExpands == (if nonidealItems > numItems / 2 then old(ineffExpands) + 1 else 0)
      ensures noexpand <==> old(noexpand) || ineffExpands > 1
    {
      hide TableHolds, Redistributed, NonIdeal, MultipliersSet, Pow2, Shr, Placed;
      TableLength(items);
      var newBuckets, ideal, beyond := Doubled(buckets, log2NumBuckets, numItems, chains, items);
      Install(newBuckets, ideal, beyond, Redistributed(chains, numBuckets, newBuckets.Length));
    }

    lemma TableLength(items: set<Entry>)
      requires InTable(items)
      ensures numBuckets == Pow2(log2NumBuckets) == buckets.Length == |chains| > 0 && Placed(chains, numBuckets, items)
    {}

    /** The updates of the table's fields at the end of HASH_EXPAND_BUCKETS. */
    method Install(newBuckets: array<Bucket>, ideal: nat, beyond: nat, ghost newChains: seq<seq<Entry>>)
      requires Shr(numItems, 1) == numItems / 2
      modifies this`buckets, this`numBuckets, this`log2NumBuckets, this`idealChainMaxlen, this`nonidealItems,
        this`ineffExpands, this`noexpand, this`chains
      ensures buckets == newBuckets && chains == newChains && numBuckets == 2 * old(numBuckets)
      ensures log2NumBuckets == old(log2NumBuckets) + 1 && idealChainMaxlen == ideal && nonidealItems == beyond
      ensures ineffExpands == (if beyond > numItems / 2 then old(ineffExpands) + 1 else 0)
      ensures noexpand <==> old(noexpand) || ineffExpands > 1
    {
      idealChainMaxlen, nonidealItems, chains, buckets := ideal, beyond, newChains, newBuckets;
      numBuckets := 2 * numBuckets;
      log2NumBuckets := log2NumBuckets + 1;
      ineffExpands := if nonidealItems > Shr(numItems, 1) then ineffExpands + 1 else 0;
      if ineffExpands > 1 {
        noexpand := true;
      }
    }

    /** HASH_MAKE_TABLE. */
    method MakeTable(e: Entry)
      modifies this`tail, this`numItems, this`buckets, this`numBuckets, this`log2NumBuckets, this`idealChainMaxlen,
        this`nonidealItems, this`ineffExpands, this`noexpand, this`chains
      ensures InTable({}) && fresh(buckets) && tail == e && numItems == 0 && numBuckets == 32
        && !noexpand
      ensures chains == seq(INITIAL_NUM_BUCKETS, _ => [])
    {
      hide Placed, TableHolds, Pow2;
      tail, numItems := e, 0;
      numBuckets, log2NumBuckets := INITIAL_NUM_BUCKETS, INITIAL_NUM_BUCKETS_LOG2;
      idealChainMaxlen, nonidealItems, ineffExpands, noexpand := 0, 0, 0, false;
      buckets := new Bucket[INITIAL_NUM_BUCKETS](_ => Bucket(null, 0, 0));
      chains := seq(INITIAL_NUM_BUCKETS, _ => []);
      Pow2Values();
      EmptyTable(buckets[..], INITIAL_NUM_BUCKETS);
    }

    /** HASH_ADD_TO_TABLE: the entry goes in front of its chain, and the buckets double
        if that chain has reached its threshold. */
    method AddToTable(e: Entry, ghost items: set<Entry>)
      requires InTable(items) && e !in items
      modifies this`numItems, this`buckets, this`numBuckets, this`log2NumBuckets, this`idealChainMaxlen,
        this`nonidealItems, this`ineffExpands, this`noexpand, this`chains
      modifies buckets, (items + {e})`hhNext, (items + {e})`hhPrev
      ensures InTable(items + {e}) && (buckets == old(buckets) || fresh(buckets))
      ensures numItems == old(numItems) + 1
      ensures var b := BucketOf(e.hashv, old(numBuckets)); var moved := MoveOne(old(chains), e);
        var full := |moved[b]| >= (old(buckets[b].expandMult) + 1) * 10 && !old(noexpand);
        && numBuckets == (if full then 2 * old(numBuckets) else old(numBuckets))
        && chains == if full then Redistributed(moved, old(numBuckets), 2 * old(numBuckets)) else moved
    {
      hide TableHolds, Redistributed, NonIdeal, MultipliersSet, Pow2;
      numItems := numItems + 1;
      var b := BucketOf(e.hashv, numBuckets);
      var mult := buckets[b].expandMult;
      PutFirst(e, buckets, b, mult, chains, items);
      var count := buckets[..][b].count;
      chains := MoveOne(chains, e);
      if count >= (mult + 1) * CAPACITY_THRESH && !noexpand {
        ExpandBuckets(items + {e});
      }
    }

    /** The list half of HASH_ADD_KEYPTR_BYHASHVALUE. */
    method AddToList(e: Entry)
      requires Valid() && e !in order && NoDup(order)
      modifies this, order`next, {e}`next, {e}`prev
      ensures order == old(order) && entries == old(entries)
      ensures head == At(order + [e], 0) && tail == e && ListLinked(order + [e])
      ensures numItems == |order| && InTable(SetOf(order))
      ensures buckets == old(buckets) || fresh(buckets)
    {
      hide TableHolds, Placed, Pow2;
      if head == null {
        e.next := null;
        e.prev := null;
        MakeTable(e);
        head := e;
        assert ListAt([e], 0);
        assert SetOf(order) == {};
        assert order + [e] == [e];
      } else {
        Append(e, tail, order);
        tail := e;
      }
    }

    /** HASH_ADD_STR. */
    method Add(e: Entry)
      requires Valid() && e.key !in entries && e.hashv == hash(e.key) && |e.key| < KEY_SIZE
      modifies this, buckets, order`next, order`hhNext, order`hhPrev, {e}`next, {e}`prev, {e}`hhNext, {e}`hhPrev
      ensures Valid() && (buckets == old(buckets) || fresh(buckets))
      ensures order == old(order) + [e] && entries == old(entries)[e.key := e.value]
    {
      hide InTable, ListLinked, Placed, KeysDistinct, Mirrors, NoDup, Hashed, At, BucketOf, MoveOne, Redistributed;
      OneMore(order, e, hash, entries[e.key := e.value], entries);
      DistinctKeys(order);
      ghost var es, m := order, entries;
      AddToList(e);
      order := es + [e];
      entries := m[e.key := e.value];
      assert InTable(SetOf(es)) && e !in SetOf(es);
      AddToTable(e, SetOf(es));
      assert InTable(SetOf(order));
    }

    method SetValue(e: Entry, value: Word)
      requires e in order && KeysDistinct(order) && Mirrors(order, entries)
      modifies {e}`value, this`entries
      ensures Mirrors(order, entries) && entries == old(entries)[e.key := value]
    {
      e.value := value;
      entries := entries[e.key := value];
      forall k | k in entries ensures HasKey(order, k) {}
    }

    /** `put`. */
    method Put(key: string, value: Word)
      requires Valid() && Storable(key, entries)
      modifies this, buckets, order`next, order`hhNext, order`hhPrev, order`value
      ensures Valid() && entries == old(entries)[Stored(key) := value]
      ensures if Stored(key) in old(entries) then order == old(order)
        else |order| == |old(order)| + 1 && order[..|old(order)|] == old(order) && fresh(order[|old(order)|])
      ensures buckets == old(buckets) || fresh(buckets)
    {
      hide InTable, ListLinked, Placed, KeysDistinct, Mirrors, NoDup;
      var entry := Find(key);
      if entry == null {
        var stored := Stored(key);
        entry := new Entry(stored, value, hash(stored));
        Add(entry);
      }
      SetValue(entry, value);
    }

    /** The list half of HASH_DELETE_HH. */
    method RemoveFromList(e: Entry, ghost p: nat)
      requires p < |order| && order[p] == e && |order| > 1 && NoDup(order) && ListLinked(order)
      requires head == At(order, 0) && tail == order[|order| - 1]
      modifies this`head, this`tail, this`order, order`next, order`prev
      ensures order == Without(old(order), p)
      ensures head == At(order, 0) && tail == order[|order| - 1] && ListLinked(order)
    {
      hide ListLinked, NoDup, At, Without;
      ListEnds(order, p);
      if e == tail {
        tail := e.prev;
      }
      if e.prev == null {
        head := e.next;
      }
      UnlinkList(e, order, p);
      order := Without(order, p);
    }

    /** HASH_DELETE_HH, for an entry among others. */
    method Unlink(e: Entry, ghost p: nat)
      requires Valid() && p < |order| && order[p] == e && |order| > 1
      modifies this, buckets, order`next, order`prev, order`hhNext, order`hhPrev
      ensures Valid() && buckets == old(buckets)
      ensures order == Without(old(order), p) && entries == old(entries) - {e.key}
    {
      hide MoveOne, Redistributed, Mirrors, Hashed, KeysDistinct, NoDup, InTable, ListLinked, BucketOf, At, Without;
      ghost var es, items := order, SetOf(order);
      DistinctKeys(es);
      OneLess(es, p, hash, entries);
      entries := entries - {e.key};
      assert Mirrors(Without(es, p), entries);
      RemoveFromList(e, p);
      assert Mirrors(order, entries);
      RemoveFromBucket(e, items);
    }

    /** HASH_DELETE: the last entry takes the table with it. */
    method Delete(e: Entry, ghost p: nat)
      requires Valid() && p < |order| && order[p] == e
      modifies this, buckets, order`next, order`prev, order`hhNext, order`hhPrev
      ensures Valid() && buckets == old(buckets)
      ensures order == Without(old(order), p) && entries == old(entries) - {e.key}
    {
      assert ListAt(order, p);
      if e.prev == null && e.next == null {
        assert order == [e] && Without(order, p) == [];
        OneLess(order, p, hash, entries);
        head := null;
        order, entries := [], entries - {e.key};
      } else {
        Unlink(e, p);
      }
    }

    /** HASH_ITER with HASH_DEL on each entry: every entry is visited once, in insertion
        order, and the table ends empty. */
    method DeleteAll() returns (ghost visited: seq<Entry>)
      requires Valid()
      modifies this, buckets, order`next, order`prev, order`hhNext, order`hhPrev
      ensures Valid() && order == [] && entries == map[] && head == null
      ensures visited == old(order)
    {
      hide Placed, TableHolds, InTable, KeysDistinct, Hashed, Mirrors, ListLinked, Without;
      visited := [];
      ghost var all := order;
      var current := head;
      var tmp := Next(head);
      while current != null
        invariant Valid() && |visited| <= |all| && visited == all[..|visited|] && order == all[|visited|..]
          && buckets == old(buckets)
        invariant current == At(order, 0) && tmp == At(order, 1)
        decreases |order|
      {
        visited := visited + [current];
        assert forall e :: e in order ==> e in all;
        DeleteFirst(current);
        current := tmp;
        tmp := Next(tmp);
      }
      NothingLeft(order, entries);
    }

    method DeleteFirst(e: Entry)
      requires Valid() && e == At(order, 0)
      modifies this, buckets, order`next, order`prev, order`hhNext, order`hhPrev
      ensures Valid() && buckets == old(buckets) && order == old(order)[1..]
    {
      hide Placed, TableHolds, InTable, KeysDistinct, Hashed, Mirrors, ListLinked, Without;
      WithoutFirst(order);
      Delete(e, 0);
    }

    method Next(e: Entry?) returns (next: Entry?)
      requires Valid() && e == At(order, 0)
      ensures next == At(order, 1)
    {
      if e == null {
        return null;
      }
      assert ListAt(order, 0);
      next := e.next;
    }

    /** The bucket half of HASH_DELETE_HH. */
    method RemoveFromBucket(e: Entry, ghost items: set<Entry>)
      requires InTable(items) && e in items && numItems > 0
      modifies this`chains, this`numItems, buckets, items`hhNext, items`hhPrev
      ensures InTable(items - {e}) && numItems == old(numItems) - 1
    {
      hide TableHolds, Pow2;
      var b := BucketOf(e.hashv, numBuckets);
      ghost var q :| 0 <= q < |chains[b]| && chains[b][q] == e;
      TakeOut(e, buckets, b, chains, items, q);
      chains := chains[b := Without(chains[b], q)];
      numItems := numItems - 1;
    }
  }

  /** Take an entry off its chain, as HASH_DEL_IN_BKT does. */
  method TakeOut(e: Entry, bs: array<Bucket>, b: nat, ghost chains: seq<seq<Entry>>, ghost items: set<Entry>,
      ghost q: nat)
    requires Placed(chains, bs.Length, items) && b < bs.Length && q < |chains[b]| && chains[b][q] == e
    requires TableHolds(bs[..], chains, items)
    modifies bs, items`hhNext, items`hhPrev
    ensures Placed(chains[b := Without(chains[b], q)], bs.Length, items - {e})
    ensures TableHolds(bs[..], chains[b := Without(chains[b], q)], items - {e})
  {
    hide ChainLinked;
    ghost var c, bs0, n, chains' := chains[b], bs[..], bs.Length, chains[b := Without(chains[b], q)];
    RemovedPlaced(chains, n, items, b, q);
    assert InBucket(c, b, n, items) && BucketHolds(bs0[b], c);
    Neighbours(c, q);
    ghost var near := Opt(e.hhPrev) + Opt(e.hhNext);
    assert near <= SetOf(c);
    var bucket := bs[b];
    UnlinkChain(e, c, q);
    bs[b] := bucket.(count := bucket.count - 1, head := if bucket.head == e then e.hhNext else bucket.head);
    forall k | 0 <= k < n ensures InBucket(chains'[k], k, n, items - {e}) && BucketHolds(bs[..][k], chains'[k]) {
      if k != b {
        assert InBucket(chains[k], k, n, items) && old(BucketHolds(bs0[k], chains[k]));
        assert forall x :: x in chains[k] ==> x !in near;
      } else {
        assert bs[..][b] == bs[b] && (bucket.head == e <==> q == 0);
        assert chains'[b] == Without(c, q);
      }
    }
  }

  /** The two ends of a list with one entry taken out. */
  lemma ListEnds(es: seq<Entry>, p: nat)
    requires p < |es| && |es| > 1 && ListLinked(es) && NoDup(es)
    ensures At(Without(es, p), 0) == if es[p].prev == null then es[p].next else At(es, 0)
    ensures var es' := Without(es, p); es'[|es'| - 1] == if es[p] == es[|es| - 1] then es[p].prev else es[|es| - 1]
    ensures Opt(es[p].prev) + Opt(es[p].next) <= SetOf(es)
  {
    assert ListAt(es, p);
  }

  lemma Neighbours(c: seq<Entry>, q: nat)
    requires q < |c| && ChainLinked(c)
    ensures c[q].hhNext == At(c, q + 1) && c[q].hhPrev == At(c, q - 1)
  {
    assert ChainAt(c, q);
  }

  lemma WithoutFirst(es: seq<Entry>)
    requires es != []
    ensures Without(es, 0) == es[1..]
  {}

  lemma NothingLeft(es: seq<Entry>, entries: map<string, Word>)
    requires Mirrors(es, entries) && es == []
    ensures entries == map[]
  {
    assert forall k :: k in entries ==> HasKey(es, k);
  }

  lemma RemovedPlaced(chains: seq<seq<Entry>>, n: nat, items: set<Entry>, b: nat, q: nat)
    requires Placed(chains, n, items) && b < n && q < |chains[b]|
    ensures Placed(chains[b := Without(chains[b], q)], n, items - {chains[b][q]})
  {
    var e, chains' := chains[b][q], chains[b := Without(chains[b], q)];
    assert InBucket(chains[b], b, n, items);
    forall k | 0 <= k < n ensures InBucket(chains'[k], k, n, items - {e}) {
      assert InBucket(chains[k], k, n, items);
    }
    forall x | x in items - {e} ensures x in chains'[BucketOf(x.hashv, n)] {
      KeptWithout(chains[b], q, x);
    }
  }

  lemma KeptWithout(c: seq<Entry>, q: nat, x: Entry)
    requires q < |c| && x != c[q]
    ensures x in c ==> x in Without(c, q)
  {
    if x in c {
      var i :| 0 <= i < |c| && c[i] == x;
      assert Without(c, q)[if i < q then i else i - 1] == x;
    }
  }

  lemma OneLess(es: seq<Entry>, p: nat, hash: string -> nat, entries: map<string, Word>)
    requires p < |es| && KeysDistinct(es) && Hashed(es, hash) && Mirrors(es, entries)
    ensures var es' := Without(es, p);
      KeysDistinct(es') && Hashed(es', hash) && Mirrors(es', entries - {es[p].key}) && SetOf(es') == SetOf(es) - {es[p]}
  {
    var es' := Without(es, p);
    SetWithout(es, p);
    assert Hashed(es', hash) by { assert forall e :: e in es' ==> e in SetOf(es'); }
    MirrorsWithout(es, p, entries);
  }

  lemma SetWithout(es: seq<Entry>, p: nat)
    requires p < |es| && KeysDistinct(es)
    ensures SetOf(Without(es, p)) == SetOf(es) - {es[p]}
  {
    forall x | x in es && x != es[p] ensures x in Without(es, p) { KeptWithout(es, p, x); }
    var es' := Without(es, p);
    forall i | 0 <= i < |es'| ensures es'[i] in es && es'[i] != es[p] {}
  }

  lemma MirrorsWithout(es: seq<Entry>, p: nat, entries: map<string, Word>)
    requires p < |es| && KeysDistinct(es) && Mirrors(es, entries)
    ensures Mirrors(Without(es, p), entries - {es[p].key})
  {
    var es', rest := Without(es, p), entries - {es[p].key};
    forall i | 0 <= i < |es'| ensures es'[i].key in rest && rest[es'[i].key] == es'[i].value {
      assert es'[i] in es;
    }
    forall k | k in rest ensures HasKey(es', k) {
      var i :| 0 <= i < |es| && es[i].key == k;
      assert es'[if i < p then i else i - 1].key == k;
    }
  }
}
