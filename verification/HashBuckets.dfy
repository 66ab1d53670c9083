/** Which bucket chain an entry belongs to, and how doubling the number of buckets
    redistributes the entries. */
module HashBuckets {
  import opened Bits
  import opened HashChains

  datatype Bucket = Bucket(head: Entry?, count: nat, expandMult: nat)

  /** HASH_TO_BKT. */
  function BucketOf(hashv: nat, n: nat): (b: nat)
    requires n > 0
    ensures b < n
  {
    And(hashv, n - 1)
  }

  /** With a power of two of buckets, the mask is the remainder of the hash value. */
  lemma {:induction false} BucketIsRemainder(hashv: nat, k: nat)
    ensures BucketOf(hashv, Pow2(k)) == hashv % Pow2(k)
  {
    MaskIsRemainder(hashv, k);
  }

  /** Doubling the buckets leaves an item in its bucket, or moves it up by as many as there
      were, exactly if the hash value has the next bit set. */
  lemma {:induction false} DoublingSplits(hashv: nat, k: nat)
    ensures var n := Pow2(k); var b := BucketOf(hashv, n);
      BucketOf(hashv, 2 * n) == if Bit(hashv, k) then b + n else b
  {
    hide And;
    var n := Pow2(k);
    BucketIsRemainder(hashv, k);
    BucketIsRemainder(hashv, k + 1);
    DivMod(hashv, n);
    SplitRemainder(hashv, n, hashv / n, hashv % n);
  }

  lemma SplitRemainder(h: nat, n: nat, q: nat, r: nat)
    requires h == n * q + r && r < n
    ensures h % (2 * n) == if q % 2 == 1 then r + n else r
  {
    var half := q / 2;
    assert n * (2 * half) == half * (2 * n) && n * (2 * half + 1) == half * (2 * n) + n;
    DivUnique(h, 2 * n, half, if q % 2 == 1 then r + n else r);
  }

  ghost function SetOf(es: seq<Entry>): set<Entry> { set e | e in es }

  ghost predicate InBucket(c: seq<Entry>, b: nat, n: nat, items: set<Entry>)
    requires n > 0
  {
    NoDup(c) && forall e :: e in c ==> e in items && BucketOf(e.hashv, n) == b
  }

  /** The chains hold exactly `items`, each in the bucket its hash value selects. */
  ghost predicate Placed(chains: seq<seq<Entry>>, n: nat, items: set<Entry>) {
    && n > 0 && |chains| == n
    && (forall b :: 0 <= b < n ==> InBucket(chains[b], b, n, items))
    && (forall e :: e in items ==> e in chains[BucketOf(e.hashv, n)])
  }

  ghost function MoveOne(chains: seq<seq<Entry>>, e: Entry): (r: seq<seq<Entry>>)
    requires |chains| > 0
    ensures |r| == |chains|
  {
    var b := BucketOf(e.hashv, |chains|);
    chains[b := [e] + chains[b]]
  }

  /** The entries of `c`, one after the other, put in front of their new chains. */
  ghost function MoveAll(chains: seq<seq<Entry>>, c: seq<Entry>): (r: seq<seq<Entry>>)
    requires |chains| > 0
    ensures |r| == |chains|
  {
    if c == [] then chains else MoveOne(MoveAll(chains, c[..|c| - 1]), c[|c| - 1])
  }

  /** The first `b` of the old chains moved to `n` new ones. */
  ghost function Redistributed(chains: seq<seq<Entry>>, b: nat, n: nat): (r: seq<seq<Entry>>)
    requires b <= |chains| && n > 0
    ensures |r| == n
  {
    if b == 0 then seq(n, _ => []) else MoveAll(Redistributed(chains, b - 1, n), chains[b - 1])
  }

  ghost function Members(chains: seq<seq<Entry>>, b: nat): set<Entry>
    requires b <= |chains|
  {
    if b == 0 then {} else Members(chains, b - 1) + SetOf(chains[b - 1])
  }

  lemma MoveOnePlaced(chains: seq<seq<Entry>>, n: nat, items: set<Entry>, e: Entry)
    requires Placed(chains, n, items) && e !in items
    ensures Placed(MoveOne(chains, e), n, items + {e})
  {
    var r := MoveOne(chains, e);
    forall b | 0 <= b < n ensures InBucket(r[b], b, n, items + {e}) {
      assert InBucket(chains[b], b, n, items);
    }
  }

  lemma {:induction false} MoveAllPlaced(chains: seq<seq<Entry>>, n: nat, items: set<Entry>, c: seq<Entry>)
    requires Placed(chains, n, items) && NoDup(c) && forall e :: e in c ==> e !in items
    ensures Placed(MoveAll(chains, c), n, items + SetOf(c))
  {
    if c == [] {
      assert items + SetOf(c) == items;
    } else {
      var c', e := c[..|c| - 1], c[|c| - 1];
      MoveAllPlaced(chains, n, items, c');
      assert e !in items + SetOf(c');
      MoveOnePlaced(MoveAll(chains, c'), n, items + SetOf(c'), e);
      assert c == c' + [e];
      assert items + SetOf(c) == items + SetOf(c') + {e};
    }
  }

  lemma {:induction false} MembersIn(chains: seq<seq<Entry>>, b: nat, n: nat, items: set<Entry>)
    requires Placed(chains, n, items) && b <= n
    ensures Members(chains, b) == set e | e in items && BucketOf(e.hashv, n) < b
  {
    if b > 0 {
      MembersIn(chains, b - 1, n, items);
      assert InBucket(chains[b - 1], b - 1, n, items);
    }
  }

  /** Redistribution keeps every entry and puts each where its hash value says. */
  lemma {:induction false} RedistributedPlaced(chains: seq<seq<Entry>>, n: nat, items: set<Entry>, b: nat, n': nat)
    requires Placed(chains, n, items) && b <= n && n' > 0
    ensures Placed(Redistributed(chains, b, n'), n', Members(chains, b))
  {
    if b > 0 {
      RedistributedPlaced(chains, n, items, b - 1, n');
      MembersIn(chains, b - 1, n, items);
      assert InBucket(chains[b - 1], b - 1, n, items);
      MoveAllPlaced(Redistributed(chains, b - 1, n'), n', Members(chains, b - 1), chains[b - 1]);
    }
  }

  lemma AllMembers(chains: seq<seq<Entry>>, n: nat, items: set<Entry>)
    requires Placed(chains, n, items)
    ensures Members(chains, n) == items
  {
    MembersIn(chains, n, n, items);
    assert forall e :: e in items ==> BucketOf(e.hashv, n) < n;
  }

  // ---- statistics kept by the doubling ----

  ghost function Beyond(c: seq<Entry>, ideal: nat): nat {
    if |c| > ideal then |c| - ideal else 0
  }

  /** The number of entries whose position on their chain is beyond the ideal length. */
  ghost function NonIdeal(chains: seq<seq<Entry>>, ideal: nat): nat {
    if chains == [] then 0 else Beyond(chains[0], ideal) + NonIdeal(chains[1..], ideal)
  }

  lemma {:induction false} NonIdealUpdate(chains: seq<seq<Entry>>, b: nat, c: seq<Entry>, ideal: nat)
    requires b < |chains|
    ensures NonIdeal(chains[b := c], ideal) == NonIdeal(chains, ideal) - Beyond(chains[b], ideal) + Beyond(c, ideal)
  {
    if b > 0 {
      NonIdealUpdate(chains[1..], b - 1, c, ideal);
      assert chains[b := c][1..] == chains[1..][b - 1 := c];
    } else {
      assert chains[b := c][1..] == chains[1..];
    }
  }

  lemma {:induction false} NonIdealEmpty(n: nat, ideal: nat)
    ensures NonIdeal(seq(n, _ => []), ideal) == 0
  {
    if n > 0 {
      NonIdealEmpty(n - 1, ideal);
      var chains: seq<seq<Entry>> := seq(n, _ => []);
      assert chains[1..] == seq(n - 1, _ => []);
    }
  }

  /** How far filling a chain to `count` raises its expansion threshold. */
  ghost function Multiplier(count: nat, ideal: nat): nat {
    if count == 0 then 0
    else
      var m := Multiplier(count - 1, ideal);
      if count > ideal && count > m * ideal then m + 1 else m
  }

  /** A shift and a mask compute the ideal chain length, rounded up. */
  lemma {:induction false} IdealIsCeiling(items: nat, log2: nat)
    ensures var b := Pow2(log2);
      Shr(items, log2) + (if And(items, b - 1) != 0 then 1 else 0) == (items + b - 1) / b
  {
    ShrIsDivision(items, log2);
    MaskIsRemainder(items, log2);
    Ceiling(items, Pow2(log2));
  }

  lemma Ceiling(items: nat, b: nat)
    requires b > 0
    ensures items / b + (if items % b != 0 then 1 else 0) == (items + b - 1) / b
  {
    var q, r := items / b, items % b;
    DivMod(items, b);
    CeilingOf(items, b, q, r);
  }

  lemma CeilingOf(items: nat, b: nat, q: nat, r: nat)
    requires 0 <= r < b && items == b * q + r
    ensures q + (if r != 0 then 1 else 0) == (items + b - 1) / b
  {
    if r == 0 {
      DivUnique(items + b - 1, b, q, b - 1);
    } else {
      assert (q + 1) * b == b * q + b;
      DivUnique(items + b - 1, b, q + 1, r - 1);
    }
  }
}
