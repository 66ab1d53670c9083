/** The configuration checks of the cache simulator, and what a configuration
    they accept guarantees about every level's geometry. */
module CacheConfig {
  import opened Bits
  import opened CacheSets
  import opened BeladyLimits

  /** `fast_log2`: shift right until nothing is left. */
  method FastLog2(n: nat) returns (log: nat)
    ensures n > 0 ==> Pow2(log) <= n < Pow2(log + 1)
    ensures forall k: nat :: n == Pow2(k) ==> log == k
  {
    log := 0;
    var m := n / 2;
    while m != 0
      invariant m == Shr(n, log + 1)
      invariant n > 0 ==> Shr(n, log) > 0
    {
      ShrStep(n, log + 1);
      log := log + 1;
      m := m / 2;
    }
    if n > 0 { LogBounds(n, log); }
    forall k: nat | n == Pow2(k) ensures log == k {
      if k < log { Pow2Monotone(k + 1, log); }
      if k > log { Pow2Monotone(log + 1, k); }
    }
  }

  lemma {:induction false} ShrStep(n: nat, k: nat)
    ensures Shr(n, k + 1) == Shr(n, k) / 2
  {
    if k > 0 { ShrStep(n / 2, k - 1); }
  }

  lemma {:induction false} LogBounds(n: nat, k: nat)
    requires Shr(n, k) > 0 && Shr(n, k + 1) == 0
    ensures Pow2(k) <= n < Pow2(k + 1)
  {
    if k > 0 { LogBounds(n / 2, k - 1); }
  }

  predicate IsPowerOfTwo(x: nat): (r: bool)
    ensures r <==> exists k: nat :: x == Pow2(k)
  {
    if x != 0 then ClearLowestBit(x); And(x, x - 1) == 0
    else assert forall k: nat :: Pow2(k) >= 1; false
  }

  /** The simulator's static parameters, indexed by level from 0. */
  datatype Config = Config(numLvls: nat, lineSize: nat, assoc: seq<nat>, lvlSize: seq<nat>, policy: Policy)

  predicate IsValidNumLvls(n: nat) { 1 <= n <= 3 }

  predicate IsValidLineSize(n: nat) { n == 16 || n == 32 || n == 64 }

  predicate IsValidAssoc(n: nat) { IsPowerOfTwo(n) && n <= 8 }

  predicate IsValidLvlSize(size: nat, assoc: nat, lineSize: nat, lvl: nat)
    requires 1 <= lvl <= 3
  {
    var max := if lvl == 1 then 2048 else if lvl == 2 then 4096 else 8192;
    IsPowerOfTwo(size) && assoc * lineSize <= size <= max
  }

  /** Every parameter the user was asked for passed its check. */
  predicate Accepts(c: Config) {
    && |c.assoc| == 3 && |c.lvlSize| == 3
    && IsValidNumLvls(c.numLvls) && IsValidLineSize(c.lineSize)
    && forall l :: 0 <= l < c.numLvls ==>
         IsValidAssoc(c.assoc[l]) && IsValidLvlSize(c.lvlSize[l], c.assoc[l], c.lineSize, l + 1)
  }

  lemma {:induction false} SmallPowers(n: nat, k: nat)
    requires n == Pow2(k) && n <= 8192
    ensures n in {1, 2, 4, 8, 16, 32, 64, 128, 256, 512, 1024, 2048, 4096, 8192}
  {
    if k > 0 { SmallPowers(n / 2, k - 1); }
  }

  lemma {:induction false} PowersListed(n: nat)
    requires n <= 8192
    ensures IsPowerOfTwo(n) <==> n in {1, 2, 4, 8, 16, 32, 64, 128, 256, 512, 1024, 2048, 4096, 8192}
  {
    hide IsPowerOfTwo;
    if k: nat :| n == Pow2(k) { SmallPowers(n, k); }
    Pow2Values();
    assert Pow2(0) == 1 && Pow2(1) == 2 && Pow2(2) == 4 && Pow2(3) == 8;
    assert Pow2(7) == 128 && Pow2(9) == 512 && Pow2(10) == 1024 && Pow2(11) == 2048;
    assert Pow2(12) == 4096 && Pow2(13) == 8192;
  }

  /** Which parameters are accepted: up to three levels, three line sizes, up to eight ways,
      and a level between one set and 2, 4 or 8 kilobytes, both powers of two. */
  lemma {:induction false} AcceptedParameters(n: nat, size: nat, assoc: nat, lineSize: nat, lvl: nat)
    requires 1 <= lvl <= 3
    ensures (IsValidNumLvls(n) <==> n in {1, 2, 3}) && (IsValidLineSize(n) <==> n in {16, 32, 64})
    ensures IsValidAssoc(n) <==> n in {1, 2, 4, 8}
    ensures IsValidLvlSize(size, assoc, lineSize, lvl) <==>
      && size in {1, 2, 4, 8, 16, 32, 64, 128, 256, 512, 1024, 2048, 4096, 8192}
      && assoc * lineSize <= size && size / 1024 <= (if lvl == 1 then 2 else if lvl == 2 then 4 else 8)
  {
    hide IsPowerOfTwo;
    if n <= 8192 { PowersListed(n); }
    if size <= 8192 { PowersListed(size); }
  }

  function SetsOf(size: nat, lineSize: nat, ways: nat): nat
    requires lineSize * ways > 0
  {
    size / (lineSize * ways)
  }

  lemma LevelSize(c: Config, lvl: nat)
    requires Accepts(c) && 1 <= lvl <= c.numLvls
    ensures c.lineSize * c.assoc[lvl - 1] > 0
  {
    hide IsPowerOfTwo;
    assert IsValidAssoc(c.assoc[lvl - 1]);
    MulAtLeast(c.assoc[lvl - 1], c.lineSize);
  }

  /** The geometry `cache_init` gives a level. */
  function LevelGeometry(c: Config, lvl: nat): (g: Geometry)
    requires Accepts(c) && 1 <= lvl <= c.numLvls
    ensures g.lineSize == c.lineSize && g.ways == c.assoc[lvl - 1]
  {
    LevelSize(c, lvl);
    Geometry(c.lineSize, SetsOf(c.lvlSize[lvl - 1], c.lineSize, c.assoc[lvl - 1]), c.assoc[lvl - 1])
  }

  lemma Pow2Quotient(a: nat, b: nat)
    requires Pow2(b) <= Pow2(a)
    ensures b <= a && Pow2(a) / Pow2(b) == Pow2(a - b)
  {
    if a < b { Pow2Strict(a, b); }
    Pow2Add(a - b, b);
    DivUnique(Pow2(a), Pow2(b), Pow2(a - b), 0);
  }

  lemma {:induction false} Pow2Strict(a: nat, b: nat)
    requires a < b
    ensures Pow2(a) < Pow2(b)
  {
    Pow2Monotone(a + 1, b);
  }

  lemma PowerSets(ob: nat, w: nat, z: nat)
    requires Pow2(ob) * Pow2(w) <= Pow2(z)
    ensures ob + w <= z && Pow2(ob) * Pow2(w) > 0
    ensures Pow2(z) / (Pow2(ob) * Pow2(w)) == Pow2(z - (ob + w))
    ensures Pow2(z - (ob + w)) * (Pow2(ob) * Pow2(w)) == Pow2(z)
  {
    Pow2Add(ob, w);
    Pow2Quotient(z, ob + w);
    Pow2Add(z - (ob + w), ob + w);
  }

  lemma SetsBounded(perSet: nat, sets: nat, size: nat)
    requires sets * perSet == size <= 8192 && perSet >= 16
    ensures sets <= 512
  {
    if sets > 512 { MulMono(513, sets, 16, perSet); }
  }

  lemma OffsetBits(n: nat) returns (ob: nat)
    requires IsValidLineSize(n)
    ensures n == Pow2(ob) && n >= 16
  {
    Pow2Values();
    ob := if n == 16 then 4 else if n == 32 then 5 else 6;
  }

  /** An accepted level is a power-of-two number of sets that exactly fill its
      size, so `cache_init` does not fail and the shifts compute index and tag. */
  lemma {:induction false} AcceptedGeometry(c: Config, lvl: nat) returns (ob: nat, ib: nat)
    requires Accepts(c) && 1 <= lvl <= c.numLvls
    ensures var g := LevelGeometry(c, lvl);
      && g.Ok() && Accepted(g)
      && g.lineSize == Pow2(ob) && g.numSets == Pow2(ib)
      && g.numSets * (g.lineSize * g.ways) == c.lvlSize[lvl - 1]
  {
    var size, ways := c.lvlSize[lvl - 1], c.assoc[lvl - 1];
    hide Pow2;
    assert IsValidAssoc(ways) && IsValidLvlSize(size, ways, c.lineSize, lvl);
    ob := OffsetBits(c.lineSize);
    var w: nat :| ways == Pow2(w);
    var z: nat :| size == Pow2(z);
    PowerSets(ob, w, z);
    ib := z - (ob + w);
    MulMono(16, c.lineSize, 1, ways);
    SetsBounded(c.lineSize * ways, Pow2(ib), size);
  }
}
