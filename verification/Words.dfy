/** 64-bit words: signed reading, and little-endian bytes in memory. */
module Words {
  import opened Bits
  import opened Uapi

  function ToSigned(w: Word): int {
    if w >= TWO64 / 2 then w - TWO64 else w
  }

  function Wrap(x: int): Word { x % TWO64 }

  // ---- little-endian ----

  function LeBytes(w: nat, n: nat): (bs: seq<Byte>)
    ensures |bs| == n
  {
    if n == 0 then [] else [w % 256] + LeBytes(w / 256, n - 1)
  }

  function LeValue(bs: seq<Byte>): (v: nat) {
    if bs == [] then 0 else bs[0] + 256 * LeValue(bs[1..])
  }

  lemma {:induction false} LeValueOfBytes(w: nat, n: nat)
    requires w < Pow2(8 * n)
    ensures LeValue(LeBytes(w, n)) == w
  {
    if n > 0 {
      Pow2Values();
      Pow2Add(8, 8 * (n - 1));
      LeValueOfBytes(w / 256, n - 1);
    }
  }

  lemma {:induction false} LeValueBound(bs: seq<Byte>)
    ensures LeValue(bs) < Pow2(8 * |bs|)
  {
    if bs != [] {
      Pow2Values();
      Pow2Add(8, 8 * (|bs| - 1));
      LeValueBound(bs[1..]);
    }
  }

  lemma {:induction false} LeValueAppend(bs: seq<Byte>, b: Byte)
    ensures LeValue(bs + [b]) == LeValue(bs) + b * Pow2(8 * |bs|)
  {
    if bs == [] {
      assert [b][1..] == [];
    } else {
      Pow2Values();
      Pow2Add(8, 8 * (|bs| - 1));
      LeValueAppend(bs[1..], b);
      assert (bs + [b])[1..] == bs[1..] + [b];
      MulThrough(256, b, Pow2(8 * (|bs| - 1)));
    }
  }

  lemma MulThrough(a: nat, b: nat, c: nat)
    ensures a * (b * c) == b * (a * c)
  {}

  lemma {:induction false} LeBytesAt(w: nat, n: nat, i: nat)
    requires i < n
    ensures LeBytes(w, n)[i] == And(Shr(w, 8 * i), 255)
  {
    Pow2Values();
    if i == 0 {
      MaskIsRemainder(w, 8);
    } else {
      LeBytesAt(w / 256, n - 1, i - 1);
      ShrStepBy(w, 8, 8 * (i - 1));
      ShrIsDivision(w, 8);
    }
  }

  lemma {:induction false} ShrStepBy(w: nat, a: nat, b: nat)
    ensures Shr(w, a + b) == Shr(Shr(w, a), b)
  {
    if a > 0 { ShrStepBy(w / 2, a - 1, b); }
  }

  // ---- words in memory ----

  function LoadWord(mem: seq<Byte>, addr: nat): (w: Word)
    requires addr + 8 <= |mem|
  {
    LeValueBound(mem[addr..addr + 8]);
    Pow2Values();
    LeValue(mem[addr..addr + 8])
  }

  function StoreWord(mem: seq<Byte>, addr: nat, w: Word): (mem': seq<Byte>)
    requires addr + 8 <= |mem|
    ensures |mem'| == |mem|
  {
    mem[..addr] + LeBytes(w, 8) + mem[addr + 8..]
  }

  /** Writing a word and reading it back returns it; disjoint words are untouched. */
  lemma {:induction false} StoreThenLoad(mem: seq<Byte>, addr: nat, w: Word, other: nat)
    requires addr + 8 <= |mem| && other + 8 <= |mem|
    ensures LoadWord(StoreWord(mem, addr, w), addr) == w
    ensures other + 8 <= addr || addr + 8 <= other
      ==> LoadWord(StoreWord(mem, addr, w), other) == LoadWord(mem, other)
  {
    var mem' := StoreWord(mem, addr, w);
    Pow2Values();
    LeValueOfBytes(w, 8);
    assert mem'[addr..addr + 8] == LeBytes(w, 8);
    if other + 8 <= addr || addr + 8 <= other {
      assert mem'[other..other + 8] == mem[other..other + 8];
    }
  }
}
