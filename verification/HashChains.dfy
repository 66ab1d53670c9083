/** The linked structure of the label table: entries on a doubly linked bucket chain
    (`hh_next`, `hh_prev`) and on a doubly linked list in insertion order (`next`, `prev`). */
module HashChains {
  import opened Uapi

  class Entry {
    const key: string
    const hashv: nat
    var value: Word
    var next: Entry?
    var prev: Entry?
    var hhNext: Entry?
    var hhPrev: Entry?

    constructor (key: string, value: Word, hashv: nat)
      ensures this.key == key && this.value == value && this.hashv == hashv
    {
      this.key, this.value, this.hashv := key, value, hashv;
      next, prev, hhNext, hhPrev := null, null, null, null;
    }
  }

  ghost function At(es: seq<Entry>, i: int): Entry? {
    if 0 <= i < |es| then es[i] else null
  }

  ghost predicate ChainAt(es: seq<Entry>, i: nat)
    requires i < |es|
    reads {es[i]}`hhNext, {es[i]}`hhPrev
  {
    es[i].hhNext == At(es, i + 1) && es[i].hhPrev == At(es, i - 1)
  }

  /** `es` in order is a bucket chain. */
  ghost predicate ChainLinked(es: seq<Entry>)
    reads es`hhNext, es`hhPrev
  {
    forall i :: 0 <= i < |es| ==> ChainAt(es, i)
  }

  ghost predicate ListAt(es: seq<Entry>, i: nat)
    requires i < |es|
    reads {es[i]}`next, {es[i]}`prev
  {
    es[i].next == At(es, i + 1) && es[i].prev == At(es, i - 1)
  }

  /** `es` in order is the list of all entries. */
  ghost predicate ListLinked(es: seq<Entry>)
    reads es`next, es`prev
  {
    forall i :: 0 <= i < |es| ==> ListAt(es, i)
  }

  ghost function Opt(e: Entry?): set<Entry> { if e == null then {} else {e} }

  ghost function Without(es: seq<Entry>, q: nat): (r: seq<Entry>)
    requires q < |es|
    ensures |r| == |es| - 1
    ensures forall i :: 0 <= i < |r| ==> r[i] == if i < q then es[i] else es[i + 1]
  {
    es[..q] + es[q + 1..]
  }

  ghost predicate NoDup(es: seq<Entry>) {
    forall i, j :: 0 <= i < j < |es| ==> es[i] != es[j]
  }

  /** The links of HASH_ADD_TO_BKT. */
  method PushFront(e: Entry, head: Entry?, ghost c: seq<Entry>)
    requires ChainLinked(c) && head == At(c, 0) && e !in c
    modifies {e}`hhNext, ({e} + Opt(head))`hhPrev
    ensures ChainLinked([e] + c)
  {
    ghost var c' := [e] + c;
    e.hhNext := head;
    e.hhPrev := null;
    if head != null {
      head.hhPrev := e;
    }
    forall i | 0 <= i < |c'| ensures ChainAt(c', i) {
      if i > 0 { assert old(ChainAt(c, i - 1)) && old(ChainAt(c, 0)); }
    }
  }

  /** The links of HASH_DEL_IN_BKT. */
  method UnlinkChain(e: Entry, ghost c: seq<Entry>, ghost q: nat)
    requires ChainLinked(c) && NoDup(c) && q < |c| && c[q] == e
    modifies Opt(e.hhPrev)`hhNext, Opt(e.hhNext)`hhPrev
    ensures ChainLinked(Without(c, q))
    ensures e.hhNext == old(e.hhNext)
  {
    ghost var c' := Without(c, q);
    assert ChainAt(c, q);
    if e.hhPrev != null {
      e.hhPrev.hhNext := e.hhNext;
    }
    if e.hhNext != null {
      e.hhNext.hhPrev := e.hhPrev;
    }
    forall i | 0 <= i < |c'| ensures ChainAt(c', i) {
      assert old(ChainAt(c, if i < q then i else i + 1));
    }
  }

  /** The links of HASH_APPEND_LIST. */
  method Append(e: Entry, tail: Entry, ghost es: seq<Entry>)
    requires ListLinked(es) && es != [] && tail == es[|es| - 1] && NoDup(es) && e !in es
    modifies {e, tail}`next, {e}`prev
    ensures ListLinked(es + [e])
  {
    ghost var es' := es + [e];
    assert ListAt(es, |es| - 1);
    e.next := null;
    e.prev := tail;
    tail.next := e;
    forall i | 0 <= i < |es'| ensures ListAt(es', i) {
      if i < |es| { assert old(ListAt(es, i)); }
    }
  }

  /** The links of HASH_DELETE_HH. */
  method UnlinkList(e: Entry, ghost es: seq<Entry>, ghost p: nat)
    requires ListLinked(es) && NoDup(es) && p < |es| && es[p] == e
    modifies Opt(e.prev)`next, Opt(e.next)`prev
    ensures ListLinked(Without(es, p))
    ensures e.next == old(e.next) && e.prev == old(e.prev)
  {
    ghost var es' := Without(es, p);
    assert ListAt(es, p);
    if e.prev != null {
      e.prev.next := e.next;
    }
    if e.next != null {
      e.next.prev := e.prev;
    }
    forall i | 0 <= i < |es'| ensures ListAt(es', i) {
      assert old(ListAt(es, if i < p then i else i + 1));
    }
  }
}
