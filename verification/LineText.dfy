/** Source lines as strings: comments, labels, and the three fields of a line. */
module LineText {
  import opened Isa

  /** The first position at or after `from` holding one of the given characters. */
  function Find(s: string, from: nat, stop: set<char>): (i: nat)
    requires from <= |s|
    ensures from <= i <= |s|
    ensures forall j :: from <= j < i ==> s[j] !in stop
    ensures i < |s| ==> s[i] in stop
    decreases |s| - from
  {
    if from == |s| || s[from] in stop then from else Find(s, from + 1, stop)
  }

  lemma FindIs(s: string, from: nat, stop: set<char>, i: nat)
    requires from <= i <= |s| && (forall j :: from <= j < i ==> s[j] !in stop) && (i < |s| ==> s[i] in stop)
    ensures Find(s, from, stop) == i
  {}

  /** `s` without the spaces that start at `at`. */
  function DropSpacesAt(s: string, at: nat): (r: string)
    requires at <= |s|
    ensures |r| <= |s| && at <= |r| && r[..at] == s[..at]
    ensures at < |r| ==> r[at] != ' '
    decreases |s|
  {
    if at < |s| && s[at] == ' ' then DropSpacesAt(s[..at] + s[at + 1..], at) else s
  }

  /** `remove_comment`. */
  function StripComment(s: string): string {
    s[..Find(s, 0, {';'})]
  }

  /** `is_empty`: nothing but spaces and newlines, or a comment after them. */
  predicate IsEmpty(s: string) {
    if s == "" then true
    else if s[0] != ' ' && s[0] != '\n' then s[0] == ';'
    else IsEmpty(s[1..])
  }

  /** `substring`. */
  function Slice(s: string, start: nat, end: nat): (r: Option<string>)
    ensures r.Some? ==> r.value != ""
  {
    if start >= end || end > |s| then None else Some(s[start..end])
  }

  datatype Fields = Fields(operation: Option<string>, operand1: Option<string>, operand2: Option<string>)

  /** The three stages of `split_by_char` at spaces: the text after each, and where its
      field ends. Each field's spaces are dropped before it is sought, and a field that
      is not found keeps the end of the one before. */
  function Stages(s: string): (r: (string, nat, string, nat, string, nat))
    requires DropSpacesAt(s, 0) != ""
  {
    var s1 := DropSpacesAt(s, 0);
    var i1 := Find(s1, 0, {' '});
    var e1 := if i1 < |s1| then i1 else 0;
    var s2 := DropSpacesAt(s1, e1 + 1);
    var i2 := Find(s2, e1 + 1, {' '});
    var e2 := if i2 < |s2| then i2 else e1;
    var s3 := DropSpacesAt(s2, e2 + 1);
    (s1, e1, s2, e2, s3, Find(s3, e2 + 1, {' ', '\n'}))
  }

  /** The fields that `split_by_char` finds. */
  function Split(s: string): Fields
    requires DropSpacesAt(s, 0) != ""
  {
    var (s1, e1, s2, e2, s3, e3) := Stages(s);
    Fields(Slice(s1, 0, e1), Slice(s2, e1 + 1, e2), Slice(s3, e2 + 1, e3))
  }

  /** The first comma becomes a space. */
  function ReplaceComma(s: string): (r: string)
    ensures |r| == |s|
  {
    var i := Find(s, 0, {','});
    if i < |s| then s[i := ' '] else s
  }

  // ---- fields of a laid-out line ----

  function Spaces(k: nat): (s: string)
    ensures |s| == k
    ensures k > 0 ==> s[0] == ' '
  {
    if k == 0 then "" else " " + Spaces(k - 1)
  }

  /** A field: non-empty and without separators. */
  predicate IsField(t: string) {
    t != "" && ' ' !in t && '\n' !in t
  }

  /** What may follow the last field. */
  predicate Ends(t: string) {
    t == "" || t[0] == ' ' || t[0] == '\n'
  }

  predicate NoSpaceFirst(t: string) {
    t == "" || t[0] != ' '
  }

  lemma Shift(p: string, k: nat, r: string)
    requires k > 0
    ensures var s := p + Spaces(k) + r; s[|p|] == ' ' && s[..|p|] + s[|p| + 1..] == p + Spaces(k - 1) + r
  {}

  lemma {:induction false} DropSpacesAfter(p: string, k: nat, r: string)
    requires NoSpaceFirst(r)
    ensures DropSpacesAt(p + Spaces(k) + r, |p|) == p + r
  {
    if k == 0 {
      assert p + Spaces(k) + r == p + r;
    } else {
      Shift(p, k, r);
      DropSpacesAfter(p, k - 1, r);
    }
  }

  /** The end of a field is found where the next separator is. */
  lemma FindAfter(p: string, t: string, r: string, stop: set<char>, s: string)
    requires (forall c :: c in t ==> c !in stop) && (r == "" || r[0] in stop) && s == p + t + r
    ensures Find(s, |p|, stop) == |p| + |t| && s[|p|..|p| + |t|] == t
  {
    forall j | |p| <= j < |p| + |t| ensures s[j] !in stop { assert s[j] == t[j - |p|]; }
    FindIs(s, |p|, stop, |p| + |t|);
  }

  /** One stage of the split: after `done`, spaces, a field and a separating space. */
  lemma MiddleField(done: string, a: nat, t: string, b: nat, rest: string, s: string, s': string)
    requires IsField(t) && s == done + Spaces(a) + (t + (Spaces(b + 1) + rest))
      && s' == done + t + (Spaces(b + 1) + rest)
    ensures DropSpacesAt(s, |done|) == s' && Find(s', |done|, {' '}) == |done| + |t| < |s'|
    ensures Slice(s', |done|, |done| + |t|) == Some(t)
    ensures s' == (done + t + " ") + Spaces(b) + rest
  {
    Assoc(done, t, Spaces(b + 1) + rest);
    DropSpacesAfter(done, a, t + (Spaces(b + 1) + rest));
    FindAfter(done, t, Spaces(b + 1) + rest, {' '}, s');
    Regroup(done, t, b, rest);
  }

  /** The last stage: a field with the line's end or a space after it. */
  lemma LastField(done: string, a: nat, t: string, tail: string, s: string, s': string)
    requires IsField(t) && Ends(tail) && s == done + Spaces(a) + (t + tail) && s' == done + t + tail
    ensures DropSpacesAt(s, |done|) == s' && Find(s', |done|, {' ', '\n'}) == |done| + |t|
    ensures Slice(s', |done|, |done| + |t|) == Some(t)
  {
    Assoc(done, t, tail);
    DropSpacesAfter(done, a, t + tail);
    FindAfter(done, t, tail, {' ', '\n'}, s');
  }

  lemma Assoc(p: string, t: string, r: string)
    ensures p + (t + r) == p + t + r
  {}

  lemma Regroup(p: string, t: string, b: nat, r: string)
    ensures p + t + (Spaces(b + 1) + r) == (p + t + " ") + Spaces(b) + r
  {}

  /** `Split`, given what each stage finds. */
  lemma SplitStages(s: string, s1: string, e1: nat, s2: string, e2: nat, s3: string, e3: nat)
    requires s1 == DropSpacesAt(s, 0) != "" && e1 < |s1|
    requires e1 == (if Find(s1, 0, {' '}) < |s1| then Find(s1, 0, {' '}) else 0)
    requires s2 == DropSpacesAt(s1, e1 + 1) && e2 < |s2|
    requires e2 == (if Find(s2, e1 + 1, {' '}) < |s2| then Find(s2, e1 + 1, {' '}) else e1)
    requires s3 == DropSpacesAt(s2, e2 + 1) && e3 == Find(s3, e2 + 1, {' ', '\n'})
    ensures Stages(s).4 == s3 && Split(s) == Fields(Slice(s1, 0, e1), Slice(s2, e1 + 1, e2), Slice(s3, e2 + 1, e3))
  {
    hide DropSpacesAt, Find, Slice;
  }

  /** Three fields are found however many spaces are around them. */
  lemma {:induction false} SplitThree(a: nat, t1: string, b: nat, t2: string, c: nat, t3: string, tail: string)
    requires IsField(t1) && IsField(t2) && IsField(t3) && Ends(tail)
    ensures var s := Spaces(a) + (t1 + (Spaces(b + 1) + (t2 + (Spaces(c + 1) + (t3 + tail)))));
      DropSpacesAt(s, 0) != "" && Split(s) == Fields(Some(t1), Some(t2), Some(t3))
  {
    var rest2 := t3 + tail;
    var rest1 := t2 + (Spaces(c + 1) + rest2);
    var s := Spaces(a) + (t1 + (Spaces(b + 1) + rest1));
    assert s == "" + Spaces(a) + (t1 + (Spaces(b + 1) + rest1));
    SplitThreeFrom(s, a, t1, b, rest1, t2, c, rest2, t3, tail);
  }

  lemma SplitThreeFrom(s: string, a: nat, t1: string, b: nat, rest1: string, t2: string, c: nat, rest2: string,
      t3: string, tail: string)
    requires IsField(t1) && IsField(t2) && IsField(t3) && Ends(tail)
    requires rest2 == t3 + tail && rest1 == t2 + (Spaces(c + 1) + rest2)
    requires s == "" + Spaces(a) + (t1 + (Spaces(b + 1) + rest1))
    ensures DropSpacesAt(s, 0) != "" && Split(s) == Fields(Some(t1), Some(t2), Some(t3))
  {
    hide *;
    var s1 := "" + t1 + (Spaces(b + 1) + rest1);
    MiddleField("", a, t1, b, rest1, s, s1);
    var p1 := "" + t1 + " ";
    var s2 := p1 + t2 + (Spaces(c + 1) + rest2);
    MiddleField(p1, b, t2, c, rest2, s1, s2);
    var p2 := p1 + t2 + " ";
    var s3 := p2 + t3 + tail;
    LastField(p2, c, t3, tail, s2, s3);
    SplitStages(s, s1, |t1|, s2, |p1| + |t2|, s3, |p2| + |t3|);
  }

  /** A field with nothing but the line's end after it is not found as a middle one. */
  lemma NotInTheMiddle(done: string, b: nat, t: string, tail: string, s: string, s': string)
    requires IsField(t) && (tail == "" || tail == "\n") && s == done + Spaces(b) + (t + tail) && s' == done + t + tail
    ensures DropSpacesAt(s, |done|) == s' && Find(s', |done|, {' '}) == |s'|
  {
    Assoc(done, t, tail);
    DropSpacesAfter(done, b, t + tail);
    FindAfter(done, t + tail, "", {' '}, s');
  }

  /** Two fields, the second with only the line's end after it: that one is the last. */
  lemma {:induction false} SplitTwo(a: nat, t1: string, b: nat, t2: string, tail: string)
    requires IsField(t1) && IsField(t2) && (tail == "" || tail == "\n")
    ensures var s := Spaces(a) + (t1 + (Spaces(b + 1) + (t2 + tail)));
      DropSpacesAt(s, 0) != "" && Split(s) == Fields(Some(t1), None, Some(t2))
  {
    var s := Spaces(a) + (t1 + (Spaces(b + 1) + (t2 + tail)));
    assert s == "" + Spaces(a) + (t1 + (Spaces(b + 1) + (t2 + tail)));
    SplitTwoFrom(s, a, t1, b, t2, tail, t2 + tail);
  }

  lemma SplitTwoFrom(s: string, a: nat, t1: string, b: nat, t2: string, tail: string, rest: string)
    requires IsField(t1) && IsField(t2) && (tail == "" || tail == "\n") && rest == t2 + tail
    requires s == "" + Spaces(a) + (t1 + (Spaces(b + 1) + rest))
    ensures DropSpacesAt(s, 0) != "" && Split(s) == Fields(Some(t1), None, Some(t2))
  {
    hide *;
    var s1 := "" + t1 + (Spaces(b + 1) + rest);
    MiddleField("", a, t1, b, rest, s, s1);
    var p1 := "" + t1 + " ";
    var s2 := p1 + t2 + tail;
    NotInTheMiddle(p1, b, t2, tail, s1, s2);
    NoEmptyField(s2, |t1|);
    LastFieldAgain(p1, t2, tail, s2);
    SplitStages(s, s1, |t1|, s2, |t1|, s2, |p1| + |t2|);
  }

  lemma NoEmptyField(s: string, e: nat)
    ensures Slice(s, e + 1, e) == None
  {}

  lemma LastFieldAgain(done: string, t: string, tail: string, s: string)
    requires IsField(t) && Ends(tail) && s == done + t + tail
    ensures DropSpacesAt(s, |done|) == s && Find(s, |done|, {' ', '\n'}) == |done| + |t|
    ensures Slice(s, |done|, |done| + |t|) == Some(t)
  {
    assert s == done + Spaces(0) + (t + tail);
    LastField(done, 0, t, tail, s, s);
  }

  /** Two fields, the second with a space after it: that one is the middle one. */
  lemma {:induction false} SplitTwoSpaced(a: nat, t1: string, b: nat, t2: string, c: nat, end: string)
    requires IsField(t1) && IsField(t2) && (end == "" || end == "\n")
    ensures var s := Spaces(a) + (t1 + (Spaces(b + 1) + (t2 + (Spaces(c + 1) + end))));
      DropSpacesAt(s, 0) != "" && Split(s) == Fields(Some(t1), Some(t2), None)
  {
    var s := Spaces(a) + (t1 + (Spaces(b + 1) + (t2 + (Spaces(c + 1) + end))));
    assert s == "" + Spaces(a) + (t1 + (Spaces(b + 1) + (t2 + (Spaces(c + 1) + end))));
    SplitTwoSpacedFrom(s, a, t1, b, t2 + (Spaces(c + 1) + end), t2, c, end);
  }

  lemma SplitTwoSpacedFrom(s: string, a: nat, t1: string, b: nat, rest1: string, t2: string, c: nat, end: string)
    requires IsField(t1) && IsField(t2) && (end == "" || end == "\n") && rest1 == t2 + (Spaces(c + 1) + end)
    requires s == "" + Spaces(a) + (t1 + (Spaces(b + 1) + rest1))
    ensures DropSpacesAt(s, 0) != "" && Split(s) == Fields(Some(t1), Some(t2), None)
  {
    hide *;
    var s1 := "" + t1 + (Spaces(b + 1) + rest1);
    MiddleField("", a, t1, b, rest1, s, s1);
    var p1 := "" + t1 + " ";
    var s2 := p1 + t2 + (Spaces(c + 1) + end);
    MiddleField(p1, b, t2, c, end, s1, s2);
    var p2 := p1 + t2 + " ";
    var s3 := p2 + end;
    NothingLeft(p2, c, end, s2, s3);
    SplitStages(s, s1, |t1|, s2, |p1| + |t2|, s3, |p2|);
  }

  lemma NothingLeft(done: string, c: nat, end: string, s: string, s': string)
    requires (end == "" || end == "\n") && s == done + Spaces(c) + end && s' == done + end
    ensures DropSpacesAt(s, |done|) == s' && Find(s', |done|, {' ', '\n'}) == |done|
      && Slice(s', |done|, |done|) == None
  {
    DropSpacesAfter(done, c, end);
    FindIs(s', |done|, {' ', '\n'}, |done|);
  }

  // ---- pass one against pass two ----

  /** A line that is not empty is not made empty by stripping its comment. */
  lemma {:induction false} StrippedStaysNonEmpty(s: string)
    requires !IsEmpty(s)
    ensures !IsEmpty(StripComment(s))
  {
    if s[0] == ' ' || s[0] == '\n' {
      StrippedStaysNonEmpty(s[1..]);
      FindShift(s, ';');
      assert s[..Find(s, 0, {';'})][1..] == s[1..][..Find(s[1..], 0, {';'})];
    } else {
      assert s[..Find(s, 0, {';'})][0] == s[0];
    }
  }

  lemma FindShift(s: string, c: char)
    requires s != "" && s[0] != c
    ensures Find(s, 0, {c}) == Find(s[1..], 0, {c}) + 1
  {
    var i := Find(s[1..], 0, {c});
    forall j | 0 <= j < i + 1 ensures s[j] !in {c} {
      if j > 0 { assert s[j] == s[1..][j - 1]; }
    }
    FindIs(s, 0, {c}, i + 1);
  }
}
