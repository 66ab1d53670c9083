/** The two passes of the assembler (`parse_assembly`). */
module Assembler {
  import opened Uapi
  import opened Words
  import opened LineText
  import opened CString
  import opened LabelTable
  import opened Parser

  // ---- how the passes see a line ----

  function Colon(line: string): (i: nat)
    ensures i <= |StripComment(line)|
  {
    Find(StripComment(line), 0, {':'})
  }

  predicate IsLabel(line: string) {
    !IsEmpty(line) && Colon(line) < |StripComment(line)|
  }

  function LabelName(line: string): string {
    StripComment(line)[..Colon(line)]
  }

  /** The lines that the first pass counts. */
  predicate Counted(line: string) {
    !IsEmpty(line) && !IsLabel(line)
  }

  /** The lines that the second pass turns into instructions: it asks once more whether
      anything is left of the line without its comment. */
  predicate Emitted(line: string) {
    Counted(line) && !IsEmpty(StripComment(line))
  }

  /** Both passes agree on every line. */
  lemma {:induction false} CountedIsEmitted(line: string)
    ensures Counted(line) <==> Emitted(line)
  {
    if Counted(line) { StrippedStaysNonEmpty(line); }
  }

  // ---- the passes as functions ----

  datatype First = First(labels: map<string, Word>, lineNumber: Word)

  function FirstStep(f: First, line: string): First {
    if IsLabel(line) then f.(labels := f.labels[Stored(LabelName(line)) := f.lineNumber])
    else if Counted(line) then f.(lineNumber := Wrap(f.lineNumber + 1))
    else f
  }

  /** The first pass: the label table and the line number after the lines. */
  function PassOne(lines: seq<string>): First {
    if lines == [] then First(map[], 0) else FirstStep(PassOne(lines[..|lines| - 1]), lines[|lines| - 1])
  }

  /** A line the second pass can parse, if it emits it. */
  predicate Acceptable(line: string) {
    Emitted(line) ==> Parsable(StripComment(line))
  }

  /** No label that is cut to fit the table is then one defined before. */
  predicate LabelsStorable(lines: seq<string>) {
    forall i :: 0 <= i < |lines| ==> LabelStorable(lines[i], PassOne(lines[..i]).labels)
  }

  predicate LabelStorable(line: string, labels: map<string, Word>) {
    IsLabel(line) ==> Storable(LabelName(line), labels)
  }

  /** What `fgets` can return for a buffer of MAX_LEN characters. */
  predicate Readable(line: string) {
    |line| < MAX_LEN && NUL !in line
  }

  predicate AllAcceptable(lines: seq<string>) {
    forall i :: 0 <= i < |lines| ==> Acceptable(lines[i]) && Readable(lines[i])
  }

  function Instructions(line: string, labels: map<string, Word>): seq<Raw>
    requires Acceptable(line)
  {
    if Emitted(line) then [ParseText(StripComment(line), labels)] else []
  }

  /** The second pass: the instructions of the lines. */
  function PassTwo(lines: seq<string>, labels: map<string, Word>): seq<Raw>
    requires AllAcceptable(lines)
  {
    if lines == [] then [] else PassTwo(lines[..|lines| - 1], labels) + Instructions(lines[|lines| - 1], labels)
  }

  function WithoutNewline(line: string): string {
    if line != "" && line[|line| - 1] == '\n' then line[..|line| - 1] else line
  }

  function Texts(lines: seq<string>): seq<string> {
    if lines == [] then []
    else Texts(lines[..|lines| - 1]) + if Emitted(lines[|lines| - 1]) then [WithoutNewline(lines[|lines| - 1])] else []
  }

  const HALT_INSTR := Raw(MOV, DIRECT_STORE, 0, MMIO_HALT)

  /** The whole program: the second pass with the labels of the first, and a HALT. */
  function Assembled(lines: seq<string>): seq<Raw>
    requires AllAcceptable(lines)
  {
    PassTwo(lines, PassOne(lines).labels) + [HALT_INSTR]
  }

  // ---- agreement of the passes ----

  /** One more line for both passes. */
  lemma NextLine(lines: seq<string>, labels: map<string, Word>, n: nat)
    requires AllAcceptable(lines) && n < |lines|
    ensures Acceptable(lines[n]) && AllAcceptable(lines[..n]) && AllAcceptable(lines[..n + 1])
    ensures PassOne(lines[..n + 1]) == FirstStep(PassOne(lines[..n]), lines[n])
    ensures PassTwo(lines[..n + 1], labels) == PassTwo(lines[..n], labels) + Instructions(lines[n], labels)
    ensures Texts(lines[..n + 1]) == Texts(lines[..n]) + if Emitted(lines[n]) then [WithoutNewline(lines[n])] else []
  {
    hide Acceptable, Readable, FirstStep, Instructions, Emitted, WithoutNewline;
    assert lines[..n + 1][..n] == lines[..n];
  }

  lemma StepCounts(f: First, line: string, labels: map<string, Word>)
    requires Acceptable(line)
    ensures FirstStep(f, line).lineNumber == Wrap(f.lineNumber + |Instructions(line, labels)|)
  {
    hide Colon, LabelName, StripComment, IsEmpty, Parsable, ParseText;
    CountedIsEmitted(line);
  }

  lemma WrapSum(x: nat, y: nat)
    ensures Wrap(Wrap(x) + y) == Wrap(x + y)
  {}

  /** At every line the first pass has counted the instructions that the second emits
      before it. */
  lemma {:induction false} TwoPassAgreement(lines: seq<string>, labels: map<string, Word>, n: nat)
    requires AllAcceptable(lines) && n <= |lines|
    ensures PassOne(lines[..n]).lineNumber == Wrap(|PassTwo(lines[..n], labels)|)
  {
    hide AllAcceptable, Acceptable, FirstStep, Instructions, Wrap, PassOne, PassTwo;
    if n > 0 {
      NextLine(lines, labels, n - 1);
      TwoPassAgreement(lines, labels, n - 1);
      StepCounts(PassOne(lines[..n - 1]), lines[n - 1], labels);
      WrapSum(|PassTwo(lines[..n - 1], labels)|, |Instructions(lines[n - 1], labels)|);
    } else {
      assert lines[..n] == [];
      NoLines(labels);
    }
  }

  lemma NoLines(labels: map<string, Word>)
    ensures PassOne([]) == First(map[], Wrap(0)) && PassTwo([], labels) == [] && Texts([]) == []
  {}

  predicate Names(line: string, name: string) {
    IsLabel(line) && Stored(LabelName(line)) == name
  }

  /** Line `k` is the last of the first `n` lines that defines the label. */
  predicate Defines(lines: seq<string>, n: nat, name: string, k: nat) {
    k < n <= |lines| && Names(lines[k], name) && forall j :: k < j < n ==> !Names(lines[j], name)
  }

  /** Every label in the table has a definition. */
  lemma {:induction false} DefinedSomewhere(lines: seq<string>, n: nat, name: string) returns (k: nat)
    requires n <= |lines| && name in PassOne(lines[..n]).labels
    ensures Defines(lines, n, name, k)
  {
    assert lines[..n][..n - 1] == lines[..n - 1];
    if Names(lines[n - 1], name) {
      k := n - 1;
    } else {
      k := DefinedSomewhere(lines, n - 1, name);
    }
  }

  /** A label's value is the index of the next instruction emitted after its last
      definition, or of the final HALT. */
  lemma {:induction false} LabelValue(lines: seq<string>, labels: map<string, Word>, n: nat, name: string, k: nat)
    requires AllAcceptable(lines) && Defines(lines, n, name, k)
    ensures var f := PassOne(lines[..n]);
      name in f.labels && f.labels[name] == Wrap(|PassTwo(lines[..k], labels)|)
  {
    hide AllAcceptable, Acceptable, Instructions, Wrap, PassOne, PassTwo, IsLabel, LabelName, Counted;
    NextLine(lines, labels, n - 1);
    if k == n - 1 {
      TwoPassAgreement(lines, labels, k);
    } else {
      assert !Names(lines[n - 1], name);
      LabelValue(lines, labels, n - 1, name, k);
    }
  }

  // ---- the passes ----

  /** The first pass on one line. */
  method ScanLine(line: string, labels: LabelTable, lineNumber: Word) returns (lineNumber': Word)
    requires labels.Valid() && LabelStorable(line, labels.entries) && Readable(line)
    modifies labels, labels.buckets, labels.order
    ensures labels.Valid()
    ensures First(labels.entries, lineNumber') == FirstStep(First(old(labels.entries), lineNumber), line)
    ensures labels.buckets == old(labels.buckets) || fresh(labels.buckets)
    ensures forall j :: 0 <= j < |labels.order| ==> labels.order[j] in old(labels.order) || fresh(labels.order[j])
  {
    hide Parsable, StripComment, IsEmpty, LabelTable.Valid;
    lineNumber' := lineNumber;
    var buffer := new CString(line, MAX_LEN);
    var empty := buffer.Empty();
    if !empty {
      buffer.RemoveComment();
      var colon := buffer.IndexOf(0, {':'});
      var n := buffer.Length();
      if colon < n {
        buffer.Cut(colon);
        var name := buffer.Value();
        labels.Put(name, lineNumber');
        lineNumber' := Wrap(lineNumber' - 1);
      }
      lineNumber' := Wrap(lineNumber' + 1);
    }
  }

  /** The first pass. */
  method FirstPass(lines: seq<string>, hash: string -> nat) returns (labels: LabelTable)
    requires AllAcceptable(lines) && LabelsStorable(lines)
    ensures labels.Valid() && labels.entries == PassOne(lines).labels
    ensures fresh(labels) && fresh(labels.buckets)
    ensures forall j :: 0 <= j < |labels.order| ==> fresh(labels.order[j])
  {
    hide FirstStep, Acceptable, LabelStorable, Readable, PassTwo, LabelTable.Valid;
    labels := new LabelTable(hash);
    var lineNumber: Word := 0;
    NoLines(map[]);
    assert lines[..0] == [];
    var i := 0;
    while i < |lines|
      invariant i <= |lines| && labels.Valid() && fresh(labels) && fresh(labels.buckets)
      invariant forall j :: 0 <= j < |labels.order| ==> fresh(labels.order[j])
      invariant First(labels.entries, lineNumber) == PassOne(lines[..i])
    {
      NextLine(lines, map[], i);
      lineNumber := ScanLine(lines[i], labels, lineNumber);
      i := i + 1;
    }
    assert lines[..i] == lines;
  }

  /** The second pass on one line: a copy loses its comment and is asked for a colon and
      for emptiness before it is parsed. */
  method TranslateLine(line: string, labels: LabelTable) returns (emitted: bool, raw: Raw, text: string)
    requires labels.Valid() && Acceptable(line) && Readable(line)
    ensures emitted == Emitted(line)
    ensures emitted ==> raw == ParseText(StripComment(line), labels.entries) && text == WithoutNewline(line)
  {
    hide Parsable, StripComment, IsEmpty, LabelTable.Valid, ParseText;
    emitted, raw, text := false, HALT_INSTR, "";
    var buffer := new CString(line, MAX_LEN);
    var empty := buffer.Empty();
    if !empty {
      var copied := buffer.Value();
      var copy := new CString(copied, MAX_LEN);
      copy.RemoveComment();
      var colon := copy.IndexOf(0, {':'});
      var n := copy.Length();
      var nothing := copy.Empty();
      if colon == n && !nothing {
        text := WithoutNewline(line);
        raw := ParseLine(copy, labels);
        emitted := true;
      }
    }
  }

  /** Both arrays reallocated with a larger capacity. */
  method Grow(instructions: array<Raw>, texts: array<string>, num: nat, capacity: nat)
      returns (instructions': array<Raw>, texts': array<string>)
    requires num <= instructions.Length == texts.Length && num <= capacity
    ensures fresh(instructions') && fresh(texts') && instructions'.Length == texts'.Length == capacity
    ensures instructions'[..num] == instructions[..num] && texts'[..num] == texts[..num]
  {
    var rs, ts := instructions[..num], texts[..num];
    instructions' := new Raw[capacity](k => if 0 <= k < |rs| then rs[k] else HALT_INSTR);
    texts' := new string[capacity](k => if 0 <= k < |ts| then ts[k] else "");
    assert instructions'[..num] == rs && texts'[..num] == ts;
  }

  /** The instructions and texts so far, and room for one more and the final HALT's. */
  ghost predicate Holds(instructions: array<Raw>, texts: array<string>, num: nat, raws: seq<Raw>, lines: seq<string>)
    reads instructions, texts
  {
    num <= instructions.Length == texts.Length && instructions[..num] == raws && texts[..num] == Texts(lines)
  }

  /** The second pass. The arrays double whenever one free place is left, so that there
      always is one for HALT; `extraRead` says whether the end of the file is found only
      by one more read, as it is after a final newline. */
  method SecondPass(lines: seq<string>, extraRead: bool, labels: LabelTable)
      returns (instructions: array<Raw>, texts: array<string>, num: nat)
    requires AllAcceptable(lines) && labels.Valid() && (lines == [] ==> extraRead)
    ensures fresh(instructions) && fresh(texts) && num < instructions.Length
    ensures Holds(instructions, texts, num, PassTwo(lines, labels.entries), lines)
  {
    hide Acceptable, Readable, PassTwo, PassOne, Texts, LabelTable.Valid, Emitted, Instructions, WithoutNewline;
    instructions, texts := new Raw[0](_ => HALT_INSTR), new string[0](_ => "");
    num := 0;
    var capacity := 0;
    NoLines(labels.entries);
    assert lines[..0] == [];
    var rounds := if extraRead then |lines| + 1 else |lines|;
    var i := 0;
    while i < rounds
      invariant i <= rounds && fresh(instructions) && fresh(texts) && capacity == instructions.Length
      invariant if i == 0 then num == 0 else num < capacity
      invariant capacity == 0 <==> i == 0
      invariant var n := if i < |lines| then i else |lines|;
        AllAcceptable(lines[..n]) && Holds(instructions, texts, num, PassTwo(lines[..n], labels.entries), lines[..n])
    {
      if num == capacity - 1 || capacity == 0 {
        capacity := if capacity == 0 then 4 else capacity * 2;
        instructions, texts := Grow(instructions, texts, num, capacity);
      }
      if i < |lines| {
        NextLine(lines, labels.entries, i);
        num := EmitLine(lines[i], labels, instructions, texts, num, PassTwo(lines[..i], labels.entries), lines[..i],
          lines[..i + 1]);
      }
      i := i + 1;
    }
    assert lines[..|lines|] == lines;
  }

  /** Translate one line and put what it gives at the end of the arrays. */
  method EmitLine(line: string, labels: LabelTable, instructions: array<Raw>, texts: array<string>, num: nat,
      ghost raws: seq<Raw>, ghost before: seq<string>, ghost lines: seq<string>)
    returns (num': nat)
    requires labels.Valid() && Acceptable(line) && Readable(line) && num < instructions.Length
    requires Holds(instructions, texts, num, raws, before)
    requires Texts(lines) == Texts(before) + if Emitted(line) then [WithoutNewline(line)] else []
    modifies instructions, texts
    ensures Holds(instructions, texts, num', raws + Instructions(line, labels.entries), lines)
    ensures num' <= num + 1
  {
    hide Acceptable, Readable, Texts, LabelTable.Valid, Emitted, ParseText;
    num' := num;
    ghost var m := labels.entries;
    var emitted, raw, text := TranslateLine(line, labels);
    if emitted {
      texts[num'] := text;
      instructions[num'] := raw;
      num' := num' + 1;
      assert instructions[..num'] == raws + [raw] && texts[..num'] == Texts(before) + [text];
    }
    assert emitted ==> Instructions(line, m) == [raw];
  }

  /** `parse_assembly`: both passes, a HALT at the end, and the label table emptied. */
  method ParseAssembly(lines: seq<string>, extraRead: bool, hash: string -> nat)
      returns (instructions: array<Raw>, texts: array<string>, count: nat)
    requires AllAcceptable(lines) && LabelsStorable(lines) && (lines == [] ==> extraRead)
    ensures count <= instructions.Length && instructions[..count] == Assembled(lines)
    ensures count <= texts.Length && texts[..count] == Texts(lines) + ["HALT"]
  {
    hide AllAcceptable, PassOne, PassTwo, Texts, LabelTable.Valid;
    var labels := FirstPass(lines, hash);
    ghost var entries := labels.entries;
    instructions, texts, count := SecondPass(lines, extraRead, labels);
    texts[count] := "HALT";
    instructions[count] := HALT_INSTR;
    count := count + 1;
    assert instructions[..count] == PassTwo(lines, entries) + [HALT_INSTR];
    assert texts[..count] == Texts(lines) + ["HALT"];
    ghost var visited := labels.DeleteAll();
  }
}
