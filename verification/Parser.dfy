/** From the fields of a line to an encoded instruction (`parse_line`). */
module Parser {
  import opened Uapi
  import opened Isa
  import opened Numerals
  import opened LineText
  import opened CString
  import opened LabelTable

  // ---- what a line means ----

  /** The number of a register named R0 to R3. */
  function RegisterNumber(t: string): Option<RegIdx> {
    if t == "R0" then Some(0)
    else if t == "R1" then Some(1)
    else if t == "R2" then Some(2)
    else if t == "R3" then Some(3)
    else None
  }

  predicate Bracketed(t: string) {
    t != "" && t[0] == '[' && t[|t| - 1] == ']'
  }

  lemma BracketedIsLong(t: string)
    requires Bracketed(t)
    ensures |t| >= 2
  {}

  /** `parse_int`: the whole text is a number that fits. */
  function ParseInt(t: string): Option<Word> {
    var (value, read, overflow) := StrToULL(t, 10);
    if read == 0 || overflow || read < |t| then None else Some(value)
  }

  /** The address between brackets. */
  function Address(t: string): Word
    requires Bracketed(t)
  {
    BracketedIsLong(t);
    StrToULL(t[1..|t| - 1], 16).0
  }

  predicate IsJump(operation: string) {
    operation == "JMP" || operation == "JE" || operation == "JG" || operation == "JL"
  }

  /** The instruction with what its mnemonic alone sets; all other fields are still at
      their largest value. */
  function Start(operation: string): Raw {
    var none := Raw(UINT8_MAX, UINT8_MAX, UINT8_MAX, UINT64_MAX);
    if operation == "ADD" then none.(opcode := ADD)
    else if operation == "SUB" then none.(opcode := SUB)
    else if operation == "AND" then none.(opcode := AND)
    else if operation == "OR" then none.(opcode := OR)
    else if operation == "NOT" then none.(opcode := NOT, mode := REGISTER)
    else if operation == "MOV" then none.(opcode := MOV)
    else if operation == "CMP" then none.(opcode := CMP)
    else if operation == "JMP" then none.(opcode := JMP, mode := LABEL)
    else if operation == "JE" then none.(opcode := JE, mode := LABEL)
    else if operation == "JG" then none.(opcode := JG, mode := LABEL)
    else if operation == "JL" then none.(opcode := JL, mode := LABEL)
    else none
  }

  function WithOperand2(raw: Raw, t: string): Raw {
    if RegisterNumber(t).Some? then raw.(operand2 := RegisterNumber(t).value)
    else if Bracketed(t) then raw.(mode := DIRECT_LOAD, operand2 := Address(t))
    else if ParseInt(t).Some? then raw.(operand2 := ParseInt(t).value, mode := IMMEDIATE)
    else raw
  }

  /** A bracketed first operand makes a store: the second operand moves to the first,
      cut to eight bits. */
  function WithOperand1(raw: Raw, t: string): Raw {
    if RegisterNumber(t).Some? then raw.(operand1 := RegisterNumber(t).value)
    else if Bracketed(t) then raw.(mode := DIRECT_STORE, operand1 := raw.operand2 % 256, operand2 := Address(t))
    else raw
  }

  function DefaultMode(raw: Raw): Raw {
    if raw.mode == UINT8_MAX then raw.(mode := REGISTER) else raw
  }

  predicate HasOperand(f: Fields) {
    f.operation.Some? && (f.operand1.Some? || f.operand2.Some?)
  }

  function ParseJump(raw: Raw, target: string, labels: map<string, Word>): Raw {
    if target in labels then raw.(operand2 := labels[target]) else raw
  }

  /** The instruction that the fields of a line stand for. */
  function ParseFields(f: Fields, labels: map<string, Word>): Raw
    requires HasOperand(f)
  {
    var start := Start(f.operation.value);
    if IsJump(f.operation.value) then
      ParseJump(start, if f.operand1.None? then f.operand2.value else f.operand1.value, labels)
    else
      var raw := WithOperand2(start, if f.operand2.None? then f.operand1.value else f.operand2.value);
      if f.operand1.None? then raw else DefaultMode(WithOperand1(raw, f.operand1.value))
  }

  /** Lines on which `parse_line` does not follow a null pointer. */
  predicate Parsable(text: string) {
    var t := ReplaceComma(text);
    DropSpacesAt(t, 0) != "" && HasOperand(Split(t))
  }

  function ParseText(text: string, labels: map<string, Word>): Raw
    requires Parsable(text)
  {
    ParseFields(Split(ReplaceComma(text)), labels)
  }

  // ---- the parser ----

  /** The address in a bracketed operand, whose text loses its brackets. */
  method ReadAddress(operand: CString) returns (address: Word)
    requires operand.Valid() && Bracketed(operand.text)
    modifies operand, operand.chars
    ensures address == Address(old(operand.text))
  {
    BracketedIsLong(operand.text);
    operand.StripBrackets();
    var digits := operand.Value();
    address := StrToULL(digits, 16).0;
  }

  method ParseOperand2(start: Raw, operand2: CString) returns (raw: Raw)
    requires operand2.Valid()
    modifies operand2, operand2.chars
    ensures raw == WithOperand2(start, old(operand2.text))
  {
    var t := operand2.Value();
    raw := start;
    if RegisterNumber(t).Some? {
      raw := raw.(operand2 := RegisterNumber(t).value);
    } else if t != "" && t[0] == '[' && t[|t| - 1] == ']' {
      raw := raw.(mode := DIRECT_LOAD);
      var address := ReadAddress(operand2);
      raw := raw.(operand2 := address);
    } else {
      var value := ParseInt(t);
      if value.Some? {
        raw := raw.(operand2 := value.value, mode := IMMEDIATE);
      }
    }
  }

  method ParseOperand1(start: Raw, operand1: CString) returns (raw: Raw)
    requires operand1.Valid()
    modifies operand1, operand1.chars
    ensures raw == WithOperand1(start, old(operand1.text))
  {
    var t := operand1.Value();
    raw := start;
    if RegisterNumber(t).Some? {
      raw := raw.(operand1 := RegisterNumber(t).value);
    } else if t != "" && t[0] == '[' && t[|t| - 1] == ']' {
      raw := raw.(mode := DIRECT_STORE, operand1 := raw.operand2 % 256);
      var address := ReadAddress(operand1);
      raw := raw.(operand2 := address);
    }
  }

  /** The operands of an instruction other than a jump. */
  method ParseOperands(start: Raw, operand1: CString?, second: CString?) returns (raw: Raw)
    requires operand1 != null || second != null
    requires operand1 != null ==> operand1.Valid()
    requires second != null ==> second.Valid()
    requires Footprint(operand1) !! Footprint(second)
    modifies Footprint(operand1), Footprint(second)
    ensures var t1 := if operand1 == null then None else Some(old(operand1.text));
      var t2 := if second == null then old(operand1.text) else old(second.text);
      raw == var r := WithOperand2(start, t2); if t1.None? then r else DefaultMode(WithOperand1(r, t1.value))
  {
    var operand2 := second;
    if operand2 == null {
      var t := operand1.Value();
      operand2 := new CString(t, |t| + 1);
    }
    raw := ParseOperand2(start, operand2);
    if operand1 == null {
      return;
    }
    raw := ParseOperand1(raw, operand1);
    if raw.mode == UINT8_MAX {
      raw := raw.(mode := REGISTER);
    }
  }

  /** The target of a jump: the one operand there is, or the first of two. */
  method ParseTarget(start: Raw, operand1: CString?, operand2: CString?, labels: LabelTable) returns (raw: Raw)
    requires operand1 != null || operand2 != null
    requires labels.Valid() && (operand1 != null ==> operand1.Valid()) && (operand2 != null ==> operand2.Valid())
    ensures raw == ParseJump(start, if operand1 == null then operand2.text else operand1.text, labels.entries)
  {
    raw := start;
    var target;
    if operand1 == null {
      target := operand2.Value();
    } else {
      target := operand1.Value();
    }
    var value := labels.Get(target);
    if value.Some? {
      raw := raw.(operand2 := value.value);
    }
  }

  /** `parse_line`. */
  method ParseLine(line: CString, labels: LabelTable) returns (raw: Raw)
    requires line.Valid() && labels.Valid() && Parsable(line.text)
    modifies line, line.chars
    ensures raw == ParseText(old(line.text), old(labels.entries))
  {
    hide Split, Stages, ReplaceComma, DropSpacesAt, Start, WithOperand1, WithOperand2, DefaultMode;
    ghost var t := line.text;
    line.CommaToSpace();
    var operation, operand1, operand2 := line.SplitFields();
    ghost var f := Split(ReplaceComma(t));
    var name := operation.Value();
    raw := Start(name);
    if IsJump(name) {
      raw := ParseTarget(raw, operand1, operand2, labels);
    } else {
      raw := ParseOperands(raw, operand1, operand2);
    }
  }
}
