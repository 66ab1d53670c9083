/** Assembly programs as the programmer writes them: instructions with symbolic labels,
    laid out on lines with any number of spaces, blank lines and comments. */
module Source {
  import opened Isa
  import opened Numerals
  import opened LineText

  datatype Operand = Number(numeral: Numeral) | Register(reg: RegIdx)

  datatype Instr =
    | Arith(f: Alu, rd: RegIdx, src: Operand)
    | Invert(rd: RegIdx)
    | Move(rd: RegIdx, src: Operand)
    | Test(rd: RegIdx, src: Operand)
    | LoadFrom(rd: RegIdx, at: Numeral)
    | StoreTo(rs: RegIdx, at: Numeral)
    | JumpTo(cond: Cond, target: string)

  /** The spaces and the comment around the fields of an instruction. A comma may stand
      between two operands, with `before` spaces before it; one space must, if it does
      not. */
  datatype Layout = Layout(lead: nat, gap: nat, comma: bool, before: nat, after: nat, trail: nat,
      comment: Option<string>, newline: bool)

  datatype Line =
    | Blank(indent: nat, comment: Option<string>, newline: bool)
    | Label(name: string, rest: string)
    | Code(instr: Instr, layout: Layout)

  // ---- the fields of an instruction ----

  function Mnemonic(i: Instr): string {
    match i
    case Arith(Add, _, _) => "ADD"
    case Arith(Sub, _, _) => "SUB"
    case Arith(And2, _, _) => "AND"
    case Arith(Or2, _, _) => "OR"
    case Invert(_) => "NOT"
    case Move(_, _) => "MOV"
    case LoadFrom(_, _) => "MOV"
    case StoreTo(_, _) => "MOV"
    case Test(_, _) => "CMP"
    case JumpTo(Always, _) => "JMP"
    case JumpTo(IfEqual, _) => "JE"
    case JumpTo(IfGreater, _) => "JG"
    case JumpTo(IfLess, _) => "JL"
  }

  function RegisterText(r: RegIdx): string {
    if r == 0 then "R0" else if r == 1 then "R1" else if r == 2 then "R2" else "R3"
  }

  function OperandText(src: Operand): string {
    match src
    case Number(n) => n.Text()
    case Register(r) => RegisterText(r)
  }

  function AddressText(at: Numeral): string {
    "[" + at.Text() + "]"
  }

  function FirstText(i: Instr): string {
    match i
    case JumpTo(_, target) => target
    case StoreTo(_, at) => AddressText(at)
    case Arith(_, rd, _) => RegisterText(rd)
    case Invert(rd) => RegisterText(rd)
    case Move(rd, _) => RegisterText(rd)
    case Test(rd, _) => RegisterText(rd)
    case LoadFrom(rd, _) => RegisterText(rd)
  }

  function SecondText(i: Instr): Option<string> {
    match i
    case Arith(_, _, src) => Some(OperandText(src))
    case Move(_, src) => Some(OperandText(src))
    case Test(_, src) => Some(OperandText(src))
    case LoadFrom(_, at) => Some(AddressText(at))
    case StoreTo(rs, _) => Some(RegisterText(rs))
    case Invert(_) => None
    case JumpTo(_, _) => None
  }

  /** The characters that separate, or that C strings cannot hold. */
  predicate Separates(c: char) {
    c == ' ' || c == '\n' || c == ';' || c == ':' || c == ',' || c == 0 as char
  }

  /** What a label may be called: no separators. */
  predicate Plain(t: string) {
    t != "" && forall k :: 0 <= k < |t| ==> !Separates(t[k])
  }

  predicate OperandOk(src: Operand) {
    src.Number? ==> src.numeral.Ok(10)
  }

  /** Numerals that fit a word, immediates decimal and addresses hexadecimal, and a
      plain label. */
  predicate WellWritten(i: Instr) {
    match i
    case Arith(_, _, src) => OperandOk(src)
    case Move(_, src) => OperandOk(src)
    case Test(_, src) => OperandOk(src)
    case LoadFrom(_, at) => at.Ok(16)
    case StoreTo(_, at) => at.Ok(16)
    case Invert(_) => true
    case JumpTo(_, target) => Plain(target)
  }

  // ---- layout ----

  function Newline(newline: bool): string { if newline then "\n" else "" }

  /** What follows the last field, up to a comment. */
  function Ending(l: Layout): string {
    Spaces(l.trail) + if l.comment.None? then Newline(l.newline) else ""
  }

  function CommentText(comment: Option<string>, newline: bool): string {
    match comment
    case None => ""
    case Some(c) => ";" + c + Newline(newline)
  }

  function AfterFirst(i: Instr, l: Layout): string {
    match SecondText(i)
    case None => Ending(l)
    case Some(t) =>
      (if l.comma then Spaces(l.before) + ("," + Spaces(l.after)) else Spaces(l.after + 1)) + (t + Ending(l))
  }

  /** A laid-out instruction up to its comment. */
  function Fielded(i: Instr, l: Layout): string {
    Spaces(l.lead) + (Mnemonic(i) + (Spaces(l.gap + 1) + (FirstText(i) + AfterFirst(i, l))))
  }

  /** The text of a source line. */
  function Render(line: Line): string {
    match line
    case Blank(indent, comment, newline) =>
      Spaces(indent) + if comment.None? then Newline(newline) else CommentText(comment, newline)
    case Label(name, rest) => name + (":" + rest)
    case Code(i, l) => Fielded(i, l) + CommentText(l.comment, l.newline)
  }

  // ---- what the fields are made of ----

  lemma PlainDigits(s: string)
    requires s != "" && forall k :: 0 <= k < |s| ==> IsDigit(s[k], 16)
    ensures Plain(s) && s[0] != 'R' && s[0] != '['
  {}

  lemma PlainNumeral(n: Numeral, base: nat)
    requires (base == 10 || base == 16) && n.Ok(base)
    ensures Plain(n.Text()) && n.Text()[0] != 'R' && n.Text()[0] != '['
  {
    hide NumberOf;
    SmallerBase(n.digits, base);
    PlainDigits(n.digits);
    var rest := PrefixText(n.prefix) + n.digits;
    assert Plain(rest) && rest[0] != 'R' && rest[0] != '[';
    assert n.sign.NoSign? ==> n.Text() == rest;
  }

  lemma PlainAddress(at: Numeral)
    requires at.Ok(16)
    ensures var t := AddressText(at); Plain(t) && t[0] == '[' && t[|t| - 1] == ']' && t[1..|t| - 1] == at.Text()
  {
    PlainNumeral(at, 16);
    BracketPlain(at.Text());
  }

  lemma BracketPlain(t: string)
    requires Plain(t)
    ensures var b := "[" + t + "]"; Plain(b) && b[0] == '[' && b[|b| - 1] == ']' && b[1..|b| - 1] == t
  {
    var b := "[" + t + "]";
    forall k | 0 <= k < |b| ensures !Separates(b[k]) {
      if 0 < k < |b| - 1 { assert b[k] == t[k - 1]; }
    }
  }

  lemma PlainOperand(src: Operand)
    requires OperandOk(src)
    ensures Plain(OperandText(src))
  {
    match src
    case Number(n) => PlainNumeral(n, 10);
    case Register(_) =>
  }

  lemma PlainFields(i: Instr)
    requires WellWritten(i)
    ensures Plain(Mnemonic(i)) && Plain(FirstText(i)) && (SecondText(i).Some? ==> Plain(SecondText(i).value))
  {
    hide AddressText, OperandText, OperandOk;
    match i
    case Arith(_, _, src) => PlainOperand(src);
    case Move(_, src) => PlainOperand(src);
    case Test(_, src) => PlainOperand(src);
    case LoadFrom(_, at) => PlainAddress(at);
    case StoreTo(_, at) => PlainAddress(at);
    case Invert(_) =>
    case JumpTo(_, _) =>
  }
}
