/** Numerals: what `strtoull` reads, and the printed forms it reads back. */
module Numerals {
  import opened Bits
  import opened Uapi
  import opened Words

  function DigitValue(c: char): nat {
    if '0' <= c <= '9' then c as int - '0' as int
    else if 'a' <= c <= 'z' then c as int - 'a' as int + 10
    else if 'A' <= c <= 'Z' then c as int - 'A' as int + 10
    else 36
  }

  /** The digits in order, in either letter case. */
  lemma {:induction false} DigitsInOrder(d: nat)
    requires d < 16
    ensures DigitValue("0123456789abcdef"[d]) == d && DigitValue("0123456789ABCDEF"[d]) == d
  {}

  predicate IsDigit(c: char, base: nat) { DigitValue(c) < base }

  /** The number of leading digits. */
  function LeadingDigits(s: string, base: nat): (k: nat)
    ensures k <= |s| && forall i :: 0 <= i < k ==> IsDigit(s[i], base)
    ensures k < |s| ==> !IsDigit(s[k], base)
  {
    if s == [] || !IsDigit(s[0], base) then 0 else 1 + LeadingDigits(s[1..], base)
  }

  /** The number a string of digits denotes. */
  function NumberOf(s: string, base: nat): nat {
    if s == [] then 0 else base * NumberOf(s[..|s| - 1], base) + DigitValue(s[|s| - 1])
  }

  predicate IsSpace(c: char) {
    c == ' ' || c == '\t' || c == '\n' || c == '\r' || c as int == 11 || c as int == 12
  }

  function LeadingSpace(s: string): (k: nat)
    ensures k <= |s|
  {
    if s == [] || !IsSpace(s[0]) then 0 else 1 + LeadingSpace(s[1..])
  }

  /** Where `strtoull` expects the digits, after space, a sign and the prefix of base
      sixteen, and whether the sign was a minus. */
  function DigitsStart(s: string, base: nat): (r: (nat, bool))
    ensures r.0 <= |s|
  {
    var sp := LeadingSpace(s);
    var signed := sp < |s| && (s[sp] == '-' || s[sp] == '+');
    var start := if signed then sp + 1 else sp;
    (if base == 16 && HasPrefix(s, start) then start + 2 else start, signed && s[sp] == '-')
  }

  predicate HasPrefix(s: string, at: nat) {
    at + 2 < |s| && s[at] == '0' && (s[at + 1] == 'x' || s[at + 1] == 'X') && IsDigit(s[at + 2], 16)
  }

  /** `strtoull`: the value, how many characters it read, and whether it overflowed. */
  function StrToULL(s: string, base: nat): (r: (Word, nat, bool))
    ensures r.1 <= |s|
  {
    var (from, negative) := DigitsStart(s, base);
    var k := LeadingDigits(s[from..], base);
    if k == 0 then (0, 0, false)
    else
      var n := NumberOf(s[from..from + k], base);
      if n >= TWO64 then (UINT64_MAX, from + k, true)
      else (if negative then Wrap(TWO64 - n) else n, from + k, false)
  }

  // ---- printing ----

  function DigitChar(d: nat): (c: char)
    requires d < 16
    ensures DigitValue(c) == d && !IsSpace(c) && c != '-' && c != '+' && c != 'x' && c != 'X'
    ensures '0' <= c <= '9' || 'a' <= c <= 'f'
  {
    if d < 10 then '0' + d as char else 'a' + (d - 10) as char
  }

  /** The numeral of `n`. */
  function Digits(n: nat, base: nat): (s: string)
    requires 2 <= base <= 16
    ensures s != []
  {
    if n < base then [DigitChar(n)] else Digits(n / base, base) + [DigitChar(n % base)]
  }

  lemma NumberAppend(s: string, c: char, base: nat)
    ensures NumberOf(s + [c], base) == base * NumberOf(s, base) + DigitValue(c)
  {
    assert (s + [c])[..|s|] == s;
  }

  lemma OneDigit(c: char, base: nat)
    ensures NumberOf([c], base) == DigitValue(c)
  {
    NumberAppend("", c, base);
    assert "" + [c] == [c];
    assert NumberOf("", base) == 0;
  }

  /** Printing and reading digits are inverse. */
  lemma {:induction false} NumberOfDigits(n: nat, base: nat)
    requires 2 <= base <= 16
    ensures NumberOf(Digits(n, base), base) == n
  {
    hide NumberOf, DigitValue;
    if n >= base {
      NumberOfDigits(n / base, base);
      NumberAppend(Digits(n / base, base), DigitChar(n % base), base);
      DivMod(n, base);
    } else {
      OneDigit(DigitChar(n), base);
    }
  }

  lemma {:induction false} DigitsFacts(n: nat, base: nat)
    requires 2 <= base <= 16
    ensures forall i :: 0 <= i < |Digits(n, base)| ==>
      var c := Digits(n, base)[i]; IsDigit(c, base) && ('0' <= c <= '9' || 'a' <= c <= 'f')
  {
    if n >= base { DigitsFacts(n / base, base); }
  }

  lemma {:induction false} AllDigitsLead(s: string, base: nat)
    requires forall i :: 0 <= i < |s| ==> IsDigit(s[i], base)
    ensures LeadingDigits(s, base) == |s|
  {
    if s != [] { AllDigitsLead(s[1..], base); }
  }

  // ---- numerals as written ----

  datatype Sign = NoSign | Plus | Minus

  datatype Prefix = NoPrefix | LowerX | UpperX

  /** A number as a programmer writes it: a sign, a base prefix and digits, of which
      there may be leading zeros and letters of either case. */
  datatype Numeral = Numeral(sign: Sign, prefix: Prefix, digits: string) {
    /** Digits of the base whose value fits a word; only base sixteen has a prefix. */
    predicate Ok(base: nat) {
      && digits != "" && (forall i :: 0 <= i < |digits| ==> IsDigit(digits[i], base))
      && NumberOf(digits, base) < TWO64 && (prefix == NoPrefix || base == 16)
    }

    function Text(): string {
      SignText(sign) + (PrefixText(prefix) + digits)
    }

    /** The word it denotes; a minus sign negates modulo 2^64. */
    function Value(base: nat): Word {
      var v: int := NumberOf(digits, base);
      Wrap(if sign.Minus? then -v else v)
    }
  }

  function SignText(sign: Sign): string {
    match sign
    case NoSign => ""
    case Plus => "+"
    case Minus => "-"
  }

  function PrefixText(prefix: Prefix): string {
    match prefix
    case NoPrefix => ""
    case LowerX => "0x"
    case UpperX => "0X"
  }

  lemma DigitIsPlain(c: char)
    requires IsDigit(c, 16)
    ensures !IsSpace(c) && c != '-' && c != '+' && c != 'x' && c != 'X'
  {}

  lemma {:induction false} SmallerBase(s: string, base: nat)
    requires base <= 16 && forall i :: 0 <= i < |s| ==> IsDigit(s[i], base)
    ensures forall i :: 0 <= i < |s| ==> IsDigit(s[i], 16)
  {}

  /** The sign and the prefix are recognised, and nothing else is. */
  lemma StartsAt(n: Numeral, base: nat)
    requires (base == 10 || base == 16) && n.Ok(base)
    ensures DigitsStart(n.Text(), base) == (|SignText(n.sign)| + |PrefixText(n.prefix)|, n.sign.Minus?)
  {
    hide NumberOf, DigitValue;
    var s, d, rest := n.Text(), n.digits, PrefixText(n.prefix) + n.digits;
    var start := |SignText(n.sign)|;
    SmallerBase(d, base);
    DigitIsPlain(d[0]);
    if |d| > 1 { DigitIsPlain(d[1]); }
    assert s[start..] == rest;
    PrefixSeen(n, base);
    assert forall k :: 0 <= k < |rest| ==> s[start + k] == rest[k];
    assert LeadingSpace(s) == 0;
  }

  lemma PrefixSeen(n: Numeral, base: nat)
    requires (base == 10 || base == 16) && n.Ok(base)
    ensures var rest := PrefixText(n.prefix) + n.digits;
      !IsSpace(rest[0]) && rest[0] != '-' && rest[0] != '+' && (HasPrefix(rest, 0) <==> n.prefix != NoPrefix)
  {
    hide NumberOf;
    var d, rest := n.digits, PrefixText(n.prefix) + n.digits;
    SmallerBase(d, base);
    DigitIsPlain(d[0]);
    if |d| > 1 { DigitIsPlain(d[1]); }
    if n.prefix == NoPrefix {
      assert rest == d;
    } else {
      assert rest[2] == d[0];
    }
  }

  lemma NegatedModulo(x: int)
    requires 0 <= x < TWO64
    ensures Wrap(TWO64 - x) == Wrap(-x) && Wrap(x) == x
  {
    SmallRemainder(x, TWO64);
    if x == 0 {
      assert Wrap(TWO64) == 0;
    } else {
      DivUnique(-x, TWO64, -1, TWO64 - x);
      SmallRemainder(TWO64 - x, TWO64);
    }
  }

  lemma DropTexts(n: Numeral)
    ensures var s := n.Text(); var from := |SignText(n.sign)| + |PrefixText(n.prefix)|;
      s[from..] == n.digits && |s| == from + |n.digits| && s[from..from + |n.digits|] == n.digits
  {}

  /** `strtoull` reads every numeral, and reads all of it. */
  lemma {:induction false} ReadsBack(n: Numeral, base: nat)
    requires (base == 10 || base == 16) && n.Ok(base)
    ensures StrToULL(n.Text(), base) == (n.Value(base), |n.Text()|, false)
  {
    hide NumberOf, LeadingDigits, DigitsStart, IsDigit, SignText, PrefixText, Wrap;
    StartsAt(n, base);
    DropTexts(n);
    AllDigitsLead(n.digits, base);
    NegatedModulo(NumberOf(n.digits, base));
  }

  /** Every word can be written. */
  lemma {:induction false} EveryWordWritten(w: Word, base: nat)
    requires 2 <= base <= 16
    ensures var n := Numeral(NoSign, NoPrefix, Digits(w, base)); n.Ok(base) && n.Value(base) == w
  {
    DigitsFacts(w, base);
    NumberOfDigits(w, base);
    SmallRemainder(w, TWO64);
  }
}
