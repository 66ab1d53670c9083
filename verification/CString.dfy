/** Character buffers holding NUL-terminated text, changed in place by the assembler. */
module CString {
  import opened Isa
  import opened LineText

  const NUL: char := 0 as char
  const MAX_LEN: nat := 256

  class CString {
    const chars: array<char>
    /** The text before the terminator. */
    ghost var text: string

    ghost predicate Valid()
      reads this, chars
    {
      |text| < chars.Length && chars[|text|] == NUL && forall j :: 0 <= j < |text| ==> chars[j] == text[j] != NUL
    }

    /** A buffer of `size` characters filled with `s`. */
    constructor (s: string, size: nat)
      requires |s| < size && NUL !in s
      ensures Valid() && text == s && chars.Length == size && fresh(chars)
    {
      chars := new char[size](i => if 0 <= i < |s| then s[i] else NUL);
      text := s;
    }

    /** `strlen`. */
    method Length() returns (n: nat)
      requires Valid()
      ensures n == |text|
    {
      n := 0;
      while chars[n] != NUL
        invariant n <= |text|
        decreases |text| - n
      {
        n := n + 1;
      }
    }

    /** The first position from `from` of one of the characters in `stop`: `strchr`, and
        the scanning loops of `split_by_char`. */
    method IndexOf(from: nat, stop: set<char>) returns (i: nat)
      requires Valid() && from <= |text|
      ensures i == Find(text, from, stop)
    {
      var n := Length();
      i := from;
      while i < n && chars[i] !in stop
        invariant from <= i <= n && forall j :: from <= j < i ==> text[j] !in stop
      {
        assert chars[i] == text[i];
        i := i + 1;
      }
      assert i < n ==> chars[i] == text[i];
      FindIs(text, from, stop, i);
    }

    /** Terminate the text at `i`. */
    method Cut(i: nat)
      requires Valid() && i <= |text|
      modifies this, chars
      ensures Valid() && text == old(text)[..i]
    {
      chars[i] := NUL;
      text := text[..i];
    }

    /** Overwrite one character. */
    method Put(i: nat, c: char)
      requires Valid() && i < |text| && c != NUL
      modifies this, chars
      ensures Valid() && text == old(text)[i := c]
    {
      chars[i] := c;
      text := text[i := c];
    }

    /** Move the text after position `at`, and the terminator, down by one place. */
    method Remove(at: nat)
      requires Valid() && at < |text|
      modifies this, chars
      ensures Valid() && text == old(text)[..at] + old(text)[at + 1..]
    {
      var n := Length();
      var i := at;
      while i < n
        invariant at <= i <= n == |text| && text == old(text)
        invariant forall j :: 0 <= j < at ==> chars[j] == text[j]
        invariant forall j :: at <= j < i ==> chars[j] == if j + 1 < n then text[j + 1] else NUL
        invariant forall j :: i <= j <= n ==> chars[j] == if j < n then text[j] else NUL
      {
        chars[i] := chars[i + 1];
        i := i + 1;
      }
      text := text[..at] + text[at + 1..];
    }

    /** Remove the spaces that start at `at`. */
    method DropSpaces(at: nat)
      requires Valid() && at <= |text|
      modifies this, chars
      ensures Valid() && text == DropSpacesAt(old(text), at)
    {
      while chars[at] == ' '
        invariant Valid() && at <= |text| && DropSpacesAt(text, at) == DropSpacesAt(old(text), at)
        decreases |text|
      {
        Remove(at);
      }
    }

    /** `substring`: a copy of the characters from `start` to `end`, or nothing. */
    method Substring(start: nat, end: nat) returns (sub: CString?)
      requires Valid()
      ensures (sub == null) == (Slice(text, start, end) == None)
      ensures sub != null ==> fresh(sub) && fresh(sub.chars) && sub.Valid() && Slice(text, start, end) == Some(sub.text)
    {
      var n := Length();
      if start >= end || end > n {
        return null;
      }
      assert chars[start..end] == text[start..end];
      sub := new CString(chars[start..end], end - start + 1);
    }

    /** The text as a value, as `strcmp`, `strcpy` and `strtoull` read it. */
    method Value() returns (s: string)
      requires Valid()
      ensures s == text
    {
      var n := Length();
      s := chars[..n];
    }

    /** `remove_comment`. */
    method RemoveComment()
      requires Valid()
      modifies this, chars
      ensures Valid() && text == StripComment(old(text))
    {
      var i := IndexOf(0, {';'});
      Cut(i);
    }

    /** `is_empty`. */
    method Empty() returns (r: bool)
      requires Valid()
      ensures r == IsEmpty(text)
    {
      var i := 0;
      while chars[i] != NUL
        invariant i <= |text| && IsEmpty(text) == IsEmpty(text[i..])
        decreases |text| - i
      {
        assert chars[i] == text[i..][0];
        if chars[i] != ' ' && chars[i] != '\n' {
          return chars[i] == ';';
        }
        assert text[i..][1..] == text[i + 1..];
        i := i + 1;
      }
      r := true;
    }

    /** The first comma becomes a space. */
    method CommaToSpace()
      requires Valid()
      modifies this, chars
      ensures Valid() && text == ReplaceComma(old(text))
    {
      var i := IndexOf(0, {','});
      var n := Length();
      if i < n {
        Put(i, ' ');
      }
    }

    /** The text between brackets, shifted down over them. */
    method StripBrackets()
      requires Valid() && |text| >= 2
      modifies this, chars
      ensures Valid() && text == old(text)[1..|old(text)| - 1]
    {
      var n := Length();
      Cut(n - 1);
      Remove(0);
    }

    /** One stage of `split_by_char`: drop the spaces from `start` on and look for the
        end of the field there; `end` stays where it was if there is none. */
    method NextField(start: nat, end: nat, stop: set<char>) returns (end': nat, part: CString?)
      requires Valid() && start <= |text|
      modifies this, chars
      ensures Valid() && text == DropSpacesAt(old(text), start)
      ensures var i := Find(text, start, stop); end' == if i < |text| then i else end
      ensures Holds(part, Slice(text, start, end')) && fresh(Footprint(part))
    {
      DropSpaces(start);
      var i := IndexOf(start, stop);
      var n := Length();
      end' := if i < n then i else end;
      part := Substring(start, end');
    }

    /** The last stage: the field may end where the text does. */
    method LastField(start: nat) returns (part: CString?)
      requires Valid() && 0 < start <= |text|
      modifies this, chars
      ensures Valid() && text == DropSpacesAt(old(text), start)
      ensures Holds(part, Slice(text, start, Find(text, start, {' ', '\n'}))) && fresh(Footprint(part))
    {
      var end;
      end, part := NextField(start, start - 1, {' ', '\n'});
      if end < start {
        end := Length();
        part := Substring(start, end);
      }
    }

    /** `split_by_char` at spaces. */
    method SplitFields() returns (part1: CString?, part2: CString?, part3: CString?)
      requires Valid() && DropSpacesAt(text, 0) != ""
      modifies this, chars
      ensures Valid() && text == Stages(old(text)).4
      ensures var f := Split(old(text));
        Holds(part1, f.operation) && Holds(part2, f.operand1) && Holds(part3, f.operand2)
      ensures fresh(Footprint(part1) + Footprint(part2) + Footprint(part3)) && Footprint(part2) !! Footprint(part3)
    {
      hide Stages, Split, DropSpacesAt, Find, Slice;
      ghost var s := text;
      var e1, e2;
      e1, part1 := NextField(0, 0, {' '});
      ghost var s1 := text;
      e2, part2 := NextField(e1 + 1, e1, {' '});
      ghost var s2 := text;
      part3 := LastField(e2 + 1);
      SplitStages(s, s1, e1, s2, e2, text, Find(text, e2 + 1, {' ', '\n'}));
    }
  }

  /** The buffer, if there is one, holds the given text. */
  ghost predicate Holds(part: CString?, text: Option<string>)
    reads if part == null then {} else {part, part.chars}
  {
    if part == null then text == None else part.Valid() && text == Some(part.text)
  }

  ghost function Footprint(part: CString?): set<object> {
    if part == null then {} else {part, part.chars}
  }
}
