/** Finding one operand in the operand string of the disassembler. */
module OperandSplitter {
  import opened Common
  import opened Streams

  const NUL: char := 0 as char

  predicate IsSpace(c: char) {
    c == ' ' || 9 <= c as int <= 13
  }

  /** Whether the scan is inside brackets after c. */
  function BlockAfter(inBlock: bool, c: char): bool {
    if c == '[' then true else if c == ']' then false else inBlock
  }

  /** The operands of s: what the commas outside brackets separate. */
  function Fields(s: string, inBlock: bool): (r: seq<string>)
    ensures r != []
  {
    if s == "" then [""]
    else if s[0] == ',' && !inBlock then [""] + Fields(s[1..], false)
    else
      var r := Fields(s[1..], BlockAfter(inBlock, s[0]));
      [[s[0]] + r[0]] + r[1..]
  }

  function TrimLeft(s: string): string {
    if s != "" && IsSpace(s[0]) then TrimLeft(s[1..]) else s
  }

  /** What is printed for the operand at the given index; nothing, if there is no such operand. */
  function RawValue(s: string, index: nat): string {
    var fields := Fields(s, false);
    if index < |fields| then TrimLeft(fields[index]) else ""
  }

  /** A C string: text, then a terminator. */
  predicate Terminated(buffer: seq<char>) {
    buffer != [] && buffer[|buffer| - 1] == NUL && NUL !in buffer[..|buffer| - 1]
  }

  function Text(buffer: seq<char>): string
    requires Terminated(buffer)
  {
    buffer[..|buffer| - 1]
  }

  method PrintOpRawValue(os: OStream, buffer: seq<char>, index: nat)
    requires Terminated(buffer)
    modifies os`text
    ensures os.text == old(os.text) + RawValue(Text(buffer), index)
  {
    ghost var was := os.text;
    var start, found := FindStart(buffer, index);
    var end := FindEnd(buffer, start);
    ghost var s := Text(buffer);
    ghost var field := s[start..end];
    FieldIsValue(s, index, start, end, found);
    // skip leading whitespace
    while IsSpace(buffer[start])
      invariant start <= end < |buffer| && os.text == was
      invariant TrimLeft(s[start..end]) == TrimLeft(field)
      decreases end - start
    {
      FirstOf(s, start, end);
      start := start + 1;
    }
    NotBlank(s, start, end);
    assert TrimLeft(field) == s[start..end];
    Empty(was);
    assert s[start..start] == "";
    for cur := start to end
      invariant os.text == was + s[start..cur]
    {
      os.Put([buffer[cur]]);
      OneMore(s, start, cur);
      Associate(was, s[start..cur], [s[cur]]);
    }
  }

  lemma FieldIsValue(s: string, index: nat, start: nat, end: nat, found: bool)
    requires start <= end <= |s| && s[start..end] == Fields(s[start..], false)[0]
    requires found == (index < |Fields(s, false)|)
    requires found ==> Fields(s, false)[index..] == Fields(s[start..], false)
    requires !found ==> start == |s|
    ensures TrimLeft(s[start..end]) == RawValue(s, index)
  {
    if found {
      assert Fields(s, false)[index..][0] == Fields(s, false)[index];
    }
  }

  lemma FirstOf(s: string, start: nat, end: nat)
    requires start < end <= |s|
    ensures s[start..end] != "" && s[start..end][0] == s[start] && s[start..end][1..] == s[start + 1..end]
  {
  }

  lemma NotBlank(s: string, start: nat, end: nat)
    requires start <= end <= |s| && (start < end ==> !IsSpace(s[start]))
    ensures TrimLeft(s[start..end]) == s[start..end]
  {
  }

  lemma OneMore(s: string, start: nat, cur: nat)
    requires start <= cur < |s|
    ensures s[start..cur] + [s[cur]] == s[start..cur + 1]
  {
  }

  /** Flicks through to the start of the operand, or to the terminator. */
  method FindStart(buffer: seq<char>, index: nat) returns (pos: nat, found: bool)
    requires Terminated(buffer)
    ensures pos < |buffer|
    ensures found == (index < |Fields(Text(buffer), false)|)
    ensures found ==> Fields(Text(buffer), false)[index..] == Fields(Text(buffer)[pos..], false)
    ensures !found ==> buffer[pos] == NUL
  {
    ghost var s := Text(buffer);
    ghost var fields := Fields(s, false);
    var currOperand := 0;
    var inBlock := false;
    pos := 0;
    assert s[0..] == s && fields[0..] == fields;
    while buffer[pos] != NUL && currOperand != index
      invariant pos < |buffer| && currOperand <= index && currOperand < |fields|
      invariant fields[currOperand + 1..] == Fields(s[pos..], inBlock)[1..]
      invariant currOperand == index ==> !inBlock && fields[currOperand..] == Fields(s[pos..], inBlock)
      decreases |buffer| - pos
    {
      var cur := buffer[pos];
      assert s[pos..][0] == cur && s[pos..][1..] == s[pos + 1..];
      if cur == '[' {
        inBlock := true;
      } else if cur == ']' {
        inBlock := false;
      } else if !inBlock && cur == ',' {
        currOperand := currOperand + 1;
        assert fields[currOperand..] == Fields(s[pos + 1..], false);
        assert fields[currOperand + 1..] == fields[currOperand..][1..];
      }
      pos := pos + 1;
    }
    if currOperand != index {
      assert s[pos..] == "";
    }
    found := currOperand == index;
  }

  /** Finds the comma outside brackets, or the terminator, that ends the operand. */
  method FindEnd(buffer: seq<char>, start: nat) returns (pos: nat)
    requires Terminated(buffer) && start < |buffer|
    ensures start <= pos < |buffer| && !IsSpace(buffer[pos])
    ensures Text(buffer)[start..pos] == Fields(Text(buffer)[start..], false)[0]
  {
    ghost var s := Text(buffer);
    ghost var field := Fields(s[start..], false)[0];
    var inBlock := false;
    pos := start;
    while buffer[pos] != NUL
      invariant start <= pos < |buffer|
      invariant field == s[start..pos] + Fields(s[pos..], inBlock)[0]
      decreases |buffer| - pos
    {
      var cur := buffer[pos];
      assert s[pos..][0] == cur && s[pos..][1..] == s[pos + 1..];
      if cur == '[' {
        inBlock := true;
      } else if cur == ']' {
        inBlock := false;
      } else if !inBlock && cur == ',' {
        break;
      }
      OneMore(s, start, pos);
      Associate(s[start..pos], [cur], Fields(s[pos + 1..], inBlock)[0]);
      pos := pos + 1;
    }
    Empty(s[start..pos]);
  }

  // ---- operands joined by commas ----

  /** Scanned from outside brackets, the operand has no comma there and ends there. */
  predicate Closed(s: string, inBlock: bool) {
    if s == "" then !inBlock
    else (s[0] == ',' ==> inBlock) && Closed(s[1..], BlockAfter(inBlock, s[0]))
  }

  predicate IsOperand(s: string) {
    Closed(s, false) && (s != "" ==> !IsSpace(s[0]))
  }

  predicate Blank(s: string) {
    forall k :: 0 <= k < |s| ==> IsSpace(s[k])
  }

  /** Operands with blanks before them, separated by commas. */
  function OperandString(operands: seq<string>, blanks: seq<string>): string
    requires |operands| == |blanks|
  {
    if operands == [] then ""
    else if |operands| == 1 then blanks[0] + operands[0]
    else blanks[0] + operands[0] + "," + OperandString(operands[1..], blanks[1..])
  }

  lemma {:induction false} ClosedField(s: string, inBlock: bool, rest: string)
    requires Closed(s, inBlock)
    ensures Fields(s, inBlock) == [s]
    ensures Fields(s + ("," + rest), inBlock) == [s] + Fields(rest, false)
    decreases |s|
  {
    if s == "" {
      assert s + ("," + rest) == "," + rest;
      assert ("," + rest)[1..] == rest;
    } else {
      var t := s + ("," + rest);
      assert t[1..] == s[1..] + ("," + rest);
      ClosedField(s[1..], BlockAfter(inBlock, s[0]), rest);
      assert [s[0]] + s[1..] == s;
    }
  }

  lemma {:induction false} BlankThenClosed(blank: string, s: string)
    requires Blank(blank) && IsOperand(s)
    ensures Closed(blank + s, false)
    ensures TrimLeft(blank + s) == s
    decreases |blank|
  {
    if blank == "" {
      assert blank + s == s;
    } else {
      assert (blank + s)[1..] == blank[1..] + s;
      BlankThenClosed(blank[1..], s);
    }
  }

  /** For every list of operands joined by commas and blanks, operand i is printed, for every i. */
  lemma {:induction false} OperandsAreFound(operands: seq<string>, blanks: seq<string>, index: nat)
    requires |operands| == |blanks| && index < |operands|
    requires forall k :: 0 <= k < |operands| ==> IsOperand(operands[k]) && Blank(blanks[k])
    ensures |Fields(OperandString(operands, blanks), false)| == |operands|
    ensures RawValue(OperandString(operands, blanks), index) == operands[index]
  {
    var first := blanks[0] + operands[0];
    BlankThenClosed(blanks[0], operands[0]);
    if |operands| == 1 {
      ClosedField(first, false, "");
    } else {
      var rest := OperandString(operands[1..], blanks[1..]);
      ClosedField(first, false, rest);
      assert first + "," + rest == first + ("," + rest);
      OperandsAreFound(operands[1..], blanks[1..], if index == 0 then 0 else index - 1);
    }
  }
}
