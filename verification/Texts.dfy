/** Cutting and joining text. */
module Texts {
  import opened Common

  /** The position of the first stop character, or the length. */
  function Until(s: string, stop: char): (n: nat)
    ensures n <= |s|
  {
    if s == "" || s[0] == stop then 0 else 1 + Until(s[1..], stop)
  }

  lemma {:induction false} UntilConcat(a: string, b: string, stop: char)
    requires stop !in a && (b == "" || b[0] == stop)
    ensures Until(a + b, stop) == |a|
  {
    if a == "" {
      assert a + b == b;
    } else {
      assert (a + b)[1..] == a[1..] + b;
      UntilConcat(a[1..], b, stop);
    }
  }

  lemma Cut(a: string, b: string)
    ensures (a + b)[..|a|] == a && (a + b)[|a|..] == b
  {
  }

  lemma CutAt(a: string, c: string, b: string)
    requires |c| == 1
    ensures (a + (c + b))[..|a|] == a && (a + (c + b))[|a| + 1..] == b && (a + (c + b))[|a|] == c[0]
  {
  }

  lemma Framed(a: string, open: string, b: string, close: string)
    requires |open| == 1 && |close| == 1
    ensures var s := a + (open + (b + close)); s[..|a|] == a && s[|a| + 1..|s| - 1] == b
  {
  }

  function Join(fields: seq<string>): string {
    if fields == [] then ""
    else if |fields| == 1 then fields[0]
    else fields[0] + "," + Join(fields[1..])
  }

  lemma Appended(was: string, fields: seq<string>, f: string)
    ensures was + Join(fields) + (if fields == [] then "" else ",") + f == was + Join(fields + [f])
  {
    var comma := if fields == [] then "" else ",";
    JoinAppend(fields, f);
    Associate3(was, Join(fields), comma, f);
    Associate(Join(fields), comma, f);
  }

  lemma {:induction false} JoinAppend(fields: seq<string>, f: string)
    ensures Join(fields + [f]) == Join(fields) + (if fields == [] then "" else ",") + f
  {
    if fields == [] {
    } else if |fields| == 1 {
      assert (fields + [f])[1..] == [f];
    } else {
      JoinAppend(fields[1..], f);
      assert (fields + [f])[1..] == fields[1..] + [f];
    }
  }

  function SplitCommas(s: string): (r: seq<string>)
    decreases |s|
  {
    var n := Until(s, ',');
    if n == |s| then [s] else [s[..n]] + SplitCommas(s[n + 1..])
  }

  /** Fields without commas are found again. */
  lemma {:induction false} SplitJoin(fields: seq<string>)
    requires fields != [] && forall k :: 0 <= k < |fields| ==> ',' !in fields[k]
    ensures SplitCommas(Join(fields)) == fields
  {
    var head := fields[0];
    if |fields| == 1 {
      UntilConcat(head, "", ',');
      assert head + "" == head;
    } else {
      var tail := Join(fields[1..]);
      SplitJoin(fields[1..]);
      UntilConcat(head, "," + tail, ',');
      assert head + "," + tail == head + ("," + tail);
      assert (head + ("," + tail))[..|head|] == head;
      assert (head + ("," + tail))[|head| + 1..] == tail;
    }
  }

  /** The position of the first character that is not part of a register name or a number. */
  function NameLength(s: string): (n: nat)
    ensures n <= |s|
  {
    if s == "" || !IsNameChar(s[0]) then 0 else 1 + NameLength(s[1..])
  }

  predicate IsLower(c: char) { 'a' <= c <= 'z' }

  predicate IsUpper(c: char) { 'A' <= c <= 'Z' }

  predicate IsNameChar(c: char) {
    IsLower(c) || IsUpper(c) || '0' <= c <= '9'
  }

  lemma {:induction false} NameLengthConcat(a: string, b: string)
    requires (forall k :: 0 <= k < |a| ==> IsNameChar(a[k])) && (b == "" || !IsNameChar(b[0]))
    ensures NameLength(a + b) == |a|
  {
    if a == "" {
      assert a + b == b;
    } else {
      assert (a + b)[1..] == a[1..] + b;
      NameLengthConcat(a[1..], b);
    }
  }

  // ---- letter case ----

  function UpperChar(c: char): char {
    if IsLower(c) then (c as int - 32) as char else c
  }

  function LowerChar(c: char): char {
    if IsUpper(c) then (c as int + 32) as char else c
  }

  function ToUpper(s: string): (r: string)
    ensures |r| == |s| && forall k :: 0 <= k < |s| ==> r[k] == UpperChar(s[k])
  {
    seq(|s|, k requires 0 <= k < |s| => UpperChar(s[k]))
  }

  function ToLower(s: string): (r: string)
    ensures |r| == |s| && forall k :: 0 <= k < |s| ==> r[k] == LowerChar(s[k])
  {
    seq(|s|, k requires 0 <= k < |s| => LowerChar(s[k]))
  }

  /** A register name as the disassembler spells it. */
  predicate IsRegister(s: string) {
    s != "" && IsLower(s[0]) && forall k :: 0 <= k < |s| ==> IsLower(s[k]) || '0' <= s[k] <= '9'
  }

  lemma RegisterCase(s: string)
    requires IsRegister(s)
    ensures ToLower(ToUpper(s)) == s
  {
  }
}
