/** The string operations the program takes from Go's `strings` and `bufio` packages, on
    sequences of characters, with the laws the other modules need. */
module Text {

  predicate IsSpace(c: char) {
    || '\t' <= c <= '\r' || c == ' ' || c == '\U{85}' || c == '\U{A0}' || c == '\U{1680}'
    || '\U{2000}' <= c <= '\U{200A}' || c == '\U{2028}' || c == '\U{2029}' || c == '\U{202F}'
    || c == '\U{205F}' || c == '\U{3000}'
  }

  predicate IsDigit(c: char) {
    '0' <= c <= '9'
  }

  function DigitValue(c: char): nat
    requires IsDigit(c)
  {
    c as int - '0' as int
  }

  /** The number that decimal digits denote. */
  function DecimalValue(s: string): nat
    requires forall i :: 0 <= i < |s| ==> IsDigit(s[i])
  {
    if s == [] then 0 else 10 * DecimalValue(s[..|s| - 1]) + DigitValue(s[|s| - 1])
  }

  predicate HasPrefix(s: string, p: string) {
    |p| <= |s| && s[..|p|] == p
  }

  predicate HasSuffix(s: string, p: string) {
    |p| <= |s| && s[|s| - |p|..] == p
  }

  function TrimSuffix(s: string, p: string): string {
    if HasSuffix(s, p) then s[..|s| - |p|] else s
  }

  /** Lower case; only ASCII letters have one here. */
  function LowerChar(c: char): char {
    if 'A' <= c <= 'Z' then (c as int + 32) as char else c
  }

  function ToLower(s: string): (r: string)
    ensures |r| == |s| && forall i :: 0 <= i < |s| ==> r[i] == LowerChar(s[i])
  {
    seq(|s|, i requires 0 <= i < |s| => LowerChar(s[i]))
  }

  /** The capital letters become the small ones, and nothing else changes. */
  lemma LowerAlphabet(c: char)
    ensures ToLower("ABCDEFGHIJKLMNOPQRSTUVWXYZ") == "abcdefghijklmnopqrstuvwxyz"
    ensures !('A' <= c <= 'Z') ==> LowerChar(c) == c
  {
  }

  /** The number of leading characters that satisfy `cut`. */
  function Leading(s: string, cut: char -> bool): (n: nat)
    ensures n <= |s|
    ensures n < |s| ==> !cut(s[n])
  {
    if s != [] && cut(s[0]) then 1 + Leading(s[1..], cut) else 0
  }

  /** The number of trailing characters that satisfy `cut`. */
  function Trailing(s: string, cut: char -> bool): (n: nat)
    ensures n <= |s|
    ensures n < |s| ==> !cut(s[|s| - 1 - n])
  {
    if s != [] && cut(s[|s| - 1]) then 1 + Trailing(s[..|s| - 1], cut) else 0
  }

  function TrimLeft(s: string, cut: char -> bool): string {
    s[Leading(s, cut)..]
  }

  function TrimRight(s: string, cut: char -> bool): string {
    s[..|s| - Trailing(s, cut)]
  }

  function Trim(s: string, cut: char -> bool): string {
    TrimRight(TrimLeft(s, cut), cut)
  }

  function TrimSpace(s: string): string {
    Trim(s, IsSpace)
  }

  /** Trimming takes a contiguous part. */
  lemma TrimIsSlice(s: string, cut: char -> bool) returns (i: nat, j: nat)
    ensures i <= j <= |s| && Trim(s, cut) == s[i..j]
  {
    var l := TrimLeft(s, cut);
    i, j := Leading(s, cut), |s| - Trailing(l, cut);
    assert s[i..][..j - i] == s[i..j];
  }

  /** Trimming takes off exactly what is cut at both ends. */
  lemma TrimOf(left: string, s: string, right: string, cut: char -> bool)
    requires forall i :: 0 <= i < |left| ==> cut(left[i])
    requires forall i :: 0 <= i < |right| ==> cut(right[i])
    requires s != [] ==> !cut(s[0]) && !cut(s[|s| - 1])
    ensures Trim(left + s + right, cut) == s
  {
    if s == [] {
      AllLeading(left + right, [], cut);
      assert left + s + right == left + right + [];
    } else {
      AllLeading(left, s + right, cut);
      assert left + s + right == left + (s + right);
      assert (left + (s + right))[|left|..] == s + right;
      AllTrailing(s, right, cut);
    }
  }

  lemma {:induction false} AllLeading(left: string, s: string, cut: char -> bool)
    requires (forall i :: 0 <= i < |left| ==> cut(left[i])) && (s != [] ==> !cut(s[0]))
    ensures Leading(left + s, cut) == |left|
  {
    if left == [] {
      assert left + s == s;
    } else {
      assert (left + s)[1..] == left[1..] + s;
      AllLeading(left[1..], s, cut);
    }
  }

  lemma {:induction false} AllTrailing(s: string, right: string, cut: char -> bool)
    requires (forall i :: 0 <= i < |right| ==> cut(right[i])) && (s != [] ==> !cut(s[|s| - 1]))
    ensures TrimRight(s + right, cut) == s
  {
    if right == [] {
      assert s + right == s;
    } else {
      var n := |right| - 1;
      assert (s + right)[..|s + right| - 1] == s + right[..n];
      AllTrailing(s, right[..n], cut);
    }
  }

  lemma TrimSpaceNothing(s: string)
    requires s != [] && !IsSpace(s[0]) && !IsSpace(s[|s| - 1])
    ensures TrimSpace(s) == s
  {
  }

  /** What is left after trimming has no space at either end and no new character. */
  lemma TrimSpaceEnds(s: string)
    ensures
      var t := TrimSpace(s);
      && (t != [] ==> !IsSpace(t[0]) && !IsSpace(t[|t| - 1]))
      && forall c :: c in t ==> c in s
  {
    var i, j := TrimIsSlice(s, IsSpace);
    var l := TrimLeft(s, IsSpace);
    assert TrimSpace(s) == l[..|l| - Trailing(l, IsSpace)];
  }

  /** Splits at every `sep`; the result has one part more than `s` has separators. */
  function Split(s: string, sep: char): (parts: seq<string>)
    ensures parts != []
    ensures forall i :: 0 <= i < |parts| ==> sep !in parts[i]
  {
    if s == [] then [""]
    else
      var rest := Split(s[1..], sep);
      if s[0] == sep then [""] + rest else [[s[0]] + rest[0]] + rest[1..]
  }

  function Join(parts: seq<string>, sep: char): string {
    if parts == [] then ""
    else if |parts| == 1 then parts[0]
    else parts[0] + [sep] + Join(parts[1..], sep)
  }

  lemma {:induction false} SplitCons(part: string, s: string, sep: char)
    requires sep !in part
    ensures Split(part + [sep] + s, sep) == [part] + Split(s, sep)
  {
    if part == [] {
      assert (part + [sep] + s)[1..] == s;
    } else {
      SplitCons(part[1..], s, sep);
      assert (part + [sep] + s)[1..] == part[1..] + [sep] + s;
      assert [part[0]] + part[1..] == part;
    }
  }

  lemma {:induction false} SplitOne(part: string, sep: char)
    requires sep !in part
    ensures Split(part, sep) == [part]
  {
    if part == [] {
    } else {
      SplitOne(part[1..], sep);
      assert [part[0]] + part[1..] == part;
    }
  }

  /** Splitting undoes joining when no part contains the separator. */
  lemma {:induction false} SplitJoin(parts: seq<string>, sep: char)
    requires parts != [] && forall i :: 0 <= i < |parts| ==> sep !in parts[i]
    ensures Split(Join(parts, sep), sep) == parts
  {
    if |parts| == 1 {
      SplitOne(parts[0], sep);
    } else {
      SplitJoin(parts[1..], sep);
      SplitCons(parts[0], Join(parts[1..], sep), sep);
      assert [parts[0]] + parts[1..] == parts;
    }
  }

  /** Appending one line to a text of terminated lines. */
  lemma {:induction false} JoinLine(parts: seq<string>, line: string, sep: char)
    requires parts != []
    ensures Join(parts + [line, ""], sep) == Join(parts + [""], sep) + line + [sep]
  {
    if |parts| == 1 {
      assert (parts + [line, ""])[1..] == [line, ""];
      assert Join([line, ""], sep) == line + [sep] + "" == line + [sep];
      assert (parts + [""])[1..] == [""];
      assert Join(parts + [""], sep) == parts[0] + [sep] + "" == parts[0] + [sep];
    } else {
      JoinLine(parts[1..], line, sep);
      assert (parts + [line, ""])[1..] == parts[1..] + [line, ""];
      assert (parts + [""])[1..] == parts[1..] + [""];
      assert parts[0] + [sep] + (Join(parts[1..] + [""], sep) + line + [sep])
          == (parts[0] + [sep] + Join(parts[1..] + [""], sep)) + line + [sep];
    }
  }

  function DropCR(s: string): string {
    if s != [] && s[|s| - 1] == '\r' then s[..|s| - 1] else s
  }

  /** The tokens of a line scanner: an unterminated last line counts only if it is not empty. */
  function ScanLines(s: string): seq<string> {
    var parts := Split(s, '\n');
    var n := if parts[|parts| - 1] == [] then |parts| - 1 else |parts|;
    seq(n, i requires 0 <= i < n => DropCR(parts[i]))
  }

  /** The number of leading characters that are not spaces. */
  function TokenLength(s: string): (n: nat)
    ensures n <= |s|
    ensures forall i :: 0 <= i < n ==> !IsSpace(s[i])
    ensures n < |s| ==> IsSpace(s[n])
  {
    if s == [] || IsSpace(s[0]) then 0 else 1 + TokenLength(s[1..])
  }

  /** The maximal space-free pieces of `s`, in order. */
  function Fields(s: string): seq<string>
    decreases |s|
  {
    if s == [] then []
    else if IsSpace(s[0]) then Fields(s[1..])
    else
      var n := TokenLength(s);
      [s[..n]] + Fields(s[n..])
  }

  lemma {:induction false} FieldsHaveNoSpaces(s: string)
    ensures forall k :: 0 <= k < |Fields(s)| ==>
      Fields(s)[k] != [] && forall c :: c in Fields(s)[k] ==> !IsSpace(c)
    decreases |s|
  {
    if s == [] {
    } else if IsSpace(s[0]) {
      FieldsHaveNoSpaces(s[1..]);
    } else {
      FieldsHaveNoSpaces(s[TokenLength(s)..]);
    }
  }

  lemma FieldsOfTwo(a: string, b: string)
    requires a != [] && b != []
    requires forall i :: 0 <= i < |a| ==> !IsSpace(a[i])
    requires forall i :: 0 <= i < |b| ==> !IsSpace(b[i])
    ensures Fields(a + " " + b) == [a, b]
  {
    var s := a + " " + b;
    assert s[|a|] == ' ' && s[0] == a[0];
    var n := TokenLength(s);
    assert forall i :: 0 <= i < |a| ==> s[i] == a[i];
    assert n == |a|;
    assert s[..n] == a && s[n..] == " " + b && (" " + b)[1..] == b;
    assert TokenLength(b) == |b| && b[..|b|] == b && b[|b|..] == [];
    assert Fields(b) == [b];
  }

  predicate Contains(s: string, p: string)
    decreases |s|
  {
    HasPrefix(s, p) || (s != [] && Contains(s[1..], p))
  }

  /** What `read` finds in the lines, in order, leaving out the lines in which it finds nothing. */
  function Collected(lines: seq<string>, read: string -> string): seq<string> {
    if lines == [] then []
    else
      var rest := Collected(lines[..|lines| - 1], read);
      var found := read(lines[|lines| - 1]);
      if found == [] then rest else rest + [found]
  }

  lemma {:induction false} CollectedAre(lines: seq<string>, read: string -> string, x: string)
    ensures x in Collected(lines, read) <==> x != [] && exists i :: 0 <= i < |lines| && read(lines[i]) == x
  {
    if lines == [] {
    } else {
      var n := |lines| - 1;
      CollectedAre(lines[..n], read, x);
      assert forall i :: 0 <= i < n ==> lines[..n][i] == lines[i];
    }
  }
}
