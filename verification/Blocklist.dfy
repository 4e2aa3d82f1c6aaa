/** The blocklist pattern pipeline: normalisation, the two parsers, the merge of several
    sources, and the persisted copy of the merged list. */
module Blocklist {
  import opened Basics
  import opened Text

  predicate IsAlphanumeric(c: char) {
    'a' <= c <= 'z' || 'A' <= c <= 'Z' || '0' <= c <= '9'
  }

  /** Strips the backslash from every escaped character that is not alphanumeric. */
  function Unescape(p: string): string {
    if p == [] then []
    else if |p| >= 2 && p[0] == '\\' && !IsAlphanumeric(p[1]) then [p[1]] + Unescape(p[2..])
    else [p[0]] + Unescape(p[1..])
  }

  /** A pattern as a regular expression writes it: characters, some of them escaped. */
  datatype Token = Plain(c: char) | Escaped(c: char)

  function WrittenOne(token: Token): string {
    match token
    case Plain(c) => [c]
    case Escaped(c) => ['\\', c]
  }

  /** What is left of it: an escaped letter or digit is a character class and stays as it is, any
      other escaped character stands for itself. */
  function MeantOne(token: Token): string {
    match token
    case Plain(c) => [c]
    case Escaped(c) => if IsAlphanumeric(c) then ['\\', c] else [c]
  }

  function Spelled(tokens: seq<Token>, one: Token -> string): string {
    if tokens == [] then [] else one(tokens[0]) + Spelled(tokens[1..], one)
  }

  lemma {:induction false} UnescapeMeans(tokens: seq<Token>)
    requires forall i :: 0 <= i < |tokens| && tokens[i].Plain? ==> tokens[i].c != '\\'
    ensures Unescape(Spelled(tokens, WrittenOne)) == Spelled(tokens, MeantOne)
  {
    if tokens == [] {
    } else {
      UnescapeMeans(tokens[1..]);
      UnescapeOne(tokens[0], Spelled(tokens[1..], WrittenOne));
    }
  }

  lemma UnescapeOne(token: Token, rest: string)
    requires token.Plain? ==> token.c != '\\'
    ensures Unescape(WrittenOne(token) + rest) == MeantOne(token) + Unescape(rest)
  {
    match token
    case Plain(c) =>
      UnescapePlain(c, rest);
    case Escaped(c) =>
      var p := ['\\', c] + rest;
      assert p[1..] == [c] + rest && p[2..] == rest;
      if IsAlphanumeric(c) {
        UnescapePlain(c, rest);
        assert ['\\'] + ([c] + Unescape(rest)) == ['\\', c] + Unescape(rest);
      }
  }

  lemma UnescapePlain(c: char, rest: string)
    requires c != '\\'
    ensures Unescape([c] + rest) == [c] + Unescape(rest)
  {
    var p := [c] + rest;
    assert p[0] == c && p[1..] == rest;
  }

  lemma {:induction false} SpelledConcat(a: seq<Token>, b: seq<Token>, one: Token -> string)
    ensures Spelled(a + b, one) == Spelled(a, one) + Spelled(b, one)
  {
    if a == [] {
      assert a + b == b;
    } else {
      assert (a + b)[0] == a[0] && (a + b)[1..] == a[1..] + b;
      SpelledConcat(a[1..], b, one);
      assert one(a[0]) + (Spelled(a[1..], one) + Spelled(b, one)) == one(a[0]) + Spelled(a[1..], one) + Spelled(b, one);
    }
  }

  ghost predicate HasPair(s: string, a: char, b: char) {
    exists i, j :: 0 <= i < j < |s| && j == i + 1 && s[i] == a && s[j] == b
  }

  /** Removes the non-overlapping occurrences of the two characters, left to right. */
  function RemovePair(s: string, a: char, b: char): (r: string)
    ensures |r| <= |s| && (|r| == |s| ==> r == s)
  {
    if |s| >= 2 && s[0] == a && s[1] == b then RemovePair(s[2..], a, b)
    else if s == [] then []
    else [s[0]] + RemovePair(s[1..], a, b)
  }

  lemma {:induction false} UnchangedLacksPair(s: string, a: char, b: char)
    requires RemovePair(s, a, b) == s
    ensures !HasPair(s, a, b)
  {
    if s == [] {
    } else {
      assert RemovePair(s, a, b) == [s[0]] + RemovePair(s[1..], a, b);
      assert RemovePair(s[1..], a, b) == s[1..];
      UnchangedLacksPair(s[1..], a, b);
      forall i, j | 0 <= i < j < |s| && j == i + 1 ensures !(s[i] == a && s[j] == b) {
        if i > 0 {
          assert s[1..][i - 1] == s[i] && s[1..][j - 1] == s[j];
        }
      }
    }
  }

  lemma {:induction false} LackingPairUnchanged(s: string, a: char, b: char)
    requires !HasPair(s, a, b)
    ensures RemovePair(s, a, b) == s
  {
    if s == [] {
    } else {
      assert s[1..] == s[1..|s|];
      SliceLacksPair(s, 1, |s|, a, b);
      LackingPairUnchanged(s[1..], a, b);
    }
  }

  /** The first pair goes, and what stands before it stays. */
  lemma {:induction false} RemovesFirstPair(before: string, rest: string, a: char, b: char)
    requires !HasPair(before + [a], a, b)
    ensures RemovePair(before + [a, b] + rest, a, b) == before + RemovePair(rest, a, b)
  {
    var s := before + [a, b] + rest;
    if before == [] {
      assert s == [a, b] + rest && s[2..] == rest;
    } else {
      assert s[1..] == before[1..] + [a, b] + rest;
      assert (before + [a])[1..|before + [a]|] == before[1..] + [a];
      SliceLacksPair(before + [a], 1, |before + [a]|, a, b);
      assert (before + [a])[0] == s[0] && (before + [a])[1] == s[1];
      RemovesFirstPair(before[1..], rest, a, b);
    }
  }

  function RemoveWildcards(s: string): (r: string)
    ensures |r| <= |s| && (|r| == |s| ==> r == s)
  {
    RemovePair(RemovePair(s, '.', '*'), '.', '+')
  }

  /** Removes wildcards until there is nothing left to remove. */
  function WithoutWildcards(s: string): string
    decreases |s|
  {
    var t := RemoveWildcards(s);
    if t == s then s else WithoutWildcards(t)
  }

  predicate IsCaret(c: char) { c == '^' }
  predicate IsDollar(c: char) { c == '$' }
  predicate IsAnchor(c: char) { c == '^' || c == '$' }

  function Normalized(p: string): string {
    Trim(TrimSpace(WithoutWildcards(TrimRight(TrimLeft(Unescape(p), IsCaret), IsDollar))), IsAnchor)
  }

  method NormalizePatternForSubstring(pattern: string) returns (p: string)
    ensures p == Normalized(pattern)
    ensures !HasPair(p, '.', '*') && !HasPair(p, '.', '+')
    ensures Within(p, pattern)
  {
    p := Unescape(pattern);
    p := TrimLeft(p, IsCaret);
    p := TrimRight(p, IsDollar);
    ghost var start := p;
    while true
      invariant WithoutWildcards(p) == WithoutWildcards(start)
      decreases |p|
    {
      var prev := p;
      p := RemovePair(p, '.', '*');
      p := RemovePair(p, '.', '+');
      if p == prev {
        break;
      }
      assert |RemoveWildcards(prev)| <= |prev|;
    }
    p := TrimSpace(p);
    p := Trim(p, IsAnchor);
    NormalizedIsFree(pattern);
  }

  /** `t` has only characters of `s`. */
  ghost predicate Within(t: string, s: string) {
    forall i :: 0 <= i < |t| ==> t[i] in s
  }

  lemma {:induction false} UnescapeWithin(p: string)
    ensures Within(Unescape(p), p)
  {
    if p == [] {
    } else if |p| >= 2 && p[0] == '\\' && !IsAlphanumeric(p[1]) {
      UnescapeWithin(p[2..]);
    } else {
      UnescapeWithin(p[1..]);
    }
  }

  lemma {:induction false} RemovePairWithin(s: string, a: char, b: char)
    ensures Within(RemovePair(s, a, b), s)
  {
    if |s| >= 2 && s[0] == a && s[1] == b {
      RemovePairWithin(s[2..], a, b);
    } else if s != [] {
      RemovePairWithin(s[1..], a, b);
    }
  }

  lemma {:induction false} WildcardsGone(s: string)
    ensures Within(WithoutWildcards(s), s)
    ensures !HasPair(WithoutWildcards(s), '.', '*') && !HasPair(WithoutWildcards(s), '.', '+')
    decreases |s|
  {
    var u := RemovePair(s, '.', '*');
    var t := RemovePair(u, '.', '+');
    if t == s {
      assert u == s;
      UnchangedLacksPair(s, '.', '*');
      UnchangedLacksPair(s, '.', '+');
    } else {
      RemovePairWithin(s, '.', '*');
      RemovePairWithin(u, '.', '+');
      WildcardsGone(t);
    }
  }

  lemma SliceLacksPair(s: string, i: nat, j: nat, a: char, b: char)
    requires i <= j <= |s| && !HasPair(s, a, b)
    ensures !HasPair(s[i..j], a, b)
  {
    var t := s[i..j];
    forall k, l | 0 <= k < l < |t| && l == k + 1 ensures !(t[k] == a && t[l] == b) {
      assert t[k] == s[i + k] && t[l] == s[i + l];
    }
  }

  lemma TrimKeeps(s: string, cut: char -> bool)
    ensures Within(Trim(s, cut), s)
    ensures !HasPair(s, '.', '*') ==> !HasPair(Trim(s, cut), '.', '*')
    ensures !HasPair(s, '.', '+') ==> !HasPair(Trim(s, cut), '.', '+')
  {
    var i, j := TrimIsSlice(s, cut);
    if !HasPair(s, '.', '*') {
      SliceLacksPair(s, i, j, '.', '*');
    }
    if !HasPair(s, '.', '+') {
      SliceLacksPair(s, i, j, '.', '+');
    }
  }

  /** No normalised pattern contains a wildcard, and none gains a character (a line end, say). */
  lemma NormalizedIsFree(pattern: string)
    ensures !HasPair(Normalized(pattern), '.', '*') && !HasPair(Normalized(pattern), '.', '+')
    ensures Within(Normalized(pattern), pattern)
  {
    var plain := Unescape(pattern);
    var anchored := TrimRight(TrimLeft(plain, IsCaret), IsDollar);
    var s := WithoutWildcards(anchored);
    UnescapeWithin(pattern);
    WildcardsGone(anchored);
    TrimKeeps(s, IsSpace);
    TrimKeeps(TrimSpace(s), IsAnchor);
  }

  /** A literal without escapes, wildcards, or anchors and spaces at its ends. */
  ghost predicate Literal(p: string) {
    && p != [] && '\\' !in p
    && !HasPair(p, '.', '*') && !HasPair(p, '.', '+')
    && !IsSpace(p[0]) && !IsSpace(p[|p| - 1]) && !IsAnchor(p[0]) && !IsAnchor(p[|p| - 1])
  }

  lemma {:induction false} UnescapeNothing(p: string)
    requires '\\' !in p
    ensures Unescape(p) == p
  {
    if p == [] {
    } else {
      UnescapeNothing(p[1..]);
    }
  }

  /** Normalisation leaves plain literals alone. */
  lemma NormalizedLiteral(p: string)
    requires Literal(p)
    ensures Normalized(p) == p
  {
    UnescapeNothing(p);
    LackingPairUnchanged(p, '.', '*');
    LackingPairUnchanged(p, '.', '+');
    assert WithoutWildcards(p) == p;
    TrimNothing(p, IsCaret);
    TrimNothing(p, IsDollar);
    TrimNothing(p, IsSpace);
    TrimNothing(p, IsAnchor);
  }

  /** An anchored pattern with all its special characters escaped becomes the literal it stands for. */
  lemma NormalizedQuoted(p: string)
    requires p != [] && !HasPair(p, '.', '*') && !HasPair(p, '.', '+')
    requires !IsSpace(p[0]) && !IsSpace(p[|p| - 1]) && !IsAnchor(p[0]) && !IsAnchor(p[|p| - 1])
    ensures Normalized("^" + Spelled(Quoted(p), WrittenOne) + "$") == p
  {
    UnescapeAnchored(p);
    TrimLeftOf("^", p + "$", IsCaret);
    assert "^" + p + "$" == "^" + (p + "$");
    AllTrailing(p, "$", IsDollar);
    LackingPairUnchanged(p, '.', '*');
    LackingPairUnchanged(p, '.', '+');
    assert WithoutWildcards(p) == p;
    TrimNothing(p, IsSpace);
    TrimNothing(p, IsAnchor);
  }

  lemma UnescapeAnchored(p: string)
    ensures Unescape("^" + Spelled(Quoted(p), WrittenOne) + "$") == "^" + p + "$"
  {
    var a, b, q := [Plain('^')], [Plain('$')], Quoted(p);
    QuotedMeans(p);
    UnescapeMeans(a + q + b);
    AnchoredSpelling(q, WrittenOne);
    AnchoredSpelling(q, MeantOne);
  }

  lemma AnchoredSpelling(q: seq<Token>, one: Token -> string)
    requires one(Plain('^')) == "^" && one(Plain('$')) == "$"
    ensures Spelled([Plain('^')] + q + [Plain('$')], one) == "^" + Spelled(q, one) + "$"
  {
    var a, b := [Plain('^')], [Plain('$')];
    SpelledConcat(a + q, b, one);
    SpelledConcat(a, q, one);
    assert a[1..] == [] && b[1..] == [];
    assert Spelled(a, one) == "^" + [] == "^" && Spelled(b, one) == "$" + [] == "$";
  }

  lemma TrimLeftOf(left: string, s: string, cut: char -> bool)
    requires (forall i :: 0 <= i < |left| ==> cut(left[i])) && s != [] && !cut(s[0])
    ensures TrimLeft(left + s, cut) == s
  {
    AllLeading(left, s, cut);
  }

  /** Every character that is not a letter or digit, escaped. */
  function Quoted(p: string): (tokens: seq<Token>)
    ensures |tokens| == |p|
    ensures forall i :: 0 <= i < |p| ==> tokens[i] == if IsAlphanumeric(p[i]) then Plain(p[i]) else Escaped(p[i])
  {
    seq(|p|, i requires 0 <= i < |p| => if IsAlphanumeric(p[i]) then Plain(p[i]) else Escaped(p[i]))
  }

  lemma {:induction false} QuotedMeans(p: string)
    ensures Spelled(Quoted(p), MeantOne) == p
  {
    if p == [] {
    } else {
      assert Quoted(p)[1..] == Quoted(p[1..]);
      QuotedMeans(p[1..]);
    }
  }

  lemma TrimNothing(p: string, cut: char -> bool)
    requires p != [] && !cut(p[0]) && !cut(p[|p| - 1])
    ensures TrimLeft(p, cut) == TrimRight(p, cut) == Trim(p, cut) == p
  {
  }

  /** What every parsed pattern is: matchable, storable on one line, lower case, wildcard-free. */
  ghost predicate Clean(p: string) {
    && p != [] && '\n' !in p
    && !HasPair(p, '.', '*') && !HasPair(p, '.', '+')
    && ToLower(p) == p
  }

  ghost predicate AllClean(ps: seq<string>) {
    forall i :: 0 <= i < |ps| ==> Clean(ps[i])
  }

  lemma LowerIsClean(p: string)
    requires p != [] && '\n' !in p && !HasPair(p, '.', '*') && !HasPair(p, '.', '+')
    ensures Clean(ToLower(p))
  {
    var r := ToLower(p);
    assert forall i :: 0 <= i < |r| ==> r[i] == LowerChar(p[i]);
    forall k, l | 0 <= k < l < |r| && l == k + 1 ensures !(r[k] == '.' && (r[l] == '*' || r[l] == '+')) {
      assert r[k] == LowerChar(p[k]) && r[l] == LowerChar(p[l]);
    }
    assert ToLower(r) == r;
  }

  /** One pattern per candidate that normalises to something, lower-cased, in order. */
  function Patterns(candidates: seq<string>): seq<string> {
    if candidates == [] then []
    else
      var rest := Patterns(candidates[..|candidates| - 1]);
      var p := Normalized(candidates[|candidates| - 1]);
      if p == [] then rest else rest + [ToLower(p)]
  }

  lemma PatternsGrow(cs: seq<string>, c: string)
    ensures Patterns(cs + [c]) == Patterns(cs) + if Normalized(c) == [] then [] else [ToLower(Normalized(c))]
  {
    assert (cs + [c])[..|cs|] == cs;
  }

  lemma PatternsStep(cs: seq<string>, i: nat)
    requires i < |cs|
    ensures Patterns(cs[..i + 1]) ==
      Patterns(cs[..i]) + if Normalized(cs[i]) == [] then [] else [ToLower(Normalized(cs[i]))]
  {
    assert cs[..i] + [cs[i]] == cs[..i + 1];
    PatternsGrow(cs[..i], cs[i]);
  }

  /** Every pattern that comes from one-line candidates is clean. */
  lemma {:induction false} PatternsAreClean(candidates: seq<string>)
    requires forall i :: 0 <= i < |candidates| ==> '\n' !in candidates[i]
    ensures AllClean(Patterns(candidates))
  {
    if candidates == [] {
    } else {
      var n := |candidates| - 1;
      PatternsAreClean(candidates[..n]);
      PatternIsClean(candidates[n]);
      PatternsStep(candidates, n);
      assert candidates[..n + 1] == candidates;
    }
  }

  lemma PatternIsClean(candidate: string)
    requires '\n' !in candidate
    ensures Normalized(candidate) != [] ==> Clean(ToLower(Normalized(candidate)))
  {
    NormalizedIsFree(candidate);
    if Normalized(candidate) != [] {
      LowerIsClean(Normalized(candidate));
    }
  }

  lemma {:induction false} PlainCandidatesOneLine(lines: seq<string>)
    requires forall i :: 0 <= i < |lines| ==> '\n' !in lines[i]
    ensures forall i :: 0 <= i < |PlainCandidates(lines)| ==> '\n' !in PlainCandidates(lines)[i]
  {
    if lines == [] {
    } else {
      PlainCandidatesOneLine(lines[..|lines| - 1]);
      TrimKeeps(lines[|lines| - 1], IsSpace);
    }
  }

  lemma PlainCandidatesGrow(lines: seq<string>, i: nat)
    requires i < |lines|
    ensures
      var s := TrimSpace(lines[i]);
      PlainCandidates(lines[..i + 1]) ==
      PlainCandidates(lines[..i]) + if s == [] || HasPrefix(s, "#") then [] else [s]
  {
    assert lines[..i + 1][..i] == lines[..i];
  }

  /** The trimmed lines that are neither blank nor comments. */
  function PlainCandidates(lines: seq<string>): seq<string> {
    if lines == [] then []
    else
      var rest := PlainCandidates(lines[..|lines| - 1]);
      var s := TrimSpace(lines[|lines| - 1]);
      if s == [] || HasPrefix(s, "#") then rest else rest + [s]
  }

  /** The candidate in a line: the trimmed line, unless it is a comment. */
  function CandidateIn(line: string): string {
    var s := TrimSpace(line);
    if s != "" && s[0] == '#' then "" else s
  }

  /** The pattern of a candidate, or "" when it normalises to nothing. */
  function PatternOf(candidate: string): string {
    ToLower(Normalized(candidate))
  }

  function CandidateReader(): string -> string {
    (line: string) => CandidateIn(line)
  }

  function PatternReader(): string -> string {
    (candidate: string) => PatternOf(candidate)
  }

  lemma {:induction false} PlainCandidatesCollected(lines: seq<string>)
    ensures PlainCandidates(lines) == Collected(lines, CandidateReader())
  {
    if lines == [] {
    } else {
      var n := |lines| - 1;
      PlainCandidatesCollected(lines[..n]);
      var s := TrimSpace(lines[n]);
      assert CandidateReader()(lines[n]) == CandidateIn(lines[n]);
      assert s != "" ==> (HasPrefix(s, "#") <==> s[0] == '#');
    }
  }

  lemma {:induction false} PatternsCollected(candidates: seq<string>)
    ensures Patterns(candidates) == Collected(candidates, PatternReader())
  {
    if candidates == [] {
    } else {
      var n := |candidates| - 1;
      PatternsCollected(candidates[..n]);
      PatternsStep(candidates, n);
      assert candidates[..n + 1] == candidates;
      assert PatternReader()(candidates[n]) == PatternOf(candidates[n]);
    }
  }

  /** The candidates are exactly the trimmed lines that are neither empty nor comments, and the
      patterns exactly the lower-case forms of the candidates that normalise to something. */
  lemma PlainPatternsAre(lines: seq<string>, x: string)
    ensures x in PlainCandidates(lines) <==> x != "" && exists i :: 0 <= i < |lines| && CandidateIn(lines[i]) == x
    ensures x in Patterns(lines) <==> x != "" && exists i :: 0 <= i < |lines| && PatternOf(lines[i]) == x
  {
    PlainCandidatesCollected(lines);
    PatternsCollected(lines);
    CollectedAre(lines, CandidateReader(), x);
    CollectedAre(lines, PatternReader(), x);
    assert forall i :: 0 <= i < |lines| ==> CandidateReader()(lines[i]) == CandidateIn(lines[i]);
    assert forall i :: 0 <= i < |lines| ==> PatternReader()(lines[i]) == PatternOf(lines[i]);
  }

  method ParsePlainText(data: string) returns (result: seq<string>)
    ensures AllClean(result)
    ensures result == Patterns(PlainCandidates(Split(data, '\n')))
  {
    result := [];
    var lines := Split(data, '\n');
    for i := 0 to |lines|
      invariant result == Patterns(PlainCandidates(lines[..i]))
    {
      PlainStep(lines, i);
      var s := TrimSpace(lines[i]);
      if s == [] || HasPrefix(s, "#") {
        continue;
      }
      s := NormalizePatternForSubstring(s);
      if s == [] {
        continue;
      }
      result := result + [ToLower(s)];
    }
    assert lines[..|lines|] == lines;
    PlainAreClean(data);
  }

  lemma PlainAreClean(data: string)
    ensures AllClean(Patterns(PlainCandidates(Split(data, '\n'))))
  {
    PlainCandidatesOneLine(Split(data, '\n'));
    PatternsAreClean(PlainCandidates(Split(data, '\n')));
  }

  /** What one more line adds to the patterns. */
  lemma PlainStep(lines: seq<string>, i: nat)
    requires i < |lines|
    ensures
      var s := TrimSpace(lines[i]);
      var blank := s == [] || HasPrefix(s, "#");
      Patterns(PlainCandidates(lines[..i + 1])) ==
      Patterns(PlainCandidates(lines[..i])) +
      if blank || Normalized(s) == [] then [] else [ToLower(Normalized(s))]
  {
    PlainCandidatesGrow(lines, i);
    var cs, s := PlainCandidates(lines[..i]), TrimSpace(lines[i]);
    if s == [] || HasPrefix(s, "#") {
      assert PlainCandidates(lines[..i + 1]) == cs;
    } else {
      PatternsGrow(cs, s);
    }
  }

  /** The delimiter of nginx map entries. */
  const MARK: string := ['(', '?', ':', '\\', 'b', ')']

  /** The first position at or after `i` where a mark starts with no line end before it, or
      beyond the text when there is none. */
  function CaptureEnd(s: string, i: nat): (e: nat)
    requires 0 < i
    ensures e <= |s| ==> i <= e && HasPrefix(s[e..], MARK) && forall k :: i - 1 <= k < e ==> s[k] != '\n'
    ensures e <= |s| ==> forall k :: i <= k < e ==> !HasPrefix(s[k..], MARK)
    decreases |s| - i
  {
    if i >= |s| || s[i - 1] == '\n' then |s| + 1
    else if HasPrefix(s[i..], MARK) then i
    else CaptureEnd(s, i + 1)
  }

  /** The shortest non-empty one-line texts between two marks, left to right without overlap. */
  function Captures(s: string): (r: seq<string>)
    ensures forall i :: 0 <= i < |r| ==> r[i] != [] && '\n' !in r[i]
    decreases |s|
  {
    if |s| <= |MARK| then []
    else
      var e := CaptureEnd(s, |MARK| + 1);
      if HasPrefix(s, MARK) && e <= |s| then [s[|MARK|..e]] + Captures(s[e + |MARK|..])
      else Captures(s[1..])
  }

  /** No mark starts behind the first character of the name. */
  ghost predicate MarkFree(name: string) {
    forall k :: 1 <= k < |name| ==> !HasPrefix(name[k..], MARK)
  }

  /** A mark behind `a` creates no mark inside it. */
  lemma NoMarkAcross(a: string, rest: string, k: nat)
    requires k < |a| && !HasPrefix(a[k..], MARK)
    ensures !HasPrefix((a + MARK + rest)[k..], MARK)
  {
    var t, n := (a + MARK + rest)[k..], |a| - k;
    if n < |MARK| {
      assert t[..|MARK|][n] == t[n] == MARK[0] && MARK[n] != MARK[0];
    } else {
      assert t[..|MARK|] == a[k..][..|MARK|];
    }
  }

  /** The entry format the parser is for: behind a text without marks, the name between two marks
      is captured as a whole if and only if no mark starts behind its first character, and then
      scanning goes on behind it. */
  lemma {:induction false} EntryIsCaptured(pre: string, name: string, rest: string, mark: string)
    requires name != [] && '\n' !in name && mark == "(?:\\b)" && !Contains(pre, mark)
    ensures
      var found := Captures(pre + mark + name + mark + rest);
      && (found != [] && found[0] == name <==> MarkFree(name))
      && (MarkFree(name) ==> found == [name] + Captures(rest))
    decreases |pre|
  {
    var s := pre + MARK + name + MARK + rest;
    assert mark == MARK;
    if pre == [] {
      assert s == MARK + name + MARK + rest;
      FirstCapture(name, rest);
    } else {
      NoMarkAcross(pre, name + MARK + rest, 0);
      assert pre[0..] == pre && s[0..] == s;
      assert s == pre + MARK + (name + MARK + rest);
      assert s[1..] == pre[1..] + MARK + name + MARK + rest;
      EntryIsCaptured(pre[1..], name, rest, mark);
    }
  }

  lemma FirstCapture(name: string, rest: string)
    requires name != [] && '\n' !in name
    ensures
      var found := Captures(MARK + name + MARK + rest);
      && (found != [] && found[0] == name <==> MarkFree(name))
      && (MarkFree(name) ==> found == [name] + Captures(rest))
  {
    var s := MARK + name + MARK + rest;
    assert s[..|MARK|] == MARK;
    if MarkFree(name) {
      WholeCapture(name, rest);
    } else {
      CutCapture(name, rest);
    }
  }

  lemma WholeCapture(name: string, rest: string)
    requires name != [] && '\n' !in name && MarkFree(name)
    ensures
      var s, e := MARK + name + MARK + rest, |MARK| + |name|;
      CaptureEnd(s, |MARK| + 1) == e && s[|MARK|..e] == name && s[e + |MARK|..] == rest
  {
    var s, e := MARK + name + MARK + rest, |MARK| + |name|;
    assert s[e..] == MARK + rest && s[e..][..|MARK|] == MARK;
    assert forall k :: |MARK| <= k < e ==> s[k] == name[k - |MARK|];
    forall k | |MARK| < k < e ensures !HasPrefix(s[k..], MARK) {
      NoMarkAcross(name, rest, k - |MARK|);
      assert s[k..] == (name + MARK + rest)[k - |MARK|..];
    }
    CaptureEndIs(s, |MARK| + 1, e);
  }

  lemma CutCapture(name: string, rest: string)
    requires '\n' !in name && !MarkFree(name)
    ensures CaptureEnd(MARK + name + MARK + rest, |MARK| + 1) < |MARK| + |name|
  {
    var s := MARK + name + MARK + rest;
    assert forall k :: |MARK| <= k < |MARK| + |name| ==> s[k] == name[k - |MARK|];
    var k :| 1 <= k < |name| && HasPrefix(name[k..], MARK);
    assert s[|MARK| + k..][..|MARK|] == name[k..][..|MARK|];
    CaptureEndsBy(s, |MARK| + 1, |MARK| + k);
  }

  /** The capture ends at the first mark at the latest. */
  lemma {:induction false} CaptureEndsBy(s: string, i: nat, m: nat)
    requires 0 < i <= m < |s| && HasPrefix(s[m..], MARK) && forall k :: i - 1 <= k < m ==> s[k] != '\n'
    ensures CaptureEnd(s, i) <= m
    decreases m - i
  {
    if i == m || HasPrefix(s[i..], MARK) {
    } else {
      CaptureEndsBy(s, i + 1, m);
    }
  }

  lemma {:induction false} CaptureEndIs(s: string, i: nat, e: nat)
    requires 0 < i <= e <= |s| - |MARK| && HasPrefix(s[e..], MARK)
    requires forall k :: i - 1 <= k < e ==> s[k] != '\n'
    requires forall k :: i <= k < e ==> !HasPrefix(s[k..], MARK)
    ensures CaptureEnd(s, i) == e
    decreases e - i
  {
    if i >= e {
    } else {
      CaptureEndIs(s, i + 1, e);
    }
  }

  method ParseNginxMap(data: string) returns (result: seq<string>)
    ensures AllClean(result)
    ensures result == Patterns(Captures(data))
  {
    result := [];
    var matches := Captures(data);
    for i := 0 to |matches|
      invariant result == Patterns(matches[..i])
    {
      PatternsStep(matches, i);
      var s := NormalizePatternForSubstring(matches[i]);
      if s == [] {
        continue;
      }
      result := result + [ToLower(s)];
    }
    assert matches[..|matches|] == matches;
    PatternsAreClean(matches);
  }

  /** Keeps an element unless it occurred before. */
  function FirstSeen(s: seq<string>): seq<string> {
    if s == [] then []
    else
      var rest := FirstSeen(s[..|s| - 1]);
      if s[|s| - 1] in rest then rest else rest + [s[|s| - 1]]
  }

  /** The kept elements are exactly the given ones, each once. */
  lemma {:induction false} FirstSeenDistinct(s: seq<string>)
    ensures forall x :: x in FirstSeen(s) <==> x in s
    ensures forall i, j :: 0 <= i < j < |FirstSeen(s)| ==> FirstSeen(s)[i] != FirstSeen(s)[j]
  {
    if s == [] {
    } else {
      FirstSeenDistinct(s[..|s| - 1]);
      assert s == s[..|s| - 1] + [s[|s| - 1]];
    }
  }

  /** The position of the first occurrence. */
  function FirstIndex(s: seq<string>, x: string): (i: nat)
    requires x in s
    ensures i < |s| && s[i] == x && forall j :: 0 <= j < i ==> s[j] != x
  {
    if s[0] == x then 0 else 1 + FirstIndex(s[1..], x)
  }

  /** The kept elements stand in the order in which they first occurred. */
  lemma {:induction false} FirstSeenOrder(s: seq<string>, i: nat, j: nat)
    requires i < j < |FirstSeen(s)|
    ensures FirstSeen(s)[i] in s && FirstSeen(s)[j] in s
    ensures FirstIndex(s, FirstSeen(s)[i]) < FirstIndex(s, FirstSeen(s)[j])
  {
    var n := |s| - 1;
    var rest, r := FirstSeen(s[..n]), FirstSeen(s);
    FirstSeenDistinct(s);
    FirstSeenDistinct(s[..n]);
    assert forall x :: x in s[..n] ==> FirstIndex(s, x) == FirstIndex(s[..n], x) < n by {
      forall x | x in s[..n] ensures FirstIndex(s, x) == FirstIndex(s[..n], x) {
        FirstIndexPrefix(s, n, x);
      }
    }
    if j < |rest| {
      FirstSeenOrder(s[..n], i, j);
    } else {
      assert r[j] == s[n] && s[n] !in s[..n] && r[i] == rest[i];
      assert forall k :: 0 <= k < n ==> s[k] in s[..n];
    }
  }

  lemma FirstIndexPrefix(s: seq<string>, n: nat, x: string)
    requires n <= |s| && x in s[..n]
    ensures FirstIndex(s, x) == FirstIndex(s[..n], x)
  {
    var i := FirstIndex(s[..n], x);
    assert s[i] == x && forall j :: 0 <= j < i ==> s[..n][j] == s[j];
  }

  /** One configured source: its URL, its declared format, and what the fetch returned. */
  datatype Source = Source(url: string, format: string, body: Option<string>)

  function ParsedAs(format: string, data: string): Option<seq<string>> {
    if format == "plain_text" then Some(Patterns(PlainCandidates(Split(data, '\n'))))
    else if format == "nginx_map" then Some(Patterns(Captures(data)))
    else None
  }

  /** The patterns a source contributes: none when it is unusable, and those of the map format
      when its own parser finds none. */
  function SourcePatterns(src: Source): seq<string> {
    if src.url == "" || ParsedAs(src.format, "").None? || src.body.None? then []
    else
      var own := ParsedAs(src.format, src.body.value).value;
      if own == [] then Patterns(Captures(src.body.value)) else own
  }

  /** All contributed patterns, in source order, with repetitions. */
  function Gathered(sources: seq<Source>): seq<string> {
    if sources == [] then []
    else Gathered(sources[..|sources| - 1]) + SourcePatterns(sources[|sources| - 1])
  }

  method ParseSource(src: Source) returns (patterns: seq<string>)
    ensures patterns == SourcePatterns(src)
    ensures src.url == "" || src.body.None? || src.format !in {"plain_text", "nginx_map"} ==> patterns == []
    ensures src.url != "" && src.body.Some? ==>
      var plain, entries := Patterns(PlainCandidates(Split(src.body.value, '\n'))), Patterns(Captures(src.body.value));
      && (src.format == "plain_text" ==> patterns == if plain == [] then entries else plain)
      && (src.format == "nginx_map" ==> patterns == entries)
  {
    patterns := [];
    if src.url == "" {
      return;
    }
    if src.format != "plain_text" && src.format != "nginx_map" {
      return;
    }
    if src.body.None? {
      return;
    }
    if src.format == "plain_text" {
      patterns := ParsePlainText(src.body.value);
    } else {
      patterns := ParseNginxMap(src.body.value);
    }
    if |patterns| == 0 {
      patterns := ParseNginxMap(src.body.value);
    }
  }

  lemma FirstSeenGrows(s: seq<string>, x: string)
    ensures FirstSeen(s + [x]) == if x in FirstSeen(s) then FirstSeen(s) else FirstSeen(s) + [x]
  {
    assert (s + [x])[..|s|] == s;
  }

  /** Adds one source's patterns to the merged list. */
  method MergeInto(all: seq<string>, patterns: seq<string>, ghost before: seq<string>) returns (merged: seq<string>)
    requires all == FirstSeen(before)
    ensures merged == FirstSeen(before + patterns)
  {
    merged := all;
    var seen := set p | p in all;
    ghost var given := before;
    for i := 0 to |patterns|
      invariant given == before + patterns[..i]
      invariant merged == FirstSeen(given)
      invariant forall p :: p in seen <==> p in merged
    {
      FirstSeenGrows(given, patterns[i]);
      PrefixGrows(before, patterns, i);
      given := given + [patterns[i]];
      if patterns[i] !in seen {
        seen := seen + {patterns[i]};
        merged := merged + [patterns[i]];
      }
    }
    assert patterns[..|patterns|] == patterns;
  }

  lemma PrefixGrows(before: seq<string>, patterns: seq<string>, i: nat)
    requires i < |patterns|
    ensures before + patterns[..i + 1] == before + patterns[..i] + [patterns[i]]
  {
  }

  /** The merged list: every contributed pattern once, in first-seen order. */
  method MergeSources(sources: seq<Source>) returns (all: seq<string>, anyLoaded: bool)
    ensures all == FirstSeen(Gathered(sources)) && AllClean(all)
    ensures anyLoaded <==> all != []
  {
    all, anyLoaded := [], false;
    for i := 0 to |sources|
      invariant all == FirstSeen(Gathered(sources[..i]))
      invariant anyLoaded <==> Gathered(sources[..i]) != []
    {
      assert sources[..i + 1][..i] == sources[..i];
      var patterns := ParseSource(sources[i]);
      all := MergeInto(all, patterns, Gathered(sources[..i]));
      if |patterns| > 0 {
        anyLoaded := true;
      }
    }
    assert sources[..|sources|] == sources;
    FirstSeenDistinct(Gathered(sources));
    assert Gathered(sources) != [] ==> Gathered(sources)[0] in all;
    assert all != [] ==> all[0] in Gathered(sources);
    GatheredAreClean(sources);
    FirstSeenKeepsClean(Gathered(sources));
  }

  lemma {:induction false} GatheredAreClean(sources: seq<Source>)
    ensures AllClean(Gathered(sources))
  {
    if sources == [] {
    } else {
      GatheredAreClean(sources[..|sources| - 1]);
      SourceIsClean(sources[|sources| - 1]);
    }
  }

  lemma SourceIsClean(src: Source)
    ensures AllClean(SourcePatterns(src))
  {
    if src.body.Some? {
      ParsedIsClean(src.format, src.body.value);
      ParsedIsClean("nginx_map", src.body.value);
    }
  }

  lemma ParsedIsClean(format: string, data: string)
    ensures ParsedAs(format, data).Some? ==> AllClean(ParsedAs(format, data).value)
  {
    PlainAreClean(data);
    PatternsAreClean(Captures(data));
  }

  lemma FirstSeenKeepsClean(s: seq<string>)
    requires AllClean(s)
    ensures AllClean(FirstSeen(s))
  {
    var r := FirstSeen(s);
    FirstSeenDistinct(s);
    forall i | 0 <= i < |r| ensures Clean(r[i]) {
      assert r[i] in s;
    }
  }

  function NonEmpty(lines: seq<string>): seq<string> {
    if lines == [] then []
    else NonEmpty(lines[..|lines| - 1]) + if lines[|lines| - 1] == [] then [] else [lines[|lines| - 1]]
  }

  /** What a restart reads from the stored text of a list. */
  function Loaded(raw: string): seq<string> {
    if raw == [] then [] else NonEmpty(Split(raw, '\n'))
  }

  lemma {:induction false} NonEmptyAll(lines: seq<string>)
    requires forall i :: 0 <= i < |lines| ==> lines[i] != []
    ensures NonEmpty(lines) == lines
  {
    if lines == [] {
    } else {
      NonEmptyAll(lines[..|lines| - 1]);
    }
  }

  /** Storing a list of clean patterns and loading it again gives the identical list. */
  lemma LoadedStored(patterns: seq<string>)
    requires patterns != [] && AllClean(patterns)
    ensures Loaded(Join(patterns, '\n')) == patterns
  {
    SplitJoin(patterns, '\n');
    NonEmptyAll(patterns);
    assert Split("", '\n') == [""];
    assert Clean(patterns[0]);
  }

  /** The pattern store and the live pattern lists. */
  class Manager {
    /** The bucket contents, or `None` when no storage is configured. */
    var db: Option<map<string, string>>
    /** The patterns each list's automaton is compiled from. */
    var live: map<string, seq<string>>

    constructor (db: Option<map<string, string>>)
      ensures this.db == db && live == map[]
    {
      this.db, live := db, map[];
    }

    function LoadFromBolt(list: string): seq<string>
      reads this
    {
      if db.Some? && list in db.value then Loaded(db.value[list]) else []
    }

    /** A no-op without storage or patterns; a failed transaction changes nothing. */
    method SaveToBolt(list: string, patterns: seq<string>) returns (saved: bool)
      requires AllClean(patterns)
      modifies this`db
      ensures !saved ==> db == old(db)
      ensures saved ==> old(db).Some? && db.Some? && db.value == old(db).value[list := Join(patterns, '\n')]
      ensures saved ==> LoadFromBolt(list) == patterns
    {
      saved := false;
      if db.None? || |patterns| == 0 {
        return;
      }
      saved := *;
      if saved {
        db := Some(db.value[list := Join(patterns, '\n')]);
        LoadedStored(patterns);
      }
    }

    /** Replaces the list by the merge of its sources, unless no source gave anything. */
    method FetchAndUpdate(list: string, sources: seq<Source>) returns (saved: bool)
      modifies this
      ensures
        var all := FirstSeen(Gathered(sources));
        && AllClean(all)
        && live == (if all == [] then old(live) else old(live)[list := all])
        && (saved ==> all != [] && LoadFromBolt(list) == all)
        && (!saved ==> db == old(db))
    {
      var all, anyLoaded := MergeSources(sources);
      if !anyLoaded {
        return false;
      }
      saved := SaveToBolt(list, all);
      live := live[list := all];
    }

    /** Starting a list forgets its live patterns and makes the persisted ones live. */
    method StartList(list: string)
      modifies this`live
      ensures LoadFromBolt(list) != [] ==> live == old(live)[list := LoadFromBolt(list)]
      ensures LoadFromBolt(list) == [] ==> live == old(live) - {list}
    {
      live := live - {list};
      var patterns := LoadFromBolt(list);
      if |patterns| > 0 {
        live := live[list := patterns];
      }
    }
  }
}
