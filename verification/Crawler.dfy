/** Detection of sequential numeric URL traversal in an IP's recent paths. */
module Crawler {
  import opened Basics
  import opened Text

  datatype Numbered = Numbered(prefix: string, num: int)

  const MAX_INT := 0x7FFF_FFFF_FFFF_FFFF

  ghost predicate AllDigits(s: string) {
    forall i :: 0 <= i < |s| ==> IsDigit(s[i])
  }

  /** The number of trailing digits. */
  function DigitSuffix(s: string): (n: nat)
    ensures n <= |s|
    ensures forall i :: |s| - n <= i < |s| ==> IsDigit(s[i])
    ensures n < |s| ==> !IsDigit(s[|s| - n - 1])
  {
    if s != [] && IsDigit(s[|s| - 1]) then 1 + DigitSuffix(s[..|s| - 1]) else 0
  }

  /** The path without one trailing slash. */
  function WithoutSlash(path: string): string {
    if path != [] && path[|path| - 1] == '/' then path[..|path| - 1] else path
  }

  /** Prefix and number of a path whose last segment is a number that fits an int. */
  function ParseNumericPath(path: string): Option<Numbered> {
    ParseBody(WithoutSlash(path))
  }

  function ParseBody(body: string): Option<Numbered> {
    var n := DigitSuffix(body);
    var prefix := body[..|body| - n];
    if n == 0 || prefix == [] || prefix[|prefix| - 1] != '/' || '\n' in prefix then None
    else if DecimalValue(body[|body| - n..]) > MAX_INT then None
    else Some(Numbered(prefix, DecimalValue(body[|body| - n..])))
  }

  /** The path has the shape that the detector's regular expression `^(.*\/|\/)(\d+)\/?$`
      describes, with the given prefix and digits. */
  ghost predicate Shape(path: string, prefix: string, digits: string) {
    && (path == prefix + digits || path == prefix + digits + "/")
    && prefix != [] && prefix[|prefix| - 1] == '/' && '\n' !in prefix
    && digits != [] && AllDigits(digits)
  }

  /** A path of that shape parses to exactly its prefix and number, or to nothing if the number
      does not fit; every other path parses to nothing. */
  lemma ParseNumericPathIff(path: string)
    ensures forall prefix, digits :: Shape(path, prefix, digits) ==>
      ParseNumericPath(path) ==
      if DecimalValue(digits) > 9_223_372_036_854_775_807 then None else Some(Numbered(prefix, DecimalValue(digits)))
    ensures ParseNumericPath(path).Some? ==>
      exists digits ::
        Shape(path, ParseNumericPath(path).value.prefix, digits) && DecimalValue(digits) == ParseNumericPath(path).value.num
  {
    forall prefix, digits | Shape(path, prefix, digits)
      ensures ParseNumericPath(path) ==
        if DecimalValue(digits) > 9_223_372_036_854_775_807 then None else Some(Numbered(prefix, DecimalValue(digits)))
    {
      ShapeParses(path, prefix, digits);
    }
    if ParseNumericPath(path).Some? {
      ParsedHasShape(path);
    }
  }

  lemma ParsedHasShape(path: string)
    requires ParseNumericPath(path).Some?
    ensures exists digits ::
      Shape(path, ParseNumericPath(path).value.prefix, digits) && DecimalValue(digits) == ParseNumericPath(path).value.num
  {
    var body := WithoutSlash(path);
    var k := |body| - DigitSuffix(body);
    var prefix, digits := body[..k], body[k..];
    assert prefix + digits == body && (path == body || path == body + "/");
    assert Shape(path, prefix, digits);
  }

  lemma ShapeParses(path: string, prefix: string, digits: string)
    requires Shape(path, prefix, digits)
    ensures ParseNumericPath(path) ==
      if DecimalValue(digits) > MAX_INT then None else Some(Numbered(prefix, DecimalValue(digits)))
  {
    DigitSuffixOf(prefix, digits);
    ShapeBody(path, prefix, digits);
  }

  lemma ShapeBody(path: string, prefix: string, digits: string)
    requires Shape(path, prefix, digits)
    ensures WithoutSlash(path) == prefix + digits
  {
    var body := prefix + digits;
    if path == body {
      assert path[|path| - 1] == digits[|digits| - 1];
    } else {
      assert path[|path| - 1] == '/' && path[..|path| - 1] == body;
    }
  }

  lemma DigitSuffixOf(prefix: string, digits: string)
    requires prefix != [] && prefix[|prefix| - 1] == '/' && AllDigits(digits)
    ensures
      var body := prefix + digits;
      DigitSuffix(body) == |digits| && body[..|body| - |digits|] == prefix && body[|body| - |digits|..] == digits
  {
    var body := prefix + digits;
    assert body[|prefix| - 1] == '/';
    assert forall i :: |prefix| <= i < |body| ==> body[i] == digits[i - |prefix|];
  }

  // ----- the consecutive-run test -----

  /** `n` consecutive integers from `start` are all in `nums`. */
  ghost predicate RunFrom(nums: set<int>, start: int, n: int) {
    forall k :: start <= k < start + n ==> k in nums
  }

  ghost predicate HasRun(nums: set<int>, n: int) {
    exists start :: RunFrom(nums, start, n)
  }

  function Elements(s: seq<int>): set<int> {
    set x | x in s
  }

  function Insert(x: int, s: seq<int>): (r: seq<int>)
    ensures forall y :: y in r <==> y == x || y in s
    ensures |r| == |s| + 1
  {
    if s == [] || x <= s[0] then [x] + s else [s[0]] + Insert(x, s[1..])
  }

  ghost predicate Ascending(s: seq<int>) {
    forall i, j :: 0 <= i < j < |s| ==> s[i] <= s[j]
  }

  ghost predicate StrictlyAscending(s: seq<int>) {
    forall i, j :: 0 <= i < j < |s| ==> s[i] < s[j]
  }

  lemma {:induction false} InsertAscending(x: int, s: seq<int>)
    requires Ascending(s)
    ensures Ascending(Insert(x, s))
  {
    if s == [] || x <= s[0] {
    } else {
      InsertAscending(x, s[1..]);
      var r := Insert(x, s[1..]);
      forall i | 0 <= i < |r| ensures s[0] <= r[i] {
        assert r[i] in r;
        if r[i] != x {
          var j :| 0 <= j < |s[1..]| && s[1..][j] == r[i];
          assert s[0] <= s[j + 1];
        }
      }
    }
  }

  /** The library sort: an ascending arrangement of the same elements. */
  function Sorted(s: seq<int>): (r: seq<int>)
    ensures |r| == |s| && forall y :: y in r <==> y in s
    ensures Ascending(r)
  {
    if s == [] then []
    else
      var r := Sorted(s[1..]);
      InsertAscending(s[0], r);
      assert forall y :: y in s <==> y == s[0] || y in s[1..];
      Insert(s[0], r)
  }

  /** `n` consecutive integers need a set of at least `n`. */
  lemma {:induction false} RunNeedsElements(nums: set<int>, start: int, n: nat)
    requires RunFrom(nums, start, n)
    ensures n <= |nums|
  {
    if n <= 0 {
    } else {
      assert start in nums;
      RunNeedsElements(nums - {start}, start + 1, n - 1);
    }
  }

  lemma {:induction false} ElementsSize(s: seq<int>)
    ensures |Elements(s)| <= |s|
  {
    if s == [] {
    } else {
      ElementsSize(s[1..]);
      assert Elements(s) == {s[0]} + Elements(s[1..]);
    }
  }

  /** Too few numbers for a run of `n`. */
  lemma TooFew(s: seq<int>, n: int)
    requires |s| < n
    ensures !HasRun(Elements(s), n)
  {
    ElementsSize(s);
    forall start ensures !RunFrom(Elements(s), start, n) {
      if RunFrom(Elements(s), start, n) {
        RunNeedsElements(Elements(s), start, n);
      }
    }
  }

  method Deduplicate(nums: seq<int>) returns (uniq: seq<int>)
    requires nums != [] && Ascending(nums)
    ensures StrictlyAscending(uniq) && uniq != [] && Elements(uniq) == Elements(nums)
  {
    uniq := [nums[0]];
    for i := 1 to |nums|
      invariant uniq != [] && StrictlyAscending(uniq)
      invariant uniq[|uniq| - 1] == nums[i - 1]
      invariant forall x :: x in uniq <==> x in nums[..i]
    {
      assert nums[..i + 1] == nums[..i] + [nums[i]];
      if nums[i] != uniq[|uniq| - 1] {
        assert uniq[|uniq| - 1] < nums[i];
        uniq := uniq + [nums[i]];
      }
    }
    assert nums[..|nums|] == nums;
  }

  /** The `n` elements up to position `e` are consecutive. */
  ghost predicate RunEndsAt(uniq: seq<int>, e: int, n: int) {
    0 <= e < |uniq| && n <= e + 1 && forall k :: e - n < k <= e ==> uniq[k] == uniq[e] - (e - k)
  }

  /** In a strictly ascending list the runs of the set are the runs of neighbours. */
  lemma RunsAreNeighbours(uniq: seq<int>, n: int)
    requires n > 0 && StrictlyAscending(uniq)
    ensures HasRun(Elements(uniq), n) <==> exists e :: RunEndsAt(uniq, e, n)
  {
    forall start | RunFrom(Elements(uniq), start, n) ensures exists e :: RunEndsAt(uniq, e, n) {
      assert start + n - 1 in Elements(uniq);
      var e :| 0 <= e < |uniq| && uniq[e] == start + n - 1;
      NeighboursBelow(uniq, start, n, e, n);
      assert RunEndsAt(uniq, e, n);
    }
    forall e | RunEndsAt(uniq, e, n) ensures HasRun(Elements(uniq), n) {
      var start := uniq[e] - n + 1;
      forall k | start <= k < start + n ensures k in Elements(uniq) {
        assert uniq[e - (uniq[e] - k)] == k;
      }
      assert RunFrom(Elements(uniq), start, n);
    }
  }

  lemma {:induction false} NeighboursBelow(uniq: seq<int>, start: int, n: int, e: int, m: nat)
    requires StrictlyAscending(uniq) && RunFrom(Elements(uniq), start, n)
    requires 0 <= e < |uniq| && uniq[e] == start + n - 1 && 1 <= m <= n
    ensures RunEndsAt(uniq, e, m)
  {
    if m <= 1 {
    } else {
      NeighboursBelow(uniq, start, n, e, m - 1);
      var j := e - (m - 2);
      var v := uniq[j] - 1;
      assert v in Elements(uniq);
      var i :| 0 <= i < |uniq| && uniq[i] == v;
      assert i < j && uniq[j - 1] < uniq[j];
      assert i == j - 1;
    }
  }

  /** `consec` is the length of the longest run of neighbours that ends at position `e`. */
  ghost predicate LongestAt(uniq: seq<int>, e: int, consec: int) {
    && 1 <= consec && RunEndsAt(uniq, e, consec)
    && (consec <= e ==> uniq[e - consec] < uniq[e] - consec)
  }

  lemma LongestDecides(uniq: seq<int>, e: int, consec: int, n: int)
    requires LongestAt(uniq, e, consec) && n > 0
    ensures RunEndsAt(uniq, e, n) <==> n <= consec
  {
    if n > consec && consec <= e {
      assert uniq[e - consec] != uniq[e] - (e - (e - consec));
    }
  }

  lemma LongestNext(uniq: seq<int>, i: int, consec: int)
    requires StrictlyAscending(uniq) && 1 <= i < |uniq| && LongestAt(uniq, i - 1, consec)
    ensures LongestAt(uniq, i, if uniq[i] == uniq[i - 1] + 1 then consec + 1 else 1)
  {
  }

  /** No run of the given length ends before position `p`. */
  ghost predicate NoRunBefore(uniq: seq<int>, p: int, n: int) {
    forall e :: RunEndsAt(uniq, e, n) ==> e >= p
  }

  lemma NotBefore(uniq: seq<int>, i: int, consec: int, n: int)
    requires LongestAt(uniq, i - 1, consec) && n > 0
    ensures consec < n && NoRunBefore(uniq, i - 1, n) ==> NoRunBefore(uniq, i, n)
  {
    LongestDecides(uniq, i - 1, consec, n);
  }

  method ScanRuns(uniq: seq<int>, minLen: int) returns (found: bool)
    requires minLen > 0 && uniq != [] && StrictlyAscending(uniq)
    ensures found <==> HasRun(Elements(uniq), minLen)
  {
    RunsAreNeighbours(uniq, minLen);
    var consec := 1;
    for i := 1 to |uniq|
      invariant LongestAt(uniq, i - 1, consec)
      invariant minLen > 1 ==> consec < minLen
      invariant minLen > 1 ==> NoRunBefore(uniq, i - 1, minLen)
    {
      NotBefore(uniq, i, consec, minLen);
      LongestNext(uniq, i, consec);
      if uniq[i] == uniq[i - 1] + 1 {
        consec := consec + 1;
        if consec >= minLen {
          LongestDecides(uniq, i, consec, minLen);
          return true;
        }
      } else {
        consec := 1;
      }
    }
    LongestDecides(uniq, |uniq| - 1, consec, minLen);
    found := consec >= minLen;
  }

  /** The answer does not depend on order or repetition: it is the set-theoretic statement. */
  method HasConsecutiveSequence(nums: seq<int>, minLen: int) returns (found: bool)
    ensures found <==> minLen > 0 && HasRun(Elements(nums), minLen)
  {
    if |nums| == 0 || minLen <= 0 {
      if minLen > 0 {
        TooFew(nums, minLen);
      }
      return false;
    }
    if |nums| < minLen {
      TooFew(nums, minLen);
      return false;
    }
    var sorted := Sorted(nums);
    var uniq := Deduplicate(sorted);
    assert Elements(sorted) == Elements(nums);
    if |uniq| < minLen {
      TooFew(uniq, minLen);
      return false;
    }
    found := ScanRuns(uniq, minLen);
  }

  // ----- the detector -----

  datatype DetectResult = NoHit | CrawlerHit(score: int, prefix: string, length: int)

  ghost function ParsedAll(paths: seq<string>): seq<Option<Numbered>> {
    seq(|paths|, i requires 0 <= i < |paths| => ParseNumericPath(paths[i]))
  }

  /** The numbers that occur under a prefix. */
  ghost function NumbersUnder(parsed: seq<Option<Numbered>>, prefix: string): set<int> {
    set i | 0 <= i < |parsed| && parsed[i].Some? && parsed[i].value.prefix == prefix :: parsed[i].value.num
  }

  ghost predicate Crawls(paths: seq<string>, prefix: string, n: int) {
    n > 0 && HasRun(NumbersUnder(ParsedAll(paths), prefix), n)
  }

  ghost predicate Grouped(groups: map<string, seq<int>>, parsed: seq<Option<Numbered>>) {
    && (forall p :: p in groups ==> Elements(groups[p]) == NumbersUnder(parsed, p))
    && (forall p :: p !in groups ==> NumbersUnder(parsed, p) == {})
  }

  method GroupByPrefix(paths: seq<string>) returns (groups: map<string, seq<int>>)
    ensures Grouped(groups, ParsedAll(paths))
  {
    groups := map[];
    ghost var all := ParsedAll(paths);
    for i := 0 to |paths|
      invariant Grouped(groups, all[..i])
    {
      var parsed := ParseNumericPath(paths[i]);
      assert parsed == all[i];
      GroupStep(groups, all, i);
      if parsed.None? {
        continue;
      }
      var prefix := parsed.value.prefix;
      groups := groups[prefix := (if prefix in groups then groups[prefix] else []) + [parsed.value.num]];
    }
    assert all[..|paths|] == all;
  }

  lemma GroupStep(groups: map<string, seq<int>>, all: seq<Option<Numbered>>, i: nat)
    requires i < |all| && Grouped(groups, all[..i])
    ensures all[i].None? ==> Grouped(groups, all[..i + 1])
    ensures all[i].Some? ==>
      var prefix := all[i].value.prefix;
      Grouped(groups[prefix := (if prefix in groups then groups[prefix] else []) + [all[i].value.num]], all[..i + 1])
  {
    forall p ensures NumbersUnder(all[..i + 1], p) ==
      NumbersUnder(all[..i], p) + if all[i].Some? && all[i].value.prefix == p then {all[i].value.num} else {}
    {
      NumbersGrow(all, i, p);
    }
  }

  lemma NumbersGrow(all: seq<Option<Numbered>>, i: nat, p: string)
    requires i < |all|
    ensures NumbersUnder(all[..i + 1], p) ==
      NumbersUnder(all[..i], p) + if all[i].Some? && all[i].value.prefix == p then {all[i].value.num} else {}
  {
    var a, b := all[..i], all[..i + 1];
    assert forall k :: 0 <= k < i ==> a[k] == b[k];
    assert b[i] == all[i];
  }

  /** Fires if and only if some prefix has `minSequential` consecutive integers among the paths,
      whatever their order, repetition or the iteration order of the groups; the reported prefix
      is one of those. */
  method Detect(paths: seq<string>, minSequential: int, score: int) returns (res: DetectResult)
    ensures res.CrawlerHit? <==> exists p :: Crawls(paths, p, minSequential)
    ensures res.CrawlerHit? ==>
      Crawls(paths, res.prefix, minSequential) && res.score == score && res.length == minSequential
  {
    if |paths| < minSequential {
      TooFewPaths(paths, minSequential);
      return NoHit;
    }
    var groups := GroupByPrefix(paths);
    var todo := groups.Keys;
    while todo != {}
      invariant todo <= groups.Keys
      invariant forall p :: p in groups.Keys - todo ==> !Crawls(paths, p, minSequential)
      decreases todo
    {
      var prefix :| prefix in todo;
      var found := HasConsecutiveSequence(groups[prefix], minSequential);
      assert found ==> Crawls(paths, prefix, minSequential);
      if found {
        return CrawlerHit(score, prefix, minSequential);
      }
      todo := todo - {prefix};
    }
    forall p ensures !Crawls(paths, p, minSequential) {
      if p !in groups && minSequential > 0 {
        RunOfNothing(minSequential);
      }
    }
    res := NoHit;
  }

  lemma RunOfNothing(n: int)
    requires n > 0
    ensures !HasRun({}, n)
  {
    var none: set<int> := {};
    forall start ensures !RunFrom(none, start, n) {
      assert start !in none;
    }
  }

  lemma TooFewPaths(paths: seq<string>, n: int)
    requires |paths| < n
    ensures forall p :: !Crawls(paths, p, n)
  {
    forall p ensures !Crawls(paths, p, n) {
      var nums := NumbersUnder(ParsedAll(paths), p);
      NumbersSize(ParsedAll(paths), p);
      forall start ensures !RunFrom(nums, start, n) {
        if RunFrom(nums, start, n) {
          RunNeedsElements(nums, start, n);
        }
      }
    }
  }

  lemma {:induction false} NumbersSize(all: seq<Option<Numbered>>, p: string)
    ensures |NumbersUnder(all, p)| <= |all|
  {
    if all == [] {
    } else {
      var n := |all| - 1;
      NumbersSize(all[..n], p);
      NumbersGrow(all, n, p);
      assert all[..n + 1] == all;
    }
  }
}
