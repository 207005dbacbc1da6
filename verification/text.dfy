/** String primitives with Python's semantics: ASCII digits, leftmost substring
    search, and the `str.split` / `str.join` / `str.replace` trio for a
    non-empty separator. */
module Text {
  import opened Wrappers

  /** An ASCII decimal digit (the model's reading of the regex class `\d`). */
  predicate IsDigit(c: char) {
    '0' <= c <= '9'
  }

  function DigitValue(c: char): (n: nat)
    requires IsDigit(c)
    ensures n < 10
  {
    c as int - '0' as int
  }

  function DigitChar(n: nat): (c: char)
    requires n < 10
    ensures IsDigit(c) && DigitValue(c) == n
  {
    ('0' as int + n) as char
  }

  predicate AllDigits(s: string) {
    forall k :: 0 <= k < |s| ==> IsDigit(s[k])
  }

  /** The decimal number written by the digits of `s` (most significant first). */
  function DecimalValue(s: string): nat
    requires AllDigits(s)
  {
    if |s| == 0 then 0 else DecimalValue(s[..|s| - 1]) * 10 + DigitValue(s[|s| - 1])
  }

  lemma OneDigitValue(c: char)
    requires IsDigit(c)
    ensures DecimalValue([c]) == DigitValue(c)
  {
    assert [c][..0] == [];
  }

  lemma {:induction false} DecimalValueBound(s: string)
    requires AllDigits(s)
    ensures DecimalValue(s) < Pow10(|s|)
  {
    if |s| > 0 {
      DecimalValueBound(s[..|s| - 1]);
    }
  }

  /** `n` written with exactly `width` decimal digits, zero-padded on the left. */
  function Pad(n: nat, width: nat): (s: string)
    ensures |s| == width && AllDigits(s)
  {
    if width == 0 then "" else Pad(n / 10, width - 1) + [DigitChar(n % 10)]
  }

  function Pow10(k: nat): (p: nat)
    ensures p >= 1
  {
    if k == 0 then 1 else 10 * Pow10(k - 1)
  }

  /** Padding a digit string's value back to its own width gives the same
      digits: leading zeros survive the round trip. */
  lemma {:induction false} PadDecimalValue(s: string)
    requires AllDigits(s)
    ensures Pad(DecimalValue(s), |s|) == s
  {
    if |s| > 0 {
      var init := s[..|s| - 1];
      PadDecimalValue(init);
      var n := DecimalValue(s);
      assert n / 10 == DecimalValue(init) && n % 10 == DigitValue(s[|s| - 1]);
      assert s == init + [s[|s| - 1]];
    }
  }

  lemma PadOneDigit(c: char)
    requires IsDigit(c)
    ensures Pad(DigitValue(c), 2) == "0" + [c]
  {
    assert Pad(DigitValue(c) / 10, 1) == Pad(0, 0) + [DigitChar(0)];
  }

  /** Reading back a zero-padded number gives the number, as long as it fits. */
  lemma {:induction false} DecimalValuePad(n: nat, width: nat)
    requires n < Pow10(width)
    ensures DecimalValue(Pad(n, width)) == n
  {
    if width > 0 {
      DecimalValuePad(n / 10, width - 1);
      var p := Pad(n, width);
      assert p[..|p| - 1] == Pad(n / 10, width - 1);
    }
  }

  /** `pat` occurs in `s` starting at index `i`. */
  predicate OccursAt(s: string, pat: string, i: int) {
    0 <= i && i + |pat| <= |s| && s[i..i + |pat|] == pat
  }

  predicate Contains(s: string, pat: string) {
    exists i :: 0 <= i <= |s| && OccursAt(s, pat, i)
  }

  /** The leftmost occurrence of `pat` in `s` at or after `from`. */
  function Find(s: string, pat: string, from: nat): (r: Option<nat>)
    requires from <= |s|
    ensures r.Some? ==> from <= r.value && OccursAt(s, pat, r.value)
    ensures r.Some? ==> forall j :: from <= j < r.value ==> !OccursAt(s, pat, j)
    ensures r.None? ==> forall j :: from <= j ==> !OccursAt(s, pat, j)
    decreases |s| - from
  {
    if OccursAt(s, pat, from) then Some(from)
    else if from == |s| then None
    else Find(s, pat, from + 1)
  }

  lemma OccursInPrefix(s: string, pat: string, n: nat, j: int)
    requires n <= |s| && OccursAt(s[..n], pat, j)
    ensures OccursAt(s, pat, j)
  {
    assert s[..n][j..j + |pat|] == s[j..j + |pat|];
  }

  lemma OccursInSuffix(s: string, pat: string, n: nat, j: int)
    requires n <= j && OccursAt(s, pat, j)
    ensures OccursAt(s[n..], pat, j - n)
  {
    assert s[n..][j - n..j - n + |pat|] == s[j..j + |pat|];
  }

  /** Text that lacks the first character of `pat` cannot contain `pat`. */
  lemma LacksFirstChar(s: string, pat: string)
    requires |pat| > 0 && forall k :: 0 <= k < |s| ==> s[k] != pat[0]
    ensures !Contains(s, pat)
  {
    forall i | 0 <= i <= |s| ensures !OccursAt(s, pat, i) {
      if i + |pat| <= |s| {
        assert s[i..i + |pat|][0] == s[i];
      }
    }
  }

  /** Python's `sep.join(parts)`. */
  function Join(parts: seq<string>, sep: string): string {
    if |parts| == 0 then ""
    else if |parts| == 1 then parts[0]
    else parts[0] + sep + Join(parts[1..], sep)
  }

  /** Python's `s.split(sep)` for a non-empty separator: cut at every
      occurrence found scanning left to right, occurrences not overlapping. */
  function Split(s: string, sep: string): (parts: seq<string>)
    requires |sep| > 0
    ensures |parts| >= 1
    ensures Join(parts, sep) == s
    ensures forall k :: 0 <= k < |parts| ==> !Contains(parts[k], sep)
    ensures |parts| == 1 <==> !Contains(s, sep)
    ensures forall k :: 0 <= k < |parts| - 1 ==> !Contains(parts[k] + sep[..|sep| - 1], sep)
    decreases |s|
  {
    match Find(s, sep, 0)
    case None => [s]
    case Some(i) =>
      var rest := Split(s[i + |sep|..], sep);
      SplitCut(s, sep, i, rest);
      SplitCutLeftmost(s, sep, i, rest);
      [s[..i]] + rest
  }

  /** Each cut is at the leftmost occurrence: no occurrence starts inside a
      part that a separator follows, so none overlaps the cut from the left. */
  lemma SplitCutLeftmost(s: string, sep: string, i: nat, rest: seq<string>)
    requires |sep| > 0 && Find(s, sep, 0) == Some(i)
    requires forall k :: 0 <= k < |rest| - 1 ==> !Contains(rest[k] + sep[..|sep| - 1], sep)
    ensures forall k :: 0 <= k < |[s[..i]] + rest| - 1 ==>
      !Contains(([s[..i]] + rest)[k] + sep[..|sep| - 1], sep)
  {
    NothingBeforeFind(s, sep, i);
    var parts := [s[..i]] + rest;
    assert parts[0] == s[..i];
    assert forall k :: 1 <= k < |parts| ==> parts[k] == rest[k - 1];
  }

  /** No occurrence starts before the leftmost one, so the text up to it,
      followed by all but the last character of `pat`, holds none. */
  lemma NothingBeforeFind(s: string, pat: string, i: nat)
    requires |pat| > 0 && Find(s, pat, 0) == Some(i)
    ensures !Contains(s[..i] + pat[..|pat| - 1], pat)
  {
    var n := i + |pat| - 1;
    assert s[..i] + pat[..|pat| - 1] == s[..n] by {
      assert s[i..i + |pat|] == pat;
      assert s[..n] == s[..i] + s[i..n];
    }
    PrefixWithoutOccurrence(s, pat, n);
  }

  /** A prefix holds no occurrence when none that fits in it occurs in `s`. */
  lemma PrefixWithoutOccurrence(s: string, pat: string, n: nat)
    requires n <= |s|
    requires forall j :: 0 <= j && j + |pat| <= n ==> !OccursAt(s, pat, j)
    ensures !Contains(s[..n], pat)
  {
    forall j | 0 <= j <= n ensures !OccursAt(s[..n], pat, j) {
      if OccursAt(s[..n], pat, j) {
        OccursInPrefix(s, pat, n, j);
      }
    }
  }

  /** One step of `Split`: cutting at the leftmost occurrence keeps the
      join round trip and the occurrence-free parts. */
  lemma SplitCut(s: string, sep: string, i: nat, rest: seq<string>)
    requires |sep| > 0 && Find(s, sep, 0) == Some(i)
    requires |rest| >= 1 && Join(rest, sep) == s[i + |sep|..]
    requires forall k :: 0 <= k < |rest| ==> !Contains(rest[k], sep)
    ensures Join([s[..i]] + rest, sep) == s
    ensures forall k :: 0 <= k < |[s[..i]] + rest| ==> !Contains(([s[..i]] + rest)[k], sep)
    ensures Contains(s, sep)
  {
    SplitCutJoin(s, sep, i, rest);
    PrefixWithoutOccurrence(s, sep, i);
    var parts := [s[..i]] + rest;
    assert parts[0] == s[..i];
    assert forall k :: 1 <= k < |parts| ==> parts[k] == rest[k - 1];
    assert 0 <= i <= |s| && OccursAt(s, sep, i);
  }

  /** The text before an occurrence, the separator and the joined rest give
      the text back. */
  lemma SplitCutJoin(s: string, sep: string, i: nat, rest: seq<string>)
    requires |sep| > 0 && OccursAt(s, sep, i)
    requires |rest| >= 1 && Join(rest, sep) == s[i + |sep|..]
    ensures Join([s[..i]] + rest, sep) == s
  {
    var parts := [s[..i]] + rest;
    assert parts[1..] == rest;
    assert s == s[..i] + sep + s[i + |sep|..] by {
      assert s[i..i + |sep|] == sep;
    }
  }

  /** Python's `s.replace(target, repl)` for a non-empty `target`: every
      non-overlapping occurrence, leftmost first, is replaced. */
  function ReplaceAll(s: string, target: string, repl: string): (r: string)
    requires |target| > 0
    ensures !Contains(s, target) ==> r == s
    ensures repl == target ==> r == s
  {
    Join(Split(s, target), repl)
  }

  function TotalLength(parts: seq<string>): nat {
    if |parts| == 0 then 0 else |parts[0]| + TotalLength(parts[1..])
  }

  lemma {:induction false} JoinLength(parts: seq<string>, sep: string)
    requires |parts| >= 1
    ensures |Join(parts, sep)| == TotalLength(parts) + (|parts| - 1) * |sep|
  {
    if |parts| > 1 {
      JoinLength(parts[1..], sep);
    }
  }

  /** Every occurrence of `target` is replaced: the length changes by
      `|repl| - |target|` once per separator that `Split` cut at. */
  lemma ReplaceAllLength(s: string, target: string, repl: string)
    requires |target| > 0
    ensures |ReplaceAll(s, target, repl)| + (|Split(s, target)| - 1) * |target|
         == |s| + (|Split(s, target)| - 1) * |repl|
  {
    var parts := Split(s, target);
    JoinLengths(parts, repl, target);
    assert ReplaceAll(s, target, repl) == Join(parts, repl);
  }

  /** Joining the same parts with two separators: the lengths differ by the
      separators' lengths once per gap. */
  lemma JoinLengths(parts: seq<string>, a: string, b: string)
    requires |parts| >= 1
    ensures |Join(parts, a)| + (|parts| - 1) * |b| == |Join(parts, b)| + (|parts| - 1) * |a|
  {
    JoinLength(parts, a);
    JoinLength(parts, b);
  }

  /** Text without an occurrence of `target` comes back unchanged. */
  lemma ReplaceAllAbsent(s: string, target: string, repl: string)
    requires |target| > 0 && !Contains(s, target)
    ensures ReplaceAll(s, target, repl) == s
  {
    assert Split(s, target) == [s];
  }

  /** `a + sep + b` splits into exactly `[a, b]` when no occurrence of `sep`
      starts inside `a` and `b` holds none. */
  lemma {:induction false} SplitAround(a: string, sep: string, b: string)
    requires |sep| > 0
    requires forall j :: 0 <= j < |a| ==> !OccursAt(a + sep + b, sep, j)
    requires !Contains(b, sep)
    ensures Split(a + sep + b, sep) == [a, b]
  {
    var s := a + sep + b;
    assert OccursAt(s, sep, |a|) by {
      assert s[|a|..|a| + |sep|] == sep;
    }
    var f := Find(s, sep, 0);
    assert f == Some(|a|);
    assert s[..|a|] == a;
    assert s[|a| + |sep|..] == b;
  }

  /** Two non-overlapping occurrences make `Split` return three parts or more. */
  lemma {:induction false} SplitTwoOccurrences(s: string, sep: string, i: nat, j: nat)
    requires |sep| > 0
    requires OccursAt(s, sep, i) && OccursAt(s, sep, j) && i + |sep| <= j
    ensures |Split(s, sep)| >= 3
  {
    var p := Find(s, sep, 0).value;
    assert p <= i;
    var rest := s[p + |sep|..];
    OccursInSuffix(s, sep, p + |sep|, j);
    assert Contains(rest, sep);
    assert Split(s, sep) == [s[..p]] + Split(rest, sep);
  }

  lemma OccursInPrefixOf(s: string, pat: string, n: nat, j: int)
    requires OccursAt(s, pat, j) && j + |pat| <= n <= |s|
    ensures OccursAt(s[..n], pat, j)
  {
    assert s[..n][j..j + |pat|] == s[j..j + |pat|];
  }

  /** One occurrence is replaced in place when no occurrence starts before it
      (none lies in `a` followed by all but the last character of `target`)
      and none follows it. */
  lemma ReplaceAllOnce(a: string, target: string, b: string, repl: string)
    requires |target| > 0
    requires !Contains(a + target[..|target| - 1], target)
    requires !Contains(b, target)
    ensures ReplaceAll(a + target + b, target, repl) == a + repl + b
  {
    var s := a + target + b;
    var n := |a| + |target| - 1;
    assert s[..n] == a + target[..|target| - 1];
    forall j | 0 <= j < |a| ensures !OccursAt(s, target, j) {
      assert j <= |s[..n]| && !OccursAt(s[..n], target, j);
      if OccursAt(s, target, j) {
        OccursInPrefixOf(s, target, n, j);
      }
    }
    SplitAround(a, target, b);
    assert ReplaceAll(s, target, repl) == Join([a, b], repl);
    assert [a, b][1..] == [b];
    assert Join([a, b], repl) == a + repl + Join([b], repl);
  }
}
