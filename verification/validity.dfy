/** The validity-text classifier inside `parse_page`: two regular-expression
    searches over the tile's small text, the range pattern taking precedence
    over the single-date pattern. The values it yields are the raw
    `DD.MM.YYYY` substrings that matched; nothing is reformatted. */
module Validity {
  import opened Wrappers
  import opened Text
  import opened Dates

  /** What `(\d{2}\.\d{2}\.\d{4}) - (\d{2}\.\d{2}\.\d{4})` matches at `i`:
      a date token, the separator `" - "`, a second date token. */
  predicate RangeAt(s: string, i: int) {
    DateAt(s, i) && OccursAt(s, RangeSeparator, i + 10) && DateAt(s, i + 13)
  }

  /** The regex class `\w`, restricted to ASCII. */
  predicate IsWordChar(c: char) {
    ('a' <= c <= 'z') || ('A' <= c <= 'Z') || IsDigit(c) || c == '_'
  }

  /** The end of the longest run of word characters starting at `j`: where a
      greedy `\w+` stops. */
  function WordRunEnd(s: string, j: nat): (k: nat)
    requires j <= |s|
    ensures j <= k <= |s|
    ensures forall t :: j <= t < k ==> IsWordChar(s[t])
    ensures k == |s| || !IsWordChar(s[k])
    decreases |s| - j
  {
    if j < |s| && IsWordChar(s[j]) then WordRunEnd(s, j + 1) else j
  }

  const LeadIn: string := "von "

  /** The optional lead-in `(?:von \w+ )` followed by a date token, tried at
      `i`: the start of that date token. A shorter `\w+` cannot help, since
      the character after it would be a word character and not the blank. */
  function LeadInDateAt(s: string, i: nat): (d: Option<nat>)
    ensures d.Some? ==> DateAt(s, d.value) && i + |LeadIn| < d.value
  {
    if OccursAt(s, LeadIn, i) then
      var k := WordRunEnd(s, i + |LeadIn|);
      if i + |LeadIn| < k < |s| && s[k] == ' ' && DateAt(s, k + 1) then Some(k + 1) else None
    else None
  }

  /** The two regular expressions `parse_page` searches with. */
  datatype Pattern = RangePattern | SinglePattern

  function GroupCount(p: Pattern): nat {
    if p.RangePattern? then 2 else 1
  }

  /** The start indexes of the capture groups when `p` matches at `i`, trying
      alternatives in the regex engine's order: the optional lead-in first,
      then the bare date. */
  function MatchAt(p: Pattern, s: string, i: nat): (g: Option<seq<nat>>)
    ensures g.Some? ==> |g.value| == GroupCount(p)
    ensures g.Some? ==> forall k :: 0 <= k < |g.value| ==> DateAt(s, g.value[k])
  {
    match p
    case RangePattern =>
      if RangeAt(s, i) then Some([i, i + 13]) else None
    case SinglePattern =>
      match LeadInDateAt(s, i)
      case Some(d) => Some([d])
      case None => if DateAt(s, i) then Some([i]) else None
  }

  datatype Match = Match(start: nat, groups: seq<nat>)

  /** `re.search`: the match of `p` at the smallest start index from `from`
      on. */
  function Search(p: Pattern, s: string, from: nat): (m: Option<Match>)
    requires from <= |s|
    ensures m.Some? ==> from <= m.value.start <= |s| && MatchAt(p, s, m.value.start) == Some(m.value.groups)
    ensures m.Some? ==> forall q :: from <= q < m.value.start ==> MatchAt(p, s, q).None?
    ensures m.None? ==> forall q :: from <= q <= |s| ==> MatchAt(p, s, q).None?
    decreases |s| - from
  {
    match MatchAt(p, s, from)
    case Some(g) => Some(Match(from, g))
    case None => if from == |s| then None else Search(p, s, from + 1)
  }

  /** The ten characters of the date token starting at `g`. */
  function Token(s: string, g: nat): (t: string)
    requires DateAt(s, g)
    ensures IsDottedDate(t) && OccursAt(s, t, g)
  {
    s[g..g + 10]
  }

  /** The date-text branch of `parse_page`: the range match if there is one,
      else the single match with no end date, else nothing. */
  function ClassifyValidity(text: string): (v: Period)
    ensures v.validFrom == Unknown || IsDottedDate(v.validFrom)
    ensures v.validTo == Unknown || IsDottedDate(v.validTo)
    ensures v.validTo != Unknown ==> v.validFrom != Unknown
    ensures v.validFrom != Unknown ==> Contains(text, v.validFrom)
    ensures v.validTo != Unknown ==> Contains(text, v.validTo)
  {
    match Search(RangePattern, text, 0)
    case Some(m) => Period(Token(text, m.groups[0]), Token(text, m.groups[1]))
    case None =>
      match Search(SinglePattern, text, 0)
      case Some(m) => Period(Token(text, m.groups[0]), Unknown)
      case None => Period(Unknown, Unknown)
  }

  // ---------------------------------------------------------------------------
  // Properties

  predicate HasDate(s: string) {
    exists i :: 0 <= i < |s| && DateAt(s, i)
  }

  predicate HasRange(s: string) {
    exists i :: 0 <= i < |s| && RangeAt(s, i)
  }

  /** `d` is the first index where a date token starts. */
  predicate IsLeftmostDate(s: string, d: nat) {
    DateAt(s, d) && forall q :: 0 <= q < d ==> !DateAt(s, q)
  }

  lemma UnknownIsNoDate()
    ensures !IsDottedDate(Unknown)
  {
  }

  /** Between the start of a lead-in and the date it introduces no date token
      can start: `von ` and the word hold no dot, and the blank is no digit. */
  lemma {:induction false} LeadInHidesNoDate(s: string, i: nat, q: nat)
    requires LeadInDateAt(s, i).Some? && i <= q < LeadInDateAt(s, i).value
    ensures !DateAt(s, q)
  {
    var k := WordRunEnd(s, i + |LeadIn|);
    assert LeadInDateAt(s, i).value == k + 1;
    assert s[i..i + 4] == LeadIn;
    assert s[i + 2] == 'n' && s[i + 3] == ' ';
    if q + 2 < k {
      if q + 2 >= i + 4 {
        assert IsWordChar(s[q + 2]);
      }
    } else if q + 2 > k {
      if q == k - 1 {
        assert s[q + 1] == ' ';
      }
    }
  }

  /** Whatever the lead-in, the single-date search captures exactly the
      leftmost date token, and finds one exactly when the text holds one. */
  lemma SingleSearchFindsLeftmostDate(s: string)
    ensures Search(SinglePattern, s, 0).Some? <==> HasDate(s)
    ensures Search(SinglePattern, s, 0).Some? ==> IsLeftmostDate(s, Search(SinglePattern, s, 0).value.groups[0])
  {
    var r := Search(SinglePattern, s, 0);
    if r.Some? {
      var i := r.value.start;
      var d := r.value.groups[0];
      assert DateAt(s, d);
      forall q | 0 <= q < d ensures !DateAt(s, q) {
        if q < i {
          assert MatchAt(SinglePattern, s, q).None?;
        } else {
          LeadInHidesNoDate(s, i, q);
        }
      }
    } else {
      forall q | 0 <= q < |s| ensures !DateAt(s, q) {
        assert MatchAt(SinglePattern, s, q).None?;
      }
    }
  }

  /** The range search finds the leftmost `A - B` with both sides date tokens. */
  lemma RangeSearchFindsLeftmostRange(s: string)
    ensures Search(RangePattern, s, 0).Some? <==> HasRange(s)
    ensures Search(RangePattern, s, 0).Some? ==>
      var i := Search(RangePattern, s, 0).value.start;
      RangeAt(s, i) && Search(RangePattern, s, 0).value.groups == [i, i + 13]
      && forall q :: 0 <= q < i ==> !RangeAt(s, q)
  {
    var r := Search(RangePattern, s, 0);
    if r.None? {
      forall q | 0 <= q < |s| ensures !RangeAt(s, q) {
        assert MatchAt(RangePattern, s, q).None?;
      }
    } else {
      var i := r.value.start;
      forall q | 0 <= q < i ensures !RangeAt(s, q) {
        assert MatchAt(RangePattern, s, q).None?;
      }
    }
  }

  /** Range precedence: when the text holds `A - B` with both sides date
      tokens, the leftmost such occurrence is returned verbatim, although the
      single-date pattern would match as well. */
  lemma RangePrecedence(text: string, i: nat)
    requires RangeAt(text, i) && forall q :: 0 <= q < i ==> !RangeAt(text, q)
    ensures ClassifyValidity(text) == Period(text[i..i + 10], text[i + 13..i + 23])
    ensures Search(SinglePattern, text, 0).Some?
  {
    RangeSearchFindsLeftmostRange(text);
    var m := Search(RangePattern, text, 0).value;
    assert m.start == i;
    SingleSearchFindsLeftmostDate(text);
  }

  /** Single-date fallback: without a range, the leftmost date token becomes
      the start date, cut out of the text unchanged (any `von <word> ` lead-in
      left behind), and the end date stays "Unknown". */
  lemma SingleDateFallback(text: string, d: nat)
    requires !HasRange(text) && IsLeftmostDate(text, d)
    ensures ClassifyValidity(text) == Period(text[d..d + 10], Unknown)
  {
    RangeSearchFindsLeftmostRange(text);
    SingleSearchFindsLeftmostDate(text);
    var g := Search(SinglePattern, text, 0).value.groups[0];
    assert g == d;
  }

  /** No date token, as in the empty text of a tile without a date node, gives
      "Unknown" on both sides. */
  lemma NoDateFound(text: string)
    requires !HasDate(text)
    ensures ClassifyValidity(text) == Period(Unknown, Unknown)
  {
    RangeSearchFindsLeftmostRange(text);
    SingleSearchFindsLeftmostDate(text);
  }

  /** Both directions: the end date is known exactly when a range is present,
      the start date exactly when some date token is. */
  lemma ClassifyValidityCases(text: string)
    ensures ClassifyValidity(text).validTo != Unknown <==> HasRange(text)
    ensures ClassifyValidity(text).validFrom != Unknown <==> HasDate(text)
  {
    UnknownIsNoDate();
    RangeSearchFindsLeftmostRange(text);
    SingleSearchFindsLeftmostDate(text);
    if HasRange(text) {
      var i :| 0 <= i < |text| && RangeAt(text, i);
      assert DateAt(text, i);
    }
  }

  /** The lead-in is skipped: `von Montag 03.02.2025` yields the token
      `03.02.2025`. Stated for any word of ASCII word characters. */
  lemma LeadInDiscarded(word: string, token: string)
    requires |word| > 0 && forall k :: 0 <= k < |word| ==> IsWordChar(word[k])
    requires IsDottedDate(token)
    ensures ClassifyValidity(LeadIn + word + " " + token) == Period(token, Unknown)
  {
    var text := LeadIn + word + " " + token;
    var d := |LeadIn| + |word| + 1;
    assert text[d..d + 10] == token;
    assert DateAt(text, d) by {
      forall k | 0 <= k < 10 ensures text[d + k] == token[k] {
        assert text[d..d + 10][k] == text[d + k];
      }
    }
    assert !HasRange(text) by {
      forall q | 0 <= q < |text| ensures !RangeAt(text, q) {
        // A range spans 23 characters; the text ends 10 characters after
        // its only date token.
        if RangeAt(text, q) {
          assert DateAt(text, q + 13);
          assert q + 23 <= |text|;
          LeadInPrefixHasNoDate(word, token, q);
        }
      }
    }
    forall q | 0 <= q < d ensures !DateAt(text, q) {
      LeadInPrefixHasNoDate(word, token, q);
    }
    SingleDateFallback(text, d);
  }

  lemma LeadInPrefixHasNoDate(word: string, token: string, q: nat)
    requires forall k :: 0 <= k < |word| ==> IsWordChar(word[k])
    requires |token| == 10 && q < |LeadIn| + |word| + 1
    ensures !DateAt(LeadIn + word + " " + token, q)
  {
    var text := LeadIn + word + " " + token;
    var b := |LeadIn| + |word|;
    assert text[b] == ' ';
    assert forall t :: |LeadIn| <= t < b ==> text[t] == word[t - |LeadIn|];
    if q + 2 < b && q + 2 >= |LeadIn| {
      assert IsWordChar(text[q + 2]);
    }
  }

  // ---------------------------------------------------------------------------
  // The stored values are raw tokens, not ISO dates

  /** A text that is one `DD.MM.YYYY` token is stored as itself, whether or
      not it names a real date: `32.13.2025` is kept as `32.13.2025`, and
      `01.01.2025` is not turned into `2025-01-01`. */
  lemma RawTokenStored(text: string)
    requires IsDottedDate(text)
    ensures ClassifyValidity(text) == Period(text, Unknown)
    ensures !IsIsoShaped(ClassifyValidity(text).validFrom)
  {
    assert !HasRange(text) by {
      forall q | 0 <= q < |text| ensures !RangeAt(text, q) {
      }
    }
    assert text[0..10] == text;
    SingleDateFallback(text, 0);
  }

  /** What the record would hold if each matched token went through
      `format_date`, as the comment at main.py:81 says they are. */
  function NormalizedValidity(text: string): (v: Period)
    ensures v.validFrom == Unknown || (IsIsoShaped(v.validFrom) && IsRealDate(DecodeIso(v.validFrom)))
    ensures v.validTo == Unknown || (IsIsoShaped(v.validTo) && IsRealDate(DecodeIso(v.validTo)))
  {
    var raw := ClassifyValidity(text);
    Period(Normalize(raw.validFrom), Normalize(raw.validTo))
  }

  function Normalize(token: string): string {
    if token == Unknown then Unknown else FormatDate(token)
  }

  /** A token naming a real date is normalized to its own digits in ISO order. */
  lemma NormalizeRealToken(token: string)
    requires IsDottedDate(token) && IsRealDate(DottedDate(token))
    ensures Normalize(token) == Rearranged(token)
  {
    UnknownIsNoDate();
    FormatDateAcceptsRealDate(token);
  }

  /** With normalization a leftmost range of real dates comes out in ISO
      form from the same digits (`01.01.2025 - 15.01.2025` gives
      `2025-01-01` and `2025-01-15`). */
  lemma NormalizedRange(text: string, i: nat)
    requires RangeAt(text, i) && forall q :: 0 <= q < i ==> !RangeAt(text, q)
    requires IsRealDate(DottedDate(text[i..i + 10])) && IsRealDate(DottedDate(text[i + 13..i + 23]))
    ensures NormalizedValidity(text) == Period(Rearranged(text[i..i + 10]), Rearranged(text[i + 13..i + 23]))
  {
    RangePrecedence(text, i);
    NormalizeRealToken(text[i..i + 10]);
    NormalizeRealToken(text[i + 13..i + 23]);
  }

  /** With normalization a lone token that names no real date is dropped
      (`32.13.2025` gives "Unknown" on both sides). */
  lemma NormalizedRejectsUnrealDate(text: string)
    requires IsDottedDate(text) && !IsRealDate(DottedDate(text))
    ensures NormalizedValidity(text) == Period(Unknown, Unknown)
  {
    RawTokenStored(text);
    UnknownIsNoDate();
    FormatDateRejectsUnrealDate(text);
  }
}
