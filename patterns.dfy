/**
 * Hand-written stand-ins for the few regular expressions the plugin applies,
 * each with the match JavaScript's `String.prototype.match` returns (the
 * leftmost match; greedy and lazy quantifiers as written) stated as a
 * predicate over positions, and a search function proved to return exactly
 * that match.
 */
module Patterns {
  import opened Wrappers
  import opened Text

  // ---------------------------------------------------------------------
  // Digit runs and the duration token  \d+hr(\d+)?
  // ---------------------------------------------------------------------

  /** End of the run of digits that starts at `i` (greedy `\d*`). */
  function DigitRunEnd(s: string, i: nat): (r: nat)
    requires i <= |s|
    ensures i <= r <= |s|
    decreases |s| - i
  {
    if i < |s| && IsDigit(s[i]) then DigitRunEnd(s, i + 1) else i
  }

  lemma {:induction false} DigitRunEndSpec(s: string, i: nat)
    requires i <= |s|
    ensures forall k :: i <= k < DigitRunEnd(s, i) ==> IsDigit(s[k])
    ensures DigitRunEnd(s, i) == |s| || !IsDigit(s[DigitRunEnd(s, i)])
    decreases |s| - i
  {
    if i < |s| && IsDigit(s[i]) {
      DigitRunEndSpec(s, i + 1);
    }
  }

  /** The digit run reaches every position up to which only digits occur. */
  lemma {:induction false} DigitRunEndMax(s: string, i: nat, k: nat)
    requires i <= k <= |s|
    requires forall m :: i <= m < k ==> IsDigit(s[m])
    ensures k <= DigitRunEnd(s, i)
    decreases k - i
  {
    if i < k {
      DigitRunEndMax(s, i + 1, k);
    }
  }

  /** A run of digits from `i` that stops at `k` ends at `k`. */
  lemma DigitRunEndAt(s: string, i: nat, k: nat)
    requires i <= k <= |s|
    requires forall m :: i <= m < k ==> IsDigit(s[m])
    requires k == |s| || !IsDigit(s[k])
    ensures DigitRunEnd(s, i) == k
  {
    DigitRunEndMax(s, i, k);
    DigitRunEndSpec(s, i);
  }

  /** The regular expression `\d+hr` can match starting at `i` (with backtracking). */
  ghost predicate RegexTimeAt(s: string, i: nat) {
    exists j :: i < j && OccursAt(s, "hr", j) && forall k :: i <= k < j ==> IsDigit(s[k])
  }

  /** The same test without backtracking: the greedy digit run is followed by `hr`. */
  predicate TimeAt(s: string, i: nat) {
    i < |s| && IsDigit(s[i]) && OccursAt(s, "hr", DigitRunEnd(s, i))
  }

  /** Backtracking never helps `\d+hr`: the digit run must end exactly where `hr` begins. */
  lemma TimeAtIsRegex(s: string, i: nat)
    ensures TimeAt(s, i) <==> RegexTimeAt(s, i)
  {
    if TimeAt(s, i) {
      DigitRunEndSpec(s, i);
      assert OccursAt(s, "hr", DigitRunEnd(s, i));
    }
    if RegexTimeAt(s, i) {
      var j :| i < j && OccursAt(s, "hr", j) && forall k :: i <= k < j ==> IsDigit(s[k]);
      DigitRunEndSpec(s, i);
      DigitRunEndMax(s, i, j);
      assert s[j] == 'h';
    }
  }

  /** Leftmost start, at or after `from`, of a match of `\d+hr`. */
  function FindTime(s: string, from: nat): (r: Option<nat>)
    ensures r.Some? ==> TimeAt(s, r.value)
    decreases |s| - from
  {
    if |s| <= from then None
    else if TimeAt(s, from) then Some(from)
    else FindTime(s, from + 1)
  }

  lemma {:induction false} FindTimeSpec(s: string, from: nat)
    ensures var r := FindTime(s, from);
      (r.Some? ==> from <= r.value && TimeAt(s, r.value)) &&
      (r.Some? ==> forall j :: from <= j < r.value ==> !TimeAt(s, j)) &&
      (r.None? ==> forall j :: from <= j ==> !TimeAt(s, j))
    decreases |s| - from
  {
    if |s| > from && !TimeAt(s, from) {
      FindTimeSpec(s, from + 1);
    }
  }

  /**
   * A match of `(\d+)hr(\d+)?`: the hours are `s[start..hr]`, the minutes
   * `s[hr + 2..end]` (empty when the optional group did not take part) and the
   * whole match is `s[start..end]`.
   */
  datatype TimeMatch = TimeMatch(start: nat, hr: nat, end: nat)

  function MatchTime(s: string): Option<TimeMatch> {
    match FindTime(s, 0)
    case None => None
    case Some(i) =>
      var h := DigitRunEnd(s, i);
      Some(TimeMatch(i, h, DigitRunEnd(s, h + 2)))
  }

  /**
   * `MatchTime` finds the leftmost match: its hours are the whole digit run
   * before `hr`, its minutes the whole digit run after it.
   */
  lemma MatchTimeSpec(s: string)
    ensures MatchTime(s).None? <==> forall j: nat :: !TimeAt(s, j)
    ensures MatchTime(s).Some? ==> var m := MatchTime(s).value;
      TimeAt(s, m.start) && (forall j: nat :: j < m.start ==> !TimeAt(s, j)) &&
      m.hr == DigitRunEnd(s, m.start) && m.start < m.hr && m.hr + 2 <= m.end <= |s| &&
      s[m.hr..m.hr + 2] == "hr" && AllDigits(s[m.start..m.hr]) && AllDigits(s[m.hr + 2..m.end]) &&
      (m.end == |s| || !IsDigit(s[m.end]))
  {
    FindTimeSpec(s, 0);
    if FindTime(s, 0).Some? {
      MatchGroups(s, FindTime(s, 0).value);
    }
  }

  /** The match found at `i` has the groups of a match of `(\d+)hr(\d+)?` there. */
  lemma MatchGroups(s: string, i: nat)
    requires FindTime(s, 0) == Some(i)
    ensures MatchTime(s).Some? && var m := MatchTime(s).value;
      m.start == i && m.hr == DigitRunEnd(s, i) && m.start < m.hr && m.hr + 2 <= m.end <= |s| &&
      s[m.hr..m.hr + 2] == "hr" && AllDigits(s[m.start..m.hr]) && AllDigits(s[m.hr + 2..m.end]) &&
      (m.end == |s| || !IsDigit(s[m.end]))
  {
    MatchShape(s, i);
  }

  /** The groups of a match of `(\d+)hr(\d+)?` that starts at `i`. */
  lemma MatchShape(s: string, i: nat)
    requires TimeAt(s, i)
    ensures var h := DigitRunEnd(s, i);
      var e := DigitRunEnd(s, h + 2);
      i < h && h + 2 <= e <= |s| && s[h..h + 2] == "hr" &&
      AllDigits(s[i..h]) && AllDigits(s[h + 2..e]) && (e == |s| || !IsDigit(s[e]))
  {
    var h := DigitRunEnd(s, i);
    DigitRunEndSpec(s, i);
    var e := DigitRunEnd(s, h + 2);
    DigitRunEndSpec(s, h + 2);
    var hours, minutes := s[i..h], s[h + 2..e];
    assert forall k :: 0 <= k < |hours| ==> hours[k] == s[i + k];
    assert forall k :: 0 <= k < |minutes| ==> minutes[k] == s[h + 2 + k];
  }

  // ---------------------------------------------------------------------
  // Greedy spans  open(.*)close
  // ---------------------------------------------------------------------

  /** The characters `.` does not match in a JavaScript regular expression without the `s` flag. */
  predicate IsLineTerminator(c: char) {
    c == '\n' || c == '\r' || c == '\U{2028}' || c == '\U{2029}'
  }

  /** `open(.*)close` can match with `open` at `i` and `close` at `k`. */
  predicate SpanAt(s: string, open: string, close: string, i: nat, k: nat) {
    OccursAt(s, open, i) && i + |open| <= k && OccursAt(s, close, k) &&
    forall m :: i + |open| <= m < k ==> !IsLineTerminator(s[m])
  }

  /** End of the run of non-terminator characters that starts at `i` (greedy `.*`). */
  function DotRunEnd(s: string, i: nat): (r: nat)
    requires i <= |s|
    ensures i <= r <= |s|
    decreases |s| - i
  {
    if i < |s| && !IsLineTerminator(s[i]) then DotRunEnd(s, i + 1) else i
  }

  lemma {:induction false} DotRunEndSpec(s: string, i: nat)
    requires i <= |s|
    ensures forall k :: i <= k < DotRunEnd(s, i) ==> !IsLineTerminator(s[k])
    ensures DotRunEnd(s, i) == |s| || IsLineTerminator(s[DotRunEnd(s, i)])
    decreases |s| - i
  {
    if i < |s| && !IsLineTerminator(s[i]) {
      DotRunEndSpec(s, i + 1);
    }
  }

  /** Last position `k` with `lo <= k <= hi` where `pat` occurs. */
  function LastOccurrence(s: string, pat: string, lo: nat, hi: nat): (r: Option<nat>)
    ensures r.Some? ==> lo <= r.value <= hi
    decreases hi
  {
    if hi < lo then None
    else if OccursAt(s, pat, hi) then Some(hi)
    else if hi == 0 then None
    else LastOccurrence(s, pat, lo, hi - 1)
  }

  lemma {:induction false} LastOccurrenceSpec(s: string, pat: string, lo: nat, hi: nat)
    ensures var r := LastOccurrence(s, pat, lo, hi);
      (r.Some? ==> OccursAt(s, pat, r.value)) &&
      (r.Some? ==> forall k :: r.value < k <= hi ==> !OccursAt(s, pat, k)) &&
      (r.None? ==> forall k :: lo <= k <= hi ==> !OccursAt(s, pat, k))
    decreases hi
  {
    if lo <= hi && !OccursAt(s, pat, hi) && hi > 0 {
      LastOccurrenceSpec(s, pat, lo, hi - 1);
    }
  }

  /**
   * The match of `open(.*)close` searched from `from`: the leftmost `open`
   * that can be closed and, for it, the last `close` the greedy group reaches.
   */
  function GreedySpan(s: string, open: string, close: string, from: nat): (r: Option<(nat, nat)>)
    ensures r.Some? ==> r.value.0 + |open| <= r.value.1 <= |s|
    decreases |s| - from
  {
    if |s| < from + |open| then None
    else if !OccursAt(s, open, from) then GreedySpan(s, open, close, from + 1)
    else
      var e := DotRunEnd(s, from + |open|);
      match LastOccurrence(s, close, from + |open|, e)
      case Some(k) => Some((from, k))
      case None => GreedySpan(s, open, close, from + 1)
  }

  lemma {:induction false} GreedySpanSpec(s: string, open: string, close: string, from: nat)
    ensures var r := GreedySpan(s, open, close, from);
      (r.Some? ==> from <= r.value.0 && SpanAt(s, open, close, r.value.0, r.value.1)) &&
      (r.Some? ==> forall j: nat, k: nat :: from <= j < r.value.0 ==> !SpanAt(s, open, close, j, k)) &&
      (r.Some? ==> forall k: nat :: SpanAt(s, open, close, r.value.0, k) ==> k <= r.value.1) &&
      (r.None? ==> forall j: nat, k: nat :: from <= j ==> !SpanAt(s, open, close, j, k))
    decreases |s| - from
  {
    if |s| >= from + |open| {
      if !OccursAt(s, open, from) {
        GreedySpanSpec(s, open, close, from + 1);
        assert forall k: nat :: !SpanAt(s, open, close, from, k);
      } else {
        SpansFrom(s, open, close, from);
        if LastOccurrence(s, close, from + |open|, DotRunEnd(s, from + |open|)).None? {
          GreedySpanSpec(s, open, close, from + 1);
          assert forall k: nat :: !SpanAt(s, open, close, from, k);
        }
      }
    }
  }

  /** With `open` at `i`, the greedy group closes at the last `close` before the end of the line, if any. */
  lemma SpansFrom(s: string, open: string, close: string, i: nat)
    requires OccursAt(s, open, i)
    ensures var r := LastOccurrence(s, close, i + |open|, DotRunEnd(s, i + |open|));
      (r.Some? ==> SpanAt(s, open, close, i, r.value)) &&
      (r.Some? ==> forall k: nat :: SpanAt(s, open, close, i, k) ==> k <= r.value) &&
      (r.None? ==> forall k: nat :: !SpanAt(s, open, close, i, k))
  {
    var e := DotRunEnd(s, i + |open|);
    DotRunEndSpec(s, i + |open|);
    LastOccurrenceSpec(s, close, i + |open|, e);
    forall k: nat | SpanAt(s, open, close, i, k) ensures k <= e {
      DotRunEndMax(s, i + |open|, k);
    }
  }

  /** The greedy run reaches every position up to which no terminator occurs. */
  lemma {:induction false} DotRunEndMax(s: string, i: nat, k: nat)
    requires i <= k <= |s|
    requires forall m :: i <= m < k ==> !IsLineTerminator(s[m])
    ensures k <= DotRunEnd(s, i)
    decreases k - i
  {
    if i < k {
      DotRunEndMax(s, i + 1, k);
    }
  }

  /** A span with no `open` before it and no `close` after it is the one the search returns. */
  lemma OnlySpan(s: string, open: string, close: string, i: nat, k: nat)
    requires SpanAt(s, open, close, i, k)
    requires forall j: nat :: j < i ==> !OccursAt(s, open, j)
    requires forall m: nat :: k < m ==> !OccursAt(s, close, m)
    ensures GreedySpan(s, open, close, 0) == Some((i, k))
  {
    GreedySpanSpec(s, open, close, 0);
    var r := GreedySpan(s, open, close, 0);
    assert r.Some?;
    assert r.value.0 == i;
    assert k <= r.value.1;
  }

  /** The text captured by the group of `open(.*)close`, if the pattern matches. */
  function GreedyGroup(s: string, open: string, close: string): Option<string> {
    match GreedySpan(s, open, close, 0)
    case None => None
    case Some((i, k)) => Some(s[i + |open|..k])
  }

  /**
   * The group exists exactly when some `open` is closed on its line; it is
   * the text after the leftmost such `open`, up to the last `close` on the
   * same line.
   */
  lemma GreedyGroupSpec(s: string, open: string, close: string)
    ensures GreedyGroup(s, open, close).None? <==> forall j: nat, k: nat :: !SpanAt(s, open, close, j, k)
    ensures GreedyGroup(s, open, close).Some? ==>
      exists i: nat, k: nat :: SpanAt(s, open, close, i, k) && GreedyGroup(s, open, close).value == s[i + |open|..k] &&
        (forall j: nat, k': nat :: j < i ==> !SpanAt(s, open, close, j, k')) &&
        (forall k': nat :: SpanAt(s, open, close, i, k') ==> k' <= k)
  {
    GreedySpanSpec(s, open, close, 0);
    var r := GreedySpan(s, open, close, 0);
    if r.Some? {
      var i, k := r.value.0, r.value.1;
      assert SpanAt(s, open, close, i, k) && GreedyGroup(s, open, close).value == s[i + |open|..k];
    }
  }

  // ---------------------------------------------------------------------
  // The section pattern  marker([\s\S]+?)\n#
  // ---------------------------------------------------------------------

  /** `marker([\s\S]+?)\n#` can match with `marker` at `i` and `\n#` at `k` (at least one character between). */
  predicate SectionAt(s: string, marker: string, i: nat, k: nat) {
    OccursAt(s, marker, i) && i + |marker| < k && OccursAt(s, "\n#", k)
  }

  /** The leftmost match of the section pattern and, for it, the shortest (lazy) capture. */
  function SectionSpan(s: string, marker: string): Option<(nat, nat)> {
    match Find(s, marker, 0)
    case None => None
    case Some(i) =>
      match Find(s, "\n#", i + |marker| + 1)
      case None => None
      case Some(k) => Some((i, k))
  }

  lemma SectionSpanSpec(s: string, marker: string)
    ensures var r := SectionSpan(s, marker);
      (r.Some? ==> SectionAt(s, marker, r.value.0, r.value.1)) &&
      (r.Some? ==> forall j: nat, k: nat :: j < r.value.0 ==> !SectionAt(s, marker, j, k)) &&
      (r.Some? ==> forall k: nat :: SectionAt(s, marker, r.value.0, k) ==> r.value.1 <= k) &&
      (r.None? ==> forall j: nat, k: nat :: !SectionAt(s, marker, j, k))
  {
  }

  // ---------------------------------------------------------------------
  // Dates  \d\d\d\d-\d\d-\d\d
  // ---------------------------------------------------------------------

  /** `\d\d\d\d-\d\d-\d\d` matches at `i`. */
  predicate DateShapeAt(s: string, i: nat) {
    i + 10 <= |s| &&
    IsDigit(s[i]) && IsDigit(s[i + 1]) && IsDigit(s[i + 2]) && IsDigit(s[i + 3]) &&
    s[i + 4] == '-' && IsDigit(s[i + 5]) && IsDigit(s[i + 6]) &&
    s[i + 7] == '-' && IsDigit(s[i + 8]) && IsDigit(s[i + 9])
  }

  /** `prefix` followed by a date matches at `i`. */
  predicate MarkedDateAt(s: string, prefix: string, i: nat) {
    OccursAt(s, prefix, i) && DateShapeAt(s, i + |prefix|)
  }

  /** Leftmost match, at or after `from`, of `prefix` followed by a date. */
  function FindMarkedDate(s: string, prefix: string, from: nat): (r: Option<nat>)
    ensures r.Some? ==> from <= r.value && MarkedDateAt(s, prefix, r.value)
    ensures r.Some? ==> forall j :: from <= j < r.value ==> !MarkedDateAt(s, prefix, j)
    ensures r.None? ==> forall j :: from <= j ==> !MarkedDateAt(s, prefix, j)
    decreases |s| - from
  {
    if |s| < from + |prefix| + 10 then None
    else if MarkedDateAt(s, prefix, from) then Some(from)
    else FindMarkedDate(s, prefix, from + 1)
  }
}
