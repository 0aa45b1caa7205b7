/**
 * The project view: duration tokens (`timeAdd`, `timePercent`), the walk over
 * the daily notes of a date range that totals the time spent per project
 * (`filter`), and the numbered lines the view prints (`listByTime`).
 */
module Project {
  import opened Wrappers
  import opened Text
  import opened Lists
  import opened Patterns
  import opened Markdown
  import File

  // ---------------------------------------------------------------------
  // Duration tokens  <hours>hr<minutes>
  // ---------------------------------------------------------------------

  /** The text contains a duration token (`/\d+hr(\d+)?/` matches). */
  predicate HasTime(s: string) {
    MatchTime(s).Some?
  }

  /** The first duration token of the text (match `[0]`), or `''`. */
  function TimeToken(s: string): (r: string)
    ensures HasTime(s) <==> r != ""
    ensures r != "" ==> exists i :: 0 <= i <= |s| - |r| && s[i..i + |r|] == r && TimeAt(s, i)
  {
    match MatchTime(s)
    case None => ""
    case Some(m) => s[m.start..m.end]
  }

  /**
   * Hours and minutes of the first duration token: `(\d+)hr(\d+)?` with both
   * groups defaulting to 0 (no match at all, or no minutes).
   */
  function ParseTime(s: string): (r: (nat, nat))
    ensures !HasTime(s) ==> r == (0, 0)
  {
    MatchTimeSpec(s);
    match MatchTime(s)
    case None => (0, 0)
    case Some(m) =>
      (DecimalValue(s[m.start..m.hr]), if m.end == m.hr + 2 then 0 else DecimalValue(s[m.hr + 2..m.end]))
  }

  /**
   * The token is the leftmost match of `\d+hr(\d+)?`: it starts at the first
   * position where digits followed by `hr` begin, takes all of those digits,
   * `hr`, and every digit that follows.
   */
  lemma TimeTokenSpec(s: string)
    ensures HasTime(s) ==> exists i: nat, h: nat, e: nat ::
      TimeAt(s, i) && (forall j: nat :: j < i ==> !TimeAt(s, j)) &&
      i < h && h + 2 <= e <= |s| && AllDigits(s[i..h]) && s[h..h + 2] == "hr" &&
      AllDigits(s[h + 2..e]) && (e == |s| || !IsDigit(s[e])) &&
      TimeToken(s) == s[i..e]
  {
    MatchTimeSpec(s);
    if HasTime(s) {
      var m := MatchTime(s).value;
      assert TimeToken(s) == s[m.start..m.end];
    }
  }

  /**
   * Of that leftmost token, the hours are the digits before `hr` and the
   * minutes the digits after it, 0 when there are none.
   */
  lemma ParseTimeSpec(s: string)
    ensures HasTime(s) ==> exists i: nat, h: nat, e: nat ::
      TimeAt(s, i) && (forall j: nat :: j < i ==> !TimeAt(s, j)) &&
      i < h && h + 2 <= e <= |s| && AllDigits(s[i..h]) && s[h..h + 2] == "hr" &&
      AllDigits(s[h + 2..e]) && (e == |s| || !IsDigit(s[e])) &&
      ParseTime(s) == (DecimalValue(s[i..h]), if e == h + 2 then 0 else DecimalValue(s[h + 2..e]))
  {
    MatchTimeSpec(s);
    if HasTime(s) {
      var m := MatchTime(s).value;
      assert ParseTime(s) == (DecimalValue(s[m.start..m.hr]), if m.end == m.hr + 2 then 0 else DecimalValue(s[m.hr + 2..m.end]));
    }
  }

  /** `${h}hr${m}`. */
  function FormatTime(h: nat, m: nat): string {
    NatToString(h) + "hr" + NatToString(m)
  }

  /** A written duration is matched as a whole, from its first character. */
  lemma WrittenTimeMatch(hs: string, ms: string, s: string)
    requires |hs| >= 1 && AllDigits(hs) && AllDigits(ms)
    requires s == hs + "hr" + ms
    ensures MatchTime(s) == Some(TimeMatch(0, |hs|, |s|))
  {
    assert s[|hs|] == 'h' && s[|hs| + 1] == 'r';
    assert forall k :: 0 <= k < |hs| ==> s[k] == hs[k];
    assert forall k :: |hs| + 2 <= k < |s| ==> s[k] == ms[k - |hs| - 2];
    DigitRunEndAt(s, 0, |hs|);
    assert TimeAt(s, 0);
    assert FindTime(s, 0) == Some(0);
    DigitRunEndAt(s, |hs| + 2, |s|);
  }

  /** Reading a written duration gives its hours and minutes back. */
  lemma ParseFormat(h: nat, m: nat)
    ensures HasTime(FormatTime(h, m))
    ensures ParseTime(FormatTime(h, m)) == (h, m)
  {
    var hs, ms := NatToString(h), NatToString(m);
    var s := FormatTime(h, m);
    WrittenTimeMatch(hs, ms, s);
    assert s[0..|hs|] == hs && s[|hs| + 2..|s|] == ms;
  }

  /**
   * Minutes carried into hours: `Number((min / 60).toFixed(0))`, the number of
   * hours nearest to `min` minutes, a half hour rounding up.
   */
  function Carry(min: nat): (r: nat)
    ensures r * 60 <= min + 30 < r * 60 + 60
  {
    (min + 30) / 60
  }

  /**
   * The hours and minutes `timeAdd` writes for two parsed operands: the
   * minutes are the summed minutes modulo 60 (so always below 60), and the
   * hours are at least the summed hours.
   */
  function SumTime(x: (nat, nat), y: (nat, nat)): (r: (nat, nat))
    ensures r.1 == (x.1 + y.1) % 60 && r.1 < 60
    ensures r.0 >= x.0 + y.0
  {
    var min := x.1 + y.1;
    if min >= 60 then (x.0 + y.0 + Carry(min), min % 60)
    else (x.0 + y.0, min)
  }

  /**
   * `timeAdd`: an empty operand yields the other one verbatim; otherwise the
   * hours and the minutes are summed and minute overflow is carried.
   */
  function TimeAdd(a: string, b: string): (r: string)
    ensures a == "" ==> r == b
    ensures b == "" ==> r == a
  {
    if a == "" then b
    else if b == "" then a
    else
      var t := SumTime(ParseTime(a), ParseTime(b));
      FormatTime(t.0, t.1)
  }

  /** The total, in minutes, of the first duration token of a text. */
  function Minutes(s: string): nat {
    TotalMinutes(ParseTime(s))
  }

  function TotalMinutes(t: (nat, nat)): nat {
    t.0 * 60 + t.1
  }

  /**
   * The summed minutes stay below 60, and the sum overshoots the exact total
   * by one hour exactly when the minutes overflow with a remainder of 30 or more.
   */
  lemma SumTimeTotal(x: (nat, nat), y: (nat, nat))
    ensures x.1 + y.1 >= 60 ==> SumTime(x, y).1 < 60
    ensures TotalMinutes(SumTime(x, y)) ==
      TotalMinutes(x) + TotalMinutes(y) + (if x.1 + y.1 >= 60 && (x.1 + y.1) % 60 >= 30 then 60 else 0)
  {
  }

  /** The order of the operands does not matter. */
  lemma TimeAddCommutes(a: string, b: string)
    ensures TimeAdd(a, b) == TimeAdd(b, a)
  {
    if a != "" && b != "" {
      var x, y := ParseTime(a), ParseTime(b);
      assert SumTime(x, y) == SumTime(y, x);
    }
  }

  /**
   * Adding two non-empty tokens writes a token that reads back as the summed
   * hours and minutes; its total overshoots the exact sum by one hour exactly
   * when the minutes overflow with a remainder of 30 or more.
   */
  lemma TimeAddTotal(a: string, b: string)
    requires a != "" && b != ""
    ensures HasTime(TimeAdd(a, b))
    ensures ParseTime(TimeAdd(a, b)) == SumTime(ParseTime(a), ParseTime(b))
    ensures ParseTime(a).1 < 60 && ParseTime(b).1 < 60 ==> ParseTime(TimeAdd(a, b)).1 < 60
    ensures Minutes(TimeAdd(a, b)) == Minutes(a) + Minutes(b) +
      (if ParseTime(a).1 + ParseTime(b).1 >= 60 && (ParseTime(a).1 + ParseTime(b).1) % 60 >= 30 then 60 else 0)
  {
    TimeAddReads(a, b);
    SumTimeTotal(ParseTime(a), ParseTime(b));
  }

  lemma TimeAddReads(a: string, b: string)
    requires a != "" && b != ""
    ensures HasTime(TimeAdd(a, b))
    ensures ParseTime(TimeAdd(a, b)) == SumTime(ParseTime(a), ParseTime(b))
  {
    var t := SumTime(ParseTime(a), ParseTime(b));
    assert TimeAdd(a, b) == FormatTime(t.0, t.1);
    ParseFormat(t.0, t.1);
  }

  lemma ExampleDigits()
    ensures NatToString(45) == "45" && NatToString(15) == "15" && NatToString(30) == "30"
  {
  }

  /** `s` is the token written for `h` hours and `m` minutes, so it reads back as `(h, m)`. */
  lemma ReadsAs(s: string, h: nat, m: nat)
    requires s == FormatTime(h, m)
    ensures s != "" && ParseTime(s) == (h, m)
  {
    ParseFormat(h, m);
  }

  lemma ExampleFormats()
    ensures FormatTime(0, 45) == "0hr45" && FormatTime(0, 15) == "0hr15"
    ensures FormatTime(2, 30) == "2hr30" && FormatTime(1, 0) == "1hr0"
    ensures FormatTime(2, 45) == "2hr45" && FormatTime(1, 45) == "1hr45"
  {
    ExampleDigits();
  }

  /** Adding the tokens `a` and `b`, read as `x` and `y`, writes the token of their sum. */
  lemma AddsAs(a: string, b: string, x: (nat, nat), y: (nat, nat))
    requires a == FormatTime(x.0, x.1) && b == FormatTime(y.0, y.1)
    ensures TimeAdd(a, b) == FormatTime(SumTime(x, y).0, SumTime(x, y).1)
  {
    ReadsAs(a, x.0, x.1);
    ReadsAs(b, y.0, y.1);
  }

  lemma ExampleSums()
    ensures SumTime((0, 45), (0, 45)) == (2, 30) && SumTime((2, 30), (0, 15)) == (2, 45)
    ensures SumTime((0, 45), (0, 15)) == (1, 0) && SumTime((0, 45), (1, 0)) == (1, 45)
  {
  }

  /**
   * Because of the rounding carry, 45 + 45 minutes come out as two and a half
   * hours, and `timeAdd` is not associative: with `q` = `0hr45` and `f` =
   * `0hr15`, `(q + q) + f` is `2hr45` but `q + (q + f)` is `1hr45`.
   */
  lemma TimeAddRoundsUp(q: string, f: string)
    requires q == FormatTime(0, 45) && f == FormatTime(0, 15)
    ensures q == "0hr45" && f == "0hr15"
    ensures TimeAdd(q, q) == "2hr30"
    ensures TimeAdd(TimeAdd(q, q), f) == "2hr45"
    ensures TimeAdd(q, TimeAdd(q, f)) == "1hr45"
  {
    ExampleFormats();
    ExampleSums();
    var qq := TimeAdd(q, q);
    AddsAs(q, q, (0, 45), (0, 45));
    AddsAs(qq, f, (2, 30), (0, 15));
    var qf := TimeAdd(q, f);
    AddsAs(q, f, (0, 45), (0, 15));
    AddsAs(q, qf, (0, 45), (1, 0));
  }

  /**
   * `timePercent`: `''` when either operand is empty; otherwise the part's
   * minutes over the whole's, as formatted by `percent`, followed by `%`.
   */
  function TimePercent(part: string, whole: string, percent: (nat, nat) -> string): (r: string)
    ensures r == "" <==> part == "" || whole == ""
    ensures r != "" ==> r[|r| - 1] == '%' && r[..|r| - 1] == percent(Minutes(part), Minutes(whole))
  {
    if part == "" then ""
    else if whole == "" then ""
    else percent(Minutes(part), Minutes(whole)) + "%"
  }

  // ---------------------------------------------------------------------
  // One line of a day's project section
  // ---------------------------------------------------------------------

  /** Projects seen so far, in first-seen order, and the time spent per project path. */
  datatype Tally = Tally(projects: seq<string>, spent: map<string, string>)

  /** Path of the note a link target resolves to, or `''` when it does not resolve. */
  function ProjectPath(links: map<string, File.Doc>, target: string): string {
    match File.Resolve(links, target)
    case None => ""
    case Some(doc) => doc.path
  }

  /** The project key a section line is counted under, if it names a project. */
  function LineKey(links: map<string, File.Doc>, line: string): Option<string> {
    match LineLink(line)
    case None => None
    case Some(target) => Some(ProjectPath(links, target))
  }

  /** The time spent on a project so far; a project not yet seen has `undefined`, treated as `''`. */
  function Spent(m: map<string, string>, key: string): string {
    if key in m then m[key] else ""
  }

  /** What one line does to the tally. */
  function CountLine(t: Tally, links: map<string, File.Doc>, line: string): Tally {
    match LineKey(links, line)
    case None => t
    case Some(key) =>
      Tally(AddNew(t.projects, key), t.spent[key := TimeAdd(Spent(t.spent, key), TimeToken(line))])
  }

  /** The lines of a section counted in order. */
  function CountLines(t: Tally, links: map<string, File.Doc>, lines: seq<string>): Tally
    decreases |lines|
  {
    if |lines| == 0 then t
    else CountLine(CountLines(t, links, lines[..|lines| - 1]), links, lines[|lines| - 1])
  }

  /** The project keys the lines name, in line order. */
  function LineKeys(links: map<string, File.Doc>, lines: seq<string>): seq<string>
    decreases |lines|
  {
    if |lines| == 0 then []
    else
      var prefix := LineKeys(links, lines[..|lines| - 1]);
      match LineKey(links, lines[|lines| - 1])
      case None => prefix
      case Some(key) => prefix + [key]
  }

  /** The day's total: the last line holding a duration token, or `0hr0`. */
  function DayTotal(lines: seq<string>): string {
    LastWhere(lines, HasTime, "0hr0")
  }

  /** The day's total is the whole text of the last line holding a duration token, or `0hr0` when none does. */
  lemma DayTotalIsLastTimed(lines: seq<string>)
    ensures (forall i :: 0 <= i < |lines| ==> !HasTime(lines[i])) ==> DayTotal(lines) == "0hr0"
    ensures forall i: nat :: i < |lines| && HasTime(lines[i]) && (forall j :: i < j < |lines| ==> !HasTime(lines[j])) ==>
      DayTotal(lines) == lines[i]
  {
    if forall i :: 0 <= i < |lines| ==> !HasTime(lines[i]) {
      LastWhereNone(lines, HasTime, "0hr0");
    }
    forall i: nat | i < |lines| && HasTime(lines[i]) && (forall j :: i < j < |lines| ==> !HasTime(lines[j]))
      ensures DayTotal(lines) == lines[i]
    {
      LastWhereLast(lines, HasTime, "0hr0", i);
    }
  }

  /** Counting lines records exactly the new keys of the lines, in first-seen order. */
  lemma {:induction false} CountLinesProjects(t: Tally, links: map<string, File.Doc>, lines: seq<string>)
    ensures CountLines(t, links, lines).projects == DedupOnto(t.projects, LineKeys(links, lines))
    decreases |lines|
  {
    if |lines| > 0 {
      CountLinesProjects(t, links, lines[..|lines| - 1]);
    }
  }

  /** Every recorded project has a time entry and every time entry belongs to a recorded project. */
  ghost predicate KeysAgree(t: Tally) {
    forall p :: p in t.projects <==> p in t.spent
  }

  lemma {:induction false} CountLinesKeysAgree(t: Tally, links: map<string, File.Doc>, lines: seq<string>)
    requires KeysAgree(t)
    ensures KeysAgree(CountLines(t, links, lines))
    decreases |lines|
  {
    if |lines| > 0 {
      CountLinesKeysAgree(t, links, lines[..|lines| - 1]);
    }
  }

  /** The (project key, duration token) of each line that names a project, in line order. */
  function LineTimes(links: map<string, File.Doc>, lines: seq<string>): seq<(string, string)>
    decreases |lines|
  {
    if |lines| == 0 then []
    else
      var prefix := LineTimes(links, lines[..|lines| - 1]);
      var line := lines[|lines| - 1];
      match LineKey(links, line)
      case None => prefix
      case Some(key) => prefix + [(key, TimeToken(line))]
  }

  /** `timeAdd` folded, from `init` on, over the tokens of the entries filed under `key`. */
  function TimeFor(init: string, entries: seq<(string, string)>, key: string): string
    decreases |entries|
  {
    if |entries| == 0 then init
    else
      var prev := TimeFor(init, entries[..|entries| - 1], key);
      var e := entries[|entries| - 1];
      if e.0 == key then TimeAdd(prev, e.1) else prev
  }

  lemma {:induction false} TimeForAppend(init: string, xs: seq<(string, string)>, ys: seq<(string, string)>, key: string)
    ensures TimeFor(init, xs + ys, key) == TimeFor(TimeFor(init, xs, key), ys, key)
    decreases |ys|
  {
    if |ys| == 0 {
      assert xs + ys == xs;
    } else {
      assert (xs + ys)[..|xs + ys| - 1] == xs + ys[..|ys| - 1];
      TimeForAppend(init, xs, ys[..|ys| - 1], key);
    }
  }

  /**
   * A key filed under exactly once keeps that entry's token verbatim: a
   * project seen on one line is shown with its token as written (`1hr90`
   * stays `1hr90`).
   */
  lemma {:induction false} TimeForSingle(entries: seq<(string, string)>, key: string, i: nat)
    requires i < |entries| && entries[i].0 == key
    requires forall j :: 0 <= j < |entries| && j != i ==> entries[j].0 != key
    ensures TimeFor("", entries, key) == entries[i].1
    decreases |entries|
  {
    var n := |entries|;
    if i < n - 1 {
      TimeForSingle(entries[..n - 1], key, i);
    } else {
      TimeForNone(entries[..n - 1], key);
    }
  }

  lemma {:induction false} TimeForNone(entries: seq<(string, string)>, key: string)
    requires forall j :: 0 <= j < |entries| ==> entries[j].0 != key
    ensures TimeFor("", entries, key) == ""
    decreases |entries|
  {
    if |entries| > 0 {
      TimeForNone(entries[..|entries| - 1], key);
    }
  }

  /** Counting lines adds to each key's time the tokens of that key's lines, in line order. */
  lemma {:induction false} CountLinesSpent(t: Tally, links: map<string, File.Doc>, lines: seq<string>, key: string)
    ensures Spent(CountLines(t, links, lines).spent, key) == TimeFor(Spent(t.spent, key), LineTimes(links, lines), key)
    decreases |lines|
  {
    if |lines| > 0 {
      var p := lines[..|lines| - 1];
      var line := lines[|lines| - 1];
      CountLinesSpent(t, links, p, key);
      match LineKey(links, line)
      case None =>
      case Some(k) =>
        TimeForAppend(Spent(t.spent, key), LineTimes(links, p), [(k, TimeToken(line))], key);
        assert [(k, TimeToken(line))][..0] == [];
    }
  }

  // ---------------------------------------------------------------------
  // The walk over the days of a range
  // ---------------------------------------------------------------------

  /**
   * The vault as the walk sees it: the note each day's link `YYYY-MM-DD.md`
   * resolves to, and the note any other link text resolves to.
   */
  datatype Store = Store(days: map<int, File.Doc>, links: map<string, File.Doc>)

  /** The day's note, kept only when it lies under the periodic-notes folder. */
  function DayDoc(store: Store, folder: string, day: int): (r: Option<File.Doc>)
    ensures r.Some? ==> day in store.days && r.value == store.days[day]
    ensures r.Some? <==> day in store.days && (folder == "" || exists j :: OccursAt(store.days[day].path, folder, j))
  {
    File.Get(if day in store.days then Some(store.days[day]) else None, folder)
  }

  /** Projects in first-seen order, time per project, and the running total. */
  datatype Rollup = Rollup(projects: seq<string>, spent: map<string, string>, total: string)

  const Empty: Rollup := Rollup([], map[], "")

  /** What one day does to the rollup: a day without a note changes nothing. */
  function CountDay(r: Rollup, store: Store, header: string, folder: string, day: int): Rollup {
    match DayDoc(store, folder, day)
    case None => r
    case Some(doc) =>
      var lines := SectionLines(doc.content, header);
      var t := CountLines(Tally(r.projects, r.spent), store.links, lines);
      Rollup(t.projects, t.spent, TimeAdd(r.total, DayTotal(lines)))
  }

  /** The rollup of the days `from..last`, counted in day order. */
  function RollupThrough(store: Store, header: string, folder: string, from: int, last: int): Rollup
    decreases last - from
  {
    if last < from then Empty
    else CountDay(RollupThrough(store, header, folder, from, last - 1), store, header, folder, last)
  }

  /** The project keys the days `from..last` name, in day order and then line order. */
  function KeyStream(store: Store, header: string, folder: string, from: int, last: int): seq<string>
    decreases last - from
  {
    if last < from then []
    else
      var prefix := KeyStream(store, header, folder, from, last - 1);
      match DayDoc(store, folder, last)
      case None => prefix
      case Some(doc) => prefix + LineKeys(store.links, SectionLines(doc.content, header))
  }

  /** The (project key, duration token) entries the days `from..last` name, in day order and then line order. */
  function TimeStream(store: Store, header: string, folder: string, from: int, last: int): seq<(string, string)>
    decreases last - from
  {
    if last < from then []
    else
      var prefix := TimeStream(store, header, folder, from, last - 1);
      match DayDoc(store, folder, last)
      case None => prefix
      case Some(doc) => prefix + LineTimes(store.links, SectionLines(doc.content, header))
  }

  /**
   * The time of each project (`''` for one never seen) is `timeAdd` folded
   * from `''` over the tokens of its lines, in day order and then line order.
   */
  lemma {:induction false} RollupSpent(store: Store, header: string, folder: string, from: int, last: int, key: string)
    ensures Spent(RollupThrough(store, header, folder, from, last).spent, key) ==
      TimeFor("", TimeStream(store, header, folder, from, last), key)
    decreases last - from
  {
    if last >= from {
      RollupSpent(store, header, folder, from, last - 1, key);
      var prev := RollupThrough(store, header, folder, from, last - 1);
      match DayDoc(store, folder, last)
      case None =>
      case Some(doc) =>
        var lines := SectionLines(doc.content, header);
        CountLinesSpent(Tally(prev.projects, prev.spent), store.links, lines, key);
        TimeForAppend("", TimeStream(store, header, folder, from, last - 1), LineTimes(store.links, lines), key);
    }
  }

  /** The project list is the distinct keys of the stream, in first-seen order. */
  lemma {:induction false} RollupProjects(store: Store, header: string, folder: string, from: int, last: int)
    ensures RollupThrough(store, header, folder, from, last).projects == Dedup(KeyStream(store, header, folder, from, last))
    decreases last - from
  {
    if last >= from {
      RollupProjects(store, header, folder, from, last - 1);
      var prev := RollupThrough(store, header, folder, from, last - 1);
      var s := KeyStream(store, header, folder, from, last - 1);
      match DayDoc(store, folder, last)
      case None =>
      case Some(doc) =>
        var ks := LineKeys(store.links, SectionLines(doc.content, header));
        CountLinesProjects(Tally(prev.projects, prev.spent), store.links, SectionLines(doc.content, header));
        DedupOntoAppend([], s, ks);
    }
  }

  /**
   * No project is listed twice, the list holds exactly the keys of the time
   * map, and projects appear in the order their first line was read.
   */
  lemma RollupInvariants(store: Store, header: string, folder: string, from: int, last: int)
    ensures var r := RollupThrough(store, header, folder, from, last);
      var s := KeyStream(store, header, folder, from, last);
      NoDups(r.projects) &&
      (forall p :: p in r.projects <==> p in r.spent) &&
      (forall p :: p in r.projects <==> p in s) &&
      forall i, j :: 0 <= i < j < |r.projects| ==> FirstIndex(s, r.projects[i]) < FirstIndex(s, r.projects[j])
  {
    RollupProjects(store, header, folder, from, last);
    DedupFirstSeen(KeyStream(store, header, folder, from, last));
    RollupKeysAgree(store, header, folder, from, last);
  }

  lemma {:induction false} RollupKeysAgree(store: Store, header: string, folder: string, from: int, last: int)
    ensures var r := RollupThrough(store, header, folder, from, last);
      KeysAgree(Tally(r.projects, r.spent))
    decreases last - from
  {
    if last >= from {
      RollupKeysAgree(store, header, folder, from, last - 1);
      var prev := RollupThrough(store, header, folder, from, last - 1);
      match DayDoc(store, folder, last)
      case None =>
      case Some(doc) =>
        CountLinesKeysAgree(Tally(prev.projects, prev.spent), store.links, SectionLines(doc.content, header));
    }
  }

  /** A range in which no day has a note under the folder yields no projects, no times and no total. */
  lemma {:induction false} RollupWithoutNotes(store: Store, header: string, folder: string, from: int, last: int)
    requires forall d :: from <= d <= last ==> DayDoc(store, folder, d).None?
    ensures RollupThrough(store, header, folder, from, last) == Empty
    decreases last - from
  {
    if last >= from {
      RollupWithoutNotes(store, header, folder, from, last - 1);
    }
  }

  /**
   * With a single day in range, the total is not a normalised token: it is
   * the day's total line itself, whole (`timeAdd('', line)` is `line`).
   */
  lemma SingleDayTotal(store: Store, header: string, folder: string, day: int, lines: seq<string>, i: nat)
    requires DayDoc(store, folder, day).Some?
    requires lines == SectionLines(DayDoc(store, folder, day).value.content, header)
    requires i < |lines| && HasTime(lines[i]) && forall j :: i < j < |lines| ==> !HasTime(lines[j])
    ensures RollupThrough(store, header, folder, day, day).total == lines[i]
  {
    assert RollupThrough(store, header, folder, day, day - 1) == Empty;
    LastWhereLast(lines, HasTime, "0hr0", i);
  }

  /** The displayed entry of a project: `{part}/{total}={percent}`, or `''` for a project without time. */
  function Shown(part: string, total: string, percent: (nat, nat) -> string): (r: string)
    ensures r == "" <==> part == ""
    ensures part != "" ==> part + "/" + total + "=" <= r
    ensures part != "" && total != "" ==> r[|r| - 1] == '%'
  {
    if part == "" then ""
    else part + "/" + total + "=" + TimePercent(part, total, percent)
  }

  /** The final rewrite of every entry of the time map. */
  function Display(r: Rollup, percent: (nat, nat) -> string): (m: map<string, string>)
    ensures m.Keys == r.spent.Keys
  {
    map k | k in r.spent :: Shown(r.spent[k], r.total, percent)
  }

  /** Counting one more line of the section. */
  lemma CountStep(t: Tally, links: map<string, File.Doc>, lines: seq<string>, i: nat)
    requires i < |lines|
    ensures CountLines(t, links, lines[..i + 1]) == CountLine(CountLines(t, links, lines[..i]), links, lines[i])
    ensures DayTotal(lines[..i + 1]) == if HasTime(lines[i]) then lines[i] else DayTotal(lines[..i])
  {
    assert lines[..i + 1][..i] == lines[..i];
  }

  /** The lines of one day's section counted into the tally, and the day's total. */
  method CountSection(t: Tally, links: map<string, File.Doc>, lines: seq<string>)
    returns (u: Tally, today: string)
    ensures u == CountLines(t, links, lines)
    ensures today == DayTotal(lines)
  {
    var projects, spent := t.projects, t.spent;
    today := "0hr0";
    for i := 0 to |lines|
      invariant Tally(projects, spent) == CountLines(t, links, lines[..i])
      invariant today == DayTotal(lines[..i])
    {
      var line := lines[i];
      CountStep(t, links, lines, i);
      if line != "" {
        if HasTime(line) {
          today := line;
        }
        var target := LinkTarget(line);
        if target.Some? && target.value != "" {
          var key := ProjectPath(links, target.value);
          assert LineKey(links, line) == Some(key);
          var time := TimeToken(line);
          spent := spent[key := TimeAdd(Spent(spent, key), time)];
          if key !in projects {
            projects := projects + [key];
          }
        } else {
          assert LineKey(links, line) == None;
        }
      }
    }
    assert lines[..|lines|] == lines;
    u := Tally(projects, spent);
  }

  /** Every entry of the time map rewritten for display, one key at a time. */
  method ShowAll(r: Rollup, percent: (nat, nat) -> string) returns (shown: map<string, string>)
    ensures shown == Display(r, percent)
  {
    shown := r.spent;
    var keys := r.spent.Keys;
    while keys != {}
      invariant keys <= r.spent.Keys && shown.Keys == r.spent.Keys
      invariant forall k :: k in r.spent && k !in keys ==> shown[k] == Shown(r.spent[k], r.total, percent)
      invariant forall k :: k in keys ==> shown[k] == r.spent[k]
      decreases keys
    {
      var k :| k in keys;
      shown := shown[k := Shown(shown[k], r.total, percent)];
      keys := keys - {k};
    }
  }

  /** The rollup through `day` is the rollup through the day before, with `day` counted. */
  lemma RollupStep(store: Store, header: string, folder: string, from: int, day: int)
    requires from <= day
    ensures RollupThrough(store, header, folder, from, day) ==
      CountDay(RollupThrough(store, header, folder, from, day - 1), store, header, folder, day)
  {
  }

  /** One day of the walk: the day's note, when there is one, has its project section counted. */
  method VisitDay(store: Store, header: string, folder: string, day: int,
                  projects: seq<string>, raw: map<string, string>, total: string)
    returns (projects': seq<string>, raw': map<string, string>, total': string)
    ensures Rollup(projects', raw', total') == CountDay(Rollup(projects, raw, total), store, header, folder, day)
  {
    projects', raw', total' := projects, raw, total;
    var doc := DayDoc(store, folder, day);
    if doc.Some? {
      var lines := SectionLines(doc.value.content, header);
      var u, today := CountSection(Tally(projects, raw), store.links, lines);
      projects', raw' := u.projects, u.spent;
      total' := TimeAdd(total, today);
    }
  }

  /**
   * `filter`: walks every day from `from` to `last` once, in order, counting
   * the project section of each day's note, then rewrites every time entry
   * for display.
   */
  method Filter(store: Store, header: string, folder: string, from: int, last: int,
                percent: (nat, nat) -> string)
    returns (projects: seq<string>, spent: map<string, string>, total: string, ghost visited: seq<int>)
    requires from <= last
    ensures var r := RollupThrough(store, header, folder, from, last);
      projects == r.projects && total == r.total && spent == Display(r, percent)
    ensures |visited| == last - from + 1 && forall i :: 0 <= i < |visited| ==> visited[i] == from + i
  {
    var raw: map<string, string>;
    projects, raw, total := [], map[], "";
    visited := [];
    var day := from;
    while true
      invariant from <= day <= last
      invariant Rollup(projects, raw, total) == RollupThrough(store, header, folder, from, day - 1)
      invariant |visited| == day - from
      invariant forall i :: 0 <= i < |visited| ==> visited[i] == from + i
      decreases last - day
    {
      visited := visited + [day];
      RollupStep(store, header, folder, from, day);
      projects, raw, total := VisitDay(store, header, folder, day, projects, raw, total);
      if day == last {
        break;
      }
      day := day + 1;
    }
    spent := ShowAll(Rollup(projects, raw, total), percent);
  }

  // ---------------------------------------------------------------------
  // The printed view
  // ---------------------------------------------------------------------

  /** The line `listByTime` prints for the project at 0-based position `index`. */
  function ProjectLine(index: nat, project: string, shown: string): string {
    NumberedItem(index + 1, WikiLink(project, Middle(project))) + " " + shown
  }

  /** `listByTime`: one numbered line per project, in list order. */
  method ListByTime(projects: seq<string>, spent: map<string, string>) returns (lines: seq<string>)
    requires forall p :: p in projects ==> p in spent
    ensures |lines| == |projects|
    ensures forall i :: 0 <= i < |lines| ==> lines[i] == ProjectLine(i, projects[i], spent[projects[i]])
  {
    lines := [];
    for i := 0 to |projects|
      invariant |lines| == i
      invariant forall j :: 0 <= j < i ==> lines[j] == ProjectLine(j, projects[j], spent[projects[j]])
    {
      var line := ProjectLine(i, projects[i], spent[projects[i]]);
      lines := lines + [line];
    }
  }

  /**
   * The link of a project's printed line leads back to the project path, so
   * a printed list can be read again by the same link pattern; this holds for
   * any shown text, including a whole project line shown as a day's total.
   */
  lemma LineReadsBack(index: nat, project: string, shown: string)
    requires '|' !in project && SingleLine(project)
    ensures LinkTarget(ProjectLine(index, project, shown)) == Some(project)
  {
    MiddleSpec(project);
    var suffix := " " + shown;
    NumberedLinkTarget(index + 1, project, Middle(project), suffix);
    var item := NumberedItem(index + 1, WikiLink(project, Middle(project)));
    assert ProjectLine(index, project, shown) == item + suffix;
  }
}
