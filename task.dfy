/**
 * The checklist filter behind the "done" and "record" task views, and the
 * `where` clause of the by-tag task query.
 */
module Task {
  import opened Wrappers
  import opened Text
  import opened Patterns

  /** Which date a task is filed under: its completion marker, or the date in its note's path. */
  datatype Mode = Done | Record

  /** The part of a note a task sits in: its kind (`header`, ...) and the header text. */
  datatype Section = Section(kind: string, subpath: Option<string>)

  /** One checklist item with the items nested under it. */
  datatype Node = Node(text: string, completed: bool, path: string, section: Option<Section>, children: seq<Node>)

  datatype Date = Date(year: nat, month: nat, day: nat)

  /** The query: the mode and the optional first and last day of the window. */
  datatype Condition = Condition(mode: Mode, from: Option<Date>, to: Option<Date>)

  /** The task sits under the habit header: trimmed header texts equal, case included. */
  predicate IsHabit(t: Node, habitHeader: string) {
    t.section.Some? && t.section.value.kind == "header" &&
    t.section.value.subpath.Some? && Trim(t.section.value.subpath.value) == Trim(habitHeader)
  }

  /** The completion marker `✅ ` that precedes a done date. */
  const DoneMarker: string := "\U{2705} "

  /**
   * The date text the task is filed under: the date after the first `✅ `
   * followed by a date in its text (done mode), or the first date in its
   * path (record mode).
   */
  function DateText(t: Node, mode: Mode): (r: Option<string>)
    ensures r.Some? ==> |r.value| == 10 && DateShapeAt(r.value, 0)
    ensures mode == Done ==> (r.Some? <==> exists i: nat :: MarkedDateAt(t.text, DoneMarker, i))
    ensures mode == Record ==> (r.Some? <==> exists i: nat :: DateShapeAt(t.path, i))
  {
    match mode
    case Done =>
      (match FindMarkedDate(t.text, DoneMarker, 0)
       case None => None
       case Some(i) => Some(t.text[i + 2..i + 12]))
    case Record =>
      (match FindMarkedDate(t.path, "", 0)
       case None =>
         assert forall i: nat :: MarkedDateAt(t.path, "", i) <==> DateShapeAt(t.path, i);
         None
       case Some(i) => Some(t.path[i..i + 10]))
  }

  /**
   * Which date: the one after the leftmost `✅ ` that a date follows (done
   * mode), or the leftmost date in the path (record mode).
   */
  lemma DateTextLeftmost(t: Node, mode: Mode)
    ensures mode == Done && DateText(t, mode).Some? ==> exists i: nat ::
      MarkedDateAt(t.text, DoneMarker, i) && (forall j: nat :: j < i ==> !MarkedDateAt(t.text, DoneMarker, j)) &&
      DateText(t, mode).value == t.text[i + 2..i + 12]
    ensures mode == Record && DateText(t, mode).Some? ==> exists i: nat ::
      DateShapeAt(t.path, i) && (forall j: nat :: j < i ==> !DateShapeAt(t.path, j)) &&
      DateText(t, mode).value == t.path[i..i + 10]
  {
    if mode == Record {
      assert forall i: nat :: MarkedDateAt(t.path, "", i) <==> DateShapeAt(t.path, i);
    }
  }

  /** The date a `YYYY-MM-DD` text names: its three digit groups read as decimals. */
  function ParseDate(s: string): (r: Date)
    requires |s| == 10 && DateShapeAt(s, 0)
    ensures r.year < 10000 && r.month < 100 && r.day < 100
  {
    assert AllDigits(s[0..4]) && AllDigits(s[5..7]) && AllDigits(s[8..10]);
    DecimalValueBound(s[0..4]);
    DecimalValueBound(s[5..7]);
    DecimalValueBound(s[8..10]);
    Date(DecimalValue(s[0..4]), DecimalValue(s[5..7]), DecimalValue(s[8..10]))
  }

  /** `YYYY-MM-DD`, each field zero-padded to its width. */
  function DateString(d: Date): string {
    PadDigits(d.year, 4) + "-" + PadDigits(d.month, 2) + "-" + PadDigits(d.day, 2)
  }

  /** Writing a parsed date back gives the text it was read from. */
  lemma FormatParsedDate(s: string)
    requires |s| == 10 && DateShapeAt(s, 0)
    ensures DateString(ParseDate(s)) == s
  {
    assert AllDigits(s[0..4]) && AllDigits(s[5..7]) && AllDigits(s[8..10]);
    DecimalValuePad(s[0..4]);
    DecimalValuePad(s[5..7]);
    DecimalValuePad(s[8..10]);
    assert s == s[0..4] + "-" + s[5..7] + "-" + s[8..10];
  }

  /** Every date whose fields fit their widths is written as a date text that reads back as it. */
  lemma ParseFormattedDate(d: Date)
    requires d.year < 10000 && d.month < 100 && d.day < 100
    ensures |DateString(d)| == 10 && DateShapeAt(DateString(d), 0)
    ensures ParseDate(DateString(d)) == d
  {
    var s := DateString(d);
    assert s[0..4] == PadDigits(d.year, 4);
    assert s[5..7] == PadDigits(d.month, 2);
    assert s[8..10] == PadDigits(d.day, 2);
    assert Pow10(4) == 10000 && Pow10(2) == 100;
    PadDigitsValue(d.year, 4);
    PadDigitsValue(d.month, 2);
    PadDigitsValue(d.day, 2);
  }

  predicate IsLeapYear(y: nat) {
    y % 4 == 0 && (y % 100 != 0 || y % 400 == 0)
  }

  function DaysInMonth(y: nat, m: nat): nat {
    if m == 2 then (if IsLeapYear(y) then 29 else 28)
    else if m == 4 || m == 6 || m == 9 || m == 11 then 30
    else 31
  }

  /** A calendar date the date library accepts; comparisons with any other date are false. */
  predicate ValidDate(d: Date) {
    1 <= d.month <= 12 && 1 <= d.day <= DaysInMonth(d.year, d.month)
  }

  /** `a` is the same day as `b` or a later one. */
  predicate SameOrAfter(a: Date, b: Date) {
    a.year > b.year || (a.year == b.year && (a.month > b.month || (a.month == b.month && a.day >= b.day)))
  }

  /**
   * The date lies in the window; an omitted bound does not constrain, and a
   * given bound is never met by an invalid date or by an invalid bound.
   */
  predicate InWindow(d: Date, c: Condition)
    ensures c.from.None? && c.to.None? ==> InWindow(d, c)
    ensures InWindow(d, c) && (c.from.Some? || c.to.Some?) ==> ValidDate(d)
    ensures InWindow(d, c) && c.from.Some? ==> ValidDate(c.from.value)
    ensures InWindow(d, c) && c.to.Some? ==> ValidDate(c.to.value)
  {
    (c.from.None? || (ValidDate(d) && ValidDate(c.from.value) && SameOrAfter(d, c.from.value))) &&
    (c.to.None? || (ValidDate(d) && ValidDate(c.to.value) && SameOrAfter(c.to.value, d)))
  }

  /** A window whose two bounds are the same valid day holds exactly that day. */
  lemma SingleDayWindow(d: Date, e: Date, mode: Mode)
    requires ValidDate(e)
    ensures InWindow(d, Condition(mode, Some(e), Some(e))) <==> d == e
  {
  }

  /** The early exits a task must pass before anything else is looked at. */
  predicate Gate(t: Node, c: Condition, habitHeader: string) {
    !(c.from.None? && c.to.None?) && !IsHabit(t, habitHeader) && DateText(t, c.mode).Some?
  }

  /** The task qualifies on its own. */
  predicate SelfSatisfies(t: Node, c: Condition) {
    DateText(t, c.mode).Some? && |t.text| > 1 && (c.mode == Record || t.completed) &&
    InWindow(ParseDate(DateText(t, c.mode).value), c)
  }

  /**
   * `filter`: after the early exits, a task is kept when it qualifies on its
   * own or when any of its children is kept.
   */
  function Matches(t: Node, c: Condition, habitHeader: string): (r: bool)
    ensures c.from.None? && c.to.None? ==> !r
    ensures IsHabit(t, habitHeader) ==> !r
    ensures DateText(t, c.mode).None? ==> !r
    ensures Gate(t, c, habitHeader) && SelfSatisfies(t, c) ==> r
    decreases t
  {
    if c.from.None? && c.to.None? then false
    else if IsHabit(t, habitHeader) then false
    else match DateText(t, c.mode)
      case None => false
      case Some(text) =>
        var d := ParseDate(text);
        (exists i :: 0 <= i < |t.children| && Matches(t.children[i], c, habitHeader)) ||
        (|t.text| > 1 && (c.mode == Record || t.completed) && InWindow(d, c))
  }

  /**
   * A path of child indices from `t` down to a task that qualifies on its own,
   * every task on the way (both ends included) passing the early exits.
   */
  ghost predicate WitnessPath(t: Node, p: seq<nat>, c: Condition, habitHeader: string)
    decreases |p|
  {
    Gate(t, c, habitHeader) &&
    if |p| == 0 then SelfSatisfies(t, c)
    else p[0] < |t.children| && WitnessPath(t.children[p[0]], p[1..], c, habitHeader)
  }

  /** A kept task has such a path below it. */
  lemma {:induction false} MatchesHasWitness(t: Node, c: Condition, habitHeader: string) returns (p: seq<nat>)
    requires Matches(t, c, habitHeader)
    ensures WitnessPath(t, p, c, habitHeader)
    decreases t
  {
    if SelfSatisfies(t, c) {
      p := [];
    } else {
      var i :| 0 <= i < |t.children| && Matches(t.children[i], c, habitHeader);
      var q := MatchesHasWitness(t.children[i], c, habitHeader);
      p := [i as nat] + q;
      assert p[1..] == q;
    }
  }

  /** A task with such a path below it is kept. */
  lemma {:induction false} WitnessMatches(t: Node, p: seq<nat>, c: Condition, habitHeader: string)
    requires WitnessPath(t, p, c, habitHeader)
    ensures Matches(t, c, habitHeader)
    decreases |p|
  {
    if |p| > 0 {
      WitnessMatches(t.children[p[0]], p[1..], c, habitHeader);
    }
  }

  /** A task is kept exactly when such a path exists below it. */
  lemma MatchesIffWitness(t: Node, c: Condition, habitHeader: string)
    ensures Matches(t, c, habitHeader) <==> exists p: seq<nat> :: WitnessPath(t, p, c, habitHeader)
  {
    if Matches(t, c, habitHeader) {
      var p := MatchesHasWitness(t, c, habitHeader);
      assert WitnessPath(t, p, c, habitHeader);
      assert exists q: seq<nat> :: WitnessPath(t, q, c, habitHeader);
    } else if p :| WitnessPath(t, p, c, habitHeader) {
      WitnessMatches(t, p, c, habitHeader);
    }
  }

  /** `w` widens the window of `c`: same mode, no bound tighter, and still at least one bound. */
  predicate Widens(c: Condition, w: Condition) {
    w.mode == c.mode && !(w.from.None? && w.to.None?) &&
    (w.from.Some? ==> c.from.Some? && ValidDate(w.from.value) && SameOrAfter(c.from.value, w.from.value)) &&
    (w.to.Some? ==> c.to.Some? && ValidDate(w.to.value) && SameOrAfter(w.to.value, c.to.value))
  }

  /** Widening the window never drops a kept task. */
  lemma {:induction false} MatchesMonotone(t: Node, c: Condition, w: Condition, habitHeader: string)
    requires Widens(c, w)
    requires Matches(t, c, habitHeader)
    ensures Matches(t, w, habitHeader)
    decreases t
  {
    if !SelfSatisfies(t, c) {
      var i :| 0 <= i < |t.children| && Matches(t.children[i], c, habitHeader);
      MatchesMonotone(t.children[i], c, w, habitHeader);
    }
  }

  /** The example tasks: a task under `Log` nested below a task under `Habit`, in the note of 2 January 2024. */
  function ExampleChild(): Node {
    Node("- read", false, "2024-01-02.md", Some(Section("header", Some("Log"))), [])
  }

  function ExampleParent(): Node {
    Node("- habits", false, "2024-01-02.md", Some(Section("header", Some("Habit"))), [ExampleChild()])
  }

  function ExampleCondition(): Condition {
    Condition(Record, Some(Date(2024, 1, 2)), None)
  }

  lemma ExampleChildKept()
    ensures Matches(ExampleChild(), ExampleCondition(), "Habit")
  {
    ExampleChildOutsideHabit();
    assert |ExampleChild().text| > 1 && ValidDate(ExampleCondition().from.value);
    RecordDateOfExamplePath();
    KeptOnRecordDate(ExampleChild(), ExampleCondition(), "Habit", "2024-01-02");
  }

  lemma ExampleChildOutsideHabit()
    ensures !IsHabit(ExampleChild(), "Habit")
  {
    TrimUnspaced("Habit");
    TrimUnspaced("Log");
  }

  /** A task outside the habit section whose record date opens the window is kept. */
  lemma KeptOnRecordDate(t: Node, c: Condition, habitHeader: string, text: string)
    requires c.mode == Record && c.from.Some? && c.to.None?
    requires !IsHabit(t, habitHeader) && |t.text| > 1
    requires DateText(t, Record) == Some(text) && ParseDate(text) == c.from.value && ValidDate(c.from.value)
    ensures Matches(t, c, habitHeader)
  {
    assert SameOrAfter(c.from.value, c.from.value);
  }

  lemma ExampleParentDropped()
    ensures !Matches(ExampleParent(), ExampleCondition(), "Habit")
  {
    TrimmedHeaders();
    assert IsHabit(ExampleParent(), "Habit");
  }

  /**
   * A habit-section task is dropped even when a task nested under it, outside
   * the habit section, is kept on its own.
   */
  lemma HabitParentHidesKeptChild()
    ensures ExampleParent().children == [ExampleChild()]
    ensures Matches(ExampleChild(), ExampleCondition(), "Habit")
    ensures !Matches(ExampleParent(), ExampleCondition(), "Habit")
  {
    ExampleChildKept();
    ExampleParentDropped();
  }

  lemma TrimmedHeaders()
    ensures Trim("Habit") == "Habit" && Trim("Log") == "Log"
  {
    TrimUnspaced("Habit");
    TrimUnspaced("Log");
  }

  /** The record date of a note named `2024-01-02.md` is 2 January 2024. */
  lemma RecordDateOfExamplePath()
    ensures DateText(ExampleChild(), Record) == Some("2024-01-02") && ParseDate("2024-01-02") == Date(2024, 1, 2)
  {
    ExampleDateText();
    ExampleDateValue();
  }

  lemma ExampleDateText()
    ensures DateText(ExampleChild(), Record) == Some("2024-01-02")
  {
    var path := "2024-01-02.md";
    assert DateShapeAt(path, 0) && MarkedDateAt(path, "", 0);
    assert FindMarkedDate(path, "", 0) == Some(0);
    assert path[0..10] == "2024-01-02";
  }

  lemma ExampleDateValue()
    ensures ParseDate("2024-01-02") == Date(2024, 1, 2)
  {
    var text := "2024-01-02";
    assert text[0..4] == "2024" && text[5..7] == "01" && text[8..10] == "02";
    ExampleYear();
    assert DecimalValue("01") == 1 && DecimalValue("02") == 2 by {
      assert "01"[..1] == "0" && "02"[..1] == "0" && "0"[..0] == "";
    }
  }

  lemma ExampleYear()
    ensures DecimalValue("2024") == 2024
  {
    assert NatToString(2) == "2" && NatToString(20) == "20" && NatToString(202) == "202";
    assert NatToString(2024) == "2024";
  }

  // ---------------------------------------------------------------------
  // The by-tag query
  // ---------------------------------------------------------------------

  /** Outcome of building the tag clause: the note declares no tags, or the clause. */
  datatype TagQuery = NoTagsDeclared | Where(clause: string)

  /** `contains(tags, "#{tag}")`. */
  function TagClause(tag: string): string {
    "contains(tags, \"#" + tag + "\")"
  }

  /** The piece the source maps tag `i` to: the clause, a space, and `OR` unless it is the last tag. */
  function WherePiece(tags: seq<string>, i: nat): string
    requires i < |tags|
  {
    TagClause(tags[i]) + " " + (if i == |tags| - 1 then "" else "OR")
  }

  /** The `where` clause of `listByTag`: the pieces joined by spaces, or an error when there are no tags. */
  function TagWhere(tags: seq<string>): (r: TagQuery)
    ensures r.NoTagsDeclared? <==> |tags| == 0
  {
    if |tags| == 0 then NoTagsDeclared
    else Where(Join(seq(|tags|, i requires 0 <= i < |tags| => WherePiece(tags, i)), " "))
  }

  /** The clause is the tags' `contains` tests in tag order, separated by ` OR `, with one trailing space. */
  lemma WhereIsDisjunction(tags: seq<string>)
    requires |tags| > 0
    ensures TagWhere(tags) == Where(Join(seq(|tags|, i requires 0 <= i < |tags| => TagClause(tags[i])), " OR ") + " ")
  {
    var pieces := seq(|tags|, i requires 0 <= i < |tags| => WherePiece(tags, i));
    var clauses := seq(|tags|, i requires 0 <= i < |tags| => TagClause(tags[i]));
    JoinPieces(pieces, clauses);
  }

  lemma {:induction false} JoinPieces(pieces: seq<string>, clauses: seq<string>)
    requires |pieces| == |clauses| > 0
    requires forall i :: 0 <= i < |clauses| - 1 ==> pieces[i] == clauses[i] + " " + "OR"
    requires pieces[|pieces| - 1] == clauses[|clauses| - 1] + " " + ""
    ensures Join(pieces, " ") == Join(clauses, " OR ") + " "
    decreases |pieces|
  {
    if |pieces| > 1 {
      JoinPieces(pieces[1..], clauses[1..]);
      calc {
        Join(pieces, " ");
        pieces[0] + " " + Join(pieces[1..], " ");
        (clauses[0] + " " + "OR") + " " + (Join(clauses[1..], " OR ") + " ");
        { assert " " + "OR" + " " == " OR "; }
        clauses[0] + " OR " + Join(clauses[1..], " OR ") + " ";
        Join(clauses, " OR ") + " ";
      }
    }
  }
}
