/**
 * The area view: the distinct areas linked from the area section of a year's
 * four quarterly notes (`filter`), and the numbered lines the view prints
 * (`listByTime`).
 */
module Area {
  import opened Wrappers
  import opened Lists
  import opened Markdown
  import opened Text
  import File

  /** `${year}-Q{q}.md`, the link text of quarter `q` of a year. */
  function QuarterLink(year: string, q: nat): (r: string)
    requires 1 <= q <= 4
    ensures |r| == |year| + 6 && r[..|year|] == year && r[|year| + 3..] == ".md"
    ensures r[|year|..|year| + 2] == "-Q" && IsDigit(r[|year| + 2]) && DigitValue(r[|year| + 2]) == q
  {
    year + "-Q" + [['1', '2', '3', '4'][q - 1]] + ".md"
  }

  /** The quarter's note, kept only when it lies under the periodic-notes folder. */
  function QuarterNote(links: map<string, File.Doc>, year: string, folder: string, q: nat): Option<File.Doc>
    requires 1 <= q <= 4
  {
    File.Get(File.Resolve(links, QuarterLink(year, q)), folder)
  }

  /** The lines of the quarter note's area section; none when there is no such note. */
  function QuarterLines(links: map<string, File.Doc>, year: string, header: string, folder: string, q: nat): seq<string>
    requires 1 <= q <= 4
  {
    match QuarterNote(links, year, folder, q)
    case None => []
    case Some(doc) => SectionLines(doc.content, header)
  }

  /** The areas the lines link to, in line order. */
  function LineAreas(lines: seq<string>): (r: seq<string>)
    ensures forall a :: a in r ==> a != "" && '|' !in a && SingleLine(a)
    decreases |lines|
  {
    if |lines| == 0 then []
    else
      var prefix := LineAreas(lines[..|lines| - 1]);
      var line := lines[|lines| - 1];
      match LineLink(line)
      case None => prefix
      case Some(area) => prefix + [area]
  }

  /** The areas the first `n` quarters link to, quarter by quarter. */
  function AreaStream(links: map<string, File.Doc>, year: string, header: string, folder: string, n: nat): (r: seq<string>)
    requires n <= 4
    ensures forall a :: a in r ==> a != "" && '|' !in a && SingleLine(a)
  {
    if n == 0 then []
    else AreaStream(links, year, header, folder, n - 1) + LineAreas(QuarterLines(links, year, header, folder, n))
  }

  /** The areas of one section's lines added, in line order, to those already listed. */
  method CollectSection(areas: seq<string>, lines: seq<string>) returns (r: seq<string>)
    ensures r == DedupOnto(areas, LineAreas(lines))
  {
    r := areas;
    for i := 0 to |lines|
      invariant r == DedupOnto(areas, LineAreas(lines[..i]))
    {
      assert lines[..i + 1][..i] == lines[..i];
      var line := lines[i];
      if line != "" {
        var target := LinkTarget(line);
        if target.Some? && target.value != "" && target.value !in r {
          r := r + [target.value];
        }
      }
    }
    assert lines[..|lines|] == lines;
  }

  /**
   * `filter`: every distinct area linked from the four quarterly notes of the
   * year, in first-seen order (quarter order, then line order); empty links and
   * empty lines are skipped.
   */
  method Filter(links: map<string, File.Doc>, year: string, header: string, folder: string)
    returns (areas: seq<string>)
    ensures areas == Dedup(AreaStream(links, year, header, folder, 4))
  {
    areas := [];
    for q := 1 to 5
      invariant areas == Dedup(AreaStream(links, year, header, folder, q - 1))
    {
      var note := QuarterNote(links, year, folder, q);
      if note.Some? {
        areas := CollectSection(areas, SectionLines(note.value.content, header));
      }
      DedupOntoAppend([], AreaStream(links, year, header, folder, q - 1), LineAreas(QuarterLines(links, year, header, folder, q)));
    }
  }

  /**
   * The area list never repeats an area, holds exactly the areas the quarters
   * link to, lists them in the order they were first linked, and holds no
   * empty name.
   */
  lemma AreaListShape(links: map<string, File.Doc>, year: string, header: string, folder: string)
    ensures var s := AreaStream(links, year, header, folder, 4);
      var areas := Dedup(s);
      NoDups(areas) &&
      (forall a :: a in areas <==> a in s) &&
      (forall i, j :: 0 <= i < j < |areas| ==> FirstIndex(s, areas[i]) < FirstIndex(s, areas[j])) &&
      (forall a :: a in areas ==> a != "" && '|' !in a && SingleLine(a))
  {
    DedupFirstSeen(AreaStream(links, year, header, folder, 4));
  }

  /** What the view shows after an area's link: the middle of its note's path, or `''`. */
  function Folder(links: map<string, File.Doc>, area: string): string {
    match File.Resolve(links, area)
    case None => ""
    case Some(doc) => Middle(doc.path)
  }

  /** The line `listByTime` prints for the area at 0-based position `index`. */
  function AreaLine(links: map<string, File.Doc>, index: nat, area: string): string {
    NumberedItem(index + 1, WikiLink(area, Folder(links, area)))
  }

  /** `listByTime`: one numbered line per area, in list order. */
  method ListByTime(links: map<string, File.Doc>, areas: seq<string>) returns (lines: seq<string>)
    ensures |lines| == |areas|
    ensures forall i :: 0 <= i < |lines| ==> lines[i] == AreaLine(links, i, areas[i])
  {
    lines := [];
    for i := 0 to |areas|
      invariant |lines| == i
      invariant forall j :: 0 <= j < i ==> lines[j] == AreaLine(links, j, areas[j])
    {
      lines := lines + [AreaLine(links, i, areas[i])];
    }
  }

  /** The link of an area's printed line leads back to the area (as every area `Filter` returns does). */
  lemma ReadsBack(links: map<string, File.Doc>, index: nat, area: string)
    requires '|' !in area && SingleLine(area)
    ensures LinkTarget(AreaLine(links, index, area)) == Some(area)
  {
    var resolved := File.Resolve(links, area);
    if resolved.Some? {
      MiddleSpec(resolved.value.path);
    }
    NumberedLinkTarget(index + 1, area, Folder(links, area), "");
    assert AreaLine(links, index, area) == NumberedItem(index + 1, WikiLink(area, Folder(links, area))) + "";
  }
}
