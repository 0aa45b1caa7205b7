/**
 * The note-level text operations shared by the project and area rollups:
 * cutting the section under a header out of a note, reading the target of a
 * `[[target|display]]` link, the folder part of a path, and the numbered
 * `[[target|display]]` lines the views print.
 */
module Markdown {
  import opened Wrappers
  import opened Text
  import opened Patterns

  /** The text the section pattern `# {header}([\s\S]+?)\n#` captures, if it matches. */
  function SectionText(content: string, header: string): Option<string> {
    var marker := "# " + header;
    match SectionSpan(content, marker)
    case None => None
    case Some((i, k)) => Some(content[i + |marker|..k])
  }

  /**
   * The capture is the text between the leftmost occurrence of the header
   * marker that a `\n#` follows (at least one character later) and the first
   * such `\n#`.
   */
  lemma SectionTextSpec(content: string, header: string)
    ensures SectionText(content, header).None? <==> forall j: nat, k: nat :: !SectionAt(content, "# " + header, j, k)
    ensures SectionText(content, header).Some? ==> exists i: nat, k: nat ::
      SectionAt(content, "# " + header, i, k) && SectionText(content, header).value == content[i + |"# " + header|..k] &&
      (forall j: nat, k': nat :: j < i ==> !SectionAt(content, "# " + header, j, k')) &&
      (forall k': nat :: SectionAt(content, "# " + header, i, k') ==> k <= k')
  {
    SectionSpanSpec(content, "# " + header);
  }

  /**
   * The lines of a header's section: the captured text split on `\n`, or no
   * lines at all when the pattern does not match.
   */
  function SectionLines(content: string, header: string): seq<string> {
    match SectionText(content, header)
    case None => []
    case Some(text) => Split(text, '\n')
  }

  lemma SectionLinesSpec(content: string, header: string)
    ensures SectionLines(content, header) == [] <==> SectionText(content, header).None?
    ensures SectionLines(content, header) != [] ==> Join(SectionLines(content, header), "\n") == SectionText(content, header).value
    ensures forall i :: 0 <= i < |SectionLines(content, header)| ==> '\n' !in SectionLines(content, header)[i]
  {
  }

  /**
   * When no `\n#` follows the first occurrence of the header, the section
   * yields no lines: the last section of a note is never read.
   */
  lemma LastSectionIsLost(content: string, header: string, i: nat)
    requires OccursAt(content, "# " + header, i)
    requires forall j: nat :: j < i ==> !OccursAt(content, "# " + header, j)
    requires forall k: nat :: i < k ==> !OccursAt(content, "\n#", k)
    ensures SectionLines(content, header) == []
  {
    var marker := "# " + header;
    forall j: nat, k: nat ensures !SectionAt(content, marker, j, k) {
      if j >= i {
        assert !OccursAt(content, "\n#", k) || k <= j + |marker|;
      }
    }
  }

  /**
   * The header marker is not anchored to a line start, so `## Header` also
   * opens the section, and the capture begins right after the header text.
   */
  lemma SubheaderAlsoMatches()
    ensures SectionLines("## H\nx\n#", "H") == ["", "x"]
  {
    var s := "## H\nx\n#";
    assert "# " + "H" == "# H";
    SubheaderSpan(s, "# H");
    assert s[4..6] == "\nx";
    SplitNewlineX("\nx");
  }

  lemma SubheaderSpan(s: string, m: string)
    requires s == "## H\nx\n#" && m == "# H"
    ensures SectionSpan(s, m) == Some((1, 6))
  {
    assert s[1..4] == m;
    assert Find(s, m, 1) == Some(1);
    assert s[0..3][1] == '#' != m[1];
    assert Find(s, m, 0) == Some(1);
    assert s[6..8] == "\n#";
    assert Find(s, "\n#", 6) == Some(6);
    assert s[5..7][0] == 'x' != "\n#"[0];
    assert Find(s, "\n#", 5) == Some(6);
  }

  lemma SplitNewlineX(t: string)
    requires t == "\nx"
    ensures Split(t, '\n') == ["", "x"]
  {
    assert IndexOfChar(t, '\n') == Some(0);
    assert IndexOfChar("x", '\n') == None;
  }

  // ---------------------------------------------------------------------
  // Links
  // ---------------------------------------------------------------------

  // `g.replace(/\|.*/, '')` on a string without line terminators: `g` up to its first `|`.
  function CutAtBar(g: string): (r: string)
    ensures r <= g && '|' !in r
    ensures |r| < |g| ==> g[|r|] == '|'
  {
    match IndexOfChar(g, '|')
    case None => g
    case Some(i) => g[..i]
  }

  /**
   * The target of the first link on a line: group 1 of `\[\[(.*)\|?(.*)\]\]`
   * (from the first `[[` to the last `]]` reachable on the line) cut at its
   * first `|`; `None` when the pattern does not match.
   */
  function LinkTarget(line: string): Option<string> {
    match GreedyGroup(line, "[[", "]]")
    case None => None
    case Some(g) => Some(CutAtBar(g))
  }

  /**
   * A target exists exactly when some `[[` is closed by a `]]` on the same
   * line. It is then the text after the leftmost `[[` that can be closed, up
   * to the last `]]` on that line, cut at its first `|`.
   */
  lemma LinkTargetSpec(line: string)
    ensures LinkTarget(line).None? <==> forall j: nat, k: nat :: !SpanAt(line, "[[", "]]", j, k)
    ensures LinkTarget(line).Some? ==> exists i: nat, k: nat ::
      SpanAt(line, "[[", "]]", i, k) && LinkTarget(line).value == CutAtBar(line[i + 2..k]) &&
      (forall j: nat, k': nat :: j < i ==> !SpanAt(line, "[[", "]]", j, k')) &&
      (forall k': nat :: SpanAt(line, "[[", "]]", i, k') ==> k' <= k)
  {
    GreedyGroupSpec(line, "[[", "]]");
  }

  /** A target lies on one line and holds no `|`. */
  lemma LinkTargetShape(line: string)
    ensures LinkTarget(line).Some? ==> '|' !in LinkTarget(line).value && SingleLine(LinkTarget(line).value)
  {
    var r := GreedySpan(line, "[[", "]]", 0);
    if r.Some? {
      GreedySpanSpec(line, "[[", "]]", 0);
      var i, k := r.value.0, r.value.1;
      var g := line[i + 2..k];
      var t := CutAtBar(g);
      forall m | 0 <= m < |t| ensures !IsLineTerminator(t[m]) {
        assert t[m] == g[m] == line[i + 2 + m];
      }
    }
  }

  /** The link a non-empty line names, when its target is not empty (`if (line) ... if (target)`). */
  function LineLink(line: string): (r: Option<string>)
    ensures r.Some? <==> line != "" && LinkTarget(line).Some? && LinkTarget(line).value != ""
    ensures r.Some? ==> r == LinkTarget(line) && '|' !in r.value && SingleLine(r.value)
  {
    LinkTargetShape(line);
    if line == "" then None
    else match LinkTarget(line)
      case None => None
      case Some(target) => if target == "" then None else Some(target)
  }

  /** `[[target|display]]`. */
  function WikiLink(target: string, display: string): string {
    "[[" + target + "|" + display + "]]"
  }

  /** `{n}. {item}`. */
  function NumberedItem(n: nat, item: string): string {
    NatToString(n) + ". " + item
  }

  /** No character of `s` is one that `.` refuses to match. */
  predicate SingleLine(s: string) {
    forall m :: 0 <= m < |s| ==> !IsLineTerminator(s[m])
  }

  lemma WrittenLinkOpens(prefix: string, g: string, suffix: string, s: string)
    requires SingleLine(g)
    requires s == prefix + "[[" + g + "]]" + suffix
    ensures SpanAt(s, "[[", "]]", |prefix|, |prefix| + 2 + |g|)
  {
    var i := |prefix|;
    var k := i + 2 + |g|;
    assert s[i..i + 2] == "[[" && s[k..k + 2] == "]]";
    forall m | i + 2 <= m < k ensures !IsLineTerminator(s[m]) {
      assert s[m] == g[m - i - 2];
    }
  }

  lemma WrittenLinkFirst(prefix: string, rest: string, s: string)
    requires '[' !in prefix
    requires s == prefix + rest
    ensures forall j: nat :: j < |prefix| ==> !OccursAt(s, "[[", j)
  {
    forall j: nat | j < |prefix| ensures !OccursAt(s, "[[", j) {
      assert s[j] == prefix[j];
    }
  }

  /**
   * Reading back a written link: when nothing before it opens `[`, the first
   * link of the line is the written target, whatever follows on the line
   * (a later `]]` only widens the group past the first `|`).
   */
  lemma {:induction false} LinkTargetInLine(prefix: string, target: string, display: string, suffix: string)
    requires '[' !in prefix
    requires SingleLine(target) && SingleLine(display) && '|' !in target
    ensures LinkTarget(prefix + WikiLink(target, display) + suffix) == Some(target)
  {
    var s := prefix + WikiLink(target, display) + suffix;
    var g := target + "|" + display;
    assert s == prefix + "[[" + g + "]]" + suffix;
    assert SingleLine(g) by {
      forall m | 0 <= m < |g| ensures !IsLineTerminator(g[m]) {
        if m > |target| {
          assert g[m] == display[m - |target| - 1];
        }
      }
    }
    var h := WrittenGroup(prefix, g, suffix, s);
    CutAfterTarget(target, display, h);
  }

  /** The group of a line holding a written `[[g]]` with no `[` before it starts with `g`. */
  lemma WrittenGroup(prefix: string, g: string, suffix: string, s: string) returns (h: string)
    requires '[' !in prefix && SingleLine(g)
    requires s == prefix + "[[" + g + "]]" + suffix
    ensures GreedyGroup(s, "[[", "]]") == Some(h) && |g| <= |h| && h[..|g|] == g
  {
    WrittenLinkOpens(prefix, g, suffix, s);
    WrittenLinkFirst(prefix, "[[" + g + "]]" + suffix, s);
    var i := |prefix|;
    var k := FirstSpanGroup(s, i, i + 2 + |g|);
    h := s[i + 2..k];
    assert h[..|g|] == s[i + 2..i + 2 + |g|] == g;
  }

  /** When a link opens at `i` and nothing opens before it, the group runs from `i` to a close at or after `k0`. */
  lemma FirstSpanGroup(s: string, i: nat, k0: nat) returns (k: nat)
    requires SpanAt(s, "[[", "]]", i, k0)
    requires forall j: nat :: j < i ==> !OccursAt(s, "[[", j)
    ensures k0 <= k <= |s| && GreedyGroup(s, "[[", "]]") == Some(s[i + 2..k])
  {
    GreedySpanSpec(s, "[[", "]]", 0);
    var r := GreedySpan(s, "[[", "]]", 0);
    assert r.value.0 == i;
    k := r.value.1;
  }

  lemma CutAfterTarget(target: string, display: string, h: string)
    requires '|' !in target
    requires |target + "|" + display| <= |h| && h[..|target + "|" + display|] == target + "|" + display
    ensures CutAtBar(h) == target
  {
    var g := target + "|" + display;
    assert h[..|target|] == g[..|target|] == target;
    assert h[|target|] == g[|target|] == '|';
    assert IndexOfChar(h, '|') == Some(|target|);
  }

  /** A numbered line `{n}. [[target|display]]{suffix}` reads back as its target. */
  lemma NumberedLinkTarget(n: nat, target: string, display: string, suffix: string)
    requires SingleLine(target) && SingleLine(display) && '|' !in target
    ensures LinkTarget(NumberedItem(n, WikiLink(target, display)) + suffix) == Some(target)
  {
    var prefix := NatToString(n) + ". ";
    assert '[' !in prefix by {
      forall m | 0 <= m < |prefix| ensures prefix[m] != '[' {
        if m < |NatToString(n)| {
          assert IsDigit(NatToString(n)[m]);
        }
      }
    }
    LinkTargetInLine(prefix, target, display, suffix);
    assert NumberedItem(n, WikiLink(target, display)) == prefix + WikiLink(target, display);
  }

  /** The text between the first and the last `/` of a path (group 1 of `\/(.*)\/`), or `''`. */
  function Middle(path: string): string {
    match GreedyGroup(path, "/", "/")
    case None => ""
    case Some(g) => g
  }

  /**
   * `Middle` is `''` when the path has no two slashes on one line, and
   * otherwise the text between the first slash that a later one closes on
   * its line and the last slash of that line; either way one line.
   */
  lemma MiddleSpec(path: string)
    ensures (forall j: nat, k: nat :: !SpanAt(path, "/", "/", j, k)) ==> Middle(path) == ""
    ensures (exists j: nat, k: nat :: SpanAt(path, "/", "/", j, k)) ==>
      exists i: nat, k: nat :: SpanAt(path, "/", "/", i, k) && Middle(path) == path[i + 1..k] &&
        (forall j: nat, k': nat :: j < i ==> !SpanAt(path, "/", "/", j, k')) &&
        (forall k': nat :: SpanAt(path, "/", "/", i, k') ==> k' <= k)
    ensures SingleLine(Middle(path))
  {
    GreedyGroupSpec(path, "/", "/");
    if GreedyGroup(path, "/", "/").Some? {
      var i: nat, k: nat :| SpanAt(path, "/", "/", i, k) && Middle(path) == path[i + 1..k];
      forall m | 0 <= m < |Middle(path)| ensures !IsLineTerminator(Middle(path)[m]) {
        assert Middle(path)[m] == path[i + 1 + m];
      }
    }
  }
}
