/**
 * The document-locator helpers: resolving a link under a folder constraint,
 * the prefix test on tags, the normalisation of front-matter tags, and the
 * numbered index of the README notes of a folder's sub-folders.
 */
module File {
  import opened Wrappers
  import opened Text
  import opened Markdown
  import opened Lists

  /** A resolved note: its vault path and its text. */
  datatype Doc = Doc(path: string, content: string)

  /** The note a link text resolves to from the vault root, if any (`getFirstLinkpathDest(link, '')`). */
  function Resolve(links: map<string, Doc>, link: string): (r: Option<Doc>)
    ensures r.Some? <==> link in links
    ensures r.Some? ==> r.value == links[link]
  {
    if link in links then Some(links[link]) else None
  }

  /**
   * `get`: the resolved note, kept only when its path contains `folder`
   * (an empty or missing folder constrains nothing).
   */
  function Get(resolved: Option<Doc>, folder: string): (r: Option<Doc>)
    ensures r.Some? ==> r == resolved
    ensures folder == "" ==> r == resolved
    ensures folder != "" ==>
      (r.Some? <==> resolved.Some? && exists j :: OccursAt(resolved.value.path, folder, j))
  {
    if folder == "" || resolved.None? then resolved
    else
      ContainsIff(resolved.value.path, folder);
      if Contains(resolved.value.path, folder) then resolved else None
  }

  // ---------------------------------------------------------------------
  // Tags
  // ---------------------------------------------------------------------

  /** `tag` starts with one of `prefixes`: the inner loop of `hasCommonPrefix`. */
  function StartsWithAny(tag: string, prefixes: seq<string>): (r: bool)
    ensures r <==> exists j :: 0 <= j < |prefixes| && prefixes[j] <= tag
  {
    if |prefixes| == 0 then false
    else prefixes[0] <= tag || StartsWithAny(tag, prefixes[1..])
  }

  /**
   * `hasCommonPrefix`: some tag of `tags1` starts with some tag of `tags2`,
   * as literal strings (so `#work2` starts with `#work`).
   */
  function HasCommonPrefix(tags1: seq<string>, tags2: seq<string>): (r: bool)
    ensures r <==> exists i, j :: 0 <= i < |tags1| && 0 <= j < |tags2| && tags2[j] <= tags1[i]
    ensures |tags1| == 0 || |tags2| == 0 ==> !r
  {
    if |tags1| == 0 then false
    else StartsWithAny(tags1[0], tags2) || HasCommonPrefix(tags1[1..], tags2)
  }

  lemma CommonPrefixExamples()
    ensures HasCommonPrefix(["#work/project-1", "#work/project-2"], ["#work"])
    ensures HasCommonPrefix(["#work2"], ["#work"])
    ensures !HasCommonPrefix(["#life"], ["#work"])
    ensures !HasCommonPrefix(["#work"], ["#work/project-1"])
  {
    assert "#work" <= "#work/project-1";
    assert "#work" <= "#work2";
    assert "#life"[1] != "#work"[1];
    assert |"#work"| < |"#work/project-1"|;
  }

  /** The `tags` front-matter field of a note as the metadata index holds it. */
  datatype FrontMatterTags = NoTags | TagText(text: string) | TagList(items: seq<string>)

  /** `tags`: no tags (also an empty string) is `[]`, a single string is a one-element list, a list is kept. */
  function Tags(fm: FrontMatterTags): (r: seq<string>)
    ensures forall t :: t in r <==>
      (fm.TagText? && fm.text != "" && t == fm.text) || (fm.TagList? && t in fm.items)
    ensures fm.TagList? ==> r == fm.items
    ensures fm.TagText? ==> |r| <= 1
  {
    match fm
    case NoTags => []
    case TagText(s) => if s == "" then [] else [s]
    case TagList(items) => items
  }

  /** The tags of the note at `path`; a note the index does not know has none. */
  function TagsOf(pages: map<string, FrontMatterTags>, path: string): (r: seq<string>)
    ensures path !in pages ==> r == []
  {
    Tags(if path in pages then pages[path] else NoTags)
  }

  // ---------------------------------------------------------------------
  // The README index of a folder
  // ---------------------------------------------------------------------

  /** A vault entry: a file, or a folder with its name and its direct children. */
  datatype Entry = FileEntry(path: string) | FolderEntry(path: string, name: string, children: seq<Entry>)

  /** The unanchored `(.*\.)?README\.md` matches a path exactly when the path contains `README.md`. */
  predicate IsReadme(e: Entry) {
    Contains(e.path, "README.md")
  }

  /** Index of the first child whose path matches the README pattern. */
  function FirstReadme(children: seq<Entry>): (r: Option<nat>)
    ensures r.Some? ==> r.value < |children| && IsReadme(children[r.value])
    ensures r.Some? ==> forall i :: 0 <= i < r.value ==> !IsReadme(children[i])
    ensures r.None? ==> forall i :: 0 <= i < |children| ==> !IsReadme(children[i])
  {
    if |children| == 0 then None
    else if IsReadme(children[0]) then Some(0)
    else
      match FirstReadme(children[1..])
      case None => None
      case Some(i) => Some(i + 1)
  }

  /** Path of a folder's README, or `''` when it has none (`README?.path || ''`). */
  function ReadmePath(folder: Entry): string
    requires folder.FolderEntry?
  {
    match FirstReadme(folder.children)
    case None => ""
    case Some(i) => folder.children[i].path
  }

  /**
   * The link one sub-folder contributes to the index: dropped when a tag
   * condition is given and its README's tags share no prefix with it, and
   * dropped when its README is missing or is not a file.
   */
  function IndexLink(sub: Entry, condition: seq<string>, pages: map<string, FrontMatterTags>,
                     linkText: string -> string): (r: Option<string>)
    requires sub.FolderEntry?
    ensures r.Some? <==>
      (|condition| == 0 || HasCommonPrefix(TagsOf(pages, ReadmePath(sub)), condition)) &&
      FirstReadme(sub.children).Some? && sub.children[FirstReadme(sub.children).value].FileEntry?
    ensures r.Some? ==> r.value == WikiLink(linkText(ReadmePath(sub)), sub.name)
  {
    var readme := FirstReadme(sub.children);
    if |condition| > 0 && !HasCommonPrefix(TagsOf(pages, ReadmePath(sub)), condition) then None
    else if readme.Some? && sub.children[readme.value].FileEntry? then
      Some(WikiLink(linkText(ReadmePath(sub)), sub.name))
    else None
  }

  /** The link a child contributes: a sub-folder's index link; nothing for a file. */
  function ChildLink(condition: seq<string>, pages: map<string, FrontMatterTags>, linkText: string -> string): Entry -> Option<string> {
    (c: Entry) => if c.FolderEntry? then IndexLink(c, condition, pages, linkText) else None
  }

  /** The links of the kept sub-folders, in the folder's own child order. */
  function KeptLinks(children: seq<Entry>, condition: seq<string>, pages: map<string, FrontMatterTags>,
                     linkText: string -> string): (r: seq<string>)
    ensures |r| <= |children|
    ensures forall x :: x in r ==>
              exists i :: (0 <= i < |children| && children[i].FolderEntry? &&
                           IndexLink(children[i], condition, pages, linkText) == Some(x))
    ensures (forall i :: 0 <= i < |children| ==> children[i].FileEntry?) ==> r == []
  {
    var f := ChildLink(condition, pages, linkText);
    FilterMapFrom(children, f);
    FilterMapRank(children, f);
    FilesCountNothing(children, condition, pages, linkText);
    FilterMap(children, f)
  }

  lemma FilesCountNothing(children: seq<Entry>, condition: seq<string>, pages: map<string, FrontMatterTags>,
                          linkText: string -> string)
    ensures (forall i :: 0 <= i < |children| ==> children[i].FileEntry?) ==>
      SomeBefore(children, ChildLink(condition, pages, linkText), |children|) == 0
  {
    if forall i :: 0 <= i < |children| ==> children[i].FileEntry? {
      NoneCounted(children, ChildLink(condition, pages, linkText), |children|);
    }
  }

  lemma {:induction false} NoneCounted(children: seq<Entry>, f: Entry -> Option<string>, n: nat)
    requires n <= |children| && forall i :: 0 <= i < n ==> f(children[i]).None?
    ensures SomeBefore(children, f, n) == 0
    decreases n
  {
    if n > 0 {
      NoneCounted(children, f, n - 1);
    }
  }

  /** The sub-folder contributes a link to the index. */
  predicate Kept(c: Entry, condition: seq<string>, pages: map<string, FrontMatterTags>, linkText: string -> string) {
    c.FolderEntry? && IndexLink(c, condition, pages, linkText).Some?
  }

  /** How many of the first `n` children are kept. */
  function KeptBefore(children: seq<Entry>, condition: seq<string>, pages: map<string, FrontMatterTags>,
                      linkText: string -> string, n: nat): nat
    requires n <= |children|
  {
    SomeBefore(children, ChildLink(condition, pages, linkText), n)
  }

  /**
   * The index holds exactly the links of the kept children in child order:
   * as many links as kept children, and the link of a kept child sits after
   * those of the kept children before it, so that a later kept child's link
   * comes strictly later.
   */
  lemma KeptLinksRank(children: seq<Entry>, condition: seq<string>, pages: map<string, FrontMatterTags>,
                      linkText: string -> string)
    ensures |KeptLinks(children, condition, pages, linkText)| == KeptBefore(children, condition, pages, linkText, |children|)
    ensures forall i :: 0 <= i < |children| && Kept(children[i], condition, pages, linkText) ==>
      var k := KeptBefore(children, condition, pages, linkText, i);
      k < |KeptLinks(children, condition, pages, linkText)| &&
      KeptLinks(children, condition, pages, linkText)[k] == IndexLink(children[i], condition, pages, linkText).value
    ensures forall i, j :: 0 <= i < j < |children| && Kept(children[i], condition, pages, linkText) ==>
      KeptBefore(children, condition, pages, linkText, i) < KeptBefore(children, condition, pages, linkText, j)
  {
    var f := ChildLink(condition, pages, linkText);
    FilterMapRank(children, f);
    forall i, j | 0 <= i < j < |children| && Kept(children[i], condition, pages, linkText)
      ensures SomeBefore(children, f, i) < SomeBefore(children, f, j)
    {
      SomeBeforeGrows(children, f, i, j);
    }
  }

  /** The entries numbered from 1: `{i + 1}. {entry}`. */
  function Numbered(items: seq<string>): (r: seq<string>)
    ensures |r| == |items|
    ensures forall i :: 0 <= i < |r| ==> r[i] == NumberedItem(i + 1, items[i])
  {
    seq(|items|, i requires 0 <= i < |items| => NumberedItem(i + 1, items[i]))
  }

  /** `list`: the numbered README index of a folder, or `No files in {folder}` when the path is not a folder. */
  function List(fileFolder: string, found: Option<Entry>, condition: seq<string>,
                pages: map<string, FrontMatterTags>, linkText: string -> string): (r: string)
    ensures !(found.Some? && found.value.FolderEntry?) ==> r == "No files in " + fileFolder
    ensures found.Some? && found.value.FolderEntry? && KeptLinks(found.value.children, condition, pages, linkText) == [] ==> r == ""
  {
    if found.Some? && found.value.FolderEntry? then
      Join(Numbered(KeptLinks(found.value.children, condition, pages, linkText)), "\n")
    else
      "No files in " + fileFolder
  }

  /**
   * Read back line by line, the index of a folder has one line per kept
   * sub-folder, numbered 1..n consecutively.
   */
  lemma ListLines(fileFolder: string, found: Option<Entry>, condition: seq<string>,
                  pages: map<string, FrontMatterTags>, linkText: string -> string)
    requires found.Some? && found.value.FolderEntry?
    requires var kept := KeptLinks(found.value.children, condition, pages, linkText);
      |kept| > 0 && forall i :: 0 <= i < |kept| ==> '\n' !in kept[i]
    ensures var kept := KeptLinks(found.value.children, condition, pages, linkText);
      var lines := Split(List(fileFolder, found, condition, pages, linkText), '\n');
      |lines| == |kept| && forall i :: 0 <= i < |lines| ==> lines[i] == NumberedItem(i + 1, kept[i])
  {
    var kept := KeptLinks(found.value.children, condition, pages, linkText);
    var lines := Numbered(kept);
    forall i | 0 <= i < |lines| ensures '\n' !in lines[i] {
      var n := NatToString(i + 1);
      assert lines[i] == n + ". " + kept[i];
      assert forall m :: 0 <= m < |n| ==> n[m] != '\n';
    }
    SplitJoin(lines, '\n');
  }
}
