/**
 * The index generator: from a directory listing, the `.md` task names of
 * four statuses are counted and listed, each group sorted, under one
 * heading per non-empty group. The listing and the date text are inputs;
 * the index text is the result.
 */
module GenIndex {
  import opened JsString
  import opened TaskNames
  import opened SeqUtil
  import opened Sorting

  /** The four groups, in the order of the `byStatus` object. */
  const IndexStatuses: seq<string> := ["backlog", "todo", "review", "done"]

  predicate IsMarkdown(f: string) {
    EndsWith(f, ".md")
  }

  /**
   * `files.filter(f => f.endsWith('.md'))` of the index generator, over
   * plain names; `TaskExports.MdFiles` is the view generator's filter over
   * file records.
   */
  function MdFiles(listing: seq<string>): (r: seq<string>)
    ensures forall f :: f in r <==> f in listing && IsMarkdown(f)
  {
    FilterMembers(listing, IsMarkdown);
    Filter(listing, IsMarkdown)
  }

  function HasSuffix(status: string): string -> bool {
    (f: string) => EndsWith(f, "_" + status + ".md")
  }

  /** `files.filter(f => f.endsWith(`_${status}.md`))`. */
  function Group(files: seq<string>, status: string): (r: seq<string>)
    ensures forall f :: f in r <==> f in files && EndsWith(f, "_" + status + ".md")
  {
    FilterMembers(files, HasSuffix(status));
    Filter(files, HasSuffix(status))
  }

  /** For a `_`-free status, ending in `_${status}.md` is having that status segment. */
  lemma SuffixIsSegment(f: string, status: string)
    requires status != [] && '_' !in status
    ensures EndsWith(f, "_" + status + ".md") <==> StatusSegment(f) == Some(status)
  {
    var suffix := "_" + status + ".md";
    if EndsWith(f, suffix) {
      var a := f[..|f| - |suffix|];
      assert f == a + suffix;
      assert a + suffix == a + "_" + status + ".md";
      StatusSegmentOf(a, status);
    }
  }

  /** A name is in the group of one of the four statuses exactly when that is its status segment. */
  lemma GroupMembers(files: seq<string>, i: nat, f: string)
    requires i < |IndexStatuses|
    ensures f in Group(files, IndexStatuses[i]) <==> f in files && StatusSegment(f) == Some(IndexStatuses[i])
  {
    SuffixIsSegment(f, IndexStatuses[i]);
  }

  /** The four groups are pairwise disjoint. */
  lemma GroupsDisjoint(files: seq<string>, i: nat, j: nat, f: string)
    requires i < j < |IndexStatuses|
    ensures !(f in Group(files, IndexStatuses[i]) && f in Group(files, IndexStatuses[j]))
  {
    GroupMembers(files, i, f);
    GroupMembers(files, j, f);
  }

  /** A name with any other status, or with none, is in no group. */
  lemma OtherStatusInNoGroup(files: seq<string>, i: nat, f: string)
    requires i < |IndexStatuses|
    requires StatusSegment(f).None? || StatusSegment(f).value !in IndexStatuses
    ensures f !in Group(files, IndexStatuses[i])
  {
    GroupMembers(files, i, f);
  }

  function GroupSizes(files: seq<string>): nat {
    |Group(files, "backlog")| + |Group(files, "todo")| + |Group(files, "review")| + |Group(files, "done")|
  }

  /** Because the groups are disjoint, no name is counted twice: the four counts add up to at most the number of names. */
  lemma {:induction false} CountsAtMostFiles(files: seq<string>)
    ensures GroupSizes(files) <= |files|
    decreases |files|
  {
    if files != [] {
      var front := files[..|files| - 1];
      var f := files[|files| - 1];
      CountsAtMostFiles(front);
      SuffixIsSegment(f, "backlog");
      SuffixIsSegment(f, "todo");
      SuffixIsSegment(f, "review");
      SuffixIsSegment(f, "done");
    }
  }

  /** `- BACKLOG: ${n}件`. */
  function SummaryLine(status: string, n: nat): string {
    "- " + ToUpper(status) + ": " + NatText(n) + "件\n"
  }

  /** The title, the date line and the four counts. */
  function Header(date: string, files: seq<string>): string {
    "# タスク一覧\n*自動生成: " + date + "*\n\n## 📊 サマリー\n" +
    SummaryLine("backlog", |Group(files, "backlog")|) +
    SummaryLine("todo", |Group(files, "todo")|) +
    SummaryLine("review", |Group(files, "review")|) +
    SummaryLine("done", |Group(files, "done")|) + "\n"
  }

  /** `- [${file}](./tasks/${file})`. */
  function LinkLine(f: string): string {
    "- [" + f + "](./tasks/" + f + ")\n"
  }

  function Links(names: seq<string>): string {
    if names == [] then [] else Links(names[..|names| - 1]) + LinkLine(names[|names| - 1])
  }

  /** The names of a group in the order the index lists them. */
  function SortedGroup(files: seq<string>, status: string): (r: seq<string>)
    ensures Sorted(r) && multiset(r) == multiset(Group(files, status))
  {
    var g := Group(files, status);
    SortBySortedPermutation(g, NameKey);
    var r := SortBy(g, NameKey);
    assert forall i, j :: 0 <= i < j < |r| ==> LexLe(NameKey(r[i]), NameKey(r[j]));
    r
  }

  /** The section of one status: nothing for an empty group, else its heading and its sorted links. */
  function Section(files: seq<string>, status: string): string {
    if Group(files, status) == [] then []
    else "\n## " + ToUpper(status) + "\n" + Links(SortedGroup(files, status))
  }

  /** The sections of the first `n` statuses, in order. */
  function SectionsUpTo(files: seq<string>, n: nat): string
    requires n <= |IndexStatuses|
  {
    if n == 0 then [] else SectionsUpTo(files, n - 1) + Section(files, IndexStatuses[n - 1])
  }

  /** The whole `INDEX.md` text. */
  function IndexText(listing: seq<string>, date: string): string {
    Header(date, MdFiles(listing)) + SectionsUpTo(MdFiles(listing), |IndexStatuses|)
  }

  lemma {:induction false} SectionsEmpty(files: seq<string>, n: nat)
    requires n <= |IndexStatuses|
    requires forall i :: 0 <= i < n ==> Group(files, IndexStatuses[i]) == []
    ensures SectionsUpTo(files, n) == []
  {
    if n > 0 {
      SectionsEmpty(files, n - 1);
      assert Section(files, IndexStatuses[n - 1]) == [];
    }
  }

  /** With no task names of the four statuses, the index is the header alone, every count zero. */
  lemma NoGroupsHeaderOnly(listing: seq<string>, date: string)
    requires forall i :: 0 <= i < |IndexStatuses| ==> Group(MdFiles(listing), IndexStatuses[i]) == []
    ensures IndexText(listing, date) == Header(date, [])
  {
    var files := MdFiles(listing);
    SectionsEmpty(files, |IndexStatuses|);
    assert Group(files, IndexStatuses[0]) == [] && Group(files, IndexStatuses[1]) == [];
    assert Group(files, IndexStatuses[2]) == [] && Group(files, IndexStatuses[3]) == [];
  }

  /** `group.sort()`: the names copied into a fresh array and sorted there in place. */
  method SortedCopy(group: seq<string>) returns (a: array<string>)
    ensures fresh(a) && a[..] == SortBy(group, NameKey)
  {
    a := new string[|group|](i requires 0 <= i < |group| => group[i]);
    assert a[..] == group;
    SortInPlace(a);
    SortedIsSortByName(a[..], group);
  }

  /** `names.forEach(file => { text += ... })`: one link line per name, in order. */
  method AppendLinks(text: string, names: array<string>) returns (out: string)
    ensures out == text + Links(names[..])
  {
    out := text;
    var j := 0;
    while j < names.Length
      invariant 0 <= j <= names.Length
      invariant out == text + Links(names[..j])
    {
      assert names[..j + 1][..j] == names[..j];
      out := out + LinkLine(names[j]);
      j := j + 1;
    }
    assert names[..names.Length] == names[..];
  }

  /** One section: its heading, then the sorted names as links. */
  method EmitSection(files: seq<string>, status: string) returns (text: string)
    requires Group(files, status) != []
    ensures text == Section(files, status)
  {
    var a := SortedCopy(Group(files, status));
    text := AppendLinks("\n## " + ToUpper(status) + "\n", a);
  }

  /** `if (files.length > 0) { ... }`: the section of a status, empty for an empty group. */
  method NextSection(files: seq<string>, status: string) returns (section: string)
    ensures section == Section(files, status)
  {
    section := [];
    if |Group(files, status)| > 0 {
      section := EmitSection(files, status);
    }
  }

  /** The generator: the header, then a section for each non-empty group, in the order of `byStatus`. */
  method GenerateIndex(listing: seq<string>, date: string) returns (content: string)
    ensures content == IndexText(listing, date)
  {
    var files := MdFiles(listing);
    var header := Header(date, files);
    content := header;
    var i := 0;
    while i < |IndexStatuses|
      invariant 0 <= i <= |IndexStatuses|
      invariant content == header + SectionsUpTo(files, i)
    {
      var section := NextSection(files, IndexStatuses[i]);
      SectionsStep(files, i, header, section);
      content := content + section;
      i := i + 1;
    }
    assert IndexText(listing, date) == header + SectionsUpTo(files, |IndexStatuses|);
  }

  lemma SectionsStep(files: seq<string>, i: nat, header: string, section: string)
    requires i < |IndexStatuses| && section == Section(files, IndexStatuses[i])
    ensures header + SectionsUpTo(files, i) + section == header + SectionsUpTo(files, i + 1)
  {
    var prev := SectionsUpTo(files, i);
    assert SectionsUpTo(files, i + 1) == prev + section;
    ConcatAssoc(header, prev, section);
  }
}
