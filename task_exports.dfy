/**
 * The two JSON exports of the task-view generator: the list of extracted
 * task records, and the full-text search index the viewer loads. Both read
 * every `.md` file of the tasks directory and order the result by task id.
 */
module TaskExports {
  import opened JsString
  import opened TaskNames
  import opened Sorting
  import opened TaskViews

  /**
   * A directory entry with what the generator reads from it: its name, its
   * text, and its modification time as an ISO string (the file system is
   * not modelled, so the time is an input).
   */
  datatype TaskFile = TaskFile(name: string, content: string, lastModified: string)

  /**
   * `files.filter(f => f.endsWith('.md'))` of the view generator, over file
   * records; `GenIndex.MdFiles` is the index generator's filter over plain
   * names.
   */
  function MdFiles(files: seq<TaskFile>): (r: seq<TaskFile>)
    ensures |r| <= |files|
    ensures forall f :: f in r <==> f in files && EndsWith(f.name, ".md")
  {
    if files == [] then []
    else (if EndsWith(files[0].name, ".md") then [files[0]] else []) + MdFiles(files[1..])
  }

  function InfoId(t: TaskInfo): string { t.id }

  /** `files.map(file => extractTaskInfo(content, file))`. */
  function TaskInfos(files: seq<TaskFile>): (r: seq<TaskInfo>)
    ensures |r| == |files|
    ensures forall i :: 0 <= i < |files| ==> r[i] == TaskInfoOf(files[i].content, files[i].name)
  {
    seq(|files|, i requires 0 <= i < |files| => TaskInfoOf(files[i].content, files[i].name))
  }

  /** The array written to `tasks.json`. */
  function ExportTasks(files: seq<TaskFile>): seq<TaskInfo> {
    SortBy(TaskInfos(MdFiles(files)), InfoId)
  }

  /**
   * `tasks.json` holds one record per `.md` file, ordered by id, and the
   * records that share an id keep the directory order.
   */
  lemma ExportTasksSpec(files: seq<TaskFile>, id: string)
    ensures SortedBy(ExportTasks(files), InfoId)
    ensures multiset(ExportTasks(files)) == multiset(TaskInfos(MdFiles(files)))
    ensures WithKey(ExportTasks(files), InfoId, id) == WithKey(TaskInfos(MdFiles(files)), InfoId, id)
  {
    SortBySortedPermutation(TaskInfos(MdFiles(files)), InfoId);
    SortByStable(TaskInfos(MdFiles(files)), InfoId, id);
  }

  /** One entry of `tasks_search.json`. */
  datatype SearchEntry = SearchEntry(
    id: string,
    title: string,
    status: string,
    filename: string,
    content: string,
    size: nat,
    lastModified: string)

  /** The whole search index; `updated` is the clock reading, an input. */
  datatype SearchIndex = SearchIndex(updated: int, version: string, tasks: seq<SearchEntry>)

  const SearchIndexVersion: string := "1.0"

  /** The display name of a task file: no id prefix, no status suffix, spaces for `_`. */
  function TaskName(name: string): string {
    ReplaceChar(StripStatusSuffix(StripIdPrefix(name)), '_', ' ')
  }

  /**
   * The entry for one file. The id is matched again on the name, the status
   * is the one `extractTaskInfo` found, and the size counts characters.
   */
  function SearchEntryOf(f: TaskFile): (e: SearchEntry)
    ensures e.id == TaskInfoOf(f.content, f.name).id
    ensures e.status == TaskInfoOf(f.content, f.name).status
    ensures e.filename == f.name && e.content == f.content && e.size == |f.content|
  {
    var info := TaskInfoOf(f.content, f.name);
    SearchEntry(IdOf(f.name), TaskName(f.name), info.status, f.name, f.content, |f.content|, f.lastModified)
  }

  function EntryId(e: SearchEntry): string { e.id }

  function SearchEntries(files: seq<TaskFile>): (r: seq<SearchEntry>)
    ensures |r| == |files|
    ensures forall i :: 0 <= i < |files| ==> r[i] == SearchEntryOf(files[i])
  {
    seq(|files|, i requires 0 <= i < |files| => SearchEntryOf(files[i]))
  }

  /** `generateSearchIndex`, given the clock reading. */
  function SearchIndexOf(files: seq<TaskFile>, now: int): SearchIndex {
    SearchIndex(now, SearchIndexVersion, SortBy(SearchEntries(MdFiles(files)), EntryId))
  }

  /**
   * The index lists every `.md` file once, ordered by id, each entry with
   * the file's whole text and its length.
   */
  lemma SearchIndexSpec(files: seq<TaskFile>, now: int)
    ensures SortedBy(SearchIndexOf(files, now).tasks, EntryId)
    ensures multiset(SearchIndexOf(files, now).tasks) == multiset(SearchEntries(MdFiles(files)))
    ensures forall e :: e in SearchIndexOf(files, now).tasks ==>
      exists f :: f in files && EndsWith(f.name, ".md") && e == SearchEntryOf(f)
  {
    var entries := SearchEntries(MdFiles(files));
    SortBySortedPermutation(entries, EntryId);
    forall e | e in SearchIndexOf(files, now).tasks
      ensures exists f :: f in files && EndsWith(f.name, ".md") && e == SearchEntryOf(f)
    {
      assert e in multiset(entries);
      EntryHasFile(files, e);
    }
  }

  lemma EntryHasFile(files: seq<TaskFile>, e: SearchEntry)
    requires e in SearchEntries(MdFiles(files))
    ensures exists f :: f in files && EndsWith(f.name, ".md") && e == SearchEntryOf(f)
  {
    var entries := SearchEntries(MdFiles(files));
    var i :| 0 <= i < |entries| && entries[i] == e;
    assert MdFiles(files)[i] in MdFiles(files);
  }

  /** Entries with the same id keep the order of the directory listing. */
  lemma SearchIndexStable(files: seq<TaskFile>, now: int, id: string)
    ensures WithKey(SearchIndexOf(files, now).tasks, EntryId, id) == WithKey(SearchEntries(MdFiles(files)), EntryId, id)
  {
    SortByStable(SearchEntries(MdFiles(files)), EntryId, id);
  }

  /**
   * Both exports read a conventional name `<digits>_<name>_<status>.md`
   * back into its parts.
   */
  lemma ConventionalName(d: string, n: string, st: string, content: string, mtime: string)
    requires d != [] && AllDigits(d)
    requires st != [] && '_' !in st
    ensures var f := TaskFile(d + "_" + n + "_" + st + ".md", content, mtime);
      var e := SearchEntryOf(f);
      e.id == d && e.status == st && e.title == ReplaceChar(n, '_', ' ') &&
      TaskInfoOf(content, f.name).id == d && TaskInfoOf(content, f.name).status == st
  {
    var name := d + "_" + n + "_" + st + ".md";
    assert name == d + "_" + (n + "_" + st + ".md");
    LeadingIdOf(d, n + "_" + st + ".md");
    assert StripIdPrefix(name) == n + "_" + st + ".md";
    assert name == (d + "_" + n) + "_" + st + ".md";
    StatusSegmentOf(d + "_" + n, st);
    StatusSegmentOf(n, st);
    var stripped := StripStatusSuffix(n + "_" + st + ".md");
    assert stripped + "_" + st + ".md" == n + "_" + st + ".md";
    assert stripped == (stripped + "_" + st + ".md")[..|stripped|];
    assert n == (n + "_" + st + ".md")[..|n|];
  }

  /** Ids compare as text: "10" sorts before "2". */
  lemma IdOrderIsTextual()
    ensures LexLe("1", "10") && LexLe("10", "2") && !LexLe("2", "10")
  {
    assert "10"[1..] == "0";
  }

  /** The example task file reads back as id `003`, status `todo`, and `fix_login_bug` with spaces as title. */
  lemma ExampleFileName(content: string, mtime: string)
    ensures var name := "003_fix_login_bug_todo.md";
      TaskInfoOf(content, name).id == "003" && TaskInfoOf(content, name).status == "todo" &&
      SearchEntryOf(TaskFile(name, content, mtime)).title == ReplaceChar("fix_login_bug", '_', ' ')
  {
    assert "003_fix_login_bug_todo.md" == "003" + "_" + "fix_login_bug" + "_" + "todo" + ".md";
    ConventionalName("003", "fix_login_bug", "todo", content, mtime);
  }
}
