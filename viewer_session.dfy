/**
 * The state of one open viewer page: the cards built from the status
 * directories' listings, the per-task data behind the task dialog, the
 * search history, the full-text switch, the auto-update timer and the
 * results banner. Each handler of the page is a
 * method of `SearchSession`; what the server answers is a parameter.
 */
module ViewerSession {
  import opened JsString
  import opened TaskNames
  import opened SeqUtil
  import opened Html
  import opened Viewer
  import TaskExports

  // ------------------------------------------------------------ loading

  /** A link of a directory listing: where it points and the text it shows. */
  datatype Link = Link(href: string, text: string)

  /** What the page keeps per task for the task dialog. */
  datatype TaskEntry = TaskEntry(file: string, path: string, status: string, id: string, name: string)

  /** A link to a task file: its target ends in `.md`, or `.md@` for a symbolic link. */
  predicate IsTaskLink(l: Link) {
    EndsWith(l.href, ".md") || EndsWith(l.href, ".md@")
  }

  /** A trailing `@` (how a listing marks a symbolic link) removed. */
  function DropAt(s: string): (r: string)
    ensures EndsWith(s, "@") ==> s == r + "@"
    ensures !EndsWith(s, "@") ==> r == s
  {
    if EndsWith(s, "@") then s[..|s| - 1] else s
  }

  lemma DropAtKeeps(a: string, b: string)
    requires b != [] && b[|b| - 1] != '@'
    ensures DropAt(a + b) == a + b
  {
    var s := a + b;
    assert s[|s| - 1..] == [b[|b| - 1]];
  }

  /** The file names a listing yields: the texts of its task links, each without a trailing `@`. */
  function ListedFiles(links: seq<Link>): (r: seq<string>)
    ensures |r| == |Filter(links, IsTaskLink)|
    ensures forall i :: 0 <= i < |r| ==> r[i] == DropAt(Filter(links, IsTaskLink)[i].text)
  {
    var kept := Filter(links, IsTaskLink);
    seq(|kept|, i requires 0 <= i < |kept| => DropAt(kept[i].text))
  }

  /** A name is listed exactly when some task link of the listing shows it, up to a trailing `@`. */
  lemma ListedFilesMembers(links: seq<Link>, f: string)
    ensures f in ListedFiles(links) <==> exists l :: l in links && IsTaskLink(l) && DropAt(l.text) == f
  {
    if f in ListedFiles(links) {
      ListedFileHasLink(links, f);
    }
    if exists l :: l in links && IsTaskLink(l) && DropAt(l.text) == f {
      var l :| l in links && IsTaskLink(l) && DropAt(l.text) == f;
      LinkIsListed(links, l);
    }
  }

  lemma ListedFileHasLink(links: seq<Link>, f: string)
    requires f in ListedFiles(links)
    ensures exists l :: l in links && IsTaskLink(l) && DropAt(l.text) == f
  {
    var kept := Filter(links, IsTaskLink);
    FilterMembers(links, IsTaskLink);
    var i :| 0 <= i < |kept| && ListedFiles(links)[i] == f;
    assert kept[i] in kept;
  }

  lemma LinkIsListed(links: seq<Link>, l: Link)
    requires l in links && IsTaskLink(l)
    ensures DropAt(l.text) in ListedFiles(links)
  {
    var kept := Filter(links, IsTaskLink);
    FilterMembers(links, IsTaskLink);
    var i :| 0 <= i < |kept| && kept[i] == l;
    assert ListedFiles(links)[i] == DropAt(l.text);
  }

  /** `statuses.indexOf(x)` for an `x` that is there. */
  function FirstIndex(s: seq<string>, x: string): (r: nat)
    requires x in s
    ensures r < |s| && s[r] == x
    ensures forall k :: 0 <= k < r ==> s[k] != x
  {
    if s[0] == x then 0 else FirstIndex(s[1..], x) + 1
  }

  /** The directory of the `k`-th status: the index of its first occurrence, `_`, its name in capitals. */
  function DirPath(statuses: seq<string>, k: nat): string
    requires k < |statuses|
  {
    NatText(FirstIndex(statuses, statuses[k])) + "_" + ToUpper(statuses[k])
  }

  /** The leading digits of a file name before `_`, or `---`. */
  function IdText(file: string): string {
    if LeadingId(file).Some? then LeadingId(file).value else "---"
  }

  /** The title of a card: no id prefix, the first `_<status>.md` removed, spaces for `_`. */
  function CardTitle(file: string, status: string): string {
    ReplaceChar(ReplaceFirst(StripIdPrefix(file), "_" + status + ".md", ""), '_', ' ')
  }

  /** The card of one listed file, as first shown: visible, with its plain id and title. */
  function NewCard(status: string, dir: string, file: string): Card {
    var clean := DropAt(file);
    var id := "#" + IdText(clean);
    var title := CardTitle(clean, status);
    Card(id, title, status, dir + "/" + clean, clean, None, true, EscapeHtml(id), EscapeHtml(title), None)
  }

  function NewEntry(status: string, dir: string, file: string): TaskEntry {
    var clean := DropAt(file);
    TaskEntry(clean, dir + "/" + clean, status, IdText(clean), CardTitle(clean, status))
  }

  function EntryKey(status: string, file: string): string {
    status + "_" + DropAt(file)
  }

  function StatusCards(status: string, dir: string, files: seq<string>): (r: seq<Card>)
    ensures |r| == |files|
  {
    Map(files, file => NewCard(status, dir, file))
  }

  function StatusEntries(m: map<string, TaskEntry>, status: string, dir: string, files: seq<string>): map<string, TaskEntry>
  {
    if files == [] then m
    else StatusEntries(m, status, dir, files[..|files| - 1])[
      EntryKey(status, files[|files| - 1]) := NewEntry(status, dir, files[|files| - 1])]
  }

  /** The files of the `k`-th status; none when its listing could not be fetched. */
  function FilesOf(statuses: seq<string>, listing: string -> Option<seq<Link>>, k: nat): seq<string>
    requires k < |statuses|
  {
    var l := listing(DirPath(statuses, k));
    if l.Some? then ListedFiles(l.value) else []
  }

  /** The cards of the first `n` statuses, status by status, each in listing order. */
  function LoadedCards(statuses: seq<string>, listing: string -> Option<seq<Link>>, n: nat): seq<Card>
    requires n <= |statuses|
  {
    if n == 0 then [] else
    LoadedCards(statuses, listing, n - 1) +
    StatusCards(statuses[n - 1], DirPath(statuses, n - 1), FilesOf(statuses, listing, n - 1))
  }

  function LoadedEntries(m: map<string, TaskEntry>, statuses: seq<string>, listing: string -> Option<seq<Link>>, n: nat)
    : map<string, TaskEntry>
    requires n <= |statuses|
  {
    if n == 0 then m
    else StatusEntries(LoadedEntries(m, statuses, listing, n - 1),
      statuses[n - 1], DirPath(statuses, n - 1), FilesOf(statuses, listing, n - 1))
  }

  lemma StatusCardsStep(status: string, dir: string, files: seq<string>, j: nat)
    requires j < |files|
    ensures StatusCards(status, dir, files[..j + 1]) == StatusCards(status, dir, files[..j]) + [NewCard(status, dir, files[j])]
  {
    MapStep(files, j, file => NewCard(status, dir, file));
  }

  lemma StatusEntriesStep(m: map<string, TaskEntry>, status: string, dir: string, files: seq<string>, j: nat)
    requires j < |files|
    ensures StatusEntries(m, status, dir, files[..j + 1]) ==
      StatusEntries(m, status, dir, files[..j])[EntryKey(status, files[j]) := NewEntry(status, dir, files[j])]
  {
    assert files[..j + 1][..j] == files[..j];
  }

  /** A new card shows its own id and title, is visible and has no content yet. */
  lemma NewCardShows(status: string, dir: string, file: string)
    ensures var c := NewCard(status, dir, file);
      Shows(c) && c.visible && c.content.None? && StartsWith(c.id, "#") && c.status == status
  {
    var clean := DropAt(file);
    EscapedShows("#" + IdText(clean));
    EscapedShows(CardTitle(clean, status));
  }

  /**
   * Every loaded card is visible, has no content, shows its own id and
   * title, has an id starting with `#` (so the query `#` finds them all),
   * and carries one of the configured statuses.
   */
  lemma {:induction false} LoadedCardsShape(statuses: seq<string>, listing: string -> Option<seq<Link>>, n: nat)
    requires n <= |statuses|
    ensures forall c :: c in LoadedCards(statuses, listing, n) ==>
      Shows(c) && c.visible && c.content.None? && StartsWith(c.id, "#") && c.status in statuses
  {
    if n > 0 {
      LoadedCardsShape(statuses, listing, n - 1);
      var s := statuses[n - 1];
      var d := DirPath(statuses, n - 1);
      var cs := StatusCards(s, d, FilesOf(statuses, listing, n - 1));
      forall c | c in cs
        ensures Shows(c) && c.visible && c.content.None? && StartsWith(c.id, "#") && c.status in statuses
      {
        var j :| 0 <= j < |cs| && cs[j] == c;
        NewCardShows(s, d, FilesOf(statuses, listing, n - 1)[j]);
      }
    }
  }

  /** Every loaded card, by position, shows its own id and title. */
  lemma LoadedCardsShow(statuses: seq<string>, listing: string -> Option<seq<Link>>)
    ensures var cs := LoadedCards(statuses, listing, |statuses|);
      forall i :: 0 <= i < |cs| ==> Shows(cs[i])
  {
    var cs := LoadedCards(statuses, listing, |statuses|);
    LoadedCardsShape(statuses, listing, |statuses|);
    forall i | 0 <= i < |cs| ensures Shows(cs[i]) {
      assert cs[i] in cs;
    }
  }

  /** The keys under which the files of one status are recorded. */
  function ListedKeys(status: string, files: seq<string>): (r: set<string>)
    ensures forall j :: 0 <= j < |files| ==> EntryKey(status, files[j]) in r
  {
    if files == [] then {}
    else ListedKeys(status, files[..|files| - 1]) + {EntryKey(status, files[|files| - 1])}
  }

  /** Reading a listing adds the keys of its files and never removes a key: the task data is not cleared. */
  lemma {:induction false} StatusEntriesKeys(m: map<string, TaskEntry>, status: string, dir: string, files: seq<string>)
    ensures StatusEntries(m, status, dir, files).Keys == m.Keys + ListedKeys(status, files)
    decreases |files|
  {
    if files != [] {
      StatusEntriesKeys(m, status, dir, files[..|files| - 1]);
    }
  }

  lemma StatusEntriesKeep(m: map<string, TaskEntry>, status: string, dir: string, files: seq<string>)
    ensures m.Keys <= StatusEntries(m, status, dir, files).Keys
  {
    StatusEntriesKeys(m, status, dir, files);
  }

  lemma {:induction false} LoadedEntriesKeep(m: map<string, TaskEntry>, statuses: seq<string>,
                                            listing: string -> Option<seq<Link>>, n: nat)
    requires n <= |statuses|
    ensures m.Keys <= LoadedEntries(m, statuses, listing, n).Keys
  {
    if n > 0 {
      LoadedEntriesKeep(m, statuses, listing, n - 1);
      LoadedEntriesGrow(m, statuses, listing, n - 1);
    }
  }

  /** Reading one more listing keeps every key already recorded. */
  lemma LoadedEntriesGrow(m: map<string, TaskEntry>, statuses: seq<string>, listing: string -> Option<seq<Link>>, k: nat)
    requires k < |statuses|
    ensures LoadedEntries(m, statuses, listing, k).Keys <= LoadedEntries(m, statuses, listing, k + 1).Keys
  {
    LoadedEntriesStep(m, statuses, listing, k);
    StatusEntriesKeep(LoadedEntries(m, statuses, listing, k), statuses[k], DirPath(statuses, k), FilesOf(statuses, listing, k));
  }

  /** With statuses `backlog`, `todo`, the directory of `todo` is `1_TODO`. */
  lemma DirPathExample()
    ensures DirPath(["backlog", "todo"], 1) == "1_TODO"
  {
    assert FirstIndex(["backlog", "todo"], "todo") == 1;
    assert NatText(1) == "1";
    assert ToUpper("todo") == "TODO";
  }

  /** The pieces of a plain listed name: nothing to drop, id `003`, the rest after it. */
  lemma ListedNameExample(f: string)
    requires f == "003_fix_login_bug_todo.md"
    ensures DropAt(f) == f && IdText(f) == "003" && StripIdPrefix(f) == "fix_login_bug_todo.md"
  {
    DropExample(f);
    IdExample(f);
  }

  lemma DropExample(f: string)
    requires f == "003_fix_login_bug_todo.md"
    ensures DropAt(f) == f
  {
    assert f == "003_fix_login_bug" + "_todo.md";
    DropAtKeeps("003_fix_login_bug", "_todo.md");
  }

  lemma IdExample(f: string)
    requires f == "003_fix_login_bug_todo.md"
    ensures IdText(f) == "003" && StripIdPrefix(f) == "fix_login_bug_todo.md"
  {
    assert f == "003" + "_" + "fix_login_bug_todo.md";
    LeadingIdOf("003", "fix_login_bug_todo.md");
    StripIdPrefixOf("003", "fix_login_bug_todo.md");
  }

  lemma CardTitleExample(f: string)
    requires f == "003_fix_login_bug_todo.md"
    ensures CardTitle(f, "todo") == ReplaceChar("fix_login_bug", '_', ' ')
  {
    IdExample(f);
    assert "_" + "todo" + ".md" == "_todo.md";
    ReplaceFirstExample();
    CardTitleFrom(f, "todo", "fix_login_bug_todo.md", "fix_login_bug");
  }

  lemma CardTitleFrom(file: string, status: string, rest: string, kept: string)
    requires StripIdPrefix(file) == rest && ReplaceFirst(rest, "_" + status + ".md", "") == kept
    ensures CardTitle(file, status) == ReplaceChar(kept, '_', ' ')
  {
  }

  /** `003_fix_login_bug_todo.md` under `todo` becomes card `#003`, "fix login bug". */
  lemma NewCardExample(f: string)
    requires f == "003_fix_login_bug_todo.md"
    ensures var c := NewCard("todo", "1_TODO", f);
      c.id == "#003" && c.title == ReplaceChar("fix_login_bug", '_', ' ') &&
      c.path == "1_TODO" + "/" + f && c.visible
  {
    ListedNameExample(f);
    CardTitleExample(f);
  }

  lemma ReplaceFirstExample()
    ensures ReplaceFirst("fix_login_bug_todo.md", "_todo.md", "") == "fix_login_bug"
  {
    var s := "fix_login_bug_todo.md";
    var p := "_todo.md";
    assert OccursAt(s, p, 13);
    forall k | 0 <= k < 13 ensures !OccursAt(s, p, k) {
      assert s[k..k + |p|] != p by {
        if s[k] == '_' {
          assert k == 3 || k == 9;
          assert s[k + 1] != 't';
        }
      }
    }
    assert IndexOf(s, p) == 13;
  }

  // ------------------------------------------------------ full-text content

  /** The answer to fetching one task file: its text, a response that is not ok, or a request that failed. */
  datatype Fetch = Fetched(text: string) | NotOk | Failed

  /** `card.content` is truthy: loaded and not empty. */
  predicate HasContent(c: Card) {
    c.content.Some? && c.content.value != []
  }

  /**
   * The fallback for one card: a card without content and with a path gets
   * its file's text, or `''` when the request failed; a response that is
   * not ok leaves it as it was.
   */
  function FetchedCard(c: Card, fetched: string -> Fetch): (r: Card)
    ensures r == c.(content := r.content)
    ensures HasContent(c) || c.path == [] ==> r == c
  {
    if HasContent(c) || c.path == [] then c
    else match fetched(c.path)
      case Fetched(t) => c.(content := Some(t))
      case NotOk => c
      case Failed => c.(content := Some(""))
  }

  function FetchedAll(cards: seq<Card>, fetched: string -> Fetch): (r: seq<Card>)
    ensures |r| == |cards|
  {
    seq(|cards|, i requires 0 <= i < |cards| => FetchedCard(cards[i], fetched))
  }

  /**
   * After the fallback, a full-text search finds a card by its content
   * exactly when the card already had content holding the query, or had
   * none and its file was fetched with a non-empty text holding it.
   */
  lemma FetchedContentHit(c: Card, fetched: string -> Fetch, q: string)
    ensures ContentHit(FetchedCard(c, fetched), q, true) <==>
      if HasContent(c) || c.path == [] then ContentHit(c, q, true)
      else fetched(c.path).Fetched? && fetched(c.path).text != [] && Contains(ToLower(fetched(c.path).text), q)
  {
  }

  /** A card whose fetched file holds a non-empty query is shown by the search, with a preview. */
  lemma FetchedTextIsFound(c: Card, fetched: string -> Fetch, q: string)
    requires !HasContent(c) && c.path != [] && fetched(c.path).Fetched?
    requires q != [] && Contains(ToLower(fetched(c.path).text), q)
    ensures var r := SearchedCard(FetchedCard(c, fetched), q, true);
      r.visible && r.preview.Some?
  {
  }

  /** Reading `c.filename` on a card as the page builds it: never set, so `undefined`. */
  function NoFilename(c: Card): Option<string> {
    None
  }

  /** The card's own file name, which the corrected page keeps on each card. */
  function CardFile(c: Card): Option<string> {
    Some(c.file)
  }

  /** `allTaskCards.find(c => key(c) === f)`: the first card whose key is `f`. */
  function FindCard(cards: seq<Card>, key: Card -> Option<string>, f: string): (r: Option<nat>)
    ensures r.Some? ==> r.value < |cards| && key(cards[r.value]) == Some(f)
    ensures r.Some? ==> forall k :: 0 <= k < r.value ==> key(cards[k]) != Some(f)
    ensures r.None? ==> forall k :: 0 <= k < |cards| ==> key(cards[k]) != Some(f)
  {
    if cards == [] then None
    else if key(cards[0]) == Some(f) then Some(0)
    else
      var r := FindCard(cards[1..], key, f);
      if r.Some? then Some(r.value + 1) else None
  }

  /** One entry of the index: the card found for its file name gets the entry's text. */
  function MergeEntry(cards: seq<Card>, key: Card -> Option<string>, e: TaskExports.SearchEntry): seq<Card> {
    var j := FindCard(cards, key, e.filename);
    if j.Some? then cards[j.value := cards[j.value].(content := Some(e.content))] else cards
  }

  /**
   * `searchIndexCache.tasks.forEach(...)`: the entries in order, a later
   * entry overwriting an earlier one. Only the contents change.
   */
  function MergeIndex(cards: seq<Card>, key: Card -> Option<string>, tasks: seq<TaskExports.SearchEntry>): (r: seq<Card>)
    ensures |r| == |cards|
    ensures forall i :: 0 <= i < |cards| ==> r[i] == cards[i].(content := r[i].content)
  {
    if tasks == [] then cards
    else MergeEntry(MergeIndex(cards, key, tasks[..|tasks| - 1]), key, tasks[|tasks| - 1])
  }

  /** As written, merging the index gives no card any content: no card has a `filename`. */
  lemma {:induction false} IndexMergeAsWritten(cards: seq<Card>, tasks: seq<TaskExports.SearchEntry>)
    ensures MergeIndex(cards, NoFilename, tasks) == cards
  {
    if tasks != [] {
      IndexMergeAsWritten(cards, tasks[..|tasks| - 1]);
      assert FindCard(cards, NoFilename, tasks[|tasks| - 1].filename).None?;
    }
  }

  /**
   * So on freshly loaded cards a full-text search never matches content
   * once the index is read, even for an entry of the card's own file whose
   * text holds the query.
   */
  lemma IndexedContentNeverHits(cards: seq<Card>, tasks: seq<TaskExports.SearchEntry>, q: string, i: nat)
    requires i < |cards| && cards[i].content.None?
    ensures !ContentHit(MergeIndex(cards, NoFilename, tasks)[i], q, true)
  {
    IndexMergeAsWritten(cards, tasks);
  }

  /** The text of the last index entry for the file `f`, if there is one. */
  function LastContent(tasks: seq<TaskExports.SearchEntry>, f: string): (r: Option<string>)
    ensures r.Some? <==> exists k :: 0 <= k < |tasks| && tasks[k].filename == f
  {
    if tasks == [] then None
    else if tasks[|tasks| - 1].filename == f then Some(tasks[|tasks| - 1].content)
    else
      var r := LastContent(tasks[..|tasks| - 1], f);
      assert forall k :: 0 <= k < |tasks| - 1 ==> tasks[..|tasks| - 1][k] == tasks[k];
      r
  }

  /** No earlier card has the file name of card `i`. */
  predicate FirstOfFile(cards: seq<Card>, i: nat)
    requires i < |cards|
  {
    forall k :: 0 <= k < i ==> cards[k].file != cards[i].file
  }

  /**
   * Merged on the cards' own file names, the first card of each file
   * holds the text of the last index entry for that file, and every other
   * card keeps its content.
   */
  lemma {:induction false} IndexMergeCorrected(cards: seq<Card>, tasks: seq<TaskExports.SearchEntry>, i: nat)
    requires i < |cards|
    ensures MergeIndex(cards, CardFile, tasks)[i].content ==
      if FirstOfFile(cards, i) && LastContent(tasks, cards[i].file).Some? then LastContent(tasks, cards[i].file)
      else cards[i].content
  {
    if tasks != [] {
      var init := tasks[..|tasks| - 1];
      var e := tasks[|tasks| - 1];
      var prev := MergeIndex(cards, CardFile, init);
      IndexMergeCorrected(cards, init, i);
      var j := FindCard(prev, CardFile, e.filename);
      assert forall k :: 0 <= k < |cards| ==> prev[k].file == cards[k].file;
      if e.filename == cards[i].file && FirstOfFile(cards, i) {
        assert CardFile(prev[i]) == Some(e.filename);
        assert j == Some(i);
      } else if e.filename == cards[i].file {
        var k :| 0 <= k < i && cards[k].file == cards[i].file;
        assert CardFile(prev[k]) == Some(e.filename);
        assert j.Some? && j.value <= k;
      }
    }
  }

  /** The cards after `loadFullTextContent`, given whether the index was already read. */
  function ContentAfterLoad(cards: seq<Card>, indexLoaded: bool, index: Option<seq<TaskExports.SearchEntry>>,
                            fetched: string -> Fetch): seq<Card>
  {
    if indexLoaded then cards
    else if index.Some? then MergeIndex(cards, NoFilename, index.value)
    else FetchedAll(cards, fetched)
  }

  /** Loading content changes no card's HTML, visibility or preview. */
  lemma ContentAfterLoadShows(cards: seq<Card>, indexLoaded: bool, index: Option<seq<TaskExports.SearchEntry>>,
                              fetched: string -> Fetch)
    requires forall i :: 0 <= i < |cards| ==> Shows(cards[i])
    ensures var r := ContentAfterLoad(cards, indexLoaded, index, fetched);
      |r| == |cards| && forall i :: 0 <= i < |r| ==> Shows(r[i])
  {
  }

  // ------------------------------------------------------------ the page

  /** The pass of `performSearch` over the cards for an empty query. */
  method ClearCards(cards: seq<Card>) returns (r: seq<Card>)
    ensures r == ClearedAll(cards)
  {
    r := cards;
    var i := 0;
    while i < |r|
      invariant 0 <= i <= |r| == |cards|
      invariant forall k :: 0 <= k < i ==> r[k] == ClearedCard(cards[k])
      invariant forall k :: i <= k < |r| ==> r[k] == cards[k]
    {
      r := r[i := ClearedCard(r[i])];
      i := i + 1;
    }
  }

  /** The per-file fallback of `loadFullTextContent`, card by card. */
  method FetchMissing(cards: seq<Card>, fetched: string -> Fetch) returns (r: seq<Card>)
    ensures r == FetchedAll(cards, fetched)
  {
    r := cards;
    var i := 0;
    while i < |r|
      invariant 0 <= i <= |r| == |cards|
      invariant forall k :: 0 <= k < i ==> r[k] == FetchedCard(cards[k], fetched)
      invariant forall k :: i <= k < |r| ==> r[k] == cards[k]
    {
      var c := r[i];
      if !HasContent(c) && c.path != [] {
        match fetched(c.path) {
          case Fetched(t) => r := r[i := c.(content := Some(t))];
          case NotOk =>
          case Failed => r := r[i := c.(content := Some(""))];
        }
      }
      i := i + 1;
    }
  }

  /** The pass of `performSearch` over the cards for a non-empty query, counting the matches. */
  method SearchCards(cards: seq<Card>, q: string, fullText: bool) returns (r: seq<Card>, count: nat)
    ensures r == SearchedAll(cards, q, fullText)
    ensures count == CountVisible(r)
  {
    r := cards;
    count := 0;
    var i := 0;
    while i < |r|
      invariant 0 <= i <= |r| == |cards|
      invariant forall k :: 0 <= k < i ==> r[k] == SearchedCard(cards[k], q, fullText)
      invariant forall k :: i <= k < |r| ==> r[k] == cards[k]
      invariant count == CountVisible(r[..i])
    {
      var d := SearchedCard(r[i], q, fullText);
      if d.visible {
        count := count + 1;
      }
      r := r[i := d];
      assert r[..i + 1] == r[..i] + [d];
      i := i + 1;
    }
    assert r[..|r|] == r;
  }

  /** The cards and task data of one status's files, appended in listing order. */
  method AddStatusCards(status: string, dir: string, files: seq<string>, cs0: seq<Card>, data0: map<string, TaskEntry>)
    returns (cs: seq<Card>, data: map<string, TaskEntry>)
    ensures cs == cs0 + StatusCards(status, dir, files)
    ensures data == StatusEntries(data0, status, dir, files)
  {
    cs, data := cs0, data0;
    var j := 0;
    while j < |files|
      invariant 0 <= j <= |files|
      invariant cs == cs0 + StatusCards(status, dir, files[..j])
      invariant data == StatusEntries(data0, status, dir, files[..j])
    {
      StatusCardsStep(status, dir, files, j);
      StatusEntriesStep(data0, status, dir, files, j);
      cs := cs + [NewCard(status, dir, files[j])];
      data := data[EntryKey(status, files[j]) := NewEntry(status, dir, files[j])];
      j := j + 1;
    }
    assert files[..|files|] == files;
  }

  lemma LoadedStep(m: map<string, TaskEntry>, statuses: seq<string>, listing: string -> Option<seq<Link>>, k: nat)
    requires k < |statuses|
    ensures LoadedCards(statuses, listing, k + 1) == LoadedCards(statuses, listing, k) +
      StatusCards(statuses[k], DirPath(statuses, k), FilesOf(statuses, listing, k))
    ensures LoadedEntries(m, statuses, listing, k + 1) == StatusEntries(LoadedEntries(m, statuses, listing, k),
      statuses[k], DirPath(statuses, k), FilesOf(statuses, listing, k))
  {
    LoadedEntriesStep(m, statuses, listing, k);
  }

  lemma LoadedEntriesStep(m: map<string, TaskEntry>, statuses: seq<string>, listing: string -> Option<seq<Link>>, k: nat)
    requires k < |statuses|
    ensures LoadedEntries(m, statuses, listing, k + 1) == StatusEntries(LoadedEntries(m, statuses, listing, k),
      statuses[k], DirPath(statuses, k), FilesOf(statuses, listing, k))
  {
  }

  /** The status loop of `loadTasks`: every status's listing read in turn, counting the files. */
  method ReadListings(statuses: seq<string>, listing: string -> Option<seq<Link>>, data0: map<string, TaskEntry>)
    returns (cs: seq<Card>, data: map<string, TaskEntry>, total: nat)
    ensures cs == LoadedCards(statuses, listing, |statuses|)
    ensures data == LoadedEntries(data0, statuses, listing, |statuses|)
    ensures total == LoadedCount(statuses, listing, |statuses|)
    ensures forall i :: 0 <= i < |cs| ==> Shows(cs[i])
  {
    cs, data, total := [], data0, 0;
    var k := 0;
    while k < |statuses|
      invariant 0 <= k <= |statuses|
      invariant cs == LoadedCards(statuses, listing, k)
      invariant data == LoadedEntries(data0, statuses, listing, k)
      invariant total == LoadedCount(statuses, listing, k)
    {
      cs, data, total := ReadListing(statuses, listing, data0, k, cs, data, total);
      k := k + 1;
    }
    LoadedCardsShow(statuses, listing);
  }

  /** The number of files listed under the first `n` statuses: the sum of the listings' lengths. */
  function LoadedCount(statuses: seq<string>, listing: string -> Option<seq<Link>>, n: nat): nat
    requires n <= |statuses|
  {
    if n == 0 then 0 else LoadedCount(statuses, listing, n - 1) + |FilesOf(statuses, listing, n - 1)|
  }

  /** One turn of the status loop: the cards and data of status `k` added, and its file count (`totalCount += links.length`). */
  method ReadListing(statuses: seq<string>, listing: string -> Option<seq<Link>>, data0: map<string, TaskEntry>,
                     k: nat, cs0: seq<Card>, data0k: map<string, TaskEntry>, total0: nat)
    returns (cs: seq<Card>, data: map<string, TaskEntry>, total: nat)
    requires k < |statuses|
    requires cs0 == LoadedCards(statuses, listing, k)
    requires data0k == LoadedEntries(data0, statuses, listing, k)
    requires total0 == LoadedCount(statuses, listing, k)
    ensures cs == LoadedCards(statuses, listing, k + 1)
    ensures data == LoadedEntries(data0, statuses, listing, k + 1)
    ensures total == LoadedCount(statuses, listing, k + 1)
  {
    var status := statuses[k];
    var dir := DirPath(statuses, k);
    var files := FilesOf(statuses, listing, k);
    LoadedStep(data0, statuses, listing, k);
    cs, data := AddStatusCards(status, dir, files, cs0, data0k);
    total := total0 + |files|;
  }

  /** The searched cards and the banner for them, from a list that shows its fields. */
  method SearchWithBanner(cards: seq<Card>, q: string, fullText: bool) returns (r: seq<Card>, banner: string)
    requires AllShow(cards)
    ensures r == SearchedAll(cards, q, fullText) && AllShow(r)
    ensures banner == Banner(CountVisible(r), fullText)
  {
    var count;
    r, count := SearchCards(cards, q, fullText);
    SearchedAllShows(cards, q, fullText);
    banner := Banner(count, fullText);
  }

  class SearchSession {
    /** `allTaskCards`. */
    var cards: seq<Card>
    /** `tasksData`, keyed by status and file name. */
    var tasksData: map<string, TaskEntry>
    /** `searchHistory`, newest first. */
    var history: seq<string>
    /** `fullTextSearchEnabled`. */
    var fullText: bool
    /** The thirty-second reload timer is running. */
    var autoUpdate: bool
    /** The results banner is shown, and its text. */
    var resultsActive: bool
    var resultsText: string
    /** The total shown in the statistics. */
    var totalCount: nat
    /** `searchIndexCache` is set: the search index was read once. */
    var indexLoaded: bool

    /** Every card's HTML is its escaped text with marks added, and a hidden card has no preview. */
    predicate Valid()
      reads this
    {
      AllShow(cards)
    }

    /** The page's state before the first load, with the history kept by the browser. */
    constructor(stored: seq<string>)
      ensures Valid()
      ensures cards == [] && tasksData == map[] && history == stored && totalCount == 0
      ensures !fullText && !autoUpdate && !resultsActive && resultsText == "" && !indexLoaded
    {
      cards := [];
      tasksData := map[];
      history := stored;
      fullText := false;
      autoUpdate := false;
      resultsActive := false;
      resultsText := "";
      totalCount := 0;
      indexLoaded := false;
    }

    /** `initialize`: load the cards, then start the reload timer. */
    method Initialize(statuses: seq<string>, listing: string -> Option<seq<Link>>)
      modifies this
      ensures Valid() && autoUpdate
      ensures cards == LoadedCards(statuses, listing, |statuses|)
      ensures tasksData == LoadedEntries(old(tasksData), statuses, listing, |statuses|)
      ensures totalCount == LoadedCount(statuses, listing, |statuses|)
      ensures history == old(history) && fullText == old(fullText) && indexLoaded == old(indexLoaded)
      ensures resultsActive == old(resultsActive) && resultsText == old(resultsText)
    {
      LoadTasks(statuses, listing);
      autoUpdate := true;
    }

    /**
     * `loadTasks`: rebuild the cards from each status directory's listing,
     * in status order and listing order, and record each task's data.
     * A listing that cannot be fetched contributes nothing. The new cards
     * have no content, while the index stays marked as read.
     */
    method LoadTasks(statuses: seq<string>, listing: string -> Option<seq<Link>>)
      modifies this
      ensures Valid()
      ensures cards == LoadedCards(statuses, listing, |statuses|)
      ensures tasksData == LoadedEntries(old(tasksData), statuses, listing, |statuses|)
      ensures totalCount == LoadedCount(statuses, listing, |statuses|)
      ensures history == old(history) && fullText == old(fullText) && indexLoaded == old(indexLoaded)
      ensures autoUpdate == old(autoUpdate) && resultsActive == old(resultsActive) && resultsText == old(resultsText)
    {
      cards, tasksData, totalCount := ReadListings(statuses, listing, tasksData);
    }

    /**
     * `performSearch(q)`. An empty query shows every card with its plain id
     * and title, hides the banner and restarts the timer; any other query
     * stops the timer, shows exactly the matching cards and counts them in
     * the banner.
     */
    method PerformSearch(q: string)
      requires Valid()
      modifies this
      ensures Valid()
      ensures q == [] ==>
        cards == ClearedAll(old(cards)) && autoUpdate && !resultsActive && resultsText == old(resultsText)
      ensures q != [] ==>
        cards == SearchedAll(old(cards), q, fullText) && !autoUpdate && resultsActive &&
        resultsText == Banner(CountVisible(cards), fullText)
      ensures tasksData == old(tasksData) && history == old(history) && fullText == old(fullText)
      ensures totalCount == old(totalCount) && indexLoaded == old(indexLoaded)
    {
      if q == [] {
        ShowAll();
      } else {
        ShowMatches(q);
      }
    }

    /** The empty-query branch of `performSearch`. */
    method ShowAll()
      requires Valid()
      modifies this
      ensures Valid()
      ensures cards == ClearedAll(old(cards)) && autoUpdate && !resultsActive && resultsText == old(resultsText)
      ensures tasksData == old(tasksData) && history == old(history) && fullText == old(fullText)
      ensures totalCount == old(totalCount) && indexLoaded == old(indexLoaded)
    {
      var cs := ClearCards(cards);
      ClearedAllShows(cards);
      cards := cs;
      resultsActive := false;
      autoUpdate := true;
    }

    /** The non-empty-query branch of `performSearch`. */
    method ShowMatches(q: string)
      requires Valid()
      modifies this
      ensures Valid()
      ensures cards == SearchedAll(old(cards), q, fullText) && !autoUpdate && resultsActive &&
        resultsText == Banner(CountVisible(cards), fullText)
      ensures tasksData == old(tasksData) && history == old(history) && fullText == old(fullText)
      ensures totalCount == old(totalCount) && indexLoaded == old(indexLoaded)
    {
      var cs, banner := SearchWithBanner(cards, q, fullText);
      ShowResults(cs, banner);
    }

    /** The results of a search on the page: the cards, the banner shown, auto-update stopped. */
    method ShowResults(cs: seq<Card>, banner: string)
      requires AllShow(cs)
      modifies this
      ensures Valid()
      ensures cards == cs && !autoUpdate && resultsActive && resultsText == banner
      ensures tasksData == old(tasksData) && history == old(history) && fullText == old(fullText)
      ensures totalCount == old(totalCount) && indexLoaded == old(indexLoaded)
    {
      cards := cs;
      autoUpdate := false;
      resultsText := banner;
      resultsActive := true;
    }

    /** The input handler: search for the box's text, lowercased and trimmed. */
    method OnInput(value: string)
      requires Valid()
      modifies this
      ensures Valid()
      ensures var q := Trim(ToLower(value));
        (q == [] ==> cards == ClearedAll(old(cards)) && autoUpdate && !resultsActive && resultsText == old(resultsText)) &&
        (q != [] ==>
           cards == SearchedAll(old(cards), q, fullText) && !autoUpdate && resultsActive &&
           resultsText == Banner(CountVisible(cards), fullText))
      ensures tasksData == old(tasksData) && history == old(history) && fullText == old(fullText)
      ensures totalCount == old(totalCount) && indexLoaded == old(indexLoaded)
    {
      PerformSearch(Trim(ToLower(value)));
    }

    /** Escape in the box: clear it and show every card. */
    method OnEscape()
      requires Valid()
      modifies this
      ensures Valid()
      ensures cards == ClearedAll(old(cards)) && autoUpdate && !resultsActive && resultsText == old(resultsText)
      ensures tasksData == old(tasksData) && history == old(history) && fullText == old(fullText)
      ensures totalCount == old(totalCount) && indexLoaded == old(indexLoaded)
    {
      PerformSearch("");
    }

    /** `saveSearchHistory`: drop earlier copies, put the query in front, keep five. */
    method SaveSearchHistory(q: string)
      modifies this
      ensures history == RecordQuery(old(history), q)
      ensures cards == old(cards) && tasksData == old(tasksData) && fullText == old(fullText)
      ensures autoUpdate == old(autoUpdate) && indexLoaded == old(indexLoaded)
      ensures resultsActive == old(resultsActive) && resultsText == old(resultsText) && totalCount == old(totalCount)
    {
      history := Filter(history, Other(q));
      history := [q] + history;
      if |history| > HistoryLimit {
        history := history[..HistoryLimit];
      }
    }

    /** Enter in the box: a non-blank query is saved, trimmed but in its typed case; nothing else changes. */
    method OnEnter(value: string)
      modifies this
      ensures Trim(value) != [] ==> history == RecordQuery(old(history), Trim(value))
      ensures Trim(value) == [] ==> history == old(history)
      ensures cards == old(cards) && tasksData == old(tasksData) && fullText == old(fullText)
      ensures autoUpdate == old(autoUpdate) && indexLoaded == old(indexLoaded)
      ensures resultsActive == old(resultsActive) && resultsText == old(resultsText) && totalCount == old(totalCount)
    {
      if Trim(value) != [] {
        SaveSearchHistory(Trim(value));
      }
    }

    /**
     * A click on a history entry, as written: the saved text is searched
     * as it was saved, not lowercased. See `CapitalMatchesNothing` for what
     * that does to a query typed with a capital letter.
     */
    method ReplayHistoryAsWritten(k: nat)
      requires Valid()
      requires k < |history|
      modifies this
      ensures Valid()
      ensures var q := old(history)[k];
        (q == [] ==> cards == ClearedAll(old(cards)) && autoUpdate && !resultsActive && resultsText == old(resultsText)) &&
        (q != [] ==>
           cards == SearchedAll(old(cards), q, fullText) && !autoUpdate && resultsActive &&
           resultsText == Banner(CountVisible(cards), fullText))
      ensures tasksData == old(tasksData) && history == old(history) && fullText == old(fullText)
      ensures totalCount == old(totalCount) && indexLoaded == old(indexLoaded)
    {
      PerformSearch(history[k]);
    }

    /**
     * A click on a history entry, corrected: the saved text is lowercased
     * as the input handler lowercases it, so a saved query finds what it
     * found when it was typed (`JsString.TrimLower`).
     */
    method ReplayHistory(k: nat)
      requires Valid()
      requires k < |history|
      modifies this
      ensures Valid()
      ensures var q := ToLower(old(history)[k]);
        (q == [] ==> cards == ClearedAll(old(cards)) && autoUpdate && !resultsActive && resultsText == old(resultsText)) &&
        (q != [] ==>
           cards == SearchedAll(old(cards), q, fullText) && !autoUpdate && resultsActive &&
           resultsText == Banner(CountVisible(cards), fullText))
      ensures tasksData == old(tasksData) && history == old(history) && fullText == old(fullText)
      ensures totalCount == old(totalCount) && indexLoaded == old(indexLoaded)
    {
      PerformSearch(ToLower(history[k]));
    }

    /**
     * `loadFullTextContent`. Once the index has been read nothing is done.
     * Otherwise a readable index is merged (as written, on `c.filename`)
     * and remembered; without one, each card lacking content gets its file
     * fetched.
     */
    method LoadFullTextContent(index: Option<seq<TaskExports.SearchEntry>>, fetched: string -> Fetch)
      requires Valid()
      modifies this
      ensures Valid()
      ensures cards == ContentAfterLoad(old(cards), old(indexLoaded), index, fetched)
      ensures indexLoaded == (old(indexLoaded) || index.Some?)
      ensures tasksData == old(tasksData) && history == old(history) && fullText == old(fullText)
      ensures autoUpdate == old(autoUpdate) && resultsActive == old(resultsActive) && resultsText == old(resultsText)
      ensures totalCount == old(totalCount)
    {
      ContentAfterLoadShows(cards, indexLoaded, index, fetched);
      if indexLoaded {
        return;
      }
      if index.Some? {
        indexLoaded := true;
        cards := MergeIndex(cards, NoFilename, index.value);
        return;
      }
      if forall c :: c in cards ==> HasContent(c) {
        assert FetchedAll(cards, fetched) == cards;
        return;
      }
      cards := FetchMissing(cards, fetched);
    }

    /**
     * The full-text switch: flip the mode, load the contents when it is
     * turned on, and search again for the box's text when there is one.
     */
    method ToggleFullText(boxValue: string, index: Option<seq<TaskExports.SearchEntry>>, fetched: string -> Fetch)
      requires Valid()
      modifies this
      ensures Valid()
      ensures fullText == !old(fullText)
      ensures indexLoaded == (old(indexLoaded) || (fullText && index.Some?))
      ensures var loaded := if fullText then ContentAfterLoad(old(cards), old(indexLoaded), index, fetched) else old(cards);
        var q := Trim(ToLower(boxValue));
        (q == [] ==>
           cards == loaded && autoUpdate == old(autoUpdate) &&
           resultsActive == old(resultsActive) && resultsText == old(resultsText)) &&
        (q != [] ==>
           cards == SearchedAll(loaded, q, fullText) && !autoUpdate && resultsActive &&
           resultsText == Banner(CountVisible(cards), fullText))
      ensures history == old(history) && tasksData == old(tasksData) && totalCount == old(totalCount)
    {
      fullText := !fullText;
      if fullText {
        LoadFullTextContent(index, fetched);
      }
      var q := Trim(ToLower(boxValue));
      if q != [] {
        PerformSearch(q);
      }
    }
  }
}
