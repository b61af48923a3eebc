/**
 * `generateTaskSummary`: the Markdown overview of all tasks. The tasks are
 * grouped by status (four known statuses), TODO tasks are rendered in full,
 * BACKLOG tasks are listed by phase in a fixed phase order, a hard-coded
 * dependency graph is drawn between the tasks that exist, and every task
 * gets a link. The generation time is an input.
 */
module TaskSummary {
  import opened JsString
  import opened TaskNames
  import opened SeqUtil
  import opened TaskViews
  import opened TaskExports

  // ---------------------------------------------------------------- grouping by status

  /** The keys of the `byStatus` object; tasks of any other status are dropped. */
  const StatusKeys: set<string> := {"todo", "backlog", "review", "done"}

  function HasStatus(k: string): TaskInfo -> bool {
    (t: TaskInfo) => t.status == k
  }

  /** The tasks of status `k`, in input order. */
  function OfStatus(tasks: seq<TaskInfo>, k: string): seq<TaskInfo> {
    Filter(tasks, HasStatus(k))
  }

  /**
   * Some task's status names an inherited property: `byStatus[status]` is
   * then a function, truthy, and calling its missing `push` throws.
   */
  predicate HasInheritedStatus(tasks: seq<TaskInfo>) {
    exists t :: t in tasks && t.status in InheritedKeys
  }

  /**
   * Lines 63-74: fill the four status buckets in one pass, or throw at the
   * first task whose status is an inherited key.
   */
  method GroupByStatus(tasks: seq<TaskInfo>) returns (r: Option<map<string, seq<TaskInfo>>>)
    ensures r.None? <==> HasInheritedStatus(tasks)
    ensures r.Some? ==> r.value.Keys == StatusKeys
    ensures r.Some? ==> forall k :: k in r.value ==> r.value[k] == OfStatus(tasks, k)
  {
    var byStatus := map["todo" := [], "backlog" := [], "review" := [], "done" := []];
    var i := 0;
    while i < |tasks|
      invariant 0 <= i <= |tasks|
      invariant byStatus.Keys == StatusKeys
      invariant forall k :: k in byStatus ==> byStatus[k] == OfStatus(tasks[..i], k)
      invariant forall j :: 0 <= j < i ==> tasks[j].status !in InheritedKeys
    {
      var task := tasks[i];
      if task.status in InheritedKeys {
        assert task in tasks;
        return None;
      }
      forall k | k in byStatus
        ensures OfStatus(tasks[..i + 1], k) == OfStatus(tasks[..i], k) + (if task.status == k then [task] else [])
      {
        FilterStep(tasks, i, HasStatus(k));
      }
      if task.status in byStatus {
        byStatus := byStatus[task.status := byStatus[task.status] + [task]];
      }
      i := i + 1;
    }
    assert tasks[..|tasks|] == tasks;
    r := Some(byStatus);
  }

  // ---------------------------------------------------------------- grouping by phase

  /** The label a backlog task is filed under: its phase digit, or `その他`. */
  const PhaseOther: string := "その他"

  function PhaseKey(t: TaskInfo): string {
    if t.phase == "" then PhaseOther else t.phase
  }

  function HasPhaseKey(k: string): TaskInfo -> bool {
    (t: TaskInfo) => PhaseKey(t) == k
  }

  function OfPhase(tasks: seq<TaskInfo>, k: string): seq<TaskInfo> {
    Filter(tasks, HasPhaseKey(k))
  }

  /** Lines 97-102: a bucket per phase label that occurs, created on first use. */
  method GroupByPhase(backlog: seq<TaskInfo>) returns (byPhase: map<string, seq<TaskInfo>>)
    ensures forall k :: k in byPhase <==> OfPhase(backlog, k) != []
    ensures forall k :: k in byPhase ==> byPhase[k] == OfPhase(backlog, k)
  {
    byPhase := map[];
    var i := 0;
    while i < |backlog|
      invariant 0 <= i <= |backlog|
      invariant forall k :: k in byPhase <==> OfPhase(backlog[..i], k) != []
      invariant forall k :: k in byPhase ==> byPhase[k] == OfPhase(backlog[..i], k)
    {
      var task := backlog[i];
      var phase := PhaseKey(task);
      forall k
        ensures OfPhase(backlog[..i + 1], k) == OfPhase(backlog[..i], k) + (if PhaseKey(task) == k then [task] else [])
      {
        FilterStep(backlog, i, HasPhaseKey(k));
      }
      if phase !in byPhase {
        byPhase := byPhase[phase := []];
      }
      byPhase := byPhase[phase := byPhase[phase] + [task]];
      i := i + 1;
    }
    assert backlog[..|backlog|] == backlog;
  }

  /** The order the phases are printed in; other labels are never printed. */
  const PhaseOrder: seq<string> := ["1", "2", "3", "4", "5", PhaseOther]

  // ---------------------------------------------------------------- rendering

  const HighPriority: string := "高"
  const MediumPriority: string := "中"

  /** Lines 109-110: red for a priority mentioning 高, else orange for 中, else green. */
  function PriorityEmoji(priority: string): (r: string)
    ensures Contains(priority, HighPriority) ==> r == "🔴"
    ensures !Contains(priority, HighPriority) && Contains(priority, MediumPriority) ==> r == "🟠"
    ensures !Contains(priority, HighPriority) && !Contains(priority, MediumPriority) ==> r == "🟢"
  {
    if Contains(priority, HighPriority) then "🔴"
    else if Contains(priority, MediumPriority) then "🟠"
    else "🟢"
  }

  function Header(generatedAt: string): string {
    "# 📝 タスクサマリー\n\n*生成日時: " + generatedAt + "*\n\n## 🎯 クイックリファレンス\n\n"
  }

  const TodoHeading: string := "\n### 🟢 TODO\n\n"
  const BacklogHeading: string := "\n### 🟡 BACKLOG\n\n"
  const GraphOpening: string := "\n## 🔗 タスク相関図\n\n```mermaid\ngraph LR\n"
  const GraphClosing: string := "```\n\n"
  const LinksHeading: string := "## 🔍 タスク詳細\n\n"
  const FeaturesHeading: string := "- **主な機能**:\n"

  /** Lines 80-83: the title, priority, optional phase and summary lines. */
  function TodoHead(t: TaskInfo): string {
    "#### " + t.id + ": " + t.title + "\n" +
    "- **優先度**: " + t.priority + "\n" +
    (if t.phase != "" then "- **フェーズ**: " + t.phase + "\n" else "") +
    "- **概要**: " + t.background + "\n"
  }

  function FeatureLine(f: string): string {
    "  - " + f + "\n"
  }

  /** Lines 84-87: the feature list, present only when there is a feature. */
  function TodoFeatures(t: TaskInfo): string {
    if |t.features| > 0 then FeaturesHeading + ConcatMap(t.features, FeatureLine) else ""
  }

  /** Lines 80-88: one TODO task in full, closed by an empty line. */
  function TodoBlock(t: TaskInfo): string {
    TodoHead(t) + TodoFeatures(t) + "\n"
  }

  function TodoText(todo: seq<TaskInfo>): string {
    if todo == [] then "" else TodoHeading + ConcatMap(todo, TodoBlock)
  }

  function PhaseHeading(k: string): string {
    "\n#### フェーズ" + (if k == PhaseOther then ": " + PhaseOther else k) + "\n\n"
  }

  /** Lines 111-112: one BACKLOG task, on two lines. */
  function BacklogLine(t: TaskInfo): string {
    "- **" + t.id + ": " + t.title + "** " + PriorityEmoji(t.priority) + "\n" +
    "  - " + t.background + "\n"
  }

  function PhaseSection(backlog: seq<TaskInfo>, k: string): string {
    if OfPhase(backlog, k) == [] then ""
    else PhaseHeading(k) + ConcatMap(OfPhase(backlog, k), BacklogLine)
  }

  /** The phase sections for the labels `ks`, in that order. */
  function PhaseSections(backlog: seq<TaskInfo>, ks: seq<string>): string {
    if ks == [] then "" else PhaseSections(backlog, ks[..|ks| - 1]) + PhaseSection(backlog, ks[|ks| - 1])
  }

  function BacklogText(backlog: seq<TaskInfo>): string {
    if backlog == [] then "" else BacklogHeading + PhaseSections(backlog, PhaseOrder)
  }

  /** Lines 122-135: the dependency edges the graph may draw. */
  const Dependencies: seq<(string, string)> := [
    ("001", "003"), ("001", "004"), ("003", "006"), ("003", "007"),
    ("003", "009"), ("004", "005"), ("004", "017"), ("005", "017"),
    ("006", "007"), ("007", "010"), ("016", "007"), ("018", "007")]

  /** `tasks.find(t => t.id === id)`. */
  function FindById(tasks: seq<TaskInfo>, id: string): (r: Option<TaskInfo>)
    ensures r.None? <==> forall i :: 0 <= i < |tasks| ==> tasks[i].id != id
    ensures r.Some? ==> exists i :: (0 <= i < |tasks| && tasks[i] == r.value && tasks[i].id == id &&
      forall j :: 0 <= j < i ==> tasks[j].id != id)
  {
    if tasks == [] then None
    else if tasks[0].id == id then Some(tasks[0])
    else
      var r := FindById(tasks[1..], id);
      assert forall i :: 1 <= i < |tasks| ==> tasks[i] == tasks[1..][i - 1];
      r
  }

  /** Line 141: one graph edge between two named nodes. */
  function EdgeText(from: string, fromTitle: string, to: string, toTitle: string): string {
    "    " + from + "[" + fromTitle + "] --> " + to + "[" + toTitle + "]\n"
  }

  /** Lines 137-143: an edge is drawn only when both of its tasks exist. */
  function EdgeLine(e: (string, string), tasks: seq<TaskInfo>): string {
    match (FindById(tasks, e.0), FindById(tasks, e.1))
    case (Some(from), Some(to)) => EdgeText(e.0, from.title, e.1, to.title)
    case _ => ""
  }

  function EdgeLines(edges: seq<(string, string)>, tasks: seq<TaskInfo>): string {
    if edges == [] then "" else EdgeLines(edges[..|edges| - 1], tasks) + EdgeLine(edges[|edges| - 1], tasks)
  }

  function GraphText(tasks: seq<TaskInfo>): string {
    GraphOpening + EdgeLines(Dependencies, tasks) + GraphClosing
  }

  function LinkLine(t: TaskInfo): string {
    "- [" + t.id + ": " + t.title + "](./tasks/" + t.filename + ")\n"
  }

  function LinksText(tasks: seq<TaskInfo>): string {
    LinksHeading + ConcatMap(tasks, LinkLine)
  }

  /** The whole of `TASK_SUMMARY.md` for the sorted task list. */
  function SummaryText(tasks: seq<TaskInfo>, generatedAt: string): string {
    Header(generatedAt) +
    TodoText(OfStatus(tasks, "todo")) +
    BacklogText(OfStatus(tasks, "backlog")) +
    GraphText(tasks) +
    LinksText(tasks)
  }

  // ---------------------------------------------------------------- the generator

  /** Lines 84-87: the feature lines of one TODO task, by an inner loop. */
  method AppendFeatures(task: TaskInfo) returns (out: string)
    ensures out == TodoFeatures(task)
  {
    out := "";
    if |task.features| > 0 {
      var lines := "";
      var j := 0;
      while j < |task.features|
        invariant 0 <= j <= |task.features|
        invariant lines == ConcatMap(task.features[..j], FeatureLine)
      {
        ConcatMapStep(task.features, j, FeatureLine);
        lines := lines + FeatureLine(task.features[j]);
        j := j + 1;
      }
      assert task.features[..j] == task.features;
      out := FeaturesHeading + lines;
    }
  }

  /** Lines 79-89: one block per TODO task, in order. */
  method AppendTodo(todo: seq<TaskInfo>) returns (out: string)
    ensures out == ConcatMap(todo, TodoBlock)
  {
    out := "";
    var i := 0;
    while i < |todo|
      invariant 0 <= i <= |todo|
      invariant out == ConcatMap(todo[..i], TodoBlock)
    {
      var task := todo[i];
      var features := AppendFeatures(task);
      ConcatMapStep(todo, i, TodoBlock);
      out := out + (TodoHead(task) + features + "\n");
      i := i + 1;
    }
    assert todo[..i] == todo;
  }

  /** Lines 108-113: the lines of one phase group. */
  method AppendPhaseGroup(group: seq<TaskInfo>) returns (out: string)
    ensures out == ConcatMap(group, BacklogLine)
  {
    out := "";
    var i := 0;
    while i < |group|
      invariant 0 <= i <= |group|
      invariant out == ConcatMap(group[..i], BacklogLine)
    {
      ConcatMapStep(group, i, BacklogLine);
      out := out + BacklogLine(group[i]);
      i := i + 1;
    }
    assert group[..i] == group;
  }

  /** Lines 97-115: group by phase, then the phase sections in phase order. */
  method AppendBacklog(backlog: seq<TaskInfo>) returns (out: string)
    ensures out == PhaseSections(backlog, PhaseOrder)
  {
    var byPhase := GroupByPhase(backlog);
    out := "";
    var p := 0;
    while p < |PhaseOrder|
      invariant 0 <= p <= |PhaseOrder|
      invariant out == PhaseSections(backlog, PhaseOrder[..p])
    {
      var section := NextPhase(backlog, byPhase, PhaseOrder[p]);
      PhaseSectionsStep(backlog, PhaseOrder, p);
      out := out + section;
      p := p + 1;
    }
    assert PhaseOrder[..p] == PhaseOrder;
  }

  /** Lines 107-114: the section of one phase, nothing when the phase has no group. */
  method NextPhase(backlog: seq<TaskInfo>, byPhase: map<string, seq<TaskInfo>>, phase: string) returns (section: string)
    requires forall k :: k in byPhase <==> OfPhase(backlog, k) != []
    requires forall k :: k in byPhase ==> byPhase[k] == OfPhase(backlog, k)
    ensures section == PhaseSection(backlog, phase)
  {
    section := "";
    if phase in byPhase {
      var lines := AppendPhaseGroup(byPhase[phase]);
      section := PhaseHeading(phase) + lines;
    }
  }

  lemma PhaseSectionsStep(backlog: seq<TaskInfo>, ks: seq<string>, p: nat)
    requires p < |ks|
    ensures PhaseSections(backlog, ks[..p + 1]) == PhaseSections(backlog, ks[..p]) + PhaseSection(backlog, ks[p])
  {
    assert ks[..p + 1][..p] == ks[..p];
  }

  /** Lines 137-143: one line per dependency whose two tasks exist. */
  method AppendGraph(tasks: seq<TaskInfo>) returns (out: string)
    ensures out == EdgeLines(Dependencies, tasks)
  {
    out := "";
    var i := 0;
    while i < |Dependencies|
      invariant 0 <= i <= |Dependencies|
      invariant out == EdgeLines(Dependencies[..i], tasks)
    {
      var (from, to) := Dependencies[i];
      assert Dependencies[..i + 1][..i] == Dependencies[..i];
      var fromTask := FindById(tasks, from);
      var toTask := FindById(tasks, to);
      if fromTask.Some? && toTask.Some? {
        out := out + EdgeText(from, fromTask.value.title, to, toTask.value.title);
      }
      i := i + 1;
    }
    assert Dependencies[..i] == Dependencies;
  }

  /** Lines 149-151: one link per task. */
  method AppendLinks(tasks: seq<TaskInfo>) returns (out: string)
    ensures out == ConcatMap(tasks, LinkLine)
  {
    out := "";
    var i := 0;
    while i < |tasks|
      invariant 0 <= i <= |tasks|
      invariant out == ConcatMap(tasks[..i], LinkLine)
    {
      ConcatMapStep(tasks, i, LinkLine);
      out := out + LinkLine(tasks[i]);
      i := i + 1;
    }
    assert tasks[..i] == tasks;
  }

  /** `generateTaskSummary`, returning the text it writes, or `None` where it throws. */
  method GenerateTaskSummary(files: seq<TaskFile>, generatedAt: string) returns (summary: Option<string>)
    ensures summary.None? <==> HasInheritedStatus(ExportTasks(files))
    ensures summary.Some? ==> summary.value == SummaryText(ExportTasks(files), generatedAt)
  {
    summary := RenderSummary(ExportTasks(files), generatedAt);
  }

  /** Lines 54-151: the text built with `+=` from the sorted tasks, or `None` where the grouping throws. */
  method RenderSummary(tasks: seq<TaskInfo>, generatedAt: string) returns (summary: Option<string>)
    ensures summary.None? <==> HasInheritedStatus(tasks)
    ensures summary.Some? ==> summary.value == SummaryText(tasks, generatedAt)
  {
    var text := Header(generatedAt);
    var grouping := GroupByStatus(tasks);
    if grouping.None? {
      return None;
    }
    var byStatus := grouping.value;
    assert "todo" in StatusKeys && "backlog" in StatusKeys;
    var todoText := "";
    if |byStatus["todo"]| > 0 {
      var todo := AppendTodo(byStatus["todo"]);
      todoText := TodoHeading + todo;
    }
    assert todoText == TodoText(OfStatus(tasks, "todo"));
    text := text + todoText;
    var backlogText := "";
    if |byStatus["backlog"]| > 0 {
      var backlog := AppendBacklog(byStatus["backlog"]);
      backlogText := BacklogHeading + backlog;
    }
    assert backlogText == BacklogText(OfStatus(tasks, "backlog"));
    text := text + backlogText;
    var graph := AppendGraph(tasks);
    text := text + (GraphOpening + graph + GraphClosing);
    var links := AppendLinks(tasks);
    text := text + (LinksHeading + links);
    summary := Some(text);
  }

  /** Reordering the tasks does not change whether the grouping throws. */
  lemma InheritedStatusPermutation(a: seq<TaskInfo>, b: seq<TaskInfo>)
    requires multiset(a) == multiset(b)
    ensures HasInheritedStatus(a) <==> HasInheritedStatus(b)
  {
    if HasInheritedStatus(a) {
      var t :| t in a && t.status in InheritedKeys;
      assert t in multiset(b);
    }
    if HasInheritedStatus(b) {
      var t :| t in b && t.status in InheritedKeys;
      assert t in multiset(a);
    }
  }

  lemma InheritedInfoHasFile(fs: seq<TaskFile>, t: TaskInfo)
    requires t in TaskInfos(fs) && t.status in InheritedKeys
    ensures exists f :: f in fs && TaskInfoOf(f.content, f.name).status in InheritedKeys
  {
    var i :| 0 <= i < |fs| && TaskInfos(fs)[i] == t;
    assert fs[i] in fs;
  }

  lemma InheritedFileHasInfo(fs: seq<TaskFile>, f: TaskFile)
    requires f in fs && TaskInfoOf(f.content, f.name).status in InheritedKeys
    ensures HasInheritedStatus(TaskInfos(fs))
  {
    var i :| 0 <= i < |fs| && fs[i] == f;
    assert TaskInfos(fs)[i] in TaskInfos(fs);
  }

  lemma InheritedStatusOfFiles(fs: seq<TaskFile>)
    ensures HasInheritedStatus(TaskInfos(fs)) <==>
      exists f :: f in fs && TaskInfoOf(f.content, f.name).status in InheritedKeys
  {
    if HasInheritedStatus(TaskInfos(fs)) {
      var t :| t in TaskInfos(fs) && t.status in InheritedKeys;
      InheritedInfoHasFile(fs, t);
    }
    if exists f :: f in fs && TaskInfoOf(f.content, f.name).status in InheritedKeys {
      var f :| f in fs && TaskInfoOf(f.content, f.name).status in InheritedKeys;
      InheritedFileHasInfo(fs, f);
    }
  }

  /**
   * The generator throws exactly when some `.md` file's name ends in
   * `_<k>.md` for an inherited key `k` (for instance `001_a_toString.md`).
   */
  lemma SummaryThrowsIff(files: seq<TaskFile>)
    ensures HasInheritedStatus(ExportTasks(files)) <==>
      exists f :: f in MdFiles(files) && TaskInfoOf(f.content, f.name).status in InheritedKeys
  {
    ExportTasksSpec(files, "");
    InheritedStatusPermutation(ExportTasks(files), TaskInfos(MdFiles(files)));
    InheritedStatusOfFiles(MdFiles(files));
  }

  // ---------------------------------------------------------------- properties

  /** The tasks the BACKLOG section lists under the labels `ks`, in print order. */
  function ListedBacklog(backlog: seq<TaskInfo>, ks: seq<string>): seq<TaskInfo> {
    if ks == [] then [] else ListedBacklog(backlog, ks[..|ks| - 1]) + OfPhase(backlog, ks[|ks| - 1])
  }

  lemma {:induction false} ListedBacklogMembers(backlog: seq<TaskInfo>, ks: seq<string>, t: TaskInfo)
    ensures t in ListedBacklog(backlog, ks) <==> t in backlog && PhaseKey(t) in ks
  {
    if ks != [] {
      var init := ks[..|ks| - 1];
      ListedBacklogMembers(backlog, init, t);
      FilterMembers(backlog, HasPhaseKey(ks[|ks| - 1]));
      assert ks == init + [ks[|ks| - 1]];
      assert PhaseKey(t) in ks <==> PhaseKey(t) in init || PhaseKey(t) == ks[|ks| - 1];
    }
  }

  /**
   * A backlog task is listed exactly when its phase is 1 to 5 or missing:
   * a task of phase 0 or 6 to 9 is filed under its own label, which the
   * phase order never prints.
   */
  lemma BacklogListsPhasesOneToFive(backlog: seq<TaskInfo>, t: TaskInfo)
    requires t in backlog
    requires |t.phase| <= 1
    ensures t in ListedBacklog(backlog, PhaseOrder) <==> t.phase in ["", "1", "2", "3", "4", "5"]
  {
    ListedBacklogMembers(backlog, PhaseOrder, t);
    if t.phase != "" {
      assert PhaseKey(t) == t.phase;
      assert |PhaseOther| == 3;
    }
  }

  /** The task is filed under a label the BACKLOG section prints. */
  predicate InPhaseOrder(t: TaskInfo) {
    PhaseKey(t) in PhaseOrder
  }

  /** The sections for the labels `ks` depend only on the tasks filed under those labels. */
  lemma {:induction false} PhaseSectionsIgnore(backlog: seq<TaskInfo>, ks: seq<string>, p: TaskInfo -> bool)
    requires forall t :: PhaseKey(t) in ks ==> p(t)
    ensures PhaseSections(backlog, ks) == PhaseSections(Filter(backlog, p), ks)
  {
    if ks != [] {
      var k := ks[|ks| - 1];
      PhaseSectionsIgnore(backlog, ks[..|ks| - 1], p);
      FilterFilter(backlog, p, HasPhaseKey(k));
    }
  }

  /**
   * The printed BACKLOG section is that of the tasks under the six printed
   * labels alone: a task of phase 0 or 6 to 9 adds nothing to it.
   */
  lemma BacklogTextShowsListedOnly(backlog: seq<TaskInfo>)
    ensures BacklogText(backlog) ==
      if backlog == [] then "" else BacklogHeading + PhaseSections(Filter(backlog, InPhaseOrder), PhaseOrder)
  {
    PhaseSectionsIgnore(backlog, PhaseOrder, InPhaseOrder);
  }

  lemma {:induction false} PhaseSectionsOfNone(ks: seq<string>)
    ensures PhaseSections([], ks) == ""
  {
    if ks != [] {
      PhaseSectionsOfNone(ks[..|ks| - 1]);
    }
  }

  /** When every backlog task is under an unprinted label, the section is the bare heading. */
  lemma UnlistedBacklogIsBareHeading(backlog: seq<TaskInfo>)
    requires backlog != []
    requires forall t :: t in backlog ==> !InPhaseOrder(t)
    ensures BacklogText(backlog) == BacklogHeading
  {
    BacklogTextShowsListedOnly(backlog);
    forall i | 0 <= i < |backlog| ensures !InPhaseOrder(backlog[i]) {
      assert backlog[i] in backlog;
    }
    FilterNone(backlog, InPhaseOrder);
    PhaseSectionsOfNone(PhaseOrder);
  }

  /** An edge is drawn exactly when tasks with both of its ids exist. */
  lemma EdgeDrawnIff(e: (string, string), tasks: seq<TaskInfo>)
    ensures EdgeLine(e, tasks) != "" <==>
      (exists i :: 0 <= i < |tasks| && tasks[i].id == e.0) &&
      (exists j :: 0 <= j < |tasks| && tasks[j].id == e.1)
  {
    var f := FindById(tasks, e.0);
    var g := FindById(tasks, e.1);
    if f.Some? && g.Some? {
      assert |EdgeLine(e, tasks)| >= 4;
    }
  }

  /** Every TODO task and every BACKLOG task carries one of the known statuses. */
  lemma GroupsHoldTheirStatus(tasks: seq<TaskInfo>, k: string, t: TaskInfo)
    ensures t in OfStatus(tasks, k) <==> t in tasks && t.status == k
  {
    FilterMembers(tasks, HasStatus(k));
  }

  /** With no TODO task the TODO section is absent, not empty-headed. */
  lemma TodoSectionOnlyWhenTodo(todo: seq<TaskInfo>)
    ensures TodoText(todo) == "" <==> todo == []
  {
    if todo != [] {
      assert |TodoText(todo)| >= 1;
    }
  }

  /** The links section lists every task in the given order, one line each. */
  lemma LinksAppend(a: seq<TaskInfo>, b: seq<TaskInfo>)
    ensures LinksText(a + b) == LinksText(a) + ConcatMap(b, LinkLine)
  {
    ConcatMapAppend(a, b, LinkLine);
    ConcatAssoc(LinksHeading, ConcatMap(a, LinkLine), ConcatMap(b, LinkLine));
  }
}
