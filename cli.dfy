/**
 * The `taskmgr` commands that work on task file names: `new` builds a name
 * and fills the template, `status` finds a task by id and renames it,
 * `list` groups the names by status, and `setup --statuses` writes a
 * configuration. The directory listing, the existing names, the template
 * text and the date are inputs; what a command would write or rename is
 * its result.
 */
module Cli {
  import opened JsString
  import opened TaskNames
  import opened SeqUtil
  import opened ConfigLoader

  // ---------------------------------------------------------------- new

  /** The `--status` option, `todo` when it is not given. */
  function StatusOption(status: Option<string>): string {
    if status.Some? then status.value else "todo"
  }

  /** `${id}_${name}_${status}.md`. */
  function NewTaskName(id: string, name: string, status: string): string {
    id + "_" + name + "_" + status + ".md"
  }

  /** `template.replace(/__ID__/g, id)...`: every placeholder, in this order, the status uppercased. */
  function FillTemplate(template: string, id: string, name: string, status: string, date: string): string {
    ReplaceAll(ReplaceAll(ReplaceAll(ReplaceAll(template, Marker(IdSlot), id), Marker(NameSlot), name),
      Marker(StatusSlot), ToUpper(status)), Marker(DateSlot), date)
  }

  /** What `new` does: refuse (exit code 1) when the name is taken, else write the filled template. */
  datatype NewOutcome = AlreadyExists(file: string) | Created(file: string, content: string)

  function NewTask(existing: set<string>, id: string, name: string, status: Option<string>,
                   template: string, date: string): (r: NewOutcome)
    ensures r.file == NewTaskName(id, name, StatusOption(status))
    ensures r.AlreadyExists? <==> r.file in existing
    ensures r.Created? ==> r.content == FillTemplate(template, id, name, StatusOption(status), date)
  {
    var file := NewTaskName(id, name, StatusOption(status));
    if file in existing then AlreadyExists(file)
    else Created(file, FillTemplate(template, id, name, StatusOption(status), date))
  }

  /** No occurrence starting inside `a` means none starting inside `a[1..]` either. */
  lemma NoOccurrenceInTail(a: string, y: string, p: string)
    requires a != []
    requires forall k :: 0 <= k < |a| ==> !OccursAt(a + y, p, k)
    ensures forall k :: 0 <= k < |a| - 1 ==> !OccursAt(a[1..] + y, p, k)
  {
    var s := a + y;
    assert s[1..] == a[1..] + y;
    forall k | 0 <= k < |a| - 1 ensures !OccursAt(a[1..] + y, p, k) {
      assert !OccursAt(s, p, k + 1);
      if k + |p| <= |s| - 1 {
        assert s[1..][k..k + |p|] == s[k + 1..k + 1 + |p|];
      }
    }
  }

  /**
   * Where no occurrence of `p` starts inside `a`, replacing in `a + y`
   * keeps `a` and replaces in `y`.
   */
  lemma {:induction false} ReplaceAllSkip(a: string, y: string, p: string, r: string)
    requires p != []
    requires forall k :: 0 <= k < |a| ==> !OccursAt(a + y, p, k)
    ensures ReplaceAll(a + y, p, r) == a + ReplaceAll(y, p, r)
    decreases |a|
  {
    var s := a + y;
    if a == [] {
      assert s == y;
    } else {
      NoOccurrenceInTail(a, y, p);
      ReplaceAllSkip(a[1..], y, p, r);
      assert s[1..] == a[1..] + y;
      if |s| < |p| {
        ReplaceAllShort(s, p, r);
        ReplaceAllShort(y, p, r);
      } else {
        assert !OccursAt(s, p, 0);
        assert s[..|p|] == s[0..0 + |p|];
        ReplaceAllNoMatch(s, p, r);
        assert a == [s[0]] + a[1..];
        ConcatAssoc([s[0]], a[1..], ReplaceAll(y, p, r));
      }
    }
  }

  /** The four placeholders of a task template. */
  datatype Placeholder = IdSlot | NameSlot | StatusSlot | DateSlot

  function SlotWord(k: Placeholder): string {
    match k
    case IdSlot => "ID"
    case NameSlot => "NAME"
    case StatusSlot => "STATUS"
    case DateSlot => "DATE"
  }

  /** `__ID__`, `__NAME__`, `__STATUS__`, `__DATE__`. */
  function Marker(k: Placeholder): (r: string)
    ensures MarkerShape(r)
  {
    "__" + SlotWord(k) + "__"
  }

  /** Two underscores, upper-case letters, two underscores. */
  predicate MarkerShape(m: string) {
    |m| >= 6 && m[0] == '_' && m[1] == '_' && m[|m| - 2] == '_' && m[|m| - 1] == '_' &&
    forall i :: 2 <= i < |m| - 2 ==> 'A' <= m[i] <= 'Z'
  }

  /** The four placeholders differ already in their first letter. */
  lemma MarkersDiffer(q: Placeholder, p: Placeholder)
    requires q != p
    ensures Marker(q)[2] != Marker(p)[2]
  {
    assert Marker(q)[2] == SlotWord(q)[0] && Marker(p)[2] == SlotWord(p)[0];
  }

  /** A template seen as plain text pieces and placeholders. */
  datatype Piece = Text(t: string) | Slot(k: Placeholder)

  function PieceText(piece: Piece): string {
    match piece
    case Text(t) => t
    case Slot(k) => Marker(k)
  }

  /** The template text the pieces spell. */
  function Render(ps: seq<Piece>): (r: string)
    ensures ps != [] && ps[0].Slot? ==> |r| >= 2 && r[0] == '_' && r[1] == '_'
    ensures ps != [] && ps[0].Text? && ps[0].t != [] ==> r != [] && r[0] == ps[0].t[0]
  {
    if ps == [] then [] else PieceText(ps[0]) + Render(ps[1..])
  }

  /** The text the task file should hold: each placeholder stands for its value, the status uppercased. */
  function Expand(ps: seq<Piece>, id: string, name: string, status: string, date: string): string {
    if ps == [] then [] else ExpandPiece(ps[0], id, name, status, date) + Expand(ps[1..], id, name, status, date)
  }

  function ExpandPiece(piece: Piece, id: string, name: string, status: string, date: string): string {
    match piece
    case Text(t) => t
    case Slot(IdSlot) => id
    case Slot(NameSlot) => name
    case Slot(StatusSlot) => ToUpper(status)
    case Slot(DateSlot) => date
  }

  /** Every occurrence of placeholder `k` turned into the text `v`. */
  function Subst(ps: seq<Piece>, k: Placeholder, v: string): (r: seq<Piece>)
    ensures |r| == |ps|
    ensures forall i :: 0 <= i < |ps| ==> r[i] == (if ps[i] == Slot(k) then Text(v) else ps[i])
  {
    if ps == [] then [] else [if ps[0] == Slot(k) then Text(v) else ps[0]] + Subst(ps[1..], k, v)
  }

  /**
   * No placeholder can start inside the text: it holds no `__` and does
   * not end in `_`, whatever follows it.
   */
  predicate TextOk(t: string) {
    (forall j :: 0 <= j < |t| - 1 ==> t[j] != '_' || t[j + 1] != '_') && (t != [] ==> t[|t| - 1] != '_')
  }

  predicate TextsPlain(ps: seq<Piece>) {
    forall i :: 0 <= i < |ps| && ps[i].Text? ==> TextOk(ps[i].t)
  }

  /**
   * Text right after a placeholder must neither continue its closing `__`
   * nor run into a longer placeholder name.
   */
  predicate FollowOk(piece: Piece) {
    piece.Text? ==> piece.t != [] && piece.t[0] != '_' && !('A' <= piece.t[0] <= 'Z')
  }

  /** Every placeholder other than `k` is followed by nothing, a placeholder, or a text that `FollowOk` allows. */
  predicate Follows(ps: seq<Piece>, k: Placeholder) {
    forall i :: 0 <= i < |ps| - 1 && ps[i].Slot? && ps[i].k != k ==> FollowOk(ps[i + 1])
  }

  /**
   * What may follow a placeholder so that no other placeholder can begin
   * inside it: nothing, a character that is neither `_` nor an upper-case
   * letter, or the `__` that begins the next placeholder.
   */
  predicate SafeAfterMarker(y: string) {
    y == [] || (y[0] != '_' && !('A' <= y[0] <= 'Z')) || (|y| >= 2 && y[0] == '_' && y[1] == '_')
  }

  /** No occurrence of a placeholder `mp` begins inside a different placeholder `m`. */
  lemma NoMarkerInside(m: string, mp: string, y: string)
    requires MarkerShape(m) && MarkerShape(mp) && m[2] != mp[2]
    requires SafeAfterMarker(y)
    ensures forall k :: 0 <= k < |m| ==> !OccursAt(m + y, mp, k)
  {
    var s := m + y;
    forall k | 0 <= k < |m| ensures !OccursAt(s, mp, k) {
      if k + |mp| <= |s| {
        var w := s[k..k + |mp|];
        if k == 0 {
          assert w[2] == m[2];
        } else if k == 1 {
          assert w[1] == m[2];
        } else if k < |m| - 2 {
          assert w[0] == m[k];
        } else if k == |m| - 2 {
          assert w[2] == y[0];
        } else if y[0] == '_' {
          assert w[2] == y[1];
        } else {
          assert w[1] == y[0];
        }
      }
    }
  }

  /** What a piece becomes once placeholder `k` is turned into `v`. */
  function SubstPiece(piece: Piece, k: Placeholder, v: string): Piece {
    if piece == Slot(k) then Text(v) else piece
  }

  /** Replacing in a piece followed by `y` turns the piece alone and goes on in `y`. */
  lemma ReplaceHead(piece: Piece, y: string, k: Placeholder, v: string)
    requires piece.Text? ==> TextOk(piece.t)
    requires piece.Slot? && piece.k != k ==> SafeAfterMarker(y)
    ensures ReplaceAll(PieceText(piece) + y, Marker(k), v) ==
      PieceText(SubstPiece(piece, k, v)) + ReplaceAll(y, Marker(k), v)
  {
    var mp := Marker(k);
    match piece
    case Text(t) =>
      forall j | 0 <= j < |t| ensures !OccursAt(t + y, mp, j) {
        if j + |mp| <= |t + y| {
          var w := (t + y)[j..j + |mp|];
          assert w[0] == t[j];
          if j + 1 < |t| {
            assert w[1] == t[j + 1];
          }
        }
      }
      ReplaceAllSkip(t, y, mp, v);
    case Slot(q) =>
      if q == k {
        var s := mp + y;
        assert s[..|mp|] == mp && s[|mp|..] == y;
      } else {
        MarkersDiffer(q, k);
        NoMarkerInside(Marker(q), mp, y);
        ReplaceAllSkip(Marker(q), y, mp, v);
      }
  }

  /** The conditions of `ReplaceStep` hold of the pieces after the first. */
  lemma FormOfRest(ps: seq<Piece>, k: Placeholder)
    requires ps != [] && TextsPlain(ps) && Follows(ps, k)
    ensures TextsPlain(ps[1..]) && Follows(ps[1..], k)
    ensures ps[0].Slot? && ps[0].k != k ==> SafeAfterMarker(Render(ps[1..]))
  {
    var rest := ps[1..];
    forall i | 0 <= i < |rest| && rest[i].Text? ensures TextOk(rest[i].t) {
      assert rest[i] == ps[i + 1];
    }
    forall i | 0 <= i < |rest| - 1 && rest[i].Slot? && rest[i].k != k ensures FollowOk(rest[i + 1]) {
      assert rest[i] == ps[i + 1] && rest[i + 1] == ps[i + 2];
    }
    if ps[0].Slot? && ps[0].k != k && rest != [] {
      assert FollowOk(ps[1]);
    }
  }

  /** One `.replace(/__X__/g, v)` turns the placeholders `X` of the pieces into `v` and nothing else. */
  lemma {:induction false} ReplaceStep(ps: seq<Piece>, k: Placeholder, v: string)
    requires TextsPlain(ps) && Follows(ps, k)
    ensures ReplaceAll(Render(ps), Marker(k), v) == Render(Subst(ps, k, v))
    decreases |ps|
  {
    if ps != [] {
      var rest := ps[1..];
      var r := Subst(ps, k, v);
      assert r[1..] == Subst(rest, k, v);
      assert r[0] == SubstPiece(ps[0], k, v);
      FormOfRest(ps, k);
      ReplaceStep(rest, k, v);
      ReplaceHead(ps[0], Render(rest), k, v);
    }
  }

  /**
   * The pieces a template is written in: no `__` in its text and no text
   * ending in `_`, and no placeholder directly followed by `_`, an
   * upper-case letter, or an empty text.
   */
  predicate WellFormedTemplate(ps: seq<Piece>) {
    TextsPlain(ps) && forall i :: 0 <= i < |ps| - 1 && ps[i].Slot? ==> FollowOk(ps[i + 1])
  }

  /**
   * A value that may stand where the template had placeholder `k`, for a
   * later step: no `__` and no trailing `_` (`fix_login_bug` is fine), and
   * where `k` directly follows another placeholder, also not empty and not
   * starting with `_` or an upper-case letter.
   */
  predicate ValueFits(ps: seq<Piece>, k: Placeholder, v: string) {
    TextOk(v) && forall i :: 0 <= i < |ps| - 1 && ps[i].Slot? && ps[i + 1] == Slot(k) ==> FollowOk(Text(v))
  }

  lemma SubstKeepsForm(ps: seq<Piece>, k: Placeholder, v: string)
    requires WellFormedTemplate(ps) && ValueFits(ps, k, v)
    ensures WellFormedTemplate(Subst(ps, k, v))
  {
    var r := Subst(ps, k, v);
    forall i | 0 <= i < |r| - 1 && r[i].Slot? ensures FollowOk(r[i + 1]) {
      assert r[i] == ps[i] && ps[i].Slot?;
      if ps[i + 1] != Slot(k) {
        assert FollowOk(ps[i + 1]);
      }
    }
  }

  /** Replacing placeholder `k` leaves the other placeholders, and what precedes them, where they were. */
  lemma ValueFitsAfter(ps: seq<Piece>, k: Placeholder, v: string, k2: Placeholder, v2: string)
    requires k != k2 && ValueFits(ps, k2, v2)
    ensures ValueFits(Subst(ps, k, v), k2, v2)
  {
    var r := Subst(ps, k, v);
    forall i | 0 <= i < |r| - 1 && r[i].Slot? && r[i + 1] == Slot(k2) ensures FollowOk(Text(v2)) {
      assert ps[i].Slot? && ps[i + 1] == Slot(k2);
    }
  }

  lemma SubstSplit(ps: seq<Piece>, k: Placeholder, v: string)
    requires ps != []
    ensures Subst(ps, k, v)[0] == SubstPiece(ps[0], k, v)
    ensures Subst(ps, k, v)[1..] == Subst(ps[1..], k, v)
  {
  }

  /** Doing the four replacements on the pieces spells what the template promises. */
  lemma ExpandOfSubst(ps: seq<Piece>, id: string, name: string, status: string, date: string)
    ensures Render(Subst(Subst(Subst(Subst(ps, IdSlot, id), NameSlot, name), StatusSlot, ToUpper(status)), DateSlot, date))
      == Expand(ps, id, name, status, date)
  {
    if ps != [] {
      var s1 := Subst(ps, IdSlot, id);
      var s2 := Subst(s1, NameSlot, name);
      var s3 := Subst(s2, StatusSlot, ToUpper(status));
      var s4 := Subst(s3, DateSlot, date);
      ExpandOfSubst(ps[1..], id, name, status, date);
      SubstSplit(ps, IdSlot, id);
      SubstSplit(s1, NameSlot, name);
      SubstSplit(s2, StatusSlot, ToUpper(status));
      SubstSplit(s3, DateSlot, date);
      PieceExpands(ps[0], id, name, status, date);
      assert Render(s4) == PieceText(s4[0]) + Render(s4[1..]);
    }
  }

  lemma PieceExpands(piece: Piece, id: string, name: string, status: string, date: string)
    ensures PieceText(SubstPiece(SubstPiece(SubstPiece(SubstPiece(piece, IdSlot, id), NameSlot, name),
      StatusSlot, ToUpper(status)), DateSlot, date)) == ExpandPiece(piece, id, name, status, date)
  {
  }

  /** After the first three replacements only date placeholders are left. */
  lemma OnlyDatesLeft(s2: seq<Piece>, ps: seq<Piece>, id: string, name: string, up: string)
    requires s2 == Subst(Subst(ps, IdSlot, id), NameSlot, name)
    requires TextsPlain(s2) && TextOk(up)
    ensures TextsPlain(Subst(s2, StatusSlot, up)) && Follows(Subst(s2, StatusSlot, up), DateSlot)
  {
    var s1 := Subst(ps, IdSlot, id);
    var s3 := Subst(s2, StatusSlot, up);
    forall i | 0 <= i < |s3| && s3[i].Slot? ensures s3[i].k == DateSlot {
      assert s3[i] == s2[i] && s2[i] == s1[i] && s1[i] == ps[i];
    }
  }

  /**
   * Every placeholder of a well-formed template is replaced by its value,
   * `__STATUS__` by the uppercased status, and the rest of the text is
   * kept, for an id and a name that cannot form or end a placeholder
   * where they stand (`ValueFits`) and a status without `_`.
   */
  lemma FillTemplateExpands(ps: seq<Piece>, id: string, name: string, status: string, date: string)
    requires WellFormedTemplate(ps)
    requires ValueFits(ps, IdSlot, id) && ValueFits(ps, NameSlot, name) && '_' !in status
    ensures FillTemplate(Render(ps), id, name, status, date) == Expand(ps, id, name, status, date)
  {
    var up := ToUpper(status);
    assert TextOk(up) by {
      forall i | 0 <= i < |up| ensures up[i] != '_' {
        assert up[i] == UpperChar(status[i]);
      }
    }
    var s1 := Subst(ps, IdSlot, id);
    var s2 := Subst(s1, NameSlot, name);
    var s3 := Subst(s2, StatusSlot, up);
    ReplaceStep(ps, IdSlot, id);
    SubstKeepsForm(ps, IdSlot, id);
    ValueFitsAfter(ps, IdSlot, id, NameSlot, name);
    ReplaceStep(s1, NameSlot, name);
    SubstKeepsForm(s1, NameSlot, name);
    ReplaceStep(s2, StatusSlot, up);
    OnlyDatesLeft(s2, ps, id, name, up);
    ReplaceStep(s3, DateSlot, date);
    ExpandOfSubst(ps, id, name, status, date);
  }

  /** The heading line of the built-in template, as pieces. */
  function HeadingPieces(): seq<Piece> {
    [Text("# タスク"), Slot(IdSlot), Text(": "), Slot(NameSlot), Text("\n")]
  }

  lemma RenderCons(piece: Piece, rest: seq<Piece>)
    ensures Render([piece] + rest) == PieceText(piece) + Render(rest)
  {
    assert ([piece] + rest)[1..] == rest;
  }

  lemma HeadingTailRender()
    ensures Render([Text(": "), Slot(NameSlot), Text("\n")]) == ": __NAME__\n"
  {
    var e := [Text("\n")];
    var d := [Slot(NameSlot)] + e;
    assert [Text(": "), Slot(NameSlot), Text("\n")] == [Text(": ")] + d;
    RenderCons(Text("\n"), []);
    RenderCons(Slot(NameSlot), e);
    RenderCons(Text(": "), d);
    assert Marker(NameSlot) == "__NAME__";
  }

  lemma HeadingLiteral()
    ensures "# タスク" + ("__ID__" + ": __NAME__\n") == "# タスク__ID__: __NAME__\n"
  {
  }

  lemma HeadingRender()
    ensures Render(HeadingPieces()) == "# タスク__ID__: __NAME__\n"
  {
    var c := [Text(": "), Slot(NameSlot), Text("\n")];
    var b := [Slot(IdSlot)] + c;
    assert HeadingPieces() == [Text("# タスク")] + b;
    HeadingTailRender();
    RenderCons(Slot(IdSlot), c);
    assert Render(b) == "__ID__" + ": __NAME__\n";
    RenderCons(Text("# タスク"), b);
    HeadingLiteral();
  }

  lemma HeadingExpand(id: string, name: string, date: string)
    ensures Expand(HeadingPieces(), id, name, "todo", date) == "# タスク" + id + ": " + name + "\n"
  {
    var ps := HeadingPieces();
    assert Expand(ps[4..], id, name, "todo", date) == "\n";
    assert Expand(ps[3..], id, name, "todo", date) == name + "\n";
    assert Expand(ps[2..], id, name, "todo", date) == ": " + name + "\n";
    assert Expand(ps[1..], id, name, "todo", date) == id + ": " + name + "\n";
  }

  lemma HeadingFits(id: string, name: string)
    requires AllDigits(id) && TextOk(name)
    ensures WellFormedTemplate(HeadingPieces())
    ensures ValueFits(HeadingPieces(), IdSlot, id) && ValueFits(HeadingPieces(), NameSlot, name)
  {
    assert TextOk(id) by {
      forall j | 0 <= j < |id| ensures id[j] != '_' {
        assert IsAsciiDigit(id[j]);
      }
    }
  }

  /**
   * The heading line of the built-in template takes any name with no `__`
   * and no trailing `_`, capitals and single underscores included.
   */
  lemma HeadingLineExpands(id: string, name: string, date: string)
    requires AllDigits(id) && TextOk(name)
    ensures FillTemplate("# タスク__ID__: __NAME__\n", id, name, "todo", date) == "# タスク" + id + ": " + name + "\n"
  {
    HeadingRender();
    HeadingFits(id, name);
    FillTemplateExpands(HeadingPieces(), id, name, "todo", date);
    HeadingExpand(id, name, date);
  }

  /** A template in which no placeholder can start is written as it is. */
  lemma FillKeepsPlainText(template: string, id: string, name: string, status: string, date: string)
    requires TextOk(template)
    ensures FillTemplate(template, id, name, status, date) == template
  {
    var ps := [Text(template)];
    assert Render(ps) == template;
    assert TextsPlain(ps);
    assert Subst(ps, IdSlot, id) == ps && Subst(ps, NameSlot, name) == ps;
    assert Subst(ps, StatusSlot, ToUpper(status)) == ps && Subst(ps, DateSlot, date) == ps;
    ReplaceStep(ps, IdSlot, id);
    ReplaceStep(ps, NameSlot, name);
    ReplaceStep(ps, StatusSlot, ToUpper(status));
    ReplaceStep(ps, DateSlot, date);
  }

  // ---------------------------------------------------------------- status

  /** `files.find(f => f.startsWith(`${id}_`))`: the index of the first match, or `None`. */
  function FindTaskFile(files: seq<string>, id: string): (r: Option<nat>)
    ensures r.Some? ==> r.value < |files| && StartsWith(files[r.value], id + "_")
    ensures r.Some? ==> forall j :: 0 <= j < r.value ==> !StartsWith(files[j], id + "_")
    ensures r.None? ==> forall j :: 0 <= j < |files| ==> !StartsWith(files[j], id + "_")
  {
    if files == [] then None
    else if StartsWith(files[0], id + "_") then Some(0)
    else
      var r := FindTaskFile(files[1..], id);
      if r.Some? then Some(r.value + 1) else None
  }

  /** For a numeric id, starting with `${id}_` is having that id: `10_x.md` is not task `1`. */
  lemma PrefixIsLeadingId(f: string, id: string)
    requires id != [] && AllDigits(id)
    ensures StartsWith(f, id + "_") <==> LeadingId(f) == Some(id)
  {
    if StartsWith(f, id + "_") {
      assert f == id + "_" + f[|id| + 1..];
      LeadingIdOf(id, f[|id| + 1..]);
    }
  }

  /**
   * `parts = f.split('_'); parts[parts.length - 1] = `${status}.md`;
   * parts.join('_')`.
   */
  function Renamed(f: string, status: string): string {
    var parts := Split(f, '_');
    Join(parts[|parts| - 1 := status + ".md"], '_')
  }

  /** The rename, overwriting the last piece of the split array in place. */
  method RenameStatus(f: string, status: string) returns (newFile: string)
    ensures newFile == Renamed(f, status)
  {
    var pieces := Split(f, '_');
    var parts := new string[|pieces|](i requires 0 <= i < |pieces| => pieces[i]);
    parts[parts.Length - 1] := status + ".md";
    assert parts[..] == pieces[|pieces| - 1 := status + ".md"];
    newFile := Join(parts[..], '_');
  }

  /**
   * Everything up to the last `_` is kept and the rest becomes
   * `${status}.md`; a name without `_` becomes `${status}.md`.
   */
  lemma RenamedShape(f: string, status: string)
    ensures var k := LastIndexOfChar(f, '_');
      (k == -1 ==> Renamed(f, status) == status + ".md") &&
      (k >= 0 ==> Renamed(f, status) == f[..k + 1] + status + ".md")
  {
    if |Split(f, '_')| == 1 {
      RenamedOnePart(f, status);
    } else {
      RenamedLastPart(f, status);
    }
  }

  lemma RenamedOnePart(f: string, status: string)
    requires |Split(f, '_')| == 1
    ensures LastIndexOfChar(f, '_') == -1 && Renamed(f, status) == status + ".md"
  {
    var parts := Split(f, '_');
    JoinSplit(f, '_');
    assert parts[0] == f;
    assert '_' !in f;
  }

  lemma RenamedLastPart(f: string, status: string)
    requires |Split(f, '_')| >= 2
    ensures var k := LastIndexOfChar(f, '_');
      k >= 0 && Renamed(f, status) == f[..k + 1] + status + ".md"
  {
    SplitLastReplaced(f, status + ".md", '_');
  }

  /** A name holding `_` gets a new name ending in `_${status}.md`. */
  lemma RenamedEndsWithStatus(f: string, status: string)
    requires '_' in f
    ensures EndsWith(Renamed(f, status), "_" + status + ".md")
  {
    RenamedShape(f, status);
    var k := LastIndexOfChar(f, '_');
    var i :| 0 <= i < |f| && f[i] == '_';
    assert k >= i;
    assert f[..k + 1] == f[..k] + "_";
    assert Renamed(f, status) == f[..k] + ("_" + status + ".md");
    EndsWithAppended(f[..k], "_" + status + ".md");
  }

  /** For a status without `_`, renaming twice is renaming once. */
  lemma RenamedIdempotent(f: string, status: string)
    requires '_' !in status
    ensures Renamed(Renamed(f, status), status) == Renamed(f, status)
  {
    RenamedShape(f, status);
    var k := LastIndexOfChar(f, '_');
    var g := Renamed(f, status);
    var head := if k >= 0 then f[..k] else [];
    if k >= 0 {
      assert g == head + "_" + (status + ".md");
      LastIndexOfSeparator(head, status + ".md", '_');
      RenamedShape(g, status);
      assert g[..k + 1] == f[..k + 1];
    } else {
      assert g == status + ".md";
      assert '_' !in g;
      assert LastIndexOfChar(g, '_') == -1;
      RenamedShape(g, status);
    }
  }

  /** For a status holding `_`, each rename adds one more segment: the rename is not idempotent. */
  lemma RenamedTwiceGrows(f: string, status: string)
    requires '_' in f && '_' in status
    ensures |Renamed(Renamed(f, status), status)| > |Renamed(f, status)|
  {
    RenamedShape(f, status);
    var k := LastIndexOfChar(f, '_');
    var i :| 0 <= i < |f| && f[i] == '_';
    assert k >= i;
    var g := Renamed(f, status);
    assert g == f[..k + 1] + status + ".md";
    var j :| 0 <= j < |status| && status[j] == '_';
    assert g[k + 1 + j] == '_';
    RenamedShape(g, status);
    var k' := LastIndexOfChar(g, '_');
    assert k' >= k + 1 + j;
  }

  /** For a status without `_`, the rename keeps the number of `_`-separated segments. */
  lemma RenamedKeepsSegments(f: string, status: string)
    requires '_' !in status
    ensures |Split(Renamed(f, status), '_')| == |Split(f, '_')|
  {
    var parts := Split(f, '_');
    var renamed := parts[|parts| - 1 := status + ".md"];
    assert '_' !in status + ".md";
    assert forall i :: 0 <= i < |renamed| ==> '_' !in renamed[i];
    SplitJoin(renamed, '_');
  }

  /**
   * What `status` does: `None` (exit code 1) when no file starts with
   * `${id}_`, else the old and the new name.
   */
  function StatusCommand(files: seq<string>, id: string, status: string): (r: Option<(string, string)>)
    ensures r.None? <==> forall j :: 0 <= j < |files| ==> !StartsWith(files[j], id + "_")
  {
    var i := FindTaskFile(files, id);
    if i.None? then None else Some((files[i.value], Renamed(files[i.value], status)))
  }

  // ---------------------------------------------------------------- list

  predicate IsMd(f: string) {
    EndsWith(f, ".md")
  }

  function HasStatusSuffix(status: string): string -> bool {
    (f: string) => EndsWith(f, "_" + status + ".md")
  }

  /** The names `list` shows: `.md` names, only those ending in `_${status}.md` when a status is given. */
  function ListedTasks(files: seq<string>, status: Option<string>): (r: seq<string>)
    ensures forall f :: f in r <==> (f in files && IsMd(f) &&
      (status.None? || status.value == [] || EndsWith(f, "_" + status.value + ".md")))
  {
    var md := Filter(files, IsMd);
    FilterMembers(files, IsMd);
    if status.Some? && status.value != [] then
      FilterMembers(md, HasStatusSuffix(status.value));
      Filter(md, HasStatusSuffix(status.value))
    else md
  }

  /** The group of a name: the capture of `/_([^_]+)\.md$/`, else `unknown`. */
  function GroupKey(f: string): string {
    if StatusSegment(f).Some? then StatusSegment(f).value else "unknown"
  }

  function HasGroupKey(k: string): string -> bool {
    (f: string) => GroupKey(f) == k
  }

  /** The group keys in the order their first name appears. */
  function GroupOrder(tasks: seq<string>): seq<string> {
    if tasks == [] then []
    else
      var before := GroupOrder(tasks[..|tasks| - 1]);
      if GroupKey(tasks[|tasks| - 1]) in before then before else before + [GroupKey(tasks[|tasks| - 1])]
  }

  /** The groups of `list`: each key, in order, with the names of that key. */
  function Groups(tasks: seq<string>): map<string, seq<string>> {
    map k | k in GroupOrder(tasks) :: Filter(tasks, HasGroupKey(k))
  }

  /** A key with no group has no names. */
  lemma {:induction false} NoGroupNoNames(tasks: seq<string>, k: string)
    requires k !in GroupOrder(tasks)
    ensures Filter(tasks, HasGroupKey(k)) == []
    decreases |tasks|
  {
    if tasks != [] {
      NoGroupNoNames(tasks[..|tasks| - 1], k);
    }
  }

  /** Adding one name adds its key at the end when the key is new. */
  lemma GroupOrderStep(tasks: seq<string>, i: nat)
    requires i < |tasks|
    ensures GroupOrder(tasks[..i + 1]) ==
      if GroupKey(tasks[i]) in GroupOrder(tasks[..i]) then GroupOrder(tasks[..i])
      else GroupOrder(tasks[..i]) + [GroupKey(tasks[i])]
  {
    var t := tasks[..i + 1];
    assert t[..|t| - 1] == tasks[..i];
  }

  /** Adding one name appends it to the group of its key, created empty when it is new. */
  lemma GroupsStep(tasks: seq<string>, i: nat)
    requires i < |tasks|
    ensures var g := Groups(tasks[..i]); var key := GroupKey(tasks[i]);
      Groups(tasks[..i + 1]) == g[key := (if key in g then g[key] else []) + [tasks[i]]]
  {
    var s := tasks[..i];
    var g := Groups(s);
    var key := GroupKey(tasks[i]);
    var g' := Groups(tasks[..i + 1]);
    var expected := g[key := (if key in g then g[key] else []) + [tasks[i]]];
    GroupOrderStep(tasks, i);
    assert g'.Keys == expected.Keys;
    forall k | k in g' ensures g'[k] == expected[k] {
      GroupStepAt(tasks, i, k);
    }
  }

  /** The group of one key after one more name: that name appended when it has the key. */
  lemma GroupStepAt(tasks: seq<string>, i: nat, k: string)
    requires i < |tasks|
    ensures var s := tasks[..i];
      Filter(tasks[..i + 1], HasGroupKey(k)) ==
        if k != GroupKey(tasks[i]) then Filter(s, HasGroupKey(k))
        else (if k in GroupOrder(s) then Filter(s, HasGroupKey(k)) else []) + [tasks[i]]
  {
    FilterStep(tasks, i, HasGroupKey(k));
    if k == GroupKey(tasks[i]) && k !in GroupOrder(tasks[..i]) {
      NoGroupNoNames(tasks[..i], k);
    }
  }

  /**
   * Some name's group key is an inherited property: `grouped[key]` is then
   * a function, so no array is made for it and `push` throws.
   */
  predicate HasInheritedKey(tasks: seq<string>) {
    exists t :: t in tasks && GroupKey(t) in InheritedKeys
  }

  lemma InheritedKeyAt(tasks: seq<string>, i: nat)
    requires i < |tasks| && GroupKey(tasks[i]) in InheritedKeys
    ensures HasInheritedKey(tasks)
  {
    assert tasks[i] in tasks;
  }

  lemma NoInheritedKeyStep(tasks: seq<string>, i: nat)
    requires i < |tasks| && !HasInheritedKey(tasks[..i]) && GroupKey(tasks[i]) !in InheritedKeys
    ensures !HasInheritedKey(tasks[..i + 1])
  {
    assert tasks[..i + 1] == tasks[..i] + [tasks[i]];
  }

  /** The output of `list`: nothing to show, a thrown `TypeError`, or the groups in order. */
  datatype Listing = NoTasks | Crashed | Grouped(order: seq<string>, grouped: map<string, seq<string>>)

  /** One turn of the grouping loop: the name joins its key's group, a new key goes last. */
  method AddToGroup(tasks: seq<string>, i: nat, order: seq<string>, grouped: map<string, seq<string>>)
    returns (order': seq<string>, grouped': map<string, seq<string>>)
    requires i < |tasks|
    requires order == GroupOrder(tasks[..i]) && grouped == Groups(tasks[..i])
    ensures order' == GroupOrder(tasks[..i + 1]) && grouped' == Groups(tasks[..i + 1])
  {
    var task := tasks[i];
    var key := GroupKey(task);
    GroupsStep(tasks, i);
    assert tasks[..i + 1][..i] == tasks[..i];
    var group := if key in grouped then grouped[key] else [];
    order' := order;
    if key !in grouped {
      order' := order + [key];
    }
    grouped' := grouped[key := group + [task]];
  }

  /**
   * The `grouped` object of `list`: one pass, appending each name to its
   * group, or throwing at the first name whose key is inherited.
   */
  method GroupTasks(tasks: seq<string>) returns (r: Listing)
    ensures r.Crashed? <==> HasInheritedKey(tasks)
    ensures !r.Crashed? ==> r == Grouped(GroupOrder(tasks), Groups(tasks))
  {
    var order := [];
    var grouped := map[];
    var i := 0;
    while i < |tasks|
      invariant 0 <= i <= |tasks|
      invariant order == GroupOrder(tasks[..i]) && grouped == Groups(tasks[..i])
      invariant !HasInheritedKey(tasks[..i])
    {
      if GroupKey(tasks[i]) in InheritedKeys {
        InheritedKeyAt(tasks, i);
        return Crashed;
      }
      NoInheritedKeyStep(tasks, i);
      order, grouped := AddToGroup(tasks, i, order, grouped);
      i := i + 1;
    }
    assert tasks[..|tasks|] == tasks;
    r := Grouped(order, grouped);
  }

  /** Every group key appears once, and exactly the keys of the names appear. */
  lemma {:induction false} GroupOrderSpec(tasks: seq<string>)
    ensures forall i, j :: 0 <= i < j < |GroupOrder(tasks)| ==> GroupOrder(tasks)[i] != GroupOrder(tasks)[j]
    ensures forall k :: k in GroupOrder(tasks) <==> exists t :: t in tasks && GroupKey(t) == k
    decreases |tasks|
  {
    if tasks != [] {
      var front := tasks[..|tasks| - 1];
      GroupOrderSpec(front);
      assert tasks == front + [tasks[|tasks| - 1]];
      forall k ensures (exists t :: t in tasks && GroupKey(t) == k) ==> k in GroupOrder(tasks) {
        if exists t :: t in tasks && GroupKey(t) == k {
          var t :| t in tasks && GroupKey(t) == k;
          if t in front {
            assert k in GroupOrder(front);
          }
        }
      }
    }
  }

  /** Keys keep their place as names are added: the order is that of first appearance. */
  lemma {:induction false} GroupOrderGrows(tasks: seq<string>, n: nat)
    requires n <= |tasks|
    ensures GroupOrder(tasks[..n]) <= GroupOrder(tasks)
    decreases |tasks| - n
  {
    if n < |tasks| {
      GroupOrderGrows(tasks, n + 1);
      assert tasks[..n + 1][..n] == tasks[..n];
    } else {
      assert tasks[..n] == tasks;
    }
  }

  /** Each listed name is in the group of its own key and in no other. */
  lemma InExactlyOneGroup(tasks: seq<string>, t: string, k: string)
    requires t in tasks
    ensures t in Filter(tasks, HasGroupKey(k)) <==> GroupKey(t) == k
  {
    FilterMembers(tasks, HasGroupKey(k));
  }

  /** The shown id: the leading digits, or `---`. */
  function DisplayId(f: string): string {
    if LeadingId(f).Some? then LeadingId(f).value else "---"
  }

  /** The shown name: no `<digits>_` in front, no `_<segment>.md` at the end. */
  function DisplayName(f: string): string {
    StripStatusSuffix(StripIdPrefix(f))
  }

  /** One line of a group: `  #${id} ${name}`. */
  function TaskLine(f: string): string {
    "  #" + DisplayId(f) + " " + DisplayName(f)
  }

  /** A group's heading: `[${STATUS}] (${n}件)`. */
  function GroupHeading(status: string, n: nat): string {
    "[" + ToUpper(status) + "] (" + NatText(n) + "件)"
  }

  function ListCommand(files: seq<string>, status: Option<string>): (r: Listing)
    ensures r.NoTasks? <==> ListedTasks(files, status) == []
    ensures r.Crashed? <==> ListedTasks(files, status) != [] && HasInheritedKey(ListedTasks(files, status))
    ensures r.Grouped? ==> r.order == GroupOrder(ListedTasks(files, status))
    ensures r.Grouped? ==> r.grouped == Groups(ListedTasks(files, status))
  {
    var tasks := ListedTasks(files, status);
    if tasks == [] then NoTasks
    else if HasInheritedKey(tasks) then Crashed
    else Grouped(GroupOrder(tasks), Groups(tasks))
  }

  /** A task made by `new` with the status `toString` makes `list` throw. */
  lemma InheritedStatusCrashesList(id: string, name: string)
    requires id != [] && AllDigits(id)
    ensures ListCommand([NewTaskName(id, name, "toString")], None).Crashed?
  {
    var f := NewTaskName(id, name, "toString");
    NewTaskListed(id, name, "toString");
    assert EndsWith(f, ".md");
    assert f in ListedTasks([f], None);
  }

  /** A name made by `new` is read back by `list` as its id, its name and its status group. */
  lemma NewTaskListed(id: string, name: string, status: string)
    requires id != [] && AllDigits(id)
    requires status != [] && '_' !in status
    ensures var f := NewTaskName(id, name, status);
      DisplayId(f) == id && DisplayName(f) == name && GroupKey(f) == status
  {
    var rest := name + "_" + status + ".md";
    assert NewTaskName(id, name, status) == id + "_" + rest;
    LeadingIdOf(id, rest);
    StripIdPrefixOf(id, rest);
    assert NewTaskName(id, name, status) == (id + "_" + name) + "_" + status + ".md";
    StatusSegmentOf(id + "_" + name, status);
    StatusSegmentOf(name, status);
    var stripped := StripStatusSuffix(rest);
    assert stripped + "_" + status + ".md" == name + "_" + status + ".md";
    assert stripped == (stripped + "_" + status + ".md")[..|stripped|];
    assert name == (name + "_" + status + ".md")[..|name|];
  }

  /** A name made by `new` is found by `status` under its id, and the rename replaces just the status. */
  lemma NewTaskRenamed(id: string, name: string, status: string, status2: string)
    requires id != [] && AllDigits(id)
    requires '_' !in status
    ensures StartsWith(NewTaskName(id, name, status), id + "_")
    ensures Renamed(NewTaskName(id, name, status), status2) == NewTaskName(id, name, status2)
  {
    var f := NewTaskName(id, name, status);
    var head := id + "_" + name;
    assert f == head + "_" + (status + ".md");
    assert f[..|id| + 1] == id + "_";
    RenamedShape(f, status2);
    assert '_' !in status + ".md";
    LastIndexOfSeparator(head, status + ".md", '_');
    assert f[..|head| + 1] == head + "_";
  }

  // ---------------------------------------------------------------- setup --statuses

  /** `getDefaultColor(status)`: eight known keys, else `#8b949e`. */
  const CliColorMap: map<string, string> := map[
    "backlog" := "#6b7280",
    "todo" := "#3b82f6",
    "review" := "#eab308",
    "done" := "#22c55e",
    "idea" := "#9333ea",
    "planning" := "#ec4899",
    "doing" := "#06b6d4",
    "testing" := "#f97316"
  ]

  function GetDefaultColor(status: string): (r: string)
    ensures status in CliColorMap ==> r == CliColorMap[status]
    ensures status !in CliColorMap ==> r == "#8b949e"
  {
    if status in CliColorMap then CliColorMap[status] else "#8b949e"
  }

  /** The status one trimmed piece of `--statuses` stands for. */
  function SetupStatus(piece: string): Json {
    var s := Trim(piece);
    StatusJson(ToLower(s), ToUpper(s), GetDefaultColor(ToLower(s)))
  }

  /** The configuration `setup --statuses` writes, for a non-empty option. */
  function SetupConfig(statuses: string): Json {
    JObj(map[
      "version" := JStr("1.0"),
      "statuses" := JArr(Map(Split(statuses, ','), SetupStatus)),
      "port" := JNum(5500),
      "features" := DefaultFeatures
    ])
  }

  /**
   * The configuration `setup` writes: from `--statuses` when it is given and
   * non-empty, else the home defaults file when there is one, else the home
   * directory's project configuration.
   */
  function SetupChosenConfig(statuses: Option<string>, homeDefaults: Option<Json>, homeProject: Option<Json>): (r: Json)
    ensures statuses.Some? && statuses.value != [] ==> r == SetupConfig(statuses.value)
  {
    if statuses.Some? && statuses.value != [] then SetupConfig(statuses.value)
    else if homeDefaults.Some? then homeDefaults.value
    else LoadProjectConfig(homeProject)
  }

  /**
   * `setup --statuses` and `createConfigFromStatuses` agree on everything
   * but the colours: same fields, same keys and labels in the same order.
   */
  lemma SetupAgreesWithCreate(str: string)
    requires str != ""
    ensures var a := SetupConfig(str);
      var b := CreateConfigFromStatuses(Some(str));
      a.fields.Keys == b.fields.Keys &&
      (forall k :: k in a.fields && k != "statuses" ==> a.fields[k] == b.fields[k]) &&
      |a.fields["statuses"].items| == |b.fields["statuses"].items| &&
      forall i :: 0 <= i < |a.fields["statuses"].items| ==>
        a.fields["statuses"].items[i].fields["key"] == b.fields["statuses"].items[i].fields["key"] &&
        a.fields["statuses"].items[i].fields["label"] == b.fields["statuses"].items[i].fields["label"]
  {
  }

  /** The two colour tables differ: `doing` is cyan here and green in the loader; `idea` is known only here. */
  lemma ColourTablesDiffer()
    ensures GetDefaultColor("doing") == "#06b6d4" && ColorFor("doing") == "#10b981"
    ensures GetDefaultColor("idea") == "#9333ea" && ColorFor("idea") == "#6b7280"
    ensures GetDefaultColor("blocked") == "#8b949e" && ColorFor("blocked") == "#ef4444"
  {
  }

  /** The configuration `setup --statuses` writes reads back unchanged. */
  lemma SetupConfigReadBack(str: string)
    ensures LoadProjectConfig(Some(SetupConfig(str))) == SetupConfig(str)
  {
    ReadBackUnchanged(SetupConfig(str));
  }
}
