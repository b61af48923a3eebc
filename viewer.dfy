/**
 * The search core of the browser viewer: the task cards it builds from the
 * directory listings, the per-card match rule and content preview of a
 * search, the results banner, and the five-entry search history. The DOM
 * is reduced to what a card shows: whether it is visible, the HTML of its
 * id and title, and its preview.
 */
module Viewer {
  import opened JsString
  import opened TaskNames
  import opened SeqUtil
  import opened Html

  /**
   * A task card. `id` is `#` and the leading digits (or `#---`); the source
   * keeps the same text again as `originalId`/`originalTitle`, which are
   * never changed, so one field stands for both. `file` is the listed file
   * name the card was built from; the source's card object does not keep
   * it as a property.
   */
  datatype Card = Card(
    id: string,
    title: string,
    status: string,
    path: string,
    file: string,
    content: Option<string>,
    visible: bool,
    idHtml: string,
    titleHtml: string,
    preview: Option<string>)

  /** Characters of context kept on each side of a content match. */
  const PreviewContext: nat := 50
  const Ellipsis: string := "..."

  // ------------------------------------------------------------ matching

  /** Full-text mode is on, the card has non-empty content, and its lowercased content holds `q`. */
  predicate ContentHit(c: Card, q: string, fullText: bool) {
    fullText && c.content.Some? && c.content.value != [] && Contains(ToLower(c.content.value), q)
  }

  /** `idMatch || titleMatch || statusMatch || contentMatch`. */
  predicate Matches(c: Card, q: string, fullText: bool) {
    Contains(ToLower(c.id), q) || Contains(ToLower(c.title), q) || Contains(ToLower(c.status), q) ||
    ContentHit(c, q, fullText)
  }

  /** The slice of the content shown around a match. */
  datatype Window = Window(start: nat, end: nat)

  /** `Math.max(0, i - 50)` and `Math.min(len, i + |q| + 50)` for the first match `i`. */
  function MatchWindow(content: string, q: string): (w: Window)
    requires Contains(ToLower(content), q)
    ensures var i := IndexOf(ToLower(content), q);
      w.start <= i && i + |q| <= w.end <= |content| &&
      w.end - w.start <= |q| + 2 * PreviewContext &&
      OccursAt(ToLower(content[w.start..w.end]), q, i - w.start)
  {
    var i := IndexOf(ToLower(content), q);
    var w := Window(if i >= PreviewContext then i - PreviewContext else 0,
                    if i + |q| + PreviewContext <= |content| then i + |q| + PreviewContext else |content|);
    WindowKeepsMatch(content, q, i, w.start, w.end);
    w
  }

  lemma WindowKeepsMatch(content: string, q: string, i: nat, a: nat, b: nat)
    requires OccursAt(ToLower(content), q, i)
    requires a <= i && i + |q| <= b <= |content|
    ensures OccursAt(ToLower(content[a..b]), q, i - a)
  {
    var l := ToLower(content[a..b]);
    assert l[i - a..i - a + |q|] == ToLower(content)[i..i + |q|];
  }

  /**
   * `h` is the escaped `text` with `<mark>` tags put in and no other tag:
   * what escaping first and marking the matches of the query after gives.
   */
  predicate MarksEscaped(h: string, text: string) {
    TagsOnly(h) && StripMarks(h) == EscapeHtml(text)
  }

  /**
   * The preview HTML: the window between two ellipses, escaped, then each
   * match of the query in the escaped text put in `<mark>` (the same steps
   * as `Html.SafeHighlight`).
   */
  function ContentPreview(content: string, q: string): string
    requires Contains(ToLower(content), q)
  {
    var w := MatchWindow(content, q);
    SafeHighlight(Ellipsis + content[w.start..w.end] + Ellipsis, q)
  }

  /** The preview is the escaped window between ellipses with only `<mark>` tags added. */
  lemma ContentPreviewShows(content: string, q: string)
    requires Contains(ToLower(content), q)
    ensures var w := MatchWindow(content, q);
      MarksEscaped(ContentPreview(content, q), Ellipsis + content[w.start..w.end] + Ellipsis)
  {
    var w := MatchWindow(content, q);
    SafeHighlightShape(Ellipsis + content[w.start..w.end] + Ellipsis, q);
  }

  /** The HTML of a field: `safeHighlight` when it holds the query, else its plain text. */
  function FieldHtml(text: string, q: string): string {
    if Contains(ToLower(text), q) then SafeHighlight(text, q) else EscapeHtml(text)
  }

  /**
   * The field HTML with the highlight that escapes each piece on its own
   * (`Html.HighlightText`): what `FieldHtml` is evidently meant to be.
   */
  function CorrectedFieldHtml(text: string, q: string): string {
    if Contains(ToLower(text), q) then HighlightText(text, q) else EscapeHtml(text)
  }

  /** The corrected preview, built on `Html.HighlightText`. */
  function CorrectedPreview(content: string, q: string): string
    requires Contains(ToLower(content), q)
  {
    var w := MatchWindow(content, q);
    HighlightText(Ellipsis + content[w.start..w.end] + Ellipsis, q)
  }

  /** One card after a search for a non-empty `q`. */
  function SearchedCard(c: Card, q: string, fullText: bool): (r: Card)
    ensures r.id == c.id && r.title == c.title && r.status == c.status
    ensures r.path == c.path && r.content == c.content
    ensures r.visible <==> Matches(c, q, fullText)
    ensures r.preview.Some? <==> r.visible && ContentHit(c, q, fullText)
  {
    if Matches(c, q, fullText) then
      c.(visible := true,
         titleHtml := FieldHtml(c.title, q),
         idHtml := FieldHtml(c.id, q),
         preview := if ContentHit(c, q, fullText) then Some(ContentPreview(c.content.value, q)) else None)
    else
      c.(visible := false, preview := None)
  }

  /** One card after the query is cleared. */
  function ClearedCard(c: Card): (r: Card)
    ensures r.id == c.id && r.title == c.title && r.status == c.status
    ensures r.path == c.path && r.content == c.content
    ensures r.visible && r.preview.None?
  {
    c.(visible := true, titleHtml := EscapeHtml(c.title), idHtml := EscapeHtml(c.id), preview := None)
  }

  /** The number of visible cards. */
  function CountVisible(cards: seq<Card>): (n: nat)
    ensures n <= |cards|
  {
    if cards == [] then 0
    else CountVisible(cards[..|cards| - 1]) + (if cards[|cards| - 1].visible then 1 else 0)
  }

  lemma {:induction false} CountVisibleZero(cards: seq<Card>)
    ensures CountVisible(cards) == 0 <==> forall c :: c in cards ==> !c.visible
  {
    if cards != [] {
      var init := cards[..|cards| - 1];
      CountVisibleZero(init);
      assert cards == init + [cards[|cards| - 1]];
      assert forall c :: c in cards <==> c in init || c == cards[|cards| - 1];
    }
  }

  /**
   * The card's id and title HTML are their escaped text with only `<mark>`
   * tags added, its preview has no other tag, and a hidden card has no
   * preview.
   */
  predicate Shows(c: Card) {
    MarksEscaped(c.idHtml, c.id) && MarksEscaped(c.titleHtml, c.title) &&
    (c.preview.Some? ==> TagsOnly(c.preview.value)) &&
    (!c.visible ==> c.preview.None?)
  }

  /** A browser shows the card's own id and title. */
  predicate ShowsText(c: Card) {
    Render(c.idHtml) == c.id && Render(c.titleHtml) == c.title
  }

  lemma EscapedShows(text: string)
    ensures Render(EscapeHtml(text)) == text && MarksEscaped(EscapeHtml(text), text)
  {
    EscapeHtmlRoundTrip(text);
    EscapeHtmlHasNoMarkup(text);
    PlainPrefix(EscapeHtml(text), "");
    assert EscapeHtml(text) + "" == EscapeHtml(text);
  }

  /**
   * A field's HTML is its escaped text with marks added; one that does not
   * hold the query shows its own text.
   */
  lemma FieldHtmlShows(text: string, q: string)
    ensures MarksEscaped(FieldHtml(text, q), text)
    ensures !Contains(ToLower(text), q) ==> Render(FieldHtml(text, q)) == text
  {
    SafeHighlightShape(text, q);
    EscapedShows(text);
  }

  /** The corrected field HTML shows its own text whatever the query, with only `<mark>` tags added. */
  lemma CorrectedFieldHtmlShows(text: string, q: string)
    ensures Render(CorrectedFieldHtml(text, q)) == text && MarksEscaped(CorrectedFieldHtml(text, q), text)
  {
    HighlightTextRendersText(text, q);
    HighlightTextShape(text, q);
    EscapedShows(text);
  }

  /** The corrected preview shows the window text between ellipses. */
  lemma CorrectedPreviewShows(content: string, q: string)
    requires Contains(ToLower(content), q)
    ensures var w := MatchWindow(content, q);
      Render(CorrectedPreview(content, q)) == Ellipsis + content[w.start..w.end] + Ellipsis &&
      MarksEscaped(CorrectedPreview(content, q), Ellipsis + content[w.start..w.end] + Ellipsis)
  {
    var w := MatchWindow(content, q);
    HighlightTextRendersText(Ellipsis + content[w.start..w.end] + Ellipsis, q);
    HighlightTextShape(Ellipsis + content[w.start..w.end] + Ellipsis, q);
  }

  /**
   * As written, a card titled `R&D` searched for `&` shows the title
   * `R&amp;D`: the mark lands inside the entity the escape made.
   */
  lemma AmpTitleShowsEntity(c: Card, fullText: bool)
    requires c.title == "R&D"
    ensures Render(SearchedCard(c, "&", fullText).titleHtml) == "R&amp;D"
  {
    assert ToLower(c.title)[1..2] == "&";
    ContainsAt(ToLower(c.title), "&", 1);
    AmpQueryShowsEntity();
  }

  /** After a search each field's HTML is its escaped text with marks added, and a hidden card has no preview. */
  lemma SearchedCardShows(c: Card, q: string, fullText: bool)
    requires Shows(c)
    ensures Shows(SearchedCard(c, q, fullText))
  {
    FieldHtmlShows(c.title, q);
    FieldHtmlShows(c.id, q);
    if ContentHit(c, q, fullText) {
      ContentPreviewShows(c.content.value, q);
    }
  }

  /** Clearing the query makes every card show its own id and title again. */
  lemma ClearedCardShows(c: Card)
    ensures Shows(ClearedCard(c)) && ShowsText(ClearedCard(c))
  {
    EscapedShows(c.title);
    EscapedShows(c.id);
  }

  /** The id text starts with `#`, so the query `#` matches every such card. */
  lemma HashMatchesEveryCard(c: Card, fullText: bool)
    requires StartsWith(c.id, "#")
    ensures Matches(c, "#", fullText)
  {
    assert ToLower(c.id)[0..1] == "#";
    ContainsAt(ToLower(c.id), "#", 0);
  }

  // ---------------------------------------------------------- results banner

  const FoundSuffix: string := "件見つかりました "
  const FullTextNote: string := "（全文検索）"
  const NoMatchesText: string := "該当するタスクがありません"

  /** The banner after a search that found `n > 0` cards. */
  function FoundText(n: nat, fullText: bool): string {
    NatText(n) + FoundSuffix + (if fullText then FullTextNote else "")
  }

  /** The banner opens with the count and names full-text mode exactly when it is on. */
  lemma FoundTextShape(n: nat, fullText: bool)
    ensures StartsWith(FoundText(n, fullText), NatText(n))
    ensures EndsWith(FoundText(n, fullText), FullTextNote) <==> fullText
  {
    var t := FoundText(n, fullText);
    assert t[..|NatText(n)|] == NatText(n);
    if !fullText {
      assert t[|t| - 1] == ' ' && FullTextNote[|FullTextNote| - 1] == '）';
    } else {
      assert t[|t| - |FullTextNote|..] == FullTextNote;
    }
  }

  /** The banner text after a search for a non-empty query that left `n` cards visible. */
  function Banner(n: nat, fullText: bool): string {
    if n > 0 then FoundText(n, fullText) else NoMatchesText
  }

  /** The banner is the no-match text exactly when the count is zero. */
  lemma BannerNoMatches(n: nat, fullText: bool)
    ensures n == 0 <==> Banner(n, fullText) == NoMatchesText
  {
    if n > 0 {
      assert FoundText(n, fullText)[0] == NatText(n)[0] && NoMatchesText[0] == '該';
    }
  }

  // ------------------------------------------------------- whole-list passes

  /** Every card after a search for a non-empty `q`. */
  function SearchedAll(cards: seq<Card>, q: string, fullText: bool): (r: seq<Card>)
    ensures |r| == |cards|
  {
    seq(|cards|, i requires 0 <= i < |cards| => SearchedCard(cards[i], q, fullText))
  }

  /** Every card after the query is cleared. */
  function ClearedAll(cards: seq<Card>): (r: seq<Card>)
    ensures |r| == |cards|
  {
    seq(|cards|, i requires 0 <= i < |cards| => ClearedCard(cards[i]))
  }

  function MatchesQuery(q: string, fullText: bool): Card -> bool {
    (c: Card) => Matches(c, q, fullText)
  }

  /** The count in the banner is the number of cards that match. */
  lemma {:induction false} SearchedAllCount(cards: seq<Card>, q: string, fullText: bool)
    ensures CountVisible(SearchedAll(cards, q, fullText)) == |Filter(cards, MatchesQuery(q, fullText))|
    decreases |cards|
  {
    if cards != [] {
      var init := cards[..|cards| - 1];
      var r := SearchedAll(cards, q, fullText);
      assert r[..|r| - 1] == SearchedAll(init, q, fullText);
      SearchedAllCount(init, q, fullText);
    }
  }

  /** A search shows the no-match text exactly when no card matches. */
  lemma NoMatchesIff(cards: seq<Card>, q: string, fullText: bool)
    ensures Banner(CountVisible(SearchedAll(cards, q, fullText)), fullText) == NoMatchesText <==>
      forall c :: c in cards ==> !Matches(c, q, fullText)
  {
    var r := SearchedAll(cards, q, fullText);
    CountVisibleZero(r);
    BannerNoMatches(CountVisible(r), fullText);
    if forall c :: c in cards ==> !Matches(c, q, fullText) {
      forall c | c in r ensures !c.visible {
        var i :| 0 <= i < |r| && r[i] == c;
        assert cards[i] in cards;
      }
    } else {
      var c :| c in cards && Matches(c, q, fullText);
      var i :| 0 <= i < |cards| && cards[i] == c;
      assert r[i] in r;
    }
  }

  /** Clearing the query undoes any search: the cards are as if never searched. */
  lemma ClearForgetsSearch(cards: seq<Card>, q: string, fullText: bool)
    ensures ClearedAll(SearchedAll(cards, q, fullText)) == ClearedAll(cards)
  {
    var a := ClearedAll(SearchedAll(cards, q, fullText));
    forall i | 0 <= i < |cards| ensures a[i] == ClearedAll(cards)[i] {
      var c := cards[i];
      assert SearchedCard(c, q, fullText) == c.(visible := SearchedCard(c, q, fullText).visible,
        titleHtml := SearchedCard(c, q, fullText).titleHtml, idHtml := SearchedCard(c, q, fullText).idHtml,
        preview := SearchedCard(c, q, fullText).preview);
    }
  }

  /** Every card of the list shows its own fields. */
  predicate AllShow(cards: seq<Card>) {
    forall i :: 0 <= i < |cards| ==> Shows(cards[i])
  }

  /** Searching keeps every card's HTML its escaped fields with marks added. */
  lemma SearchedAllShows(cards: seq<Card>, q: string, fullText: bool)
    requires AllShow(cards)
    ensures AllShow(SearchedAll(cards, q, fullText))
  {
    forall i | 0 <= i < |cards| ensures Shows(SearchedAll(cards, q, fullText)[i]) {
      SearchedCardShows(cards[i], q, fullText);
    }
  }

  /** Clearing makes every card visible, showing its own id and title. */
  lemma ClearedAllShows(cards: seq<Card>)
    ensures forall i :: 0 <= i < |cards| ==>
      Shows(ClearedAll(cards)[i]) && ShowsText(ClearedAll(cards)[i]) && ClearedAll(cards)[i].visible
    ensures AllShow(ClearedAll(cards))
  {
    forall i | 0 <= i < |cards| ensures Shows(ClearedAll(cards)[i]) && ShowsText(ClearedAll(cards)[i]) {
      ClearedCardShows(cards[i]);
    }
  }

  /** A query with an ASCII capital letter matches no card: every field is lowercased before the test. */
  lemma CapitalMatchesNothing(c: Card, q: string, fullText: bool, k: nat)
    requires k < |q| && 'A' <= q[k] <= 'Z'
    ensures !Matches(c, q, fullText)
  {
    LowerHasNoCapital(c.id, q, k);
    LowerHasNoCapital(c.title, q, k);
    LowerHasNoCapital(c.status, q, k);
    if c.content.Some? {
      LowerHasNoCapital(c.content.value, q, k);
    }
  }

  // ------------------------------------------------------------------ history

  const HistoryLimit: nat := 5

  function Other(q: string): string -> bool {
    (x: string) => x != q
  }

  /** `saveSearchHistory`: drop earlier copies of `q`, put it in front, keep five. */
  function RecordQuery(h: seq<string>, q: string): seq<string> {
    var s := [q] + Filter(h, Other(q));
    if |s| <= HistoryLimit then s else s[..HistoryLimit]
  }

  /**
   * After `saveSearchHistory(q)` the newest entry is `q`, `q` is there only
   * once, at most five entries remain, and the others are the earlier
   * entries other than `q`, newest first, in their earlier order.
   */
  lemma RecordQuerySpec(h: seq<string>, q: string)
    ensures var r := RecordQuery(h, q);
      1 <= |r| <= HistoryLimit && r[0] == q &&
      (forall i :: 1 <= i < |r| ==> r[i] != q) &&
      (forall x :: x in r ==> x == q || x in h) &&
      r[1..] == Filter(h, Other(q))[..|r| - 1]
  {
    var f := Filter(h, Other(q));
    var r := RecordQuery(h, q);
    FilterMembers(h, Other(q));
    assert r[1..] == f[..|r| - 1];
    forall i | 1 <= i < |r| ensures r[i] != q && r[i] in h {
      assert r[i] == f[i - 1];
      assert f[i - 1] in f;
    }
  }

  /** A history without repeats stays without repeats. */
  lemma RecordQueryDistinct(h: seq<string>, q: string)
    requires forall i, j :: 0 <= i < j < |h| ==> h[i] != h[j]
    ensures var r := RecordQuery(h, q);
      forall i, j :: 0 <= i < j < |r| ==> r[i] != r[j]
  {
    var f := Filter(h, Other(q));
    FilterDistinct(h, Other(q));
    var r := RecordQuery(h, q);
    RecordQuerySpec(h, q);
    forall i, j | 0 <= i < j < |r| ensures r[i] != r[j] {
      if i > 0 {
        assert r[i] == f[i - 1] && r[j] == f[j - 1];
      }
    }
  }

  lemma {:induction false} FilterDistinct<T(!new)>(s: seq<T>, p: T -> bool)
    requires forall i, j :: 0 <= i < j < |s| ==> s[i] != s[j]
    ensures forall i, j :: 0 <= i < j < |Filter(s, p)| ==> Filter(s, p)[i] != Filter(s, p)[j]
    decreases |s|
  {
    if s != [] {
      var init := s[..|s| - 1];
      var last := s[|s| - 1];
      FilterDistinct(init, p);
      FilterMembers(init, p);
      var g := Filter(init, p);
      var f := Filter(s, p);
      assert f == g + (if p(last) then [last] else []);
      if p(last) {
        assert last !in init by {
          forall k | 0 <= k < |init| ensures init[k] != last {
            assert init[k] == s[k];
          }
        }
        assert last !in g;
        forall i, j | 0 <= i < j < |f| ensures f[i] != f[j] {
          if j == |f| - 1 {
            assert f[i] == g[i] && g[i] in g;
          } else {
            assert f[i] == g[i] && f[j] == g[j];
          }
        }
      } else {
        assert f == g;
      }
    }
  }

  /** Searching a, b, a, c, d, e leaves e, d, c, a, b. */
  lemma HistoryExample()
    ensures RecordQuery(RecordQuery(RecordQuery(RecordQuery(RecordQuery(RecordQuery(
      [], "a"), "b"), "a"), "c"), "d"), "e") == ["e", "d", "c", "a", "b"]
  {
    HistoryRepeat();
    HistoryNewOnes(["a", "b"]);
  }

  /** Searching a, b, a leaves a, b: the repeated query moves to the front. */
  lemma HistoryRepeat()
    ensures RecordQuery(RecordQuery(RecordQuery([], "a"), "b"), "a") == ["a", "b"]
  {
    RecordNew([], "a");
    assert [] + ["a"] == ["a"];
    RecordNew(["a"], "b");
    assert ["b"] + ["a"] == ["b", "a"];
    RecordMovesLast(["b", "a"], "a");
    assert ["b", "a"][..1] == ["b"];
  }

  /** Three new queries go in front, newest first. */
  lemma HistoryNewOnes(h3: seq<string>)
    requires h3 == ["a", "b"]
    ensures RecordQuery(RecordQuery(RecordQuery(h3, "c"), "d"), "e") == ["e", "d", "c", "a", "b"]
  {
    RecordNew(h3, "c");
    var h4 := ["c"] + h3;
    assert h4 == ["c", "a", "b"];
    RecordNew(h4, "d");
    var h5 := ["d"] + h4;
    assert h5 == ["d", "c", "a", "b"];
    RecordNew(h5, "e");
  }

  /** A query not in a short history goes in front of it. */
  lemma RecordNew(h: seq<string>, q: string)
    requires |h| < HistoryLimit && q !in h
    ensures RecordQuery(h, q) == [q] + h
  {
    FilterKeepsAll(h, Other(q));
  }

  /** Searching again for the oldest entry moves it to the front. */
  lemma RecordMovesLast(h: seq<string>, q: string)
    requires 0 < |h| <= HistoryLimit && h[|h| - 1] == q && q !in h[..|h| - 1]
    ensures RecordQuery(h, q) == [q] + h[..|h| - 1]
  {
    FilterKeepsAll(h[..|h| - 1], Other(q));
    assert Filter(h, Other(q)) == Filter(h[..|h| - 1], Other(q)) + [];
  }
}
