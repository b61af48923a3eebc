/**
 * The viewer's text-to-HTML helpers: `escapeHtml`, `escapeRegExp` and
 * `safeHighlight`, with the tag grammar of their output and the text a
 * browser shows for it.
 */
module Html {
  import opened JsString
  import opened TaskNames
  import opened SeqUtil

  const Amp: string := "&amp;"
  const Lt: string := "&lt;"
  const Gt: string := "&gt;"
  const Quot: string := "&quot;"
  const Apos: string := "&#039;"

  const OpenMark: string := "<mark>"
  const CloseMark: string := "</mark>"

  // ---------------------------------------------------------------- escapeHtml

  /** `escapeHtml`: five global replacements, `&` first. */
  function EscapeHtml(s: string): string {
    ReplaceAll(ReplaceAll(ReplaceAll(ReplaceAll(ReplaceAll(s, "&", Amp), "<", Lt), ">", Gt), "\"", Quot), "'", Apos)
  }

  /** The entity for one character, or the character itself. */
  function EscapeChar(c: char): (r: string)
    ensures r == [c] <==> c !in "&<>\"'"
  {
    if c == '&' then Amp
    else if c == '<' then Lt
    else if c == '>' then Gt
    else if c == '"' then Quot
    else if c == '\'' then Apos
    else [c]
  }

  /** Reference definition: every character encoded on its own. */
  function Escaped(s: string): string
    decreases |s|
  {
    if s == [] then "" else EscapeChar(s[0]) + Escaped(s[1..])
  }

  lemma {:induction false} ReplaceAllCharConcat(a: string, b: string, c: char, r: string)
    ensures ReplaceAll(a + b, [c], r) == ReplaceAll(a, [c], r) + ReplaceAll(b, [c], r)
    decreases |a|
  {
    if a == [] {
      assert a + b == b;
    } else {
      assert (a + b)[..1] == a[..1] == [a[0]];
      assert (a + b)[1..] == a[1..] + b;
      ReplaceAllCharConcat(a[1..], b, c, r);
    }
  }

  lemma {:induction false} ReplaceAllCharAbsent(s: string, c: char, r: string)
    requires c !in s
    ensures ReplaceAll(s, [c], r) == s
    decreases |s|
  {
    if s != [] {
      assert s[..1] == [s[0]];
      assert s[0] != c;
      ReplaceAllCharAbsent(s[1..], c, r);
      assert s == [s[0]] + s[1..];
    }
  }

  /** The replacement chain distributes over concatenation. */
  lemma EscapeHtmlConcat(a: string, b: string)
    ensures EscapeHtml(a + b) == EscapeHtml(a) + EscapeHtml(b)
  {
    ReplaceAllCharConcat(a, b, '&', Amp);
    var a1, b1 := ReplaceAll(a, "&", Amp), ReplaceAll(b, "&", Amp);
    ReplaceAllCharConcat(a1, b1, '<', Lt);
    var a2, b2 := ReplaceAll(a1, "<", Lt), ReplaceAll(b1, "<", Lt);
    ReplaceAllCharConcat(a2, b2, '>', Gt);
    var a3, b3 := ReplaceAll(a2, ">", Gt), ReplaceAll(b2, ">", Gt);
    ReplaceAllCharConcat(a3, b3, '"', Quot);
    var a4, b4 := ReplaceAll(a3, "\"", Quot), ReplaceAll(b3, "\"", Quot);
    ReplaceAllCharConcat(a4, b4, '\'', Apos);
  }

  /** The entity inserted by one step is left alone by the later steps. */
  lemma EscapeHtmlChar(c: char)
    ensures EscapeHtml([c]) == EscapeChar(c)
  {
    var s1 := ReplaceAll([c], "&", Amp);
    assert [c][..1] == [c] && [c][1..] == [];
    if c == '&' {
      assert s1 == Amp;
    } else {
      ReplaceAllCharAbsent([c], '&', Amp);
    }
    var s2 := ReplaceAll(s1, "<", Lt);
    if c == '<' {
      assert s2 == Lt;
    } else {
      ReplaceAllCharAbsent(s1, '<', Lt);
    }
    var s3 := ReplaceAll(s2, ">", Gt);
    if c == '>' {
      assert s3 == Gt;
    } else {
      ReplaceAllCharAbsent(s2, '>', Gt);
    }
    var s4 := ReplaceAll(s3, "\"", Quot);
    if c == '"' {
      assert s4 == Quot;
    } else {
      ReplaceAllCharAbsent(s3, '"', Quot);
    }
    if c == '\'' {
      assert EscapeHtml([c]) == Apos;
    } else {
      ReplaceAllCharAbsent(s4, '\'', Apos);
    }
  }

  /**
   * Replacing `&` first makes the chain a per-character encoding: no entity
   * written by one step is rewritten by a later one.
   */
  lemma {:induction false} EscapeHtmlIsPerChar(s: string)
    ensures EscapeHtml(s) == Escaped(s)
    decreases |s|
  {
    if s == [] {
      assert EscapeHtml(s) == "";
    } else {
      assert s == [s[0]] + s[1..];
      EscapeHtmlConcat([s[0]], s[1..]);
      EscapeHtmlChar(s[0]);
      EscapeHtmlIsPerChar(s[1..]);
    }
  }

  lemma {:induction false} EscapedConcat(a: string, b: string)
    ensures Escaped(a + b) == Escaped(a) + Escaped(b)
    decreases |a|
  {
    if a == [] {
      assert a + b == b;
    } else {
      assert (a + b)[0] == a[0] && (a + b)[1..] == a[1..] + b;
      EscapedConcat(a[1..], b);
    }
  }

  lemma EscapeCharHasNoMarkup(c: char)
    ensures '<' !in EscapeChar(c) && '>' !in EscapeChar(c) && '"' !in EscapeChar(c) && '\'' !in EscapeChar(c)
  {
    if c == '&' {
      assert Amp == ['&', 'a', 'm', 'p', ';'];
    } else if c == '<' {
      assert Lt == ['&', 'l', 't', ';'];
    } else if c == '>' {
      assert Gt == ['&', 'g', 't', ';'];
    } else if c == '"' {
      assert Quot == ['&', 'q', 'u', 'o', 't', ';'];
    } else if c == '\'' {
      assert Apos == ['&', '#', '0', '3', '9', ';'];
    }
  }

  lemma {:induction false} EscapedHasNoMarkup(s: string)
    ensures '<' !in Escaped(s) && '>' !in Escaped(s) && '"' !in Escaped(s) && '\'' !in Escaped(s)
    decreases |s|
  {
    if s != [] {
      EscapeCharHasNoMarkup(s[0]);
      EscapedHasNoMarkup(s[1..]);
      assert Escaped(s) == EscapeChar(s[0]) + Escaped(s[1..]);
    }
  }

  /** The escaped text holds no `<`, `>`, `"` or `'`. */
  lemma EscapeHtmlHasNoMarkup(s: string)
    ensures '<' !in EscapeHtml(s) && '>' !in EscapeHtml(s) && '"' !in EscapeHtml(s) && '\'' !in EscapeHtml(s)
  {
    EscapeHtmlIsPerChar(s);
    EscapedHasNoMarkup(s);
  }

  /**
   * What a browser shows for a piece of HTML made of `<mark>` tags and text:
   * tags show nothing, and the five entities are decoded where they stand
   * whole between two tags.
   */
  function Render(h: string): (t: string)
    ensures |t| <= |h|
    decreases |h|
  {
    if h == [] then ""
    else if h[0] == '<' then
      if StartsWith(h, OpenMark) then Render(h[|OpenMark|..])
      else if StartsWith(h, CloseMark) then Render(h[|CloseMark|..])
      else [h[0]] + Render(h[1..])
    else if h[0] == '&' then
      if StartsWith(h, Amp) then "&" + Render(h[|Amp|..])
      else if StartsWith(h, Lt) then "<" + Render(h[|Lt|..])
      else if StartsWith(h, Gt) then ">" + Render(h[|Gt|..])
      else if StartsWith(h, Quot) then "\"" + Render(h[|Quot|..])
      else if StartsWith(h, Apos) then "'" + Render(h[|Apos|..])
      else [h[0]] + Render(h[1..])
    else [h[0]] + Render(h[1..])
  }

  /** `h` does not start with `p`: they differ at index `i`. */
  lemma DiffersAt(h: string, p: string, i: nat)
    requires i < |h| && i < |p| && h[i] != p[i]
    ensures !StartsWith(h, p)
  {
    if |p| <= |h| {
      assert h[..|p|][i] == h[i];
    }
  }

  lemma PrefixStarts(p: string, rest: string)
    ensures StartsWith(p + rest, p) && (p + rest)[|p|..] == rest
  {
    assert (p + rest)[..|p|] == p;
  }

  lemma RenderEscapeChar(c: char, rest: string)
    ensures Render(EscapeChar(c) + rest) == [c] + Render(rest)
  {
    var e := EscapeChar(c);
    var h := e + rest;
    PrefixStarts(e, rest);
    if c == '&' {
    } else if c == '<' {
      DiffersAt(h, Amp, 1);
    } else if c == '>' {
      DiffersAt(h, Amp, 1);
      DiffersAt(h, Lt, 1);
    } else if c == '"' {
      DiffersAt(h, Amp, 1);
      DiffersAt(h, Lt, 1);
      DiffersAt(h, Gt, 1);
    } else if c == '\'' {
      DiffersAt(h, Amp, 1);
      DiffersAt(h, Lt, 1);
      DiffersAt(h, Gt, 1);
      DiffersAt(h, Quot, 1);
    } else {
      assert h[0] == c && h[1..] == rest;
    }
  }

  /** A browser shows escaped text as the text itself. */
  lemma {:induction false} RenderEscaped(s: string, rest: string)
    ensures Render(Escaped(s) + rest) == s + Render(rest)
    decreases |s|
  {
    if s == [] {
      assert Escaped(s) + rest == rest;
    } else {
      var t := Escaped(s[1..]) + rest;
      calc {
        Render(Escaped(s) + rest);
        { assert Escaped(s) + rest == EscapeChar(s[0]) + t; }
        Render(EscapeChar(s[0]) + t);
        { RenderEscapeChar(s[0], t); }
        [s[0]] + Render(t);
        { RenderEscaped(s[1..], rest); }
        [s[0]] + (s[1..] + Render(rest));
        { assert s == [s[0]] + s[1..]; }
        s + Render(rest);
      }
    }
  }

  /** Decoding the five entities gives back the escaped text. */
  lemma EscapeHtmlRoundTrip(s: string)
    ensures Render(EscapeHtml(s)) == s
  {
    EscapeHtmlIsPerChar(s);
    RenderEscaped(s, "");
    assert Escaped(s) + "" == Escaped(s);
  }

  // -------------------------------------------------------------- escapeRegExp

  /** The characters `escapeRegExp` puts a backslash before. */
  predicate IsRegExpSpecial(c: char) {
    c in ".*+?^${}()|[]\\"
  }

  /** `escapeRegExp`: a backslash before each special character. */
  function EscapeRegExp(s: string): string
    decreases |s|
  {
    if s == [] then ""
    else (if IsRegExpSpecial(s[0]) then ['\\', s[0]] else [s[0]]) + EscapeRegExp(s[1..])
  }

  /**
   * Reads a pattern as a literal: an escaped special character stands for
   * itself, any other character not special stands for itself, and a bare
   * special character or a backslash before an ordinary one is not literal.
   */
  function LiteralOf(p: string): (r: Option<string>)
    decreases |p|
  {
    if p == [] then Some("")
    else if p[0] == '\\' then
      if |p| >= 2 && IsRegExpSpecial(p[1]) then
        match LiteralOf(p[2..]) case None => None case Some(t) => Some([p[1]] + t)
      else None
    else if IsRegExpSpecial(p[0]) then None
    else match LiteralOf(p[1..]) case None => None case Some(t) => Some([p[0]] + t)
  }

  /**
   * The escaped query is a literal pattern for the query, and the only one
   * spelled with necessary escapes: the highlight regex matches the query's
   * characters and nothing else.
   */
  lemma {:induction false} EscapeRegExpIsLiteral(s: string, p: string)
    ensures LiteralOf(p) == Some(s) <==> p == EscapeRegExp(s)
    decreases |p| + |s|
  {
    if p == [] || s == [] {
      if s != [] {
        assert EscapeRegExp(s) != [];
      }
      if p != [] && LiteralOf(p) == Some(s) {
        assert false;
      }
    } else if p[0] == '\\' {
      if |p| >= 2 && IsRegExpSpecial(p[1]) {
        EscapeRegExpIsLiteral(s[1..], p[2..]);
        assert p == p[..2] + p[2..];
        assert s == [s[0]] + s[1..];
      }
    } else {
      EscapeRegExpIsLiteral(s[1..], p[1..]);
      assert p == [p[0]] + p[1..];
      assert s == [s[0]] + s[1..];
    }
  }

  // ------------------------------------------------------------ safeHighlight

  /** The text of a `<mark>` element. */
  function Marked(h: string): (r: string)
    ensures r == OpenMark + h + CloseMark
  {
    OpenMark + h + CloseMark
  }

  /**
   * `e.replace(/(q)/gi, '<mark>$1</mark>')` for a literal, non-empty `q`:
   * leftmost matches, ignoring ASCII case, without overlap.
   */
  function MarkMatches(e: string, q: string): string
    requires q != []
    decreases |e|
  {
    if |e| < |q| then e
    else if SameIgnoringCase(e[..|q|], q) then Marked(e[..|q|]) + MarkMatches(e[|q|..], q)
    else [e[0]] + MarkMatches(e[1..], q)
  }

  /** The same replacement for the empty pattern, which matches at every position. */
  function MarkEverywhere(e: string): string
    decreases |e|
  {
    if e == [] then Marked("") else Marked("") + [e[0]] + MarkEverywhere(e[1..])
  }

  /** `safeHighlight` as written: the match runs over the escaped text. */
  function SafeHighlight(text: string, q: string): string {
    var e := EscapeHtml(text);
    if q == [] then MarkEverywhere(e) else MarkMatches(e, q)
  }

  /** The HTML with every `<mark>` and `</mark>` tag taken out. */
  function StripMarks(h: string): (r: string)
    ensures |r| <= |h|
    decreases |h|
  {
    if h == [] then ""
    else if h[0] == '<' && StartsWith(h, OpenMark) then StripMarks(h[|OpenMark|..])
    else if h[0] == '<' && StartsWith(h, CloseMark) then StripMarks(h[|CloseMark|..])
    else [h[0]] + StripMarks(h[1..])
  }

  /** The tag grammar: `<mark>`, `</mark>` and characters other than `<`. */
  predicate TagsOnly(h: string)
    decreases |h|
  {
    if h == [] then true
    else if h[0] == '<' && StartsWith(h, OpenMark) then TagsOnly(h[|OpenMark|..])
    else if h[0] == '<' && StartsWith(h, CloseMark) then TagsOnly(h[|CloseMark|..])
    else h[0] != '<' && TagsOnly(h[1..])
  }

  lemma {:induction false} PlainPrefix(x: string, rest: string)
    requires '<' !in x
    ensures StripMarks(x + rest) == x + StripMarks(rest)
    ensures TagsOnly(rest) ==> TagsOnly(x + rest)
    decreases |x|
  {
    if x != [] {
      var h := x + rest;
      assert h[0] == x[0] && h[1..] == x[1..] + rest;
      PlainPrefix(x[1..], rest);
      assert x == [x[0]] + x[1..];
    } else {
      assert x + rest == rest;
    }
  }

  lemma OpenTag(rest: string)
    ensures StripMarks(OpenMark + rest) == StripMarks(rest)
    ensures TagsOnly(OpenMark + rest) == TagsOnly(rest)
  {
    PrefixStarts(OpenMark, rest);
  }

  lemma CloseTag(rest: string)
    ensures StripMarks(CloseMark + rest) == StripMarks(rest)
    ensures TagsOnly(CloseMark + rest) == TagsOnly(rest)
  {
    PrefixStarts(CloseMark, rest);
    DiffersAt(CloseMark + rest, OpenMark, 1);
  }

  lemma MarkedPrefix(x: string, rest: string)
    requires '<' !in x
    ensures StripMarks(Marked(x) + rest) == x + StripMarks(rest)
    ensures TagsOnly(rest) ==> TagsOnly(Marked(x) + rest)
  {
    var c := CloseMark + rest;
    assert Marked(x) + rest == OpenMark + (x + c);
    OpenTag(x + c);
    PlainPrefix(x, c);
    CloseTag(rest);
  }

  lemma {:induction false} MarkMatchesShape(e: string, q: string)
    requires q != [] && '<' !in e
    ensures StripMarks(MarkMatches(e, q)) == e
    ensures TagsOnly(MarkMatches(e, q))
    decreases |e|
  {
    if |e| < |q| {
      PlainPrefix(e, "");
      assert e + "" == e;
    } else if SameIgnoringCase(e[..|q|], q) {
      assert '<' !in e[..|q|] && '<' !in e[|q|..] by {
        assert e == e[..|q|] + e[|q|..];
      }
      MarkMatchesShape(e[|q|..], q);
      MarkedPrefix(e[..|q|], MarkMatches(e[|q|..], q));
      assert e == e[..|q|] + e[|q|..];
    } else {
      MarkMatchesShape(e[1..], q);
      PlainPrefix([e[0]], MarkMatches(e[1..], q));
      assert e == [e[0]] + e[1..];
    }
  }

  lemma {:induction false} MarkEverywhereShape(e: string)
    requires '<' !in e
    ensures StripMarks(MarkEverywhere(e)) == e
    ensures TagsOnly(MarkEverywhere(e))
    decreases |e|
  {
    if e == [] {
      MarkedPrefix("", "");
      assert Marked("") + "" == Marked("");
    } else {
      var t := [e[0]] + MarkEverywhere(e[1..]);
      MarkEverywhereShape(e[1..]);
      PlainPrefix([e[0]], MarkEverywhere(e[1..]));
      MarkedPrefix("", t);
      assert MarkEverywhere(e) == Marked("") + t;
      assert e == [e[0]] + e[1..];
    }
  }

  /**
   * `safeHighlight` is injection-safe: its only tags are `<mark>` and
   * `</mark>`, and taking them out leaves exactly the escaped text.
   */
  lemma SafeHighlightShape(text: string, q: string)
    ensures TagsOnly(SafeHighlight(text, q))
    ensures StripMarks(SafeHighlight(text, q)) == EscapeHtml(text)
  {
    EscapeHtmlHasNoMarkup(text);
    if q == [] {
      MarkEverywhereShape(EscapeHtml(text));
    } else {
      MarkMatchesShape(EscapeHtml(text), q);
    }
  }

  lemma OccursShift(h: string, n: nat, p: string, j: int)
    requires n <= |h| && OccursAt(h[n..], p, j)
    ensures OccursAt(h, p, j + n)
  {
    assert h[n..][j..j + |p|] == h[j + n..j + n + |p|];
  }

  /** The length of the token the tag grammar reads at the head of `h`. */
  function TokenLength(h: string): (n: nat)
    requires h != []
    ensures 1 <= n <= |h|
  {
    if h[0] == '<' && StartsWith(h, OpenMark) then |OpenMark|
    else if h[0] == '<' && StartsWith(h, CloseMark) then |CloseMark|
    else 1
  }

  lemma LtInToken(h: string, i: nat)
    requires h != [] && TagsOnly(h) && i < TokenLength(h) && h[i] == '<'
    ensures OccursAt(h, OpenMark, i) || OccursAt(h, CloseMark, i)
  {
    if h[0] == '<' && StartsWith(h, OpenMark) {
      assert h[i] == h[..|OpenMark|][i] == OpenMark[i];
      assert i == 0;
      assert h[0..|OpenMark|] == h[..|OpenMark|];
    } else if h[0] == '<' && StartsWith(h, CloseMark) {
      assert h[i] == h[..|CloseMark|][i] == CloseMark[i];
      assert i == 0;
      assert h[0..|CloseMark|] == h[..|CloseMark|];
    } else {
      assert false;
    }
  }

  /** Under the tag grammar, every `<` opens a `<mark>` or a `</mark>` tag. */
  lemma {:induction false} TagsOnlyMeans(h: string)
    requires TagsOnly(h)
    ensures forall i :: 0 <= i < |h| && h[i] == '<' ==> OccursAt(h, OpenMark, i) || OccursAt(h, CloseMark, i)
    decreases |h|
  {
    if h != [] {
      var n := TokenLength(h);
      var t := h[n..];
      assert TagsOnly(t);
      TagsOnlyMeans(t);
      forall i | 0 <= i < |h| && h[i] == '<'
        ensures OccursAt(h, OpenMark, i) || OccursAt(h, CloseMark, i)
      {
        if i >= n {
          assert t[i - n] == '<';
          if OccursAt(t, OpenMark, i - n) {
            OccursShift(h, n, OpenMark, i - n);
          } else {
            OccursShift(h, n, CloseMark, i - n);
          }
        } else {
          LtInToken(h, i);
        }
      }
    }
  }

  /** A pattern that is one non-letter character matches nowhere it does not occur. */
  lemma {:induction false} MarkMatchesAbsent(e: string, c: char)
    requires !('A' <= c <= 'Z') && !('a' <= c <= 'z') && c !in e
    ensures MarkMatches(e, [c]) == e
    decreases |e|
  {
    if e != [] {
      assert ToLower(e[..1])[0] == LowerChar(e[0]) != c;
      assert ToLower([c])[0] == c;
      MarkMatchesAbsent(e[1..], c);
      assert e == [e[0]] + e[1..];
    }
  }

  lemma RenderPlainHead(c: char, rest: string)
    requires c != '<' && c != '&'
    ensures Render([c] + rest) == [c] + Render(rest)
  {
    assert ([c] + rest)[1..] == rest;
  }

  /** An `&` that starts no entity shows as itself. */
  lemma RenderBareAmp(rest: string)
    requires rest != [] && rest[0] == '<'
    ensures Render("&" + rest) == "&" + Render(rest)
  {
    var a := "&" + rest;
    assert a[1] == '<' && a[1..] == rest;
    DiffersAt(a, Amp, 1);
    DiffersAt(a, Lt, 1);
    DiffersAt(a, Gt, 1);
    DiffersAt(a, Quot, 1);
    DiffersAt(a, Apos, 1);
  }

  lemma {:induction false} RenderPlain(x: string)
    requires '<' !in x && '&' !in x
    ensures Render(x) == x
    decreases |x|
  {
    if x != [] {
      RenderPlain(x[1..]);
      assert x == [x[0]] + x[1..];
    }
  }

  /** The HTML `safeHighlight` makes for a title `R&D` and the query `&`. */
  lemma AmpQueryExample()
    ensures SafeHighlight("R&D", "&") == "R" + Marked("&") + "amp;D"
  {
    AmpEscaped();
    AmpMarked();
  }

  lemma AmpEscaped()
    ensures EscapeHtml("R&D") == "R&amp;D"
  {
    var text := "R&D";
    assert text[1..] == "&D" && text[1..][1..] == "D" && text[1..][1..][1..] == "";
    assert Escaped(text) == "R" + (Amp + ("D" + ""));
    EscapeHtmlIsPerChar(text);
  }

  lemma AmpMarked()
    ensures MarkMatches("R&amp;D", "&") == "R" + Marked("&") + "amp;D"
  {
    var e := "R&amp;D";
    assert ToLower(e[..1])[0] == 'r';
    assert MarkMatches(e, "&") == "R" + MarkMatches(e[1..], "&");
    var e1 := e[1..];
    assert e1[..1] == "&" && ToLower("&") == "&";
    assert e1[1..] == "amp;D";
    MarkMatchesAbsent("amp;D", '&');
  }

  /**
   * Matching over the escaped text splits the entity `&amp;`: the browser
   * shows the title `R&D` as `R&amp;D` once `&` is searched for.
   */
  lemma AmpQueryShowsEntity()
    ensures Render(SafeHighlight("R&D", "&")) == "R&amp;D"
    ensures Render(SafeHighlight("R&D", "&")) != "R&D"
  {
    AmpQueryExample();
    RenderSplitEntity();
    assert |"R&amp;D"| != |"R&D"|;
  }

  lemma RenderSplitEntity()
    ensures Render("R" + Marked("&") + "amp;D") == "R&amp;D"
  {
    var tail := CloseMark + "amp;D";
    var h := ['R'] + (OpenMark + ("&" + tail));
    assert "R" + Marked("&") + "amp;D" == h;
    calc {
      Render(h);
      { RenderPlainHead('R', OpenMark + ("&" + tail)); }
      "R" + Render(OpenMark + ("&" + tail));
      { RenderOpen("&" + tail); }
      "R" + Render("&" + tail);
      { RenderBareAmp(tail); }
      "R" + ("&" + Render(tail));
      { RenderClose("amp;D"); RenderPlain("amp;D"); }
      "R" + ("&" + "amp;D");
    }
  }

  /**
   * `safeHighlight` with the match run over the raw text and each piece
   * escaped on its own, so that no tag falls inside an entity.
   */
  function HighlightText(text: string, q: string): string
    decreases |text|
  {
    if q == [] then
      if text == [] then Marked("") else Marked("") + EscapeChar(text[0]) + HighlightText(text[1..], q)
    else if |text| < |q| then Escaped(text)
    else if SameIgnoringCase(text[..|q|], q) then Marked(Escaped(text[..|q|])) + HighlightText(text[|q|..], q)
    else EscapeChar(text[0]) + HighlightText(text[1..], q)
  }

  lemma RenderOpen(rest: string)
    ensures Render(OpenMark + rest) == Render(rest)
  {
    PrefixStarts(OpenMark, rest);
  }

  lemma RenderClose(rest: string)
    ensures Render(CloseMark + rest) == Render(rest)
  {
    PrefixStarts(CloseMark, rest);
    DiffersAt(CloseMark + rest, OpenMark, 1);
  }

  lemma RenderMarked(x: string, rest: string)
    ensures Render(Marked(Escaped(x)) + rest) == x + Render(rest)
  {
    var c := CloseMark + rest;
    calc {
      Render(Marked(Escaped(x)) + rest);
      { assert Marked(Escaped(x)) + rest == OpenMark + (Escaped(x) + c); }
      Render(OpenMark + (Escaped(x) + c));
      { RenderOpen(Escaped(x) + c); }
      Render(Escaped(x) + c);
      { RenderEscaped(x, c); }
      x + Render(c);
      { RenderClose(rest); }
      x + Render(rest);
    }
  }

  /** For the empty query, a character costs an empty mark and then its own escape. */
  lemma HighlightEmptyStep(c: char, r: string)
    ensures HighlightText([c] + r, "") == Marked("") + (EscapeChar(c) + HighlightText(r, ""))
  {
    assert ([c] + r)[0] == c && ([c] + r)[1..] == r;
    ConcatAssoc(Marked(""), EscapeChar(c), HighlightText(r, ""));
  }

  lemma HighlightOtherStep(c: char, r: string, q: string)
    requires q != [] && |r| + 1 >= |q| && !SameIgnoringCase(([c] + r)[..|q|], q)
    ensures HighlightText([c] + r, q) == EscapeChar(c) + HighlightText(r, q)
  {
    assert ([c] + r)[0] == c && ([c] + r)[1..] == r;
  }

  lemma RenderEmptyQueryStep(c: char, r: string)
    requires Render(HighlightText(r, "")) == r
    ensures Render(HighlightText([c] + r, "")) == [c] + r
  {
    var rest := HighlightText(r, "");
    HighlightEmptyStep(c, r);
    calc {
      Render(HighlightText([c] + r, ""));
      { assert Escaped("") == ""; }
      Render(Marked(Escaped("")) + (EscapeChar(c) + rest));
      { RenderMarked("", EscapeChar(c) + rest); }
      "" + Render(EscapeChar(c) + rest);
      { RenderEscapeChar(c, rest); }
      "" + ([c] + r);
    }
  }

  lemma RenderMatchStep(p: string, r: string, q: string)
    requires q != [] && |p| == |q| && SameIgnoringCase(p, q)
    requires Render(HighlightText(r, q)) == r
    ensures Render(HighlightText(p + r, q)) == p + r
  {
    assert (p + r)[..|q|] == p && (p + r)[|q|..] == r;
    assert HighlightText(p + r, q) == Marked(Escaped(p)) + HighlightText(r, q);
    RenderMarked(p, HighlightText(r, q));
  }

  lemma RenderOtherStep(c: char, r: string, q: string)
    requires q != [] && |r| + 1 >= |q| && !SameIgnoringCase(([c] + r)[..|q|], q)
    requires Render(HighlightText(r, q)) == r
    ensures Render(HighlightText([c] + r, q)) == [c] + r
  {
    HighlightOtherStep(c, r, q);
    RenderEscapeChar(c, HighlightText(r, q));
  }

  /** The browser shows the highlighted text as the text itself, whatever the query. */
  lemma {:induction false} HighlightTextRendersText(text: string, q: string)
    ensures Render(HighlightText(text, q)) == text
    decreases |text|
  {
    if q == [] {
      if text == [] {
        RenderMarked("", "");
        assert Marked(Escaped("")) + "" == HighlightText(text, q);
      } else {
        HighlightTextRendersText(text[1..], q);
        RenderEmptyQueryStep(text[0], text[1..]);
        assert text == [text[0]] + text[1..];
      }
    } else if |text| < |q| {
      RenderEscaped(text, "");
      assert Escaped(text) + "" == HighlightText(text, q);
    } else if SameIgnoringCase(text[..|q|], q) {
      HighlightTextRendersText(text[|q|..], q);
      RenderMatchStep(text[..|q|], text[|q|..], q);
      assert text == text[..|q|] + text[|q|..];
    } else {
      HighlightTextRendersText(text[1..], q);
      assert text == [text[0]] + text[1..];
      RenderOtherStep(text[0], text[1..], q);
    }
  }

  lemma StripEmptyQueryStep(c: char, r: string)
    requires TagsOnly(HighlightText(r, "")) && StripMarks(HighlightText(r, "")) == Escaped(r)
    ensures TagsOnly(HighlightText([c] + r, "")) && StripMarks(HighlightText([c] + r, "")) == Escaped([c] + r)
  {
    var e := EscapeChar(c);
    var rest := HighlightText(r, "");
    HighlightEmptyStep(c, r);
    EscapeCharHasNoMarkup(c);
    PlainPrefix(e, rest);
    MarkedPrefix("", e + rest);
    assert ([c] + r)[0] == c && ([c] + r)[1..] == r;
    assert Escaped([c] + r) == e + Escaped(r);
  }

  lemma StripMatchStep(p: string, r: string, q: string)
    requires q != [] && |p| == |q| && SameIgnoringCase(p, q)
    requires TagsOnly(HighlightText(r, q)) && StripMarks(HighlightText(r, q)) == Escaped(r)
    ensures TagsOnly(HighlightText(p + r, q)) && StripMarks(HighlightText(p + r, q)) == Escaped(p + r)
  {
    assert (p + r)[..|q|] == p && (p + r)[|q|..] == r;
    assert HighlightText(p + r, q) == Marked(Escaped(p)) + HighlightText(r, q);
    EscapedHasNoMarkup(p);
    MarkedPrefix(Escaped(p), HighlightText(r, q));
    EscapedConcat(p, r);
  }

  lemma StripOtherStep(c: char, r: string, q: string)
    requires q != [] && |r| + 1 >= |q| && !SameIgnoringCase(([c] + r)[..|q|], q)
    requires TagsOnly(HighlightText(r, q)) && StripMarks(HighlightText(r, q)) == Escaped(r)
    ensures TagsOnly(HighlightText([c] + r, q)) && StripMarks(HighlightText([c] + r, q)) == Escaped([c] + r)
  {
    HighlightOtherStep(c, r, q);
    assert ([c] + r)[0] == c && ([c] + r)[1..] == r;
    EscapeCharHasNoMarkup(c);
    PlainPrefix(EscapeChar(c), HighlightText(r, q));
  }

  lemma {:induction false} HighlightTextStrips(text: string, q: string)
    ensures TagsOnly(HighlightText(text, q))
    ensures StripMarks(HighlightText(text, q)) == Escaped(text)
    decreases |text|
  {
    if q == [] {
      if text == [] {
        MarkedPrefix("", "");
        assert Marked("") + "" == HighlightText(text, q);
      } else {
        HighlightTextStrips(text[1..], q);
        StripEmptyQueryStep(text[0], text[1..]);
        assert text == [text[0]] + text[1..];
      }
    } else if |text| < |q| {
      EscapedHasNoMarkup(text);
      PlainPrefix(Escaped(text), "");
      assert Escaped(text) + "" == HighlightText(text, q);
    } else if SameIgnoringCase(text[..|q|], q) {
      HighlightTextStrips(text[|q|..], q);
      StripMatchStep(text[..|q|], text[|q|..], q);
      assert text == text[..|q|] + text[|q|..];
    } else {
      HighlightTextStrips(text[1..], q);
      assert text == [text[0]] + text[1..];
      StripOtherStep(text[0], text[1..], q);
    }
  }

  /**
   * The corrected highlight keeps the injection safety of the original: only
   * `<mark>` tags, and the escaped text once they are taken out.
   */
  lemma HighlightTextShape(text: string, q: string)
    ensures TagsOnly(HighlightText(text, q))
    ensures StripMarks(HighlightText(text, q)) == EscapeHtml(text)
  {
    HighlightTextStrips(text, q);
    EscapeHtmlIsPerChar(text);
  }
}
