/**
 * The field extractor of the task-view generator: a task document's text and
 * file name become a record, using fixed marker strings of the task
 * template. Every field falls back to an empty value when its marker is
 * missing; the extractor has no failure case.
 */
module TaskViews {
  import opened JsString
  import opened TaskNames

  /** The record `extractTaskInfo` returns. */
  datatype TaskInfo = TaskInfo(
    id: string,
    title: string,
    status: string,
    priority: string,
    phase: string,
    background: string,
    features: seq<string>,
    filename: string)

  const PriorityMarker: string := "優先度:"
  const PhaseMarker: string := "フェーズ"
  const BackgroundMarker: string := "背景"
  const FeaturesMarker: string := "実装内容"

  /** How many lines after the features marker are scanned, at most. */
  const FeatureScanLimit: nat := 19
  /** How many feature bullets are kept, at most. */
  const MaxFeatures: nat := 3

  /** `content.split('\n')`. */
  function Lines(content: string): seq<string> {
    Split(content, '\n')
  }

  // ---------------------------------------------------------------- id, status

  /** `filename.match(/^(\d+)_/)?.[1] || ''`. */
  function IdOf(filename: string): string {
    match LeadingId(filename)
    case Some(d) => d
    case None => ""
  }

  /** `filename.match(/_([^_]+)\.md$/)?.[1] || ''`. */
  function StatusOf(filename: string): string {
    match StatusSegment(filename)
    case Some(st) => st
    case None => ""
  }

  // ---------------------------------------------------------------- title

  /** The index of the first line satisfying `startsWith('# ')`, or -1. */
  function FirstHeading(lines: seq<string>): (r: int)
    ensures -1 <= r < |lines|
    ensures r >= 0 ==> StartsWith(lines[r], "# ")
    ensures forall i :: 0 <= i < |lines| && (r == -1 || i < r) ==> !StartsWith(lines[i], "# ")
  {
    if lines == [] then -1
    else if StartsWith(lines[0], "# ") then 0
    else var r := FirstHeading(lines[1..]); if r == -1 then -1 else r + 1
  }

  /**
   * `line.replace(/^# \w+ \d+: /, '')`: the word run and the digit run are
   * both maximal, since neither may be followed by a character of its own
   * class, so the match (if any) is unique.
   */
  function StripHeadingPrefix(line: string): (r: string)
    ensures r == line || (|r| < |line| && r == line[|line| - |r|..])
  {
    if !StartsWith(line, "# ") then line
    else
      var rest := line[2..];
      var w := WordRun(rest);
      if 0 < w < |rest| && rest[w] == ' ' then
        var afterWord := rest[w + 1..];
        var d := DigitRun(afterWord);
        if 0 < d && StartsWith(afterWord[d..], ": ") then
          assert line[|line| - |afterWord[d + 2..]|..] == afterWord[d + 2..];
          afterWord[d + 2..]
        else line
      else line
  }

  /** `lines.find(l => l.startsWith('# '))?.replace(...) || ''`. */
  function TitleOf(lines: seq<string>): string {
    var h := FirstHeading(lines);
    if h == -1 then "" else StripHeadingPrefix(lines[h])
  }

  // ---------------------------------------------------------------- priority, phase

  lemma {:induction false} WordRunOfWord(w: string, tail: string)
    requires forall i :: 0 <= i < |w| ==> IsWordChar(w[i])
    requires tail == [] || !IsWordChar(tail[0])
    ensures WordRun(w + tail) == |w|
    decreases |w|
  {
    if w != [] {
      assert (w + tail)[1..] == w[1..] + tail;
      WordRunOfWord(w[1..], tail);
    } else {
      assert w + tail == tail;
    }
  }

  /** After `# `, a word, a space, a number and `: `, the rest is what remains. */
  lemma {:induction false} HeadingPrefixStripped(w: string, d: string, rest: string)
    requires w != [] && forall i :: 0 <= i < |w| ==> IsWordChar(w[i])
    requires d != [] && AllDigits(d)
    ensures StripHeadingPrefix("# " + w + " " + d + ": " + rest) == rest
  {
    var afterWord := d + (": " + rest);
    var afterHash := w + ([' '] + afterWord);
    var line := "# " + afterHash;
    WordRunOfWord(w, [' '] + afterWord);
    DigitRunOfDigits(d, ": " + rest);
    HeadingLayout(w, d, rest);
    HeadingOrder(w, d, rest);
    StripHeadingPrefixParts(line, afterHash, afterWord, |w|, |d|);
  }

  /** Where the pieces of `# <w> <d>: rest` sit. */
  lemma HeadingLayout(w: string, d: string, rest: string)
    ensures var afterWord := d + (": " + rest);
      var afterHash := w + ([' '] + afterWord);
      var line := "# " + afterHash;
      StartsWith(line, "# ") && line[2..] == afterHash &&
      |w| < |afterHash| && afterHash[|w|] == ' ' && afterHash[|w| + 1..] == afterWord &&
      StartsWith(afterWord[|d|..], ": ") && afterWord[|d| + 2..] == rest
  {
    var afterWord := d + (": " + rest);
    assert afterWord[|d|..] == ": " + rest;
    var afterHash := w + ([' '] + afterWord);
    assert afterHash[|w|..] == [' '] + afterWord;
  }

  lemma HeadingOrder(w: string, d: string, rest: string)
    ensures "# " + (w + ([' '] + (d + (": " + rest)))) == "# " + w + " " + d + ": " + rest
  {
  }

  /** The three matched parts of a heading prefix, taken one at a time. */
  lemma StripHeadingPrefixParts(line: string, afterHash: string, afterWord: string, w: nat, d: nat)
    requires StartsWith(line, "# ") && line[2..] == afterHash
    requires WordRun(afterHash) == w && 0 < w < |afterHash| && afterHash[w] == ' '
    requires afterHash[w + 1..] == afterWord
    requires DigitRun(afterWord) == d && 0 < d && StartsWith(afterWord[d..], ": ")
    ensures StripHeadingPrefix(line) == afterWord[d + 2..]
  {
  }

  /** A non-empty run of `\w` characters. */
  predicate IsWord(w: string) {
    w != [] && forall i :: 0 <= i < |w| ==> IsWordChar(w[i])
  }

  /** The line matches `/^# \w+ \d+: /`, for some split into its parts. */
  ghost predicate HeadingPrefixed(line: string) {
    exists w: string, d: string, rest: string ::
      IsWord(w) && d != [] && AllDigits(d) && line == "# " + w + " " + d + ": " + rest
  }

  /** A line the strip changes is split by the strip into a matching prefix. */
  lemma StrippedHeadingIsPrefixed(line: string)
    ensures StripHeadingPrefix(line) != line ==> HeadingPrefixed(line)
  {
    if StripHeadingPrefix(line) != line {
      assert StartsWith(line, "# ");
      var afterHash := line[2..];
      var w := WordRun(afterHash);
      assert 0 < w < |afterHash| && afterHash[w] == ' ';
      var afterWord := afterHash[w + 1..];
      var d := DigitRun(afterWord);
      assert 0 < d && StartsWith(afterWord[d..], ": ");
      var word, digits, rest := afterHash[..w], afterWord[..d], afterWord[d + 2..];
      HeadingSplit(line, afterHash, afterWord, word, digits, rest);
      assert IsWord(word) && AllDigits(digits);
      PrefixedByParts(line, word, digits, rest);
    }
  }

  lemma PrefixedByParts(line: string, word: string, digits: string, rest: string)
    requires IsWord(word) && digits != [] && AllDigits(digits)
    requires line == "# " + (word + ([' '] + (digits + (": " + rest))))
    ensures HeadingPrefixed(line)
  {
    HeadingOrder(word, digits, rest);
  }

  /** Reassembling a line from the parts the strip finds. */
  lemma HeadingSplit(line: string, afterHash: string, afterWord: string,
                     word: string, digits: string, rest: string)
    requires StartsWith(line, "# ") && afterHash == line[2..]
    requires |word| < |afterHash| && afterHash[..|word|] == word && afterHash[|word|] == ' '
    requires afterWord == afterHash[|word| + 1..]
    requires |digits| <= |afterWord| && afterWord[..|digits|] == digits
    requires StartsWith(afterWord[|digits|..], ": ") && rest == afterWord[|digits| + 2..]
    ensures line == "# " + (word + ([' '] + (digits + (": " + rest))))
  {
    assert afterWord == digits + (": " + rest);
    assert afterHash == word + ([' '] + afterWord);
    assert line == "# " + afterHash;
  }

  /**
   * A line the prefix does not match, such as the heading `# 概要` or
   * `# Task: x`, is kept whole as the title.
   */
  lemma UnmatchedHeadingKept(line: string)
    requires !HeadingPrefixed(line)
    ensures StripHeadingPrefix(line) == line
  {
    StrippedHeadingIsPrefixed(line);
  }

  /** The index of the first line containing `m`, or -1 (`findIndex`). */
  function FirstContaining(lines: seq<string>, m: string): (r: int)
    ensures -1 <= r < |lines|
    ensures r >= 0 ==> Contains(lines[r], m)
    ensures forall i :: 0 <= i < |lines| && (r == -1 || i < r) ==> !Contains(lines[i], m)
  {
    if lines == [] then -1
    else if Contains(lines[0], m) then 0
    else var r := FirstContaining(lines[1..], m); if r == -1 then -1 else r + 1
  }

  /** The start of the line-terminator-free run that holds index `q`. */
  function RunStart(s: string, q: nat): (a: nat)
    requires q <= |s|
    ensures a <= q
    ensures forall i :: a <= i < q ==> !IsLineTerminator(s[i])
    ensures a > 0 ==> IsLineTerminator(s[a - 1])
  {
    if q == 0 || IsLineTerminator(s[q - 1]) then q else RunStart(s, q - 1)
  }

  /** The end of the line-terminator-free run that starts at `a`. */
  function RunEnd(s: string, a: nat): (b: nat)
    requires a <= |s|
    ensures a <= b <= |s|
    ensures forall i :: a <= i < b ==> !IsLineTerminator(s[i])
    ensures b < |s| ==> IsLineTerminator(s[b])
    decreases |s| - a
  {
    if a == |s| || IsLineTerminator(s[a]) then a else RunEnd(s, a + 1)
  }

  /** The last occurrence of `p` lying inside `s[lo..hi]`, or -1. */
  function LastOccurrenceIn(s: string, p: string, lo: nat, hi: nat): (q: int)
    requires lo <= hi <= |s|
    ensures q == -1 || (lo <= q && q + |p| <= hi && OccursAt(s, p, q))
    ensures forall k :: lo <= k && k + |p| <= hi && (q == -1 || q < k) ==> !OccursAt(s, p, k)
    decreases hi
  {
    if hi < lo + |p| then -1
    else if s[hi - |p|..hi] == p then hi - |p|
    else
      var q := LastOccurrenceIn(s, p, lo, hi - 1);
      assert forall k :: lo <= k && k + |p| == hi ==> !OccursAt(s, p, k);
      q
  }

  /**
   * `line.replace(/.*優先度:\s*\/, '').trim()` on a line containing the marker.
   * The leftmost match starts where the terminator-free run holding the first
   * marker begins; the greedy `.*` runs to the last marker of that run; `\s*`
   * then takes the whitespace after it.
   */
  function PriorityOf(line: string): (r: string)
    requires Contains(line, PriorityMarker)
  {
    var first := IndexOf(line, PriorityMarker);
    var a := RunStart(line, first);
    var b := RunEnd(line, a);
    assert first + |PriorityMarker| <= b by {
      forall i | first <= i < first + |PriorityMarker|
        ensures !IsLineTerminator(line[i])
      {
        assert line[i] == PriorityMarker[i - first];
      }
    }
    CutAfterMarker(line, a, LastOccurrenceIn(line, PriorityMarker, a, b))
  }

  /**
   * What is left of the line once the match from `a` through the marker at
   * `q` and the whitespace after it is removed, trimmed.
   */
  function CutAfterMarker(line: string, a: nat, q: nat): string
    requires a <= q && q + |PriorityMarker| <= |line|
  {
    var e := q + |PriorityMarker|;
    Trim(line[..a] + line[e + SpaceRun(line[e..])..])
  }

  /** Without line terminators, the run around the first marker is the whole line. */
  lemma WholeLineIsOneRun(line: string, q: nat)
    requires forall i :: 0 <= i < |line| ==> !IsLineTerminator(line[i])
    requires q <= |line|
    ensures RunStart(line, q) == 0 && RunEnd(line, 0) == |line|
  {
  }

  lemma LastOccurrenceIsLast(line: string, q: nat)
    requires OccursAt(line, PriorityMarker, q)
    requires forall k :: q < k ==> !OccursAt(line, PriorityMarker, k)
    ensures LastOccurrenceIn(line, PriorityMarker, 0, |line|) == q
  {
  }

  /**
   * On a line without line terminators the priority is the trimmed text
   * after the LAST marker: the greedy `.*` consumes every earlier one.
   */
  lemma PriorityAfterLastMarker(line: string, q: nat)
    requires forall i :: 0 <= i < |line| ==> !IsLineTerminator(line[i])
    requires OccursAt(line, PriorityMarker, q)
    requires forall k :: q < k ==> !OccursAt(line, PriorityMarker, k)
    ensures Contains(line, PriorityMarker)
    ensures PriorityOf(line) == Trim(line[q + |PriorityMarker|..])
  {
    ContainsAt(line, PriorityMarker, q);
    assert PriorityOf(line) == CutAfterMarker(line, 0, q) by {
      WholeLineIsOneRun(line, IndexOf(line, PriorityMarker));
      LastOccurrenceIsLast(line, q);
    }
    CutAtLineStart(line, q);
  }

  lemma CutAtLineStart(line: string, q: nat)
    requires q + |PriorityMarker| <= |line|
    ensures CutAfterMarker(line, 0, q) == Trim(line[q + |PriorityMarker|..])
  {
    var e := q + |PriorityMarker|;
    var t := line[e..];
    var n := SpaceRun(t);
    var u := line[..0] + line[e + n..];
    assert CutAfterMarker(line, 0, q) == Trim(u);
    assert u == t[n..];
    TrimSkipsSpaces(t, n);
  }

  /** A `フェーズ` marker at `k`, directly followed by a digit. */
  predicate PhaseAt(line: string, k: nat) {
    k + |PhaseMarker| < |line| && line[k..k + |PhaseMarker|] == PhaseMarker &&
    IsAsciiDigit(line[k + |PhaseMarker|])
  }

  /** The digit of the first `フェーズ<digit>` at or after `from`, if any. */
  function PhaseFrom(line: string, from: nat): (r: Option<char>)
    ensures r.None? ==> forall k :: from <= k ==> !PhaseAt(line, k)
    ensures r.Some? ==> exists k :: (from <= k && PhaseAt(line, k) &&
      r.value == line[k + |PhaseMarker|] && forall j :: from <= j < k ==> !PhaseAt(line, j))
    decreases |line| - from
  {
    if from + |PhaseMarker| >= |line| then None
    else if line[from..from + |PhaseMarker|] == PhaseMarker && IsAsciiDigit(line[from + |PhaseMarker|]) then
      assert PhaseAt(line, from);
      Some(line[from + |PhaseMarker|])
    else PhaseFrom(line, from + 1)
  }

  /** `line.match(/フェーズ(\d)/)?.[1] || ''`. */
  function PhaseOf(line: string): (r: string)
    ensures r == "" || (|r| == 1 && IsAsciiDigit(r[0]))
  {
    match PhaseFrom(line, 0)
    case Some(d) => [d]
    case None => ""
  }

  /** The phase is the digit after the first marker that has one, else empty. */
  lemma PhaseOfFirstMarker(line: string, k: nat)
    requires PhaseAt(line, k)
    requires forall j :: 0 <= j < k ==> !PhaseAt(line, j)
    ensures PhaseOf(line) == [line[k + |PhaseMarker|]]
  {
    var r := PhaseFrom(line, 0);
    if r.Some? {
      var k' :| 0 <= k' && PhaseAt(line, k') && r.value == line[k' + |PhaseMarker|] &&
        forall j :: 0 <= j < k' ==> !PhaseAt(line, j);
      assert k' == k;
    }
  }

  // ---------------------------------------------------------------- background

  /**
   * `lines.find((line, i) => lines[i-1]?.includes('背景'))` scanning from
   * index `i`: the first line whose predecessor holds the marker.
   */
  function LineAfterMarkerFrom(lines: seq<string>, i: nat): (r: int)
    requires 1 <= i
    ensures r == -1 || (i <= r < |lines| && Contains(lines[r - 1], BackgroundMarker))
    ensures forall k :: i <= k + 1 < |lines| && (r == -1 || k + 1 < r) ==> !Contains(lines[k], BackgroundMarker)
    decreases |lines| - i
  {
    if i >= |lines| then -1
    else if Contains(lines[i - 1], BackgroundMarker) then i
    else LineAfterMarkerFrom(lines, i + 1)
  }

  function BackgroundOf(lines: seq<string>): string {
    var j := LineAfterMarkerFrom(lines, 1);
    if j == -1 then "" else Trim(lines[j])
  }

  // ---------------------------------------------------------------- features

  /** `/^\d+\./`: a digit run followed by a dot. */
  predicate IsNumberedItem(line: string) {
    var n := DigitRun(line);
    0 < n < |line| && line[n] == '.'
  }

  /** `line.match(/^\d+\.|^-/)`. */
  predicate IsListItem(line: string) {
    IsNumberedItem(line) || StartsWith(line, "-")
  }

  /** `line.replace(/^\d+\.\s*|^-\s*\/, '')`: the first alternative is tried first. */
  function StripListMarker(line: string): (r: string)
    ensures |r| <= |line|
  {
    if IsNumberedItem(line) then
      var rest := line[DigitRun(line) + 1..];
      rest[SpaceRun(rest)..]
    else if StartsWith(line, "-") then
      var rest := line[1..];
      rest[SpaceRun(rest)..]
    else line
  }

  /** `s.replace(/\*\*\/g, '')`. */
  function RemoveBold(s: string): string {
    ReplaceAll(s, "**", "")
  }

  /** No two adjacent `*`: the text has no bold marker left. */
  predicate NoBoldMarker(r: string) {
    forall k :: 0 <= k && k + 1 < |r| ==> !(r[k] == '*' && r[k + 1] == '*')
  }

  /** A first character other than `*` survives the removal, in front. */
  lemma RemoveBoldKeepsHead(s: string)
    requires s != [] && s[0] != '*'
    ensures RemoveBold(s) != [] && RemoveBold(s)[0] == s[0]
  {
    if |s| >= 2 {
      assert s[..2] != "**";
    }
  }

  /**
   * Removing every `**` left to right leaves no `**`: a `*` that stays is
   * followed in the input by a character other than `*`, which stays too.
   */
  lemma {:induction false} RemoveBoldClean(s: string)
    ensures NoBoldMarker(RemoveBold(s))
    decreases |s|
  {
    if |s| < 2 {
    } else if s[..2] == "**" {
      RemoveBoldClean(s[2..]);
    } else {
      var tail := RemoveBold(s[1..]);
      RemoveBoldClean(s[1..]);
      assert RemoveBold(s) == [s[0]] + tail;
      if s[0] == '*' {
        assert s[1] != '*';
        RemoveBoldKeepsHead(s[1..]);
      }
      forall k | 0 <= k && k + 1 < |RemoveBold(s)|
        ensures !(RemoveBold(s)[k] == '*' && RemoveBold(s)[k + 1] == '*')
      {
        if k > 0 {
          assert RemoveBold(s)[k] == tail[k - 1];
          assert RemoveBold(s)[k + 1] == tail[k];
        }
      }
    }
  }

  /** What the loop body pushes for one raw line, if anything. */
  function FeatureItem(raw: string): Option<string> {
    var line := Trim(raw);
    if IsListItem(line) && |line| > 5 then Some(RemoveBold(StripListMarker(line))) else None
  }

  /**
   * The items `item` yields for the lines of `window`, in line order: what a
   * scan without the three-item cut-off would push.
   */
  function Kept(window: seq<string>, item: string -> Option<string>): (r: seq<string>)
    ensures |r| <= |window|
  {
    if window == [] then []
    else (match item(window[0]) case Some(f) => [f] case None => []) + Kept(window[1..], item)
  }

  /** The lines the scan may visit: indices implStart+1 .. implStart+19. */
  function FeatureWindow(lines: seq<string>): (w: seq<string>)
    ensures |w| <= FeatureScanLimit
  {
    var implStart := FirstContaining(lines, FeaturesMarker);
    if implStart == -1 then []
    else
      var hi := if implStart + 1 + FeatureScanLimit < |lines| then implStart + 1 + FeatureScanLimit else |lines|;
      lines[implStart + 1..hi]
  }

  function Take<T>(s: seq<T>, n: nat): (r: seq<T>)
    ensures |r| <= n && |r| <= |s|
    ensures r == s[..|r|]
    ensures |s| <= n ==> r == s
  {
    if |s| <= n then s else s[..n]
  }

  /** The feature list: the first three bullets of the window. */
  function Features(lines: seq<string>): seq<string> {
    Take(Kept(FeatureWindow(lines), FeatureItem), MaxFeatures)
  }

  lemma {:induction false} KeptConcat(a: seq<string>, b: seq<string>, item: string -> Option<string>)
    ensures Kept(a + b, item) == Kept(a, item) + Kept(b, item)
  {
    if a == [] {
      assert a + b == b;
    } else {
      assert (a + b)[1..] == a[1..] + b;
      KeptConcat(a[1..], b, item);
    }
  }

  /** One more line adds at most its own item. */
  lemma KeptStep(lines: seq<string>, lo: nat, i: nat, item: string -> Option<string>)
    requires lo <= i < |lines|
    ensures Kept(lines[lo..i + 1], item) ==
      Kept(lines[lo..i], item) + (match item(lines[i]) case Some(f) => [f] case None => [])
  {
    KeptConcat(lines[lo..i], [lines[i]], item);
    SliceExtend(lines, lo, i);
    assert [lines[i]][1..] == [];
  }

  /** Once the prefix has yielded `n` items, the rest of the window does not matter. */
  lemma KeptStop(lines: seq<string>, lo: nat, i: nat, hi: nat, item: string -> Option<string>, n: nat)
    requires lo <= i <= hi <= |lines|
    requires |Kept(lines[lo..i], item)| == n
    ensures Take(Kept(lines[lo..hi], item), n) == Kept(lines[lo..i], item)
  {
    SliceSplit(lines, lo, i, hi);
    KeptConcat(lines[lo..i], lines[i..hi], item);
  }

  /**
   * The scan loop of `extractTaskInfo` (lines 19-29) over `lines[lo..hi]`:
   * push what `item` yields for each line, and stop once `MaxFeatures`
   * items are in.
   */
  method ScanBullets(lines: seq<string>, lo: nat, hi: nat, item: string -> Option<string>)
    returns (features: seq<string>)
    requires lo <= hi <= |lines|
    ensures features == Take(Kept(lines[lo..hi], item), MaxFeatures)
  {
    features := [];
    var i := lo;
    while i < hi
      invariant lo <= i <= hi
      invariant features == Kept(lines[lo..i], item)
      invariant |features| < MaxFeatures
    {
      KeptStep(lines, lo, i, item);
      var found := item(lines[i]);
      if found.Some? {
        features := features + [found.value];
      }
      i := i + 1;
      if |features| >= MaxFeatures {
        KeptStop(lines, lo, i, hi, item, MaxFeatures);
        return;
      }
    }
  }

  /** The features part of `extractTaskInfo`: locate the marker, then scan. */
  method CollectFeatures(lines: seq<string>) returns (features: seq<string>)
    ensures features == Features(lines)
  {
    var implStart := FirstContaining(lines, FeaturesMarker);
    features := [];
    if implStart != -1 {
      var hi := if implStart + 1 + FeatureScanLimit < |lines| then implStart + 1 + FeatureScanLimit else |lines|;
      features := ScanBullets(lines, implStart + 1, hi, FeatureItem);
    }
  }

  /** Every kept item comes from some line of the window. */
  lemma {:induction false} KeptFrom(window: seq<string>, item: string -> Option<string>, f: string)
    requires f in Kept(window, item)
    ensures exists x :: x in window && item(x) == Some(f)
  {
    assert window != [];
    if item(window[0]) == Some(f) {
      assert window[0] in window;
    } else {
      assert f in Kept(window[1..], item);
      KeptFrom(window[1..], item, f);
      var x :| x in window[1..] && item(x) == Some(f);
      assert x in window;
    }
  }

  /**
   * At most three features, each the cleaned text of a bullet line of the
   * window after the marker, with no bold marker left.
   */
  lemma FeaturesShape(lines: seq<string>, f: string)
    requires f in Features(lines)
    ensures |Features(lines)| <= MaxFeatures
    ensures exists x :: x in FeatureWindow(lines) && FeatureItem(x) == Some(f)
    ensures NoBoldMarker(f)
  {
    var all := Kept(FeatureWindow(lines), FeatureItem);
    assert f in all by {
      var i :| 0 <= i < |Features(lines)| && Features(lines)[i] == f;
      assert all[i] == f;
    }
    KeptFrom(FeatureWindow(lines), FeatureItem, f);
    var x :| x in FeatureWindow(lines) && FeatureItem(x) == Some(f);
    RemoveBoldClean(StripListMarker(Trim(x)));
  }

  // ---------------------------------------------------------------- the record

  /** `extractTaskInfo(content, filename)`, stated as a function of its inputs. */
  function TaskInfoOf(content: string, filename: string): TaskInfo {
    var lines := Lines(content);
    var p := FirstContaining(lines, PriorityMarker);
    TaskInfo(
      id := IdOf(filename),
      title := TitleOf(lines),
      status := StatusOf(filename),
      priority := if p == -1 then "" else PriorityOf(lines[p]),
      phase := if p == -1 then "" else PhaseOf(lines[p]),
      background := BackgroundOf(lines),
      features := Features(lines),
      filename := filename)
  }

  /** `extractTaskInfo`, with its features loop. */
  method ExtractTaskInfo(content: string, filename: string) returns (info: TaskInfo)
    ensures info == TaskInfoOf(content, filename)
  {
    var lines := Lines(content);
    var features := CollectFeatures(lines);
    var p := FirstContaining(lines, PriorityMarker);
    info := TaskInfo(
      IdOf(filename), TitleOf(lines), StatusOf(filename),
      if p == -1 then "" else PriorityOf(lines[p]),
      if p == -1 then "" else PhaseOf(lines[p]),
      BackgroundOf(lines), features, filename);
  }

  // ---------------------------------------------------------------- properties of the record

  /** A document without any of the markers yields empty fields and no features. */
  lemma NoMarkersNoFields(content: string, filename: string)
    requires forall i :: 0 <= i < |Lines(content)| ==>
      !StartsWith(Lines(content)[i], "# ") && !Contains(Lines(content)[i], PriorityMarker) &&
      !Contains(Lines(content)[i], BackgroundMarker) && !Contains(Lines(content)[i], FeaturesMarker)
    ensures var info := TaskInfoOf(content, filename);
      info.title == "" && info.priority == "" && info.phase == "" &&
      info.background == "" && info.features == [] && info.filename == filename
  {
  }
}
