/**
 * String primitives with the meaning JavaScript gives them in the task
 * manager's scripts: ASCII case mapping, the whitespace class shared by
 * `\s` and `String.prototype.trim`, literal search and replacement, and
 * splitting/joining on a one-character separator.
 */
module JsString {

  /**
   * The properties every object literal inherits from `Object.prototype`.
   * Reading `o[k]` for one of these keys gives a function (or, for
   * `__proto__`, the prototype itself) even when `o` was never given `k`.
   */
  const InheritedKeys: set<string> := {
    "constructor", "hasOwnProperty", "isPrototypeOf", "propertyIsEnumerable",
    "toLocaleString", "toString", "valueOf", "__proto__",
    "__defineGetter__", "__defineSetter__", "__lookupGetter__", "__lookupSetter__"}

  /** `\d` in a JavaScript regular expression (always ASCII). */
  predicate IsAsciiDigit(c: char) {
    '0' <= c <= '9'
  }

  /** `\w` in a JavaScript regular expression without the `u` flag. */
  predicate IsWordChar(c: char) {
    IsAsciiDigit(c) || 'a' <= c <= 'z' || 'A' <= c <= 'Z' || c == '_'
  }

  /**
   * WhiteSpace and LineTerminator of ECMAScript: the class `\s` matches and
   * `trim` strips.
   */
  predicate IsJsSpace(c: char) {
    c == '\t' || c == '\n' || c == '\U{000B}' || c == '\U{000C}' || c == '\r' ||
    c == ' ' || c == '\U{00A0}' || c == '\U{1680}' || ('\U{2000}' <= c <= '\U{200A}') ||
    c == '\U{2028}' || c == '\U{2029}' || c == '\U{202F}' || c == '\U{205F}' ||
    c == '\U{3000}' || c == '\U{FEFF}'
  }

  /** The characters a regular-expression `.` does not match (no `s` flag). */
  predicate IsLineTerminator(c: char) {
    c == '\n' || c == '\r' || c == '\U{2028}' || c == '\U{2029}'
  }

  function LowerChar(c: char): (r: char)
    ensures 'A' <= c <= 'Z' ==> r as int == c as int + 32
    ensures !('A' <= c <= 'Z') ==> r == c
  {
    if 'A' <= c <= 'Z' then (c as int + 32) as char else c
  }

  function UpperChar(c: char): (r: char)
    ensures 'a' <= c <= 'z' ==> r as int == c as int - 32
    ensures !('a' <= c <= 'z') ==> r == c
  {
    if 'a' <= c <= 'z' then (c as int - 32) as char else c
  }

  /** `toLowerCase`, restricted to ASCII letters. */
  function ToLower(s: string): (r: string)
    ensures |r| == |s|
    ensures forall i :: 0 <= i < |s| ==> r[i] == LowerChar(s[i])
  {
    seq(|s|, i requires 0 <= i < |s| => LowerChar(s[i]))
  }

  /**
   * `a` and `b` are equal once ASCII case is ignored: what a regular
   * expression with the `i` flag compares, character by character.
   */
  predicate SameIgnoringCase(a: string, b: string) {
    |a| == |b| && forall i :: 0 <= i < |a| ==> LowerChar(a[i]) == LowerChar(b[i])
  }

  lemma SameIgnoringCaseIsLowerEqual(a: string, b: string)
    ensures SameIgnoringCase(a, b) <==> ToLower(a) == ToLower(b)
  {
    if ToLower(a) == ToLower(b) {
      assert |a| == |ToLower(a)|;
      forall i | 0 <= i < |a| ensures LowerChar(a[i]) == LowerChar(b[i]) {
        assert ToLower(a)[i] == ToLower(b)[i];
      }
    }
  }

  /** `toUpperCase`, restricted to ASCII letters. */
  function ToUpper(s: string): (r: string)
    ensures |r| == |s|
    ensures forall i :: 0 <= i < |s| ==> r[i] == UpperChar(s[i])
  {
    seq(|s|, i requires 0 <= i < |s| => UpperChar(s[i]))
  }

  /** An upper-cased text and the text itself lowercase alike. */
  lemma LowerOfUpper(s: string)
    ensures ToLower(ToUpper(s)) == ToLower(s)
  {
    forall i | 0 <= i < |s| ensures LowerChar(UpperChar(s[i])) == LowerChar(s[i]) {
    }
  }

  /** Lowercasing twice is lowercasing once. */
  lemma LowerOfLower(s: string)
    ensures ToLower(ToLower(s)) == ToLower(s)
  {
    forall i | 0 <= i < |s| ensures LowerChar(LowerChar(s[i])) == LowerChar(s[i]) {
    }
  }

  function TrimStart(s: string): (r: string)
    ensures |r| <= |s|
    ensures r == [] || !IsJsSpace(r[0])
  {
    if s != [] && IsJsSpace(s[0]) then TrimStart(s[1..]) else s
  }

  function TrimEnd(s: string): (r: string)
    ensures |r| <= |s|
    ensures r == [] || !IsJsSpace(r[|r| - 1])
  {
    if s != [] && IsJsSpace(s[|s| - 1]) then TrimEnd(s[..|s| - 1]) else s
  }

  /** `String.prototype.trim`. */
  function Trim(s: string): (r: string)
    ensures |r| <= |s|
  {
    TrimEnd(TrimStart(s))
  }

  lemma {:induction false} TrimStartIsSuffix(s: string)
    ensures TrimStart(s) == s[|s| - |TrimStart(s)|..]
  {
    if s != [] && IsJsSpace(s[0]) {
      TrimStartIsSuffix(s[1..]);
    }
  }

  lemma {:induction false} TrimEndIsPrefix(s: string)
    ensures TrimEnd(s) == s[..|TrimEnd(s)|]
  {
    if s != [] && IsJsSpace(s[|s| - 1]) {
      TrimEndIsPrefix(s[..|s| - 1]);
    }
  }

  /** `trim` leaves no whitespace at either end. */
  lemma TrimmedHasNoOuterSpace(s: string)
    ensures Trim(s) == [] || (!IsJsSpace(Trim(s)[0]) && !IsJsSpace(Trim(s)[|Trim(s)| - 1]))
  {
    var t := TrimStart(s);
    TrimStartIsSuffix(s);
    TrimEndIsPrefix(t);
  }

  /** Lowercasing keeps whitespace and non-whitespace apart, so it commutes with `trimStart`. */
  lemma {:induction false} TrimStartLower(s: string)
    ensures TrimStart(ToLower(s)) == ToLower(TrimStart(s))
    decreases |s|
  {
    if s != [] && IsJsSpace(s[0]) {
      assert ToLower(s)[1..] == ToLower(s[1..]);
      TrimStartLower(s[1..]);
    }
  }

  lemma {:induction false} TrimEndLower(s: string)
    ensures TrimEnd(ToLower(s)) == ToLower(TrimEnd(s))
    decreases |s|
  {
    if s != [] {
      var n := |s| - 1;
      LowerKeepsSpace(s[n]);
      assert ToLower(s)[n] == LowerChar(s[n]);
      if IsJsSpace(s[n]) {
        LowerPrefix(s, n);
        TrimEndLower(s[..n]);
      }
    }
  }

  lemma LowerKeepsSpace(c: char)
    ensures IsJsSpace(LowerChar(c)) <==> IsJsSpace(c)
  {
  }

  lemma LowerPrefix(s: string, n: nat)
    requires n <= |s|
    ensures ToLower(s)[..n] == ToLower(s[..n])
  {
  }

  /** `s.toLowerCase().trim()` and `s.trim().toLowerCase()` agree. */
  lemma TrimLower(s: string)
    ensures Trim(ToLower(s)) == ToLower(Trim(s))
  {
    TrimStartLower(s);
    TrimEndLower(TrimStart(s));
  }

  /** Lowercased text holds no ASCII capital, so no text with one occurs in it. */
  lemma LowerHasNoCapital(s: string, p: string, k: nat)
    requires k < |p| && 'A' <= p[k] <= 'Z'
    ensures !Contains(ToLower(s), p)
  {
    var l := ToLower(s);
    var i := IndexOf(l, p);
    if i != -1 {
      assert false;
    }
  }

  predicate StartsWith(s: string, p: string) {
    |p| <= |s| && s[..|p|] == p
  }

  predicate EndsWith(s: string, p: string) {
    |p| <= |s| && s[|s| - |p|..] == p
  }

  lemma EndsWithAppended(a: string, p: string)
    ensures EndsWith(a + p, p)
  {
    assert (a + p)[|a + p| - |p|..] == p;
  }

  /** `p` occurs in `s` at index `i`. */
  predicate OccursAt(s: string, p: string, i: int) {
    0 <= i && i + |p| <= |s| && s[i..i + |p|] == p
  }

  /** `s.indexOf(p, from)`: the first occurrence at or after `from`, or -1. */
  function IndexOfFrom(s: string, p: string, from: nat): (r: int)
    ensures r == -1 || (from <= r && OccursAt(s, p, r))
    ensures forall k :: from <= k && (r == -1 || k < r) ==> !OccursAt(s, p, k)
    decreases |s| - from
  {
    if from + |p| > |s| then -1
    else if s[from..from + |p|] == p then from
    else IndexOfFrom(s, p, from + 1)
  }

  function IndexOf(s: string, p: string): (r: int)
    ensures r == -1 || OccursAt(s, p, r)
    ensures forall k :: 0 <= k && (r == -1 || k < r) ==> !OccursAt(s, p, k)
  {
    IndexOfFrom(s, p, 0)
  }

  /** `s.includes(p)`. */
  predicate Contains(s: string, p: string) {
    IndexOf(s, p) != -1
  }

  lemma ContainsAt(s: string, p: string, i: int)
    requires OccursAt(s, p, i)
    ensures Contains(s, p)
  {
  }

  /** A character-level membership test, `s.includes(c)` for one character. */
  predicate HasChar(s: string, c: char) {
    c in s
  }

  /**
   * `s.replace(/p/g, r)` for a literal, non-empty pattern: occurrences are
   * found left to right and do not overlap.
   */
  function ReplaceAll(s: string, p: string, r: string): string
    requires p != []
    decreases |s|
  {
    if |s| < |p| then s
    else if s[..|p|] == p then r + ReplaceAll(s[|p|..], p, r)
    else [s[0]] + ReplaceAll(s[1..], p, r)
  }

  lemma ReplaceAllShort(s: string, p: string, r: string)
    requires p != [] && |s| < |p|
    ensures ReplaceAll(s, p, r) == s
  {
  }

  lemma ReplaceAllNoMatch(s: string, p: string, r: string)
    requires p != [] && |s| >= |p| && s[..|p|] != p
    ensures ReplaceAll(s, p, r) == [s[0]] + ReplaceAll(s[1..], p, r)
  {
  }

  /** `s.replace(p, r)` with a string pattern: only the first occurrence. */
  function ReplaceFirst(s: string, p: string, r: string): (t: string)
    ensures IndexOf(s, p) == -1 ==> t == s
    ensures IndexOf(s, p) != -1 ==>
      t == s[..IndexOf(s, p)] + r + s[IndexOf(s, p) + |p|..]
  {
    var k := IndexOf(s, p);
    if k == -1 then s else s[..k] + r + s[k + |p|..]
  }

  /** `s.replace(/c/g, d)` for a single character. */
  function ReplaceChar(s: string, c: char, d: char): (r: string)
    ensures |r| == |s|
    ensures forall i :: 0 <= i < |s| ==> r[i] == (if s[i] == c then d else s[i])
  {
    seq(|s|, i requires 0 <= i < |s| => if s[i] == c then d else s[i])
  }

  /** `s.split(c)` for a one-character separator. */
  function Split(s: string, c: char): (parts: seq<string>)
    ensures |parts| >= 1
    ensures forall i :: 0 <= i < |parts| ==> c !in parts[i]
    decreases |s|
  {
    var k := IndexOf(s, [c]);
    if k == -1 then
      NoCharBefore(s, c, |s|);
      [s]
    else
      NoCharBefore(s, c, k);
      [s[..k]] + Split(s[k + 1..], c)
  }

  lemma NoCharBefore(s: string, c: char, n: nat)
    requires n <= |s|
    requires forall k :: 0 <= k < n ==> !OccursAt(s, [c], k)
    ensures c !in s[..n]
  {
    forall i | 0 <= i < n ensures s[i] != c {
      assert !OccursAt(s, [c], i);
      assert s[i..i + 1] == [s[i]];
    }
  }

  /** Joining the pieces of a split with the same separator gives back the text. */
  lemma {:induction false} JoinSplit(s: string, c: char)
    ensures Join(Split(s, c), c) == s
    decreases |s|
  {
    var k := IndexOf(s, [c]);
    if k != -1 {
      var rest := s[k + 1..];
      var parts := Split(rest, c);
      JoinSplit(rest, c);
      assert ([s[..k]] + parts)[1..] == parts;
      assert Join(Split(s, c), c) == s[..k] + [c] + Join(parts, c);
      assert s[k..k + 1] == [c];
      assert s == s[..k] + [c] + rest;
    }
  }

  /** The first `c` in `a + [c] + b`, when `a` has none, is right after `a`. */
  lemma IndexOfSeparator(a: string, b: string, c: char)
    requires c !in a
    ensures IndexOf(a + [c] + b, [c]) == |a|
  {
    var s := a + [c] + b;
    assert s[|a|..|a| + 1] == [c];
    assert OccursAt(s, [c], |a|);
    forall k | 0 <= k < |a| ensures !OccursAt(s, [c], k) {
      assert s[k..k + 1] == [a[k]];
    }
  }

  /** Splitting pieces joined by a separator none of them holds gives the pieces back. */
  lemma {:induction false} SplitJoin(parts: seq<string>, c: char)
    requires |parts| >= 1 && forall i :: 0 <= i < |parts| ==> c !in parts[i]
    ensures Split(Join(parts, c), c) == parts
    decreases |parts|
  {
    if |parts| == 1 {
      SplitWithoutSeparator(parts[0], c);
    } else {
      var rest := Join(parts[1..], c);
      SplitJoin(parts[1..], c);
      SplitAtSeparator(parts[0], rest, c);
      assert parts == [parts[0]] + parts[1..];
    }
  }

  lemma SplitWithoutSeparator(s: string, c: char)
    requires c !in s
    ensures Split(s, c) == [s]
  {
    forall k | 0 <= k ensures !OccursAt(s, [c], k) {
      if k < |s| {
        assert s[k..k + 1] == [s[k]];
      }
    }
  }

  lemma SplitAtSeparator(a: string, rest: string, c: char)
    requires c !in a
    ensures Split(a + [c] + rest, c) == [a] + Split(rest, c)
  {
    IndexOfSeparator(a, rest, c);
    var s := a + [c] + rest;
    assert s[..|a|] == a;
    assert s[|a| + 1..] == rest;
  }

  /** `parts.join(c)`. */
  function Join(parts: seq<string>, c: char): string
  {
    if |parts| == 0 then ""
    else if |parts| == 1 then parts[0]
    else parts[0] + [c] + Join(parts[1..], c)
  }

  /** Joining one more piece adds the separator and the piece at the end. */
  lemma {:induction false} JoinSnoc(parts: seq<string>, x: string, c: char)
    requires |parts| >= 1
    ensures Join(parts + [x], c) == Join(parts, c) + [c] + x
    decreases |parts|
  {
    if |parts| > 1 {
      JoinSnoc(parts[1..], x, c);
      assert (parts + [x])[1..] == parts[1..] + [x];
    }
  }

  /**
   * Overwriting the last of several pieces keeps the text up to and
   * including the last separator, which sits just after the other pieces.
   */
  lemma JoinLastReplaced(parts: seq<string>, x: string, c: char)
    requires |parts| >= 2 && c !in parts[|parts| - 1]
    ensures var p := Join(parts[..|parts| - 1], c);
      LastIndexOfChar(Join(parts, c), c) == |p| &&
      Join(parts[|parts| - 1 := x], c) == Join(parts, c)[..|p| + 1] + x
  {
    var n := |parts|;
    var front := parts[..n - 1];
    assert parts == front + [parts[n - 1]];
    assert parts[n - 1 := x] == front + [x];
    JoinSnoc(front, parts[n - 1], c);
    JoinSnoc(front, x, c);
    var p := Join(front, c);
    LastIndexOfSeparator(p, parts[n - 1], c);
    assert Join(parts, c)[..|p| + 1] == p + [c];
  }

  /** Splitting at `c`, overwriting the last piece and joining again keeps `s` up to its last `c`. */
  lemma SplitLastReplaced(s: string, x: string, c: char)
    requires |Split(s, c)| >= 2
    ensures var k := LastIndexOfChar(s, c);
      k >= 0 && Join(Split(s, c)[|Split(s, c)| - 1 := x], c) == s[..k + 1] + x
  {
    var parts := Split(s, c);
    JoinSplit(s, c);
    assert c !in parts[|parts| - 1];
    JoinLastReplaced(parts, x, c);
  }

  /** The last index of `c` in `s`, or -1 (`s.lastIndexOf(c)`). */
  function LastIndexOfChar(s: string, c: char): (r: int)
    ensures -1 <= r < |s|
    ensures r >= 0 ==> s[r] == c
    ensures forall i :: r < i < |s| ==> s[i] != c
  {
    if s == [] then -1
    else if s[|s| - 1] == c then |s| - 1
    else LastIndexOfChar(s[..|s| - 1], c)
  }

  /** In `p + [c] + t` with no `c` in `t`, the last `c` is the one after `p`. */
  lemma {:induction false} LastIndexOfSeparator(p: string, t: string, c: char)
    requires c !in t
    ensures LastIndexOfChar(p + [c] + t, c) == |p|
    decreases |t|
  {
    var s := p + [c] + t;
    if t != [] {
      var t' := t[..|t| - 1];
      assert s[|s| - 1] == t[|t| - 1];
      assert s[..|s| - 1] == p + [c] + t';
      LastIndexOfSeparator(p, t', c);
    }
  }

  /** `String(n)` for a non-negative integer: its decimal digits. */
  function NatText(n: nat): (r: string)
    ensures r != [] && forall i :: 0 <= i < |r| ==> IsAsciiDigit(r[i])
  {
    var d := ['0' + (n % 10) as char];
    if n < 10 then d else NatText(n / 10) + d
  }

  /** The longest prefix of ASCII digits: what `^\d+` matches greedily. */
  function DigitRun(s: string): (n: nat)
    ensures n <= |s|
    ensures forall i :: 0 <= i < n ==> IsAsciiDigit(s[i])
    ensures n < |s| ==> !IsAsciiDigit(s[n])
  {
    if s != [] && IsAsciiDigit(s[0]) then 1 + DigitRun(s[1..]) else 0
  }

  /** The longest prefix of `\w` characters. */
  function WordRun(s: string): (n: nat)
    ensures n <= |s|
    ensures forall i :: 0 <= i < n ==> IsWordChar(s[i])
    ensures n < |s| ==> !IsWordChar(s[n])
  {
    if s != [] && IsWordChar(s[0]) then 1 + WordRun(s[1..]) else 0
  }

  /** The longest prefix of `\s` characters. */
  function SpaceRun(s: string): (n: nat)
    ensures n <= |s|
    ensures forall i :: 0 <= i < n ==> IsJsSpace(s[i])
    ensures n < |s| ==> !IsJsSpace(s[n])
  {
    if s != [] && IsJsSpace(s[0]) then 1 + SpaceRun(s[1..]) else 0
  }

  /**
   * Code-point order of strings: a proper prefix comes first. It is the
   * order `<` and the default `sort()` give in JavaScript for text within
   * the Basic Multilingual Plane (JavaScript compares UTF-16 units), and the
   * order `localeCompare` gives for digit-only strings.
   */
  predicate LexLe(a: string, b: string)
    decreases |a|
  {
    a == [] || (b != [] && (a[0] < b[0] || (a[0] == b[0] && LexLe(a[1..], b[1..]))))
  }

  lemma LexLeRefl(a: string)
    ensures LexLe(a, a)
  {
    if a != [] { LexLeRefl(a[1..]); }
  }

  lemma LexLeTotal(a: string, b: string)
    ensures LexLe(a, b) || LexLe(b, a)
    decreases |a|
  {
    if a != [] && b != [] && a[0] == b[0] { LexLeTotal(a[1..], b[1..]); }
  }

  lemma LexLeTrans(a: string, b: string, c: string)
    requires LexLe(a, b) && LexLe(b, c)
    ensures LexLe(a, c)
    decreases |a|
  {
    if a != [] && b != [] && c != [] && a[0] == b[0] == c[0] {
      LexLeTrans(a[1..], b[1..], c[1..]);
    }
  }

  lemma LexLeAntisym(a: string, b: string)
    requires LexLe(a, b) && LexLe(b, a)
    ensures a == b
    decreases |a|
  {
    if a != [] && b != [] { LexLeAntisym(a[1..], b[1..]); }
  }

  /** Skipping part of the leading whitespace does not change `trimStart`. */
  lemma {:induction false} TrimStartSkipsSpaces(s: string, n: nat)
    requires n <= SpaceRun(s)
    ensures TrimStart(s[n..]) == TrimStart(s)
    decreases n
  {
    if n > 0 {
      assert IsJsSpace(s[0]);
      assert SpaceRun(s[1..]) == SpaceRun(s) - 1;
      assert s[n..] == s[1..][n - 1..];
      TrimStartSkipsSpaces(s[1..], n - 1);
    }
  }

  /** Skipping part of the leading whitespace does not change `trim`. */
  lemma TrimSkipsSpaces(s: string, n: nat)
    requires n <= SpaceRun(s)
    ensures Trim(s[n..]) == Trim(s)
  {
    TrimStartSkipsSpaces(s, n);
  }

  /** Cutting a slice at an inner index. */
  lemma SliceSplit<T>(s: seq<T>, a: nat, b: nat, c: nat)
    requires a <= b <= c <= |s|
    ensures s[a..c] == s[a..b] + s[b..c]
  {
  }

  lemma SliceExtend<T>(s: seq<T>, a: nat, b: nat)
    requires a <= b < |s|
    ensures s[a..b + 1] == s[a..b] + [s[b]]
  {
  }
}
