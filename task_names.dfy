/**
 * The task naming convention `<id>_<name>_<status>.md`, as the scripts
 * read it back with two regular expressions: `/^(\d+)_/` for the id and
 * `/_([^_]+)\.md$/` for the status segment.
 */
module TaskNames {
  import opened JsString

  datatype Option<T> = None | Some(value: T)

  /**
   * The capture of `/^(\d+)_/`: the leading run of ASCII digits, when a `_`
   * follows it. A shorter run cannot match, because its next character is a
   * digit and not `_`.
   */
  function LeadingId(f: string): (r: Option<string>)
    ensures r.Some? ==> r.value != [] && StartsWith(f, r.value + "_")
    ensures r.Some? ==> forall i :: 0 <= i < |r.value| ==> IsAsciiDigit(r.value[i])
  {
    var n := DigitRun(f);
    if 0 < n < |f| && f[n] == '_' then
      assert f[..n + 1] == f[..n] + "_";
      Some(f[..n])
    else None
  }

  /**
   * The capture of `/_([^_]+)\.md$/`: the non-empty, `_`-free segment
   * between the last `_` and a final `.md`.
   */
  function StatusSegment(f: string): (r: Option<string>)
    ensures r.Some? ==> r.value != [] && '_' !in r.value
    ensures r.Some? ==> EndsWith(f, "_" + r.value + ".md")
  {
    var k := LastIndexOfChar(f, '_');
    if EndsWith(f, ".md") && 0 <= k && k + 1 < |f| - 3 then
      var st := f[k + 1..|f| - 3];
      assert forall i :: 0 <= i < |st| ==> st[i] == f[k + 1 + i];
      assert f[|f| - (|st| + 4)..] == "_" + st + ".md";
      Some(st)
    else None
  }

  /** `f.replace(/^\d+_/, '')`. */
  function StripIdPrefix(f: string): (r: string)
    ensures LeadingId(f).None? ==> r == f
    ensures LeadingId(f).Some? ==> f == LeadingId(f).value + "_" + r
  {
    match LeadingId(f)
    case None => f
    case Some(d) =>
      assert f == f[..|d| + 1] + f[|d| + 1..];
      f[|d| + 1..]
  }

  /** `f.replace(/_[^_]+\.md$/, '')`. */
  function StripStatusSuffix(f: string): (r: string)
    ensures StatusSegment(f).None? ==> r == f
    ensures StatusSegment(f).Some? ==> f == r + "_" + StatusSegment(f).value + ".md"
  {
    match StatusSegment(f)
    case None => f
    case Some(st) =>
      var n := |f| - (|st| + 4);
      assert f == f[..n] + f[n..];
      f[..n]
  }

  predicate AllDigits(d: string) {
    forall i :: 0 <= i < |d| ==> IsAsciiDigit(d[i])
  }

  /** Both directions of the id rule: a digit run followed by `_` is the id. */
  lemma {:induction false} LeadingIdOf(d: string, rest: string)
    requires d != [] && AllDigits(d)
    ensures LeadingId(d + "_" + rest) == Some(d)
  {
    var f := d + "_" + rest;
    DigitRunOfDigits(d, "_" + rest);
    assert f == d + ("_" + rest);
    assert f[..|d|] == d;
  }

  /** Stripping the id of `<digits>_rest` leaves exactly `rest`. */
  lemma StripIdPrefixOf(d: string, rest: string)
    requires d != [] && AllDigits(d)
    ensures StripIdPrefix(d + "_" + rest) == rest
  {
    LeadingIdOf(d, rest);
    var r := StripIdPrefix(d + "_" + rest);
    assert |r| == |rest|;
    assert (d + "_" + rest)[|d| + 1..] == rest;
  }

  lemma {:induction false} DigitRunOfDigits(d: string, tail: string)
    requires AllDigits(d)
    requires tail == [] || !IsAsciiDigit(tail[0])
    ensures DigitRun(d + tail) == |d|
    decreases |d|
  {
    if d != [] {
      assert (d + tail)[1..] == d[1..] + tail;
      DigitRunOfDigits(d[1..], tail);
    } else {
      assert d + tail == tail;
    }
  }

  /** A name of the form `<a>_<st>.md` with a non-empty `_`-free `st` has status `st`. */
  lemma StatusSegmentOf(a: string, st: string)
    requires st != [] && '_' !in st
    ensures StatusSegment(a + "_" + st + ".md") == Some(st)
  {
    var f := a + "_" + st + ".md";
    var k := |a|;
    assert f[k] == '_';
    assert forall i :: k < i < |f| ==> f[i] != '_' by {
      forall i | k < i < |f| ensures f[i] != '_' {
        if i < k + 1 + |st| { assert f[i] == st[i - k - 1]; }
      }
    }
    assert LastIndexOfChar(f, '_') == k;
    assert f[|f| - 3..] == ".md";
    assert f[k + 1..|f| - 3] == st;
  }

  /** A name without a `.md` ending has no status segment. */
  lemma NoStatusWithoutMd(f: string)
    requires !EndsWith(f, ".md")
    ensures StatusSegment(f) == None
  {
  }
}
