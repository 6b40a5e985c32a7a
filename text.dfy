/**
 * The string rules the scraper relies on: Rust's `char::is_whitespace` and
 * `str::trim`, `join` on a vector of string slices, `str::contains`, the first
 * item of `split('.')`, and the trim-then-drop-empty cleaning of text segments.
 */
module Text {

  /** The Unicode White_Space property, the class `char::is_whitespace` (and so `str::trim`) tests. */
  predicate IsWhitespace(c: char): (r: bool)
    ensures c as int < 0x80 ==> (r <==> c == ' ' || c == '\t' || c == '\n' || c == '\r'
                                        || c as int == 0x0B || c as int == 0x0C)
    ensures r ==> c as int <= 0x3000
  {
    var n := c as int;
    (0x09 <= n <= 0x0D) || n == 0x20 || n == 0x85 || n == 0xA0 || n == 0x1680
    || (0x2000 <= n <= 0x200A) || n == 0x2028 || n == 0x2029 || n == 0x202F
    || n == 0x205F || n == 0x3000
  }

  predicate AllWhitespace(s: string) {
    forall i :: 0 <= i < |s| ==> IsWhitespace(s[i])
  }

  /** Neither end of `s` is whitespace (the shape `trim` leaves). */
  predicate IsTrimmed(s: string) {
    s == [] || (!IsWhitespace(s[0]) && !IsWhitespace(s[|s| - 1]))
  }

  /** Every character of `s` in positions `lo` up to (not including) `hi` is whitespace. */
  predicate BlankBetween(s: string, lo: int, hi: int) {
    forall k :: lo <= k < hi && 0 <= k < |s| ==> IsWhitespace(s[k])
  }

  /** The first position at or after `i` that does not hold whitespace (or `|s|`). */
  function SkipBlanks(s: string, i: nat): (j: nat)
    requires i <= |s|
    ensures i <= j <= |s| && BlankBetween(s, i, j)
    ensures j < |s| ==> !IsWhitespace(s[j])
    decreases |s| - i
  {
    if i < |s| && IsWhitespace(s[i]) then SkipBlanks(s, i + 1) else i
  }

  /** The position just after the last non-whitespace character in `s[lo..j]` (or `lo`). */
  function SkipBlanksBack(s: string, lo: nat, j: nat): (k: nat)
    requires lo <= j <= |s|
    ensures lo <= k <= j && BlankBetween(s, k, j)
    ensures lo < k ==> !IsWhitespace(s[k - 1])
  {
    if lo < j && IsWhitespace(s[j - 1]) then SkipBlanksBack(s, lo, j - 1) else j
  }

  /**
   * `str::trim`: the result is trimmed, and it is a slice of `s` with only
   * whitespace before and after it.
   */
  function Trim(s: string): (r: string)
    ensures IsTrimmed(r)
    ensures exists lo, hi :: 0 <= lo <= hi <= |s| && r == s[lo..hi]
                             && BlankBetween(s, 0, lo) && BlankBetween(s, hi, |s|)
  {
    var lo := SkipBlanks(s, 0);
    var hi := SkipBlanksBack(s, lo, |s|);
    assert lo < hi ==> s[lo..hi][0] == s[lo] && s[lo..hi][hi - lo - 1] == s[hi - 1];
    s[lo..hi]
  }

  /** A string of nothing but whitespace trims to empty. */
  lemma TrimBlank(s: string)
    requires BlankBetween(s, 0, |s|)
    ensures Trim(s) == []
  {
    var t := Trim(s);
    var i, j :| 0 <= i <= j <= |s| && t == s[i..j]
                && BlankBetween(s, 0, i) && BlankBetween(s, j, |s|);
    if t != [] {
      assert false;
    }
  }

  /** A trimmed slice with only whitespace around it is what `trim` returns. */
  lemma TrimSlice(s: string, lo: int, hi: int)
    requires 0 <= lo < hi <= |s|
    requires BlankBetween(s, 0, lo) && BlankBetween(s, hi, |s|) && IsTrimmed(s[lo..hi])
    ensures Trim(s) == s[lo..hi]
  {
    var t := Trim(s);
    var i, j :| 0 <= i <= j <= |s| && t == s[i..j]
                && BlankBetween(s, 0, i) && BlankBetween(s, j, |s|);
    assert s[lo] == s[lo..hi][0];
    assert s[hi - 1] == s[lo..hi][hi - lo - 1];
    if t == [] {
      assert false;
    }
    assert s[i] == t[0] && s[j - 1] == t[|t| - 1];
    assert !IsWhitespace(s[i]) && !IsWhitespace(s[j - 1]);
    assert i == lo && j == hi;
  }

  /** Whatever sits between two whitespace runs and is itself trimmed is what `trim` returns. */
  lemma TrimUnique(s: string, a: string, r: string, b: string)
    requires s == a + r + b
    requires AllWhitespace(a) && AllWhitespace(b) && IsTrimmed(r)
    ensures Trim(s) == r
  {
    assert s[|a|..|a| + |r|] == r;
    assert BlankBetween(s, 0, |a|) by {
      forall k | 0 <= k < |a| ensures IsWhitespace(s[k]) { assert s[k] == a[k]; }
    }
    assert BlankBetween(s, |a| + |r|, |s|) by {
      forall k | |a| + |r| <= k < |s| ensures IsWhitespace(s[k]) { assert s[k] == b[k - |a| - |r|]; }
    }
    if r == [] {
      TrimBlank(s);
    } else {
      TrimSlice(s, |a|, |a| + |r|);
    }
  }

  /** Trimming a trimmed string changes nothing, so `trim` is idempotent. */
  lemma TrimTrimmed(s: string)
    requires IsTrimmed(s)
    ensures Trim(s) == s
  {
    assert s == [] + s + [];
    TrimUnique(s, [], s, []);
  }

  /** `trim` yields the empty string exactly when the input is all whitespace. */
  lemma TrimEmptyIff(s: string)
    ensures Trim(s) == [] <==> AllWhitespace(s)
  {
    var t := Trim(s);
    var i, j :| 0 <= i <= j <= |s| && t == s[i..j]
                && BlankBetween(s, 0, i) && BlankBetween(s, j, |s|);
    if t != [] {
      assert s[i] == t[0];
    }
  }

  /** Blank runs survive being embedded: blanks of `s` stay blanks of `a + s + b`. */
  lemma BlankEmbedded(a: string, s: string, b: string, lo: int, hi: int)
    requires AllWhitespace(a) && AllWhitespace(b) && 0 <= lo <= hi <= |s|
    requires BlankBetween(s, 0, lo) && BlankBetween(s, hi, |s|)
    ensures BlankBetween(a + s + b, 0, |a| + lo)
    ensures BlankBetween(a + s + b, |a| + hi, |a| + |s| + |b|)
  {
    var t := a + s + b;
    forall k | 0 <= k < |a| + lo ensures IsWhitespace(t[k]) {
      if k < |a| { assert t[k] == a[k]; } else { assert t[k] == s[k - |a|]; }
    }
    forall k | |a| + hi <= k < |t| ensures IsWhitespace(t[k]) {
      if k < |a| + |s| { assert t[k] == s[k - |a|]; } else { assert t[k] == b[k - |a| - |s|]; }
    }
  }

  /** The trimmed core of `s` stays the trimmed core once blanks are added around `s`. */
  lemma TrimEmbeddedSlice(a: string, s: string, b: string, lo: int, hi: int)
    requires AllWhitespace(a) && AllWhitespace(b) && 0 <= lo < hi <= |s|
    requires BlankBetween(s, 0, lo) && BlankBetween(s, hi, |s|) && IsTrimmed(s[lo..hi])
    ensures Trim(a + s + b) == s[lo..hi]
  {
    var t := a + s + b;
    BlankEmbedded(a, s, b, lo, hi);
    assert t[|a| + lo..|a| + hi] == s[lo..hi] by {
      assert t[|a|..|a| + |s|] == s;
      assert t[|a| + lo..|a| + hi] == t[|a|..|a| + |s|][lo..hi];
    }
    TrimSlice(t, |a| + lo, |a| + hi);
  }

  /** Whitespace added around a string does not change what `trim` returns. */
  lemma TrimAbsorbsBlanks(a: string, s: string, b: string)
    requires AllWhitespace(a) && AllWhitespace(b)
    ensures Trim(a + s + b) == Trim(s)
  {
    var r := Trim(s);
    var lo, hi :| 0 <= lo <= hi <= |s| && r == s[lo..hi]
                  && BlankBetween(s, 0, lo) && BlankBetween(s, hi, |s|);
    if lo == hi {
      var t := a + s + b;
      BlankEmbedded(a, s, b, lo, hi);
      assert BlankBetween(t, 0, |t|);
      TrimBlank(t);
    } else {
      TrimEmbeddedSlice(a, s, b, lo, hi);
    }
  }

  /** `join(sep)` on a vector of string slices. */
  function Join(sep: string, parts: seq<string>): (r: string)
    ensures |parts| > 0 ==> parts[0] <= r
    ensures AllWhitespace(sep) && (forall k :: 0 <= k < |parts| ==> AllWhitespace(parts[k]))
            ==> AllWhitespace(r)
  {
    if |parts| == 0 then []
    else if |parts| == 1 then parts[0]
    else
      parts[0] + sep + Join(sep, parts[1..])
  }

  /** A single part is joined to itself, with no separator. */
  lemma JoinSingle(sep: string, x: string)
    ensures Join(sep, [x]) == x
  {
  }

  /**
   * The separator goes between every pair of consecutive parts: joining two
   * non-empty runs of parts is joining each and putting one separator between.
   * With `JoinSingle` this determines `Join` on every non-empty vector.
   */
  lemma {:induction false} JoinAppend(sep: string, a: seq<string>, b: seq<string>)
    requires |a| > 0 && |b| > 0
    ensures Join(sep, a + b) == Join(sep, a) + sep + Join(sep, b)
  {
    if |a| == 1 {
      assert (a + b)[1..] == b;
    } else {
      assert (a + b)[1..] == a[1..] + b;
      JoinAppend(sep, a[1..], b);
    }
  }

  /** `pat` appears in `haystack` starting at position `i`. */
  predicate OccursAt(pat: string, haystack: string, i: int) {
    0 <= i <= |haystack| - |pat| && haystack[i..i + |pat|] == pat
  }

  /** `pat` appears somewhere in `haystack`: what `str::contains` tests. */
  ghost predicate Occurs(pat: string, haystack: string) {
    exists i :: OccursAt(pat, haystack, i)
  }

  lemma OccursStep(s: string, pat: string)
    requires |pat| <= |s|
    ensures Occurs(pat, s) <==> s[..|pat|] == pat || Occurs(pat, s[1..])
  {
    if Occurs(pat, s) && s[..|pat|] != pat {
      var i :| OccursAt(pat, s, i);
      assert OccursAt(pat, s[1..], i - 1);
    }
    if |s| > 0 && Occurs(pat, s[1..]) {
      var i :| OccursAt(pat, s[1..], i);
      assert OccursAt(pat, s, i + 1);
    }
    if s[..|pat|] == pat {
      assert OccursAt(pat, s, 0);
    }
  }

  /** `str::contains` with a string pattern. */
  function Contains(s: string, pat: string): (r: bool)
    ensures r <==> Occurs(pat, s)
    decreases |s|
  {
    if |s| < |pat| then false
    else
      OccursStep(s, pat);
      s[..|pat|] == pat || (|s| > 0 && Contains(s[1..], pat))
  }

  /** Every character of an occurring pattern is a character of the haystack. */
  lemma OccursKeepsChars(pat: string, s: string, c: char)
    requires Occurs(pat, s) && c in pat
    ensures c in s
  {
    var i :| OccursAt(pat, s, i);
    var k :| 0 <= k < |pat| && pat[k] == c;
    assert s[i + k] == c;
  }

  /** `split('.').next()`: everything before the first dot, or the whole string. */
  function FirstLabel(host: string): (r: string)
    ensures r <= host && '.' !in r
    ensures |r| < |host| ==> host[|r|] == '.'
  {
    if host == [] || host[0] == '.' then [] else [host[0]] + FirstLabel(host[1..])
  }

  /** A dot-free prefix followed by a dot is exactly the first label. */
  lemma FirstLabelOfDotted(a: string, b: string)
    requires '.' !in a
    ensures FirstLabel(a + "." + b) == a
  {
    var h := a + "." + b;
    var r := FirstLabel(h);
    assert h[|a|] == '.';
    assert |r| == |a|;
    assert r == h[..|a|] == a;
  }

  /** With no dot in the host, the first label is the whole host. */
  lemma FirstLabelUndotted(host: string)
    requires '.' !in host
    ensures FirstLabel(host) == host
  {
    var r := FirstLabel(host);
    if |r| < |host| {
      assert false;
    }
  }

  /** `.map(|s| s.trim())`: every part trimmed, positions kept. */
  function TrimAll(parts: seq<string>): (r: seq<string>)
    ensures |r| == |parts|
    ensures forall k :: 0 <= k < |r| ==> r[k] == Trim(parts[k])
  {
    if parts == [] then [] else [Trim(parts[0])] + TrimAll(parts[1..])
  }

  /** `.filter(|s| !s.is_empty())`: the non-empty parts, in their original order. */
  function DropEmpty(parts: seq<string>): (r: seq<string>)
    ensures |r| <= |parts|
    ensures forall k :: 0 <= k < |r| ==> r[k] != []
    ensures forall t :: t in r <==> t in parts && t != []
  {
    if parts == [] then []
    else if parts[0] == [] then DropEmpty(parts[1..])
    else [parts[0]] + DropEmpty(parts[1..])
  }

  /**
   * The cleaning applied to ingredient and step segments: trim each one and
   * drop those that end up empty.
   */
  function CleanSegments(segments: seq<string>): (r: seq<string>)
    ensures |r| <= |segments|
    ensures forall k :: 0 <= k < |r| ==> r[k] != [] && IsTrimmed(r[k])
    ensures forall t :: t in r <==> t != [] && exists i :: 0 <= i < |segments| && Trim(segments[i]) == t
  {
    var trimmed := TrimAll(segments);
    var r := DropEmpty(trimmed);
    assert forall k :: 0 <= k < |r| ==> r[k] in trimmed;
    r
  }

  lemma {:induction false} DropEmptyAppend(a: seq<string>, b: seq<string>)
    ensures DropEmpty(a + b) == DropEmpty(a) + DropEmpty(b)
  {
    if a == [] {
      assert a + b == b;
    } else {
      assert (a + b)[0] == a[0];
      assert (a + b)[1..] == a[1..] + b;
      DropEmptyAppend(a[1..], b);
    }
  }

  lemma {:induction false} TrimAllAppend(a: seq<string>, b: seq<string>)
    ensures TrimAll(a + b) == TrimAll(a) + TrimAll(b)
  {
    if a == [] {
      assert a + b == b;
    } else {
      assert (a + b)[1..] == a[1..] + b;
      TrimAllAppend(a[1..], b);
    }
  }

  /**
   * Cleaning works segment by segment and keeps document order: the
   * cleaning of two runs of segments is the two cleanings one after the other.
   */
  lemma CleanSegmentsAppend(a: seq<string>, b: seq<string>)
    ensures CleanSegments(a + b) == CleanSegments(a) + CleanSegments(b)
  {
    TrimAllAppend(a, b);
    DropEmptyAppend(TrimAll(a), TrimAll(b));
  }

  /** A single segment contributes its trimmed form, or nothing when that is empty. */
  lemma CleanSegmentsSingle(seg: string)
    ensures CleanSegments([seg]) == if AllWhitespace(seg) then [] else [Trim(seg)]
  {
    TrimEmptyIff(seg);
  }

  /** When no segment is blank, nothing is dropped: the result is each segment trimmed. */
  lemma {:induction false} CleanSegmentsNoBlank(segments: seq<string>)
    requires forall k :: 0 <= k < |segments| ==> !AllWhitespace(segments[k])
    ensures CleanSegments(segments) == TrimAll(segments)
  {
    if segments != [] {
      assert segments == [segments[0]] + segments[1..];
      CleanSegmentsAppend([segments[0]], segments[1..]);
      CleanSegmentsSingle(segments[0]);
      CleanSegmentsNoBlank(segments[1..]);
      TrimAllAppend([segments[0]], segments[1..]);
    }
  }

  /** Cleaning already-cleaned segments changes nothing. */
  lemma {:induction false} CleanSegmentsIdempotent(segments: seq<string>)
    ensures CleanSegments(CleanSegments(segments)) == CleanSegments(segments)
  {
    var r := CleanSegments(segments);
    forall k | 0 <= k < |r| ensures !AllWhitespace(r[k]) && Trim(r[k]) == r[k] {
      TrimTrimmed(r[k]);
      TrimEmptyIff(r[k]);
    }
    CleanSegmentsNoBlank(r);
    assert TrimAll(r) == r;
  }
}
