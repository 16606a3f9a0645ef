/**
 * The Python string operations the assistant relies on, over `string` (a sequence of
 * Unicode scalar values): substring search, `in`, `startswith`/`endswith`, `strip`,
 * `split(sep)`, `split()` on whitespace, `join`, `replace(pat, "")` and ASCII `lower`.
 */
module Text {
  import opened Wrappers

  /** The characters for which Python's `str.isspace()` holds; `str.split()` and
      `str.strip()` without arguments separate and trim on exactly these. */
  predicate IsSpace(c: char) {
    || ('\t' <= c <= '\r')
    || ('\U{1c}' <= c <= ' ')
    || c == '\U{85}' || c == '\U{a0}' || c == '\U{1680}'
    || ('\U{2000}' <= c <= '\U{200a}')
    || c == '\U{2028}' || c == '\U{2029}' || c == '\U{202f}' || c == '\U{205f}' || c == '\U{3000}'
  }

  predicate NotSpace(c: char) {
    !IsSpace(c)
  }

  /** Python's `lower()` restricted to ASCII letters. */
  function LowerChar(c: char): char {
    if 'A' <= c <= 'Z' then (c as int + 32) as char else c
  }

  function Lower(s: string): (r: string)
    ensures |r| == |s|
    ensures forall i :: 0 <= i < |s| ==> r[i] == LowerChar(s[i])
  {
    seq(|s|, i requires 0 <= i < |s| => LowerChar(s[i]))
  }

  // ---------------------------------------------------------------------------
  // Substring search
  // ---------------------------------------------------------------------------

  /** `pat` occurs in `s` starting at index `i`. */
  ghost predicate OccursAt(s: string, pat: string, i: int) {
    0 <= i && i + |pat| <= |s| && s[i..i + |pat|] == pat
  }

  ghost predicate Occurs(s: string, pat: string) {
    exists i :: OccursAt(s, pat, i)
  }

  lemma OccursShift(s: string, pat: string, j: int)
    requires |s| > 0 && 1 <= j
    ensures OccursAt(s, pat, j) <==> OccursAt(s[1..], pat, j - 1)
  {
    if j + |pat| <= |s| {
      assert s[1..][j - 1..j - 1 + |pat|] == s[j..j + |pat|];
    }
  }

  lemma OccursInPrefix(s: string, pat: string, n: nat, j: int)
    requires n <= |s|
    ensures OccursAt(s[..n], pat, j) ==> OccursAt(s, pat, j)
  {
    if OccursAt(s[..n], pat, j) {
      assert s[..n][j..j + |pat|] == s[j..j + |pat|];
    }
  }

  /** Index of the first occurrence of `pat` in `s` (Python `s.find(pat)`, with -1 as `None`). */
  function FindFirst(s: string, pat: string): (r: Option<nat>)
    ensures r.Some? ==> OccursAt(s, pat, r.value)
    ensures r.Some? ==> forall j :: 0 <= j < r.value ==> !OccursAt(s, pat, j)
    ensures r.None? ==> forall j :: !OccursAt(s, pat, j)
    decreases |s|
  {
    if |s| < |pat| then None
    else if s[..|pat|] == pat then Some(0)
    else
      var rest := FindFirst(s[1..], pat);
      assert forall j :: 1 <= j ==> (OccursAt(s, pat, j) <==> OccursAt(s[1..], pat, j - 1)) by {
        forall j | 1 <= j { OccursShift(s, pat, j); }
      }
      match rest
      case None => None
      case Some(k) => Some(k + 1)
  }

  /** Python `pat in s`. */
  predicate Contains(s: string, pat: string)
    ensures Contains(s, pat) <==> Occurs(s, pat)
  {
    FindFirst(s, pat).Some?
  }

  predicate StartsWith(s: string, p: string) {
    |p| <= |s| && s[..|p|] == p
  }

  predicate EndsWith(s: string, p: string) {
    |p| <= |s| && s[|s| - |p|..] == p
  }

  lemma EndsWithContains(s: string, p: string)
    requires EndsWith(s, p)
    ensures Contains(s, p)
  {
    assert OccursAt(s, p, |s| - |p|);
  }

  // ---------------------------------------------------------------------------
  // strip
  // ---------------------------------------------------------------------------

  /** Length of the longest prefix of `s` made of characters `drop` accepts. */
  function LeadingCount(s: string, drop: char -> bool): (n: nat)
    ensures n <= |s|
    ensures forall k :: 0 <= k < n ==> drop(s[k])
    ensures n < |s| ==> !drop(s[n])
  {
    if |s| > 0 && drop(s[0]) then 1 + LeadingCount(s[1..], drop) else 0
  }

  /** Start of the longest suffix of `s` made of characters `drop` accepts. */
  function TrailingStart(s: string, drop: char -> bool): (n: nat)
    ensures n <= |s|
    ensures forall k :: n <= k < |s| ==> drop(s[k])
    ensures 0 < n ==> !drop(s[n - 1])
  {
    if |s| > 0 && drop(s[|s| - 1]) then TrailingStart(s[..|s| - 1], drop) else |s|
  }

  /** `r` is `s` with a maximal run of `drop` characters removed from each end. */
  ghost predicate IsStripOf(r: string, s: string, drop: char -> bool) {
    exists a, b ::
      && 0 <= a <= b <= |s|
      && r == s[a..b]
      && (forall k :: 0 <= k < a ==> drop(s[k]))
      && (forall k :: b <= k < |s| ==> drop(s[k]))
      && (a < b ==> !drop(s[a]) && !drop(s[b - 1]))
  }

  /** Python `s.strip(chars)`, with `drop` the membership test of `chars`. */
  function StripBy(s: string, drop: char -> bool): (r: string)
    ensures IsStripOf(r, s, drop)
    ensures |r| <= |s|
    ensures |r| > 0 ==> !drop(r[0]) && !drop(r[|r| - 1])
  {
    var a := LeadingCount(s, drop);
    if a == |s| then
      assert s[a..a] == "";
      ""
    else
      var b := TrailingStart(s, drop);
      assert a < b;
      s[a..b]
  }

  /** Python `s.strip()`. */
  function Strip(s: string): (r: string)
    ensures IsStripOf(r, s, IsSpace)
    ensures |r| > 0 ==> !IsSpace(r[0]) && !IsSpace(r[|r| - 1])
  {
    StripBy(s, IsSpace)
  }

  /** Neither end of `s` is whitespace: `s.strip()` leaves it as it is. */
  predicate Trimmed(s: string) {
    |s| == 0 || (!IsSpace(s[0]) && !IsSpace(s[|s| - 1]))
  }

  lemma StripTrimmed(s: string)
    requires Trimmed(s)
    ensures Strip(s) == s
  {
    if |s| > 0 {
      assert LeadingCount(s, IsSpace) == 0;
      assert TrailingStart(s, IsSpace) == |s|;
      assert s[0..|s|] == s;
    }
  }

  /** One leading whitespace character in front of trimmed text is all `strip()` removes. */
  lemma StripLeadingSpace(c: char, s: string)
    requires IsSpace(c) && Trimmed(s)
    ensures Strip([c] + s) == s
  {
    var t := [c] + s;
    assert t[1..] == s;
    if |s| > 0 {
      assert LeadingCount(s, IsSpace) == 0;
      assert LeadingCount(t, IsSpace) == 1;
      assert TrailingStart(t, IsSpace) == |t|;
      assert t[1..|t|] == s;
    } else {
      assert LeadingCount(t, IsSpace) == 1;
    }
  }

  /** Trimmed text with one whitespace character on each side strips back to itself. */
  lemma StripSurroundingSpace(c: char, s: string, d: char)
    requires IsSpace(c) && IsSpace(d) && Trimmed(s)
    ensures Strip([c] + s + [d]) == s
  {
    var t := [c] + s + [d];
    assert t[1..] == s + [d];
    assert t[..|t| - 1] == [c] + s;
    if |s| > 0 {
      assert (s + [d])[0] == s[0];
      assert LeadingCount(s + [d], IsSpace) == 0;
      assert LeadingCount(t, IsSpace) == 1;
      assert ([c] + s)[|s|] == s[|s| - 1];
      assert TrailingStart([c] + s, IsSpace) == |s| + 1;
      assert TrailingStart(t, IsSpace) == |s| + 1;
      assert t[1..|s| + 1] == s;
    } else {
      assert t == [c, d];
      assert LeadingCount([d], IsSpace) == 1;
      assert LeadingCount(t, IsSpace) == 2;
    }
  }

  /** `strip()` only removes characters: one absent from `s` is absent from the result. */
  lemma StripKeepsOut(s: string, c: char)
    requires c !in s
    ensures c !in Strip(s)
  {
    var r := Strip(s);
    var a, b :| 0 <= a <= b <= |s| && r == s[a..b];
    forall k | 0 <= k < |r| ensures r[k] != c {
      assert r[k] == s[a + k];
    }
  }

  // ---------------------------------------------------------------------------
  // split / join
  // ---------------------------------------------------------------------------

  /** Python `s.split(sep)` for a non-empty separator (Python rejects an empty one). */
  function Split(s: string, sep: string): (parts: seq<string>)
    requires |sep| > 0
    ensures |parts| >= 1
    ensures forall k :: 0 <= k < |parts| ==> !Occurs(parts[k], sep)
    ensures |parts| == 1 <==> !Occurs(s, sep)
    decreases |s|
  {
    match FindFirst(s, sep)
    case None => [s]
    case Some(i) =>
      assert !Occurs(s[..i], sep) by {
        forall j ensures !OccursAt(s[..i], sep, j) {
          OccursInPrefix(s, sep, i, j);
        }
      }
      [s[..i]] + Split(s[i + |sep|..], sep)
  }

  /** Python `sep.join(parts)`. */
  function Join(parts: seq<string>, sep: string): string {
    if |parts| == 0 then ""
    else if |parts| == 1 then parts[0]
    else parts[0] + sep + Join(parts[1..], sep)
  }

  lemma JoinCons(a: string, parts: seq<string>, sep: string)
    requires |parts| >= 1
    ensures Join([a] + parts, sep) == a + sep + Join(parts, sep)
  {
    assert ([a] + parts)[1..] == parts;
  }

  /** Splitting and re-joining with the same separator gives the original text back. */
  lemma {:induction false} JoinSplit(s: string, sep: string)
    requires |sep| > 0
    ensures Join(Split(s, sep), sep) == s
    decreases |s|
  {
    var f := FindFirst(s, sep);
    if f.None? {
      assert Split(s, sep) == [s];
    } else {
      var i := f.value;
      var rest := s[i + |sep|..];
      assert s == s[..i] + sep + rest by {
        assert s[i..i + |sep|] == sep;
      }
      assert Split(s, sep) == [s[..i]] + Split(rest, sep);
      JoinSplit(rest, sep);
      JoinCons(s[..i], Split(rest, sep), sep);
    }
  }

  /** A one-character pattern occurs exactly when that character is in the text. */
  lemma CharOccurs(s: string, c: char)
    ensures Occurs(s, [c]) <==> c in s
  {
    if c in s {
      var i :| 0 <= i < |s| && s[i] == c;
      assert OccursAt(s, [c], i);
    }
    if Occurs(s, [c]) {
      var i :| OccursAt(s, [c], i);
      assert s[i] == s[i..i + 1][0];
    }
  }

  /** An occurrence in `x + [c] + y` of a pattern without `c` lies wholly in `x` or wholly in `y`. */
  lemma OccursAround(x: string, c: char, y: string, pat: string, i: int)
    requires c !in pat
    requires OccursAt(x + [c] + y, pat, i)
    ensures (i + |pat| <= |x| && OccursAt(x, pat, i)) || (i > |x| && OccursAt(y, pat, i - |x| - 1))
  {
    var s := x + [c] + y;
    assert forall k :: 0 <= k < |pat| ==> pat[k] == s[i + k];
    assert s[|x|] == c;
    if i + |pat| <= |x| {
      assert s[i..i + |pat|] == x[i..i + |pat|];
    } else if i > |x| {
      assert s[i..i + |pat|] == y[i - |x| - 1..i - |x| - 1 + |pat|];
    } else {
      assert false;
    }
  }

  lemma NoOccurrenceAround(x: string, c: char, y: string, pat: string)
    requires c !in pat && !Occurs(x, pat) && !Occurs(y, pat)
    ensures !Occurs(x + [c] + y, pat)
  {
    forall i | OccursAt(x + [c] + y, pat, i) ensures false {
      OccursAround(x, c, y, pat, i);
    }
  }

  lemma NoOccurrenceAfterChar(c: char, y: string, pat: string)
    requires c !in pat && |pat| > 0 && !Occurs(y, pat)
    ensures !Occurs([c] + y, pat)
  {
    assert !Occurs("", pat);
    NoOccurrenceAround("", c, y, pat);
    assert [c] + y == "" + [c] + y;
  }

  /** In `x + [c] + pat + y`, the first `pat` is the one written after `c`, if `x` has none. */
  lemma FirstOccurrenceAfter(x: string, c: char, pat: string, y: string)
    requires |pat| > 0 && c !in pat && !Occurs(x, pat)
    ensures FindFirst(x + [c] + pat + y, pat) == Some(|x| + 1)
  {
    var s := x + [c] + pat + y;
    assert s == x + [c] + (pat + y);
    assert OccursAt(s, pat, |x| + 1) by {
      assert s[|x| + 1..|x| + 1 + |pat|] == pat;
    }
    forall j | 0 <= j < |x| + 1 ensures !OccursAt(s, pat, j) {
      if OccursAt(s, pat, j) {
        OccursAround(x, c, pat + y, pat, j);
      }
    }
  }

  /** Joining lines with a character none of them holds and splitting on it gives the lines back. */
  lemma {:induction false} SplitJoinChar(parts: seq<string>, c: char)
    requires |parts| >= 1
    requires forall k :: 0 <= k < |parts| ==> c !in parts[k]
    ensures Split(Join(parts, [c]), [c]) == parts
    decreases |parts|
  {
    var s := Join(parts, [c]);
    if |parts| == 1 {
      CharOccurs(parts[0], c);
      assert FindFirst(s, [c]).None?;
    } else {
      var p0 := parts[0];
      var rest := Join(parts[1..], [c]);
      assert s == p0 + [c] + rest;
      assert OccursAt(s, [c], |p0|) by {
        assert s[|p0|..|p0| + 1] == [c];
      }
      assert forall j :: 0 <= j < |p0| ==> !OccursAt(s, [c], j) by {
        forall j | 0 <= j < |p0| ensures !OccursAt(s, [c], j) {
          assert s[j] == p0[j];
        }
      }
      assert FindFirst(s, [c]) == Some(|p0|);
      assert s[..|p0|] == p0;
      assert s[|p0| + 1..] == rest;
      SplitJoinChar(parts[1..], c);
    }
  }

  /** Python `s.split(sep)[0]`: the text before the first `sep`, or all of `s`. */
  function BeforeFirst(s: string, sep: string): (r: string)
    requires |sep| > 0
    ensures r == Split(s, sep)[0]
    ensures !Occurs(r, sep)
  {
    match FindFirst(s, sep)
    case None => s
    case Some(i) => s[..i]
  }

  /** Text that lacks `pat`, then `c`, then `pat`: everything before the first `pat` is the
      text and `c`. */
  lemma BeforeFirstAfterChar(x: string, c: char, pat: string, y: string)
    requires |pat| > 0 && c !in pat && !Occurs(x, pat)
    ensures BeforeFirst(x + [c] + pat + y, pat) == x + [c]
  {
    FirstOccurrenceAfter(x, c, pat, y);
    assert (x + [c] + pat + y)[..|x| + 1] == x + [c];
  }

  /** Python `s.split(sep)[1]` when `sep` occurs: the text between its first and second occurrence. */
  function Second(s: string, sep: string): (r: string)
    requires |sep| > 0 && Occurs(s, sep)
    ensures r == Split(s, sep)[1]
  {
    var i := FindFirst(s, sep).value;
    BeforeFirst(s[i + |sep|..], sep)
  }

  /** After a leading separator, the second split piece is everything else when that holds
      no further separator. */
  lemma SecondAfterLeadingSep(sep: string, tail: string)
    requires |sep| > 0 && !Occurs(tail, sep)
    ensures Occurs(sep + tail, sep)
    ensures Second(sep + tail, sep) == tail
  {
    var full := sep + tail;
    assert full[..|sep|] == sep;
    assert OccursAt(full, sep, 0);
    assert FindFirst(full, sep) == Some(0);
    assert full[|sep|..] == tail;
  }

  /** A word of no space characters. */
  predicate IsWord(w: string) {
    |w| > 0 && forall i :: 0 <= i < |w| ==> !IsSpace(w[i])
  }

  /** Python `s.split()`: the maximal runs of non-space characters, in order. */
  function Words(s: string): (ws: seq<string>)
    ensures forall k :: 0 <= k < |ws| ==> IsWord(ws[k])
    decreases |s|
  {
    var a := LeadingCount(s, IsSpace);
    if a == |s| then []
    else
      var rest := s[a..];
      var w := LeadingCount(rest, NotSpace);
      LeadingRunIsWord(rest, w);
      [rest[..w]] + Words(rest[w..])
  }

  /** A non-empty run of leading non-space characters is a word. */
  lemma LeadingRunIsWord(rest: string, w: nat)
    requires 0 < |rest| && NotSpace(rest[0])
    requires w <= |rest| && w == LeadingCount(rest, NotSpace)
    ensures IsWord(rest[..w])
  {
    forall i | 0 <= i < w ensures !IsSpace(rest[..w][i]) {
      assert NotSpace(rest[i]);
    }
  }


  lemma {:induction false} LeadingCountPrefix(p: string, t: string, drop: char -> bool)
    requires forall i :: 0 <= i < |p| ==> drop(p[i])
    requires t == [] || !drop(t[0])
    ensures LeadingCount(p + t, drop) == |p|
  {
    if p != [] {
      assert (p + t)[1..] == p[1..] + t;
      LeadingCountPrefix(p[1..], t, drop);
    }
  }

  lemma WordsCons(p: string, t: string)
    requires IsWord(p)
    requires t == [] || IsSpace(t[0])
    ensures Words(p + t) == [p] + Words(t)
  {
    var s := p + t;
    assert !IsSpace(s[0]);
    assert LeadingCount(s, IsSpace) == 0;
    LeadingCountPrefix(p, t, NotSpace);
    assert s[|p|..] == t;
    assert s[..|p|] == p;
  }

  lemma WordsSpace(c: char, t: string)
    requires IsSpace(c)
    ensures Words([c] + t) == Words(t)
  {
    var s := [c] + t;
    assert s[1..] == t;
    assert LeadingCount(s, IsSpace) == 1 + LeadingCount(t, IsSpace);
    assert s[LeadingCount(s, IsSpace)..] == t[LeadingCount(t, IsSpace)..];
  }

  /** Python `" ".join(parts).split() == parts` for words. */
  lemma {:induction false} WordsJoin(parts: seq<string>)
    requires forall k :: 0 <= k < |parts| ==> IsWord(parts[k])
    ensures Words(Join(parts, " ")) == parts
  {
    if |parts| == 1 {
      WordsCons(parts[0], []);
      assert parts[0] + [] == parts[0];
    } else if |parts| > 1 {
      var j := Join(parts[1..], " ");
      WordsJoin(parts[1..]);
      assert Join(parts, " ") == parts[0] + ([' '] + j);
      WordsCons(parts[0], [' '] + j);
      WordsSpace(' ', j);
      assert parts == [parts[0]] + parts[1..];
    }
  }

  /** A pattern holding a character the text lacks does not occur in it. */
  lemma MissingCharNoOccurrence(s: string, pat: string, i: nat)
    requires i < |pat| && pat[i] !in s
    ensures !Occurs(s, pat)
  {
    forall j ensures !OccursAt(s, pat, j) {
      if 0 <= j && j + |pat| <= |s| {
        assert s[j..j + |pat|][i] == s[j + i];
      }
    }
  }

  // ---------------------------------------------------------------------------
  // replace(pat, "")
  // ---------------------------------------------------------------------------

  /** Python `s.replace(pat, "")`: non-overlapping occurrences removed left to right. */
  function RemoveAll(s: string, pat: string): (r: string)
    requires |pat| > 0
    ensures |r| <= |s|
    ensures !Occurs(s, pat) ==> r == s
    decreases |s|
  {
    if |s| == 0 then ""
    else if StartsWith(s, pat) then
      assert OccursAt(s, pat, 0);
      RemoveAll(s[|pat|..], pat)
    else
      assert !Occurs(s, pat) ==> !Occurs(s[1..], pat) by {
        forall j | 0 <= j ensures OccursAt(s[1..], pat, j) ==> OccursAt(s, pat, j + 1) {
          OccursShift(s, pat, j + 1);
        }
      }
      [s[0]] + RemoveAll(s[1..], pat)
  }

  // ---------------------------------------------------------------------------
  // str(n)
  // ---------------------------------------------------------------------------

  function DigitChar(d: nat): (c: char)
    requires d < 10
    ensures '0' <= c <= '9'
  {
    ('0' as int + d) as char
  }

  /** Python `str(n)` for a natural number. */
  function Decimal(n: nat): (r: string)
    ensures |r| >= 1
    ensures forall k :: 0 <= k < |r| ==> '0' <= r[k] <= '9'
    ensures n < 10 <==> |r| == 1
  {
    if n < 10 then [DigitChar(n)] else Decimal(n / 10) + [DigitChar(n % 10)]
  }

  /** The number a string of decimal digits denotes. */
  function DecimalValue(s: string): nat
    requires forall k :: 0 <= k < |s| ==> '0' <= s[k] <= '9'
  {
    if s == [] then 0 else DecimalValue(s[..|s| - 1]) * 10 + (s[|s| - 1] as int - '0' as int)
  }

  /** Reading back the digits of `Decimal(n)` gives `n`. */
  lemma {:induction false} DecimalRoundTrip(n: nat)
    ensures DecimalValue(Decimal(n)) == n
  {
    if n >= 10 {
      var d := Decimal(n);
      DecimalRoundTrip(n / 10);
      assert d[..|d| - 1] == Decimal(n / 10);
    }
  }

  /** Python `str(i)` for any integer: a minus sign before the digits of a negative one. */
  function IntText(i: int): string {
    if i < 0 then "-" + Decimal(-i) else Decimal(i)
  }
}
